# gasegment in Dafny

A model of the core of `gasegment`, a Go library for Google Analytics
segment definitions. The definitions are the Core Reporting API v3 text form,
such as `sessions::condition::ga:medium==referral`. The model covers four
parts:

- **The parser** (`parser.go`). It has an escape-aware splitter that cuts the
  text at the group of four fixed separator patterns. The splitter feeds the
  nested parse of segments, conditions, sequences, and-expressions,
  or-expressions and expressions, including the operator alternation and the
  metric-scope cut.
- **The printer** (`segment.go`). It covers the `String` methods of its own
  syntax tree and the escaping of values. A separate file reads printed text
  back through the parser.
- **Validation.** This covers the rune limits of `validation.go` and the
  column lookup of `validation_dimension_and_metric.go`, including the
  `XX` template rule with its leading-zero and index-range checks.
- **The `supportv4` package:**
  - `ParseStringWithEscape`;
  - the operator, scope and match-type tables, with the filter-type cache;
  - the forward transform to the Reporting API v4 `DynamicSegment`;
  - the reverse stringifier back to v3 text.

The Go code takes these forms in Dafny:

- Loops that append or fill a slice by index are methods. Each method is
  proved equal to a recursive specification function (`Parse`,
  `splitByFirstRegexpGroup`, the printers' buffers, `ParseStringWithEscape`,
  the transform and stringify loops).
- The properties are lemmas about those functions.
- The package-level `filterTypeMap` is the `map` field of the class
  `Detect.FilterTypeCache`. The transform methods take the cache and modify
  it. They are proved to agree with cold-cache specification functions: the
  same success or failure, and the same value on success. Each also states
  the map it leaves: the old map with every identifier the walk looked up
  (`Transform.Learned`) stored under the type the lookup gives for it.

Modules:

| module | contents |
|---|---|
| `Wrappers` | Option and Result |
| `Strs` | `strings.Join` and `HasPrefix` |
| `Ast` | the parser-shape tree and its tokens |
| `Split` | the splitter |
| `Parser` | the parser |
| `ParserFacts` | properties of the parser |
| `SegmentPrinter` | the printer and its tree |
| `PrinterFacts` | properties of the printer |
| `PrintedText` | printer output read back by the parser |
| `Validation` | `validation.go` |
| `Columns` | `validation_dimension_and_metric.go` |
| `ColumnFacts` | properties of the column lookup |
| `ParseEscape` | `supportv4/parse_escape.go` |
| `Detect` | `supportv4/detect.go` |
| `Reporting` | the v4 API records |
| `Transform` | `supportv4/transform.go` |
| `TransformFacts` | properties of the transform |
| `V3Stringify` | `supportv4/v3stringify.go` |
| `V3StringifyFacts` | properties of the stringifier |
| `RoundTrip` | the transform followed by the stringifier |

Where the files disagree, the model follows the code:

- **Regexp token.** The `Regexp` token is `=!` (segment.go:31). The
  stringifier writes `=~` for it (supportv4/v3stringify.go:127), so a
  dimension regexp does not come back as the token it was parsed from.
- **Scope tokens.** The printer's scope tokens are `user::` and `session::`
  (segment.go:42-43). The parser only strips `users::` and `sessions::`.
- **Step tokens.** The printer's step tokens contain an en dash
  (segment.go:78-79). The parser stores the ASCII separators `;->` and
  `;->>`. `detect.go` compares steps with its `Precedes` and
  `ImmediatelyPrecedes` constants, which are taken to be those ASCII
  separators.
- **Condition keyword.** The stringifier writes `conditions::`
  (supportv4/v3stringify.go:61), not the `condition::` that the parser
  reads. It rejects every sequence segment.

Because of these differences, the end-to-end reversibility tests of
`supportv4/v3stringify_test.go` are not stated. What is proved instead is
what the composition does clause by clause (`RoundTrip`).

## Model

| member | source | states |
|---|---|---|
| Ast.Token | segment.go:20-33 | every operator that has a text has a one- or two-character token |
| Split.EscapeUnitAt | parser.go:18-21 | the unit `(?:\\.\|[^\\])` is one non-backslash character or a backslash pair, and never runs past the text |
| Split.KeywordEnd | parser.go:18 | a `condition::`/`sequence::` keyword match ends after its start and inside the text |
| Split.SegmentTailEnd | parser.go:18 | the optional scope plus keyword tail of the segment pattern ends after its start and inside the text |
| Split.MatchAt | parser.go:18-21 | a match found at p starts at p, and its group lies inside the match and the text |
| Split.MatchAtCaptures | parser.go:18-21 | the captured group is a separator text of the pattern, preceded by one non-backslash character or by a backslash pair |
| Split.FindAll | parser.go:226 | FindAllStringSubmatchIndex reports non-overlapping matches in increasing order |
| Split.FindAllMatches | parser.go:226 | every reported match is the match that starts at its own position |
| Split.Pieces | parser.go:230-241 | n matches cut the text into 2n+1 pieces |
| Split.PiecesOfFindAll | parser.go:226-242 | cutting at the reported matches equals the scanning definition of the split |
| Split.PiecesAt | parser.go:237-241 | the k-th chunk runs from the previous group's end to the k-th group's start, and the k-th separator is the text of the k-th group |
| Split.SplitByFirstRegexpGroup | parser.go:225-243 | the method returns the split: the whole text when nothing matches, and otherwise the chunks and captured groups |
| Split.CutAtGroups | parser.go:230-242 | the by-index fill of `ret` with the moving `last` cursor produces the pieces of the matches |
| Split.PiecesConcat | parser.go:237-241 | the pieces concatenate back to the text they were cut from |
| Split.SplitShape | parser.go:225-243 | the split has 2n+1 pieces for n matches and concatenates back to the input, and every odd-indexed piece is a separator text |
| Split.FindAllEmpty | parser.go:226-229 | nothing is found exactly when no position starts a match |
| Split.SplitUnsplit | parser.go:227-229 | the split is `[s]` exactly when no position of s starts a match |
| Split.SplitPointsNotEscaped | parser.go:18-21 | no cut is at index 0, and a cut right after a backslash follows a second backslash, so a separator behind a single escaping backslash is never cut at |
| Split.SequenceSplitExample | segment_test.go:68 | `a;->b;->>c` splits to `a`, `;->`, `b`, `;->>`, `c`: `;->>` is preferred over `;->` |
| Split.EscapedSemicolonExample | parser.go:20 | an escaped `;` is not cut |
| Split.DoubleSemicolonExample | parser.go:20 | in `a;;b` only the first `;` is cut, since the second one's unit is the first `;` |
| Split.OddBackslashRunExample | parser.go:20 | in `a\\\;b` (three backslashes) the `;` is cut although an odd run of backslashes escapes it, because the match starts inside the run |
| Parser.OperatorAt | parser.go:23-41 | the alternation at one position yields an operator whose token lies inside the text |
| Parser.FirstOperator | parser.go:213-217 | the first operator match has a token that lies inside the text, at or after the search start |
| Parser.ExpressionOf | parser.go:201-223 | an error is always the invalid-expression error naming the whole definition; a parsed expression has an operator with a token and the metric scope the cut reports |
| Parser.MapEven | parser.go:176-184 | on success one result per even-indexed piece from i |
| Parser.OrOf | parser.go:187-199 | on success one expression per piece between unescaped commas |
| Parser.AndOf | parser.go:173-185 | on success one or-expression per piece between unescaped semicolons |
| Parser.ConditionOf | parser.go:155-171 | on success Exclude is set exactly when the definition starts with `!` |
| Parser.SequenceOf | parser.go:113-153 | on success Not is set exactly when the definition starts with `!`, and there is at least one step, the first typed FirstStep |
| Parser.SegmentsFrom | parser.go:56-70 | on success one segment per chunk from i, every one with a scope |
| Parser.ParseExpression | parser.go:201-223 | the method equals the expression specification, whose meaning is proved in ParserFacts |
| Parser.CutMetricScope | parser.go:204-211 | the loop with its `break` equals the metric-scope cut |
| Parser.ParseOrExpression | parser.go:187-199 | the append loop equals the or-expression specification |
| Parser.ParseAndExpression | parser.go:173-185 | the append loop equals the and-expression specification |
| Parser.ParseCondition | parser.go:155-171 | the method equals the condition specification |
| Parser.ParseSequence | parser.go:113-153 | the method equals the sequence specification |
| Parser.ParseLaterSteps | parser.go:140-150 | the step loop over (separator, text) pairs equals the later-steps specification |
| Parser.ParseSegment | parser.go:74-111 | the method equals the segment specification |
| Parser.Parse | parser.go:52-72 | the loop that threads `lastScope` equals the segments specification |
| ParserFacts.MapEvenSuccess | parser.go:176-184 | the loop over even pieces succeeds exactly when every piece parses, with one result per piece in order |
| ParserFacts.MapEvenFirstFailure | parser.go:177-180 | a failing loop returns the error of the first failing piece, and every earlier piece succeeded |
| ParserFacts.AlternationComplete | parser.go:23-36 | every operator that has a token is in the alternation |
| ParserFacts.OperatorFirstChar | segment.go:21-32 | every operator token begins with one of `=`, `!`, `<`, `>`, `[` |
| ParserFacts.OperatorAtFirst | parser.go:41 | at one position the alternation yields the first operator in list order whose token starts there, and nothing when none does |
| ParserFacts.NoOperatorAt | parser.go:41 | the alternation finds nothing at p exactly when no operator token starts at p |
| ParserFacts.FirstOperatorLeftmost | parser.go:213-217 | the first match is at the leftmost position where the alternation finds an operator |
| ParserFacts.MetricScopeCut | parser.go:204-211 | the cut removes exactly the token of the scope it reports, and reports Default only when no scope token is a prefix |
| ParserFacts.ExpressionFailure | parser.go:213-216 | parseExpression fails exactly when no operator starts after the scope cut, with an invalid-expression error naming the whole definition |
| ParserFacts.ExpressionSplitsAtOperator | parser.go:217-222 | a parsed expression is target, operator token and unescaped value, cut from the text after the metric scope |
| ParserFacts.ExpressionTargetHasNoOperator | parser.go:213-219 | no operator token starts inside the target |
| ParserFacts.ExpressionOperatorFirstInList | parser.go:217-220 | the operator is the first in list order among those whose token starts at the cut |
| ParserFacts.AlternationNeverLong | parser.go:23-41 | the alternation never yields `<=`, `>=` or `<>`, because the shorter `<` and `>` come first in the list |
| ParserFacts.ShortOperatorsWin | parser.go:213-220 | parsed expressions never carry LessThanEqual, GreaterThanEqual or Between |
| ParserFacts.NotOperatorChar | parser.go:41 | a character that begins no token starts no operator |
| ParserFacts.LessThanEqualExample | parser.go:213-221 | `x<=5` is read as target `x`, operator `<`, value `=5` |
| ParserFacts.OrExpressionPieces | parser.go:187-199 | one expression per piece between unescaped commas, in order, failing exactly when one piece fails |
| ParserFacts.AndExpressionPieces | parser.go:173-185 | one or-expression per piece between unescaped semicolons, in order, failing exactly when one piece fails |
| ParserFacts.ConditionMeaning | parser.go:155-171 | a leading `!` sets Exclude and is removed before the and-expression is parsed; every error is an invalid expression |
| ParserFacts.StepsFromAll | parser.go:140-150 | one later step per (separator, text) pair, typed by its separator, failing exactly when one text fails |
| ParserFacts.SequenceFlags | parser.go:116-126 | `!` sets Not, then `^` sets FirstHitMatchesFirstStep, in that order, and both are removed |
| ParserFacts.SequenceSteps | parser.go:128-151 | the body cut at unescaped `;->>`/`;->` gives (pieces+1)/2 steps: the first typed FirstStep, each later one typed by its separator |
| ParserFacts.SequenceFailure | parser.go:132-146 | every error of parseSequence is an invalid expression |
| ParserFacts.SegmentScopeCut | parser.go:78-86 | `sessions::` is removed first and `users::` after it, so `users::` wins when both are present |
| ParserFacts.SegmentErrors | parser.go:88-108 | after the scope prefixes the text must start with `condition::` or `sequence::`, otherwise the error carries the rest of the text |
| ParserFacts.SegmentKinds | parser.go:74-111 | a parsed segment keeps its prefix's scope, and its type names the payload that was parsed |
| ParserFacts.SegmentsFromAll | parser.go:56-70 | the segment loop succeeds exactly when every chunk parses and the first one has a scope or inherits one; every result has a scope, explicit or taken from the segment before |
| ParserFacts.SegmentsFromMissingScope | parser.go:62-65 | a missing-scope failure happens only when no scope is known yet, and exactly when the first chunk parses without one |
| ParserFacts.ParseMeaning | parser.go:52-72 | one segment per chunk between segment boundaries, each with a scope (explicit or inherited); the parse fails when the first chunk has no scope or any chunk fails, with no partial result |
| SegmentPrinter.Texts | segment.go:204-210 | stringerJoin's buffer has one text per element, in order: entry k is element k's text |
| SegmentPrinter.EscapedValue | segment.go:159-161 | the escaped value is never shorter, and a value without `;` and `,` is returned unchanged |
| SegmentPrinter.ConditionText | segment.go:163-165 | Condition.String is metric scope, target, operator and escaped value, in that order |
| SegmentPrinter.OrConditionText | segment.go:144-150 | no conditions print as `""`, and one condition prints as itself |
| SegmentPrinter.AndConditionText | segment.go:129-138 | an excluded and-condition starts with `!`; one that is neither excluded nor has or-conditions prints as `""` |
| SegmentPrinter.SequenceStepText | segment.go:200-202 | a step is its type token followed by its and-condition |
| SegmentPrinter.SequenceStepsText | segment.go:192-198 | no steps print as `""`, and one step prints as itself |
| SegmentPrinter.SequenceText | segment.go:173-183 | `!` if Not, then `^` if FirstHitMatchesFirstStep, then the steps |
| SegmentPrinter.OrConditionString | segment.go:144-150 | the by-index fill and join equal the or-condition text, whose layout is proved in PrinterFacts |
| SegmentPrinter.AndConditionString | segment.go:129-138 | the appends and join equal the and-condition text |
| SegmentPrinter.SequenceStepsString | segment.go:192-198 | the by-index fill and concatenation equal the steps text |
| SegmentPrinter.StringWithoutScope | segment.go:113-122 | the result is empty exactly for a type other than condition or sequence, and otherwise starts with the type token |
| SegmentPrinter.SegmentConditionText | segment.go:109-111 | SegmentCondition.String is the scope followed by the text without scope; a segment of neither type prints as its scope alone |
| SegmentPrinter.WithoutScopeTexts | segment.go:113-122 | one text per element, in order: entry k is element k printed without its scope |
| SegmentPrinter.SegmentConditionsParts | segment.go:88-98 | one buffer entry per element: entry k is element k's scope-less text, preceded by its scope exactly when that scope differs from the one before it (`""` before the first) |
| SegmentPrinter.SegmentConditionsString | segment.go:88-100 | the loop that carries `currentScope` joins the parts with `;`, and an empty list prints as `""` |
| PrinterFacts.EscapedValueConcat | segment.go:159-161 | escaping works character by character |
| PrinterFacts.EscapedValueChar | segment.go:159-161 | each `;` and `,` gets a backslash in front of it, and every other character is kept |
| PrinterFacts.OrConditionTextCons | segment.go:144-150 | or-conditions are printed in order, separated by `,` |
| PrinterFacts.AndConditionExclude | segment.go:129-138 | an excluded and-condition prints `!` as its first `;`-joined element, followed by the or-conditions |
| PrinterFacts.AndConditionTextCons | segment.go:134-137 | or-conditions are printed in order, separated by `;` |
| PrinterFacts.SequenceStepsTextCons | segment.go:192-202 | the steps are concatenated in order with nothing between them, each as its type token followed by its and-condition |
| PrinterFacts.SharedScopePrintedOnce | segment.go:88-100 | elements that share one scope print that scope once, in front |
| PrinterFacts.ChangingScopesPrintedWhole | segment.go:91-97 | an element whose scope differs from the one before it is printed with its scope |
| PrintedText.OperatorAtUnshadowed | parser.go:23-41 | where an operator that no shorter one shadows starts, the alternation yields it |
| PrintedText.PrintedConditionParses | segment.go:163-165 | a printed condition is parsed back to the same metric scope, target and operator, provided the target has no operator character and the operator is not one of the shadowed `<=`, `>=`, `<>` |
| PrintedText.ExpressionOfCut | parser.go:213-222 | parseExpression on target, operator and rest, with that operator first, gives that expression |
| PrintedText.StripPrintedScope | parser.go:204-211 | the metric-scope cut removes exactly a printed metric scope |
| PrintedText.FirstOperatorAfterTarget | parser.go:213-217 | with no operator character in the target, the first operator is the unshadowed one that follows it |
| PrintedText.PrintedScopeNotParsed | parser.go:79-108 | a segment printed with `user::` or `session::` is refused by parseSegment as an unknown segment condition |
| Validation.ExpressionIsValid | validation.go:44-57 | at most 128 runes is always valid; more than 1024 is never valid; in between it is valid exactly when the operator is not Regexp or NotRegexp |
| Validation.SegmentIsValid | validation.go:14-22 | a segment that is not a condition segment is valid |
| Validation.OrIsValid | validation.go:34-42 | a valid or-expression has no value over 1024 runes, and one whose values are all at most 128 runes is valid |
| Validation.AndIsValid | validation.go:24-32 | a valid and-expression has no value over 1024 runes, and one whose values are all at most 128 runes is valid |
| Validation.SegmentsIsValid | validation.go:5-12 | in a valid list every condition segment's and-expression is valid, and a list without condition segments is valid |
| Validation.AllValidMeaning | validation.go:5-12 | the early-return walk accepts a list exactly when every element is valid, so the empty list is valid |
| Validation.OrIsValidMeaning | validation.go:34-42 | an or-expression is valid exactly when each of its expressions is |
| Validation.AndIsValidMeaning | validation.go:24-32 | an and-expression is valid exactly when every expression of every or-expression is |
| Validation.SegmentIsValidMeaning | validation.go:14-22 | a segment is valid exactly when it is not a condition segment or every expression of its condition is valid |
| Validation.SegmentsIsValidMeaning | validation.go:5-12 | a list of segments is valid exactly when each segment is |
| Validation.SegmentsIsValidConcat | validation.go:5-12 | validity splits over concatenation |
| Validation.SequenceSegmentsValid | validation.go:18-21 | sequence segments are valid whatever their values |
| Columns.FirstXX | validation_dimension_and_metric.go:98 | the first occurrence of `XX` at or after i, and none when there is none |
| Columns.TemplateOf | validation_dimension_and_metric.go:97-99 | an id with `XX` becomes prefix and suffix around its first `XX`; an id without `XX` has no pattern |
| Columns.NewColumn | validation_dimension_and_metric.go:95-100 | the entry keeps its id and type, and has a pattern exactly when the id contains `XX` |
| Columns.DigitRun | validation_dimension_and_metric.go:98 | `\d+` from j reaches over digits only, up to the first non-digit |
| Columns.Match | validation_dimension_and_metric.go:39-53 | an entry without pattern matches exactly its own id, and a template entry matches only when its index range is not empty |
| Columns.ColumnForDimensionOrMetric | validation_dimension_and_metric.go:104-112 | any returned entry is in the table and matches; NoSuchDimensionOrMetric is returned exactly when no entry matches |
| ColumnFacts.CaptureSound | validation_dimension_and_metric.go:41-45 | the greedy group is a non-empty digit run followed by the suffix, and no longer run is followed by it |
| ColumnFacts.CaptureFinds | validation_dimension_and_metric.go:41-44 | when the suffix follows some digit run, the group is found |
| ColumnFacts.MatchAtSound | validation_dimension_and_metric.go:41-45 | a match at i is an occurrence of prefix, digits and suffix there, with the longest digit group of any occurrence at i |
| ColumnFacts.MatchAtFinds | validation_dimension_and_metric.go:41-44 | wherever the pattern occurs, a match starts |
| ColumnFacts.FindFromSound | validation_dimension_and_metric.go:41 | the search returns the longest group of the leftmost occurrence from i |
| ColumnFacts.FindFromFinds | validation_dimension_and_metric.go:41-44 | if the pattern occurs from i, the search finds something |
| ColumnFacts.SubmatchLeftmost | validation_dimension_and_metric.go:41-45 | the group Match reads is that of the leftmost occurrence, and the longest digit run followed by the suffix at that start |
| ColumnFacts.SubmatchNone | validation_dimension_and_metric.go:41-44 | no group is found exactly when the pattern occurs nowhere |
| ColumnFacts.NoOccurrenceNoMatch | validation_dimension_and_metric.go:42-44 | a template entry never matches a name without a digit capture |
| ColumnFacts.TemplateMatchSound | validation_dimension_and_metric.go:40-51 | a template entry matches only through an occurrence whose digits have no leading zero and lie in `[MinTemplateIndex, MaxTemplateIndex]` |
| ColumnFacts.ExactIdMatch | validation_dimension_and_metric.go:52 | an entry without `XX` matches exactly its own id |
| ColumnFacts.TemplateNameMatch | validation_dimension_and_metric.go:40-51 | prefix, digits and suffix match exactly when the digits have no leading zero and their value is in range |
| ColumnFacts.TemplateNameGroup | validation_dimension_and_metric.go:41-45 | on prefix, digits and suffix the captured group is those digits |
| ColumnFacts.GoalTemplate | validation_dimension_and_metric.go:97-99 | `ga:goalXXStarts` becomes the template `ga:goal`, digits, `Starts` |
| ColumnFacts.GoalNameMatch | validation_dimension_and_metric.go:40-51 | `ga:goal<digits>Starts` matches the goal column exactly when the digits have no leading zero and lie in 1..20 |
| ColumnFacts.GoalExamplesValid | validation_dimension_and_metric_test.go:13-14 | `ga:goal1Starts` and `ga:goal12Starts` match the goal column |
| ColumnFacts.GoalExamplesInvalid | validation_dimension_and_metric_test.go:18-20 | `ga:goal0Starts`, `ga:goal02Starts` and `ga:goal21Starts` do not match |
| ColumnFacts.SessionsMatch | validation_dimension_and_metric_test.go:12 | `ga:sessions` matches only itself |
| ColumnFacts.SessionTwoExample | validation_dimension_and_metric_test.go:17 | `ga:session2` matches neither column |
| ColumnFacts.TestTableFinds | validation_dimension_and_metric_test.go:13-14 | in the test's table, the goal names find only the `ga:goalXXStarts` entry |
| ColumnFacts.TestTableMisses | validation_dimension_and_metric_test.go:17-20 | in the test's table, the invalid names match no entry, so the lookup gives NoSuchDimensionOrMetric |
| ParseEscape.ParseStringWithEscape | supportv4/parse_escape.go:4-37 | the rune loop and the final conversion equal the chunk specification |
| ParseEscape.EmptyInput | supportv4/parse_escape.go:29-31 | `""` yields no chunks |
| ParseEscape.EscapeBeforeOrdinary | supportv4/parse_escape.go:11-15 | an escape before an ordinary rune is dropped, and the rune is kept |
| ParseEscape.PlainRunes | supportv4/parse_escape.go:24-26 | ordinary runes are appended to the buffer and clear the flag |
| ParseEscape.NoSpecialRunes | supportv4/parse_escape_test.go:14 | a non-empty string with no separator and no escape is one chunk |
| ParseEscape.ChunkCount | supportv4/parse_escape.go:16-31 | there is at most one more chunk than there are separator runes |
| ParseEscape.EscapeJoinRoundTrip | supportv4/parse_escape.go:4-37 | splitting undoes escaping every separator and escape and joining with the separator, provided the last chunk is not empty; interior empty chunks are kept |
| ParseEscape.TrailingEmptyDropped | supportv4/parse_escape.go:29-31 | an empty last chunk is dropped: the escaped join of xs followed by an empty chunk splits back to xs |
| ParseEscape.PlainCase | supportv4/parse_escape_test.go:14 | `foo bar` gives `[foo bar]` |
| ParseEscape.SeparatorSplits | supportv4/parse_escape_test.go:15 | `foo\|bar` gives `[foo, bar]` |
| ParseEscape.EscapedSeparatorKept | supportv4/parse_escape_test.go:16 | an escaped separator stays in the chunk, and its escape is removed |
| ParseEscape.DoubledEscapeSplits | supportv4/parse_escape_test.go:17 | a doubled escape gives one escape rune, and the separator after it splits |
| ParseEscape.BellKept | supportv4/parse_escape_test.go:18 | a control character is an ordinary rune |
| Detect.DetectMatchType | supportv4/detect.go:16-39 | succeeds exactly on FirstStep, Precedes and ImmediatelyPrecedes, giving `""`, PRECEDES and IMMEDIATELY_PRECEDES; any other step type gives the unspecified-match-type error |
| Detect.DetectScope | supportv4/detect.go:51-65 | never PRODUCT, and `""` exactly for Default |
| Detect.DetectScopeDistinct | supportv4/detect.go:53-64 | different metric scopes get different API scopes |
| Detect.DetectOperatorOnMetric | supportv4/detect.go:88-131 | succeeds exactly on the eight comparison operators; the list, substring and regexp operators give the metric-operator error |
| Detect.DetectOperatorOnDimension | supportv4/detect.go:134-216 | total on the fourteen operators, with `not` set exactly for the seven negated ones |
| Detect.NegatedOperators | supportv4/detect.go:104-122 | a negated operator is sent as the API operator of what it negates, with `not` set; on metrics `<=` and `>=` become negated GREATER_THAN and LESS_THAN |
| Detect.NotFlagsAgree | supportv4/detect.go:104-122 | for an operator that both tables accept, the metric and dimension `not` flags agree |
| Detect.DetectFilterTypeOnce | supportv4/detect.go:235-248 | the type is metric exactly for the attribute METRIC and dimension exactly for DIMENSION, otherwise unspecified; there is an error exactly when the lookup failed |
| Detect.FilterTypeCache.constructor | supportv4/detect.go:230-232 | the cache starts empty |
| Detect.FirstDetection | supportv4/detect.go:251-265 | on a miss the type is the primitive type, and there is an error exactly when that type is unspecified |
| Detect.FilterTypeCache.DetectFilterType | supportv4/detect.go:251-265 | a hit returns the stored type without error; a miss stores the primitive type, even when the lookup failed, and answers as on a first detection; entries once written never change |
| Transform.SplitUnderscore | supportv4/transform.go:207 | SplitN(value, "_", 2) has a second part exactly when the value contains `_`, and then the value is the first part, `_`, the rest, with no `_` in the first part |
| Transform.NewDimensionFilterClause | supportv4/transform.go:200-228 | operator and `not` come from the dimension table; Between takes min and max from the split, and fails with index out of range when there is no `_`; any other operator has expressions `[value]` |
| Transform.NewMetricFilterClause | supportv4/transform.go:231-259 | succeeds exactly on comparisons (Between needing `_`); Between sets comparison and max values from the split, otherwise the comparison value is the value; the scope is never set |
| Transform.ExpressionClause | supportv4/transform.go:184-197 | a clause carries a dimension filter exactly for a dimension target and a metric filter exactly for a metric target; an unspecified type fails |
| Transform.StepMatchType | supportv4/transform.go:129-131 | the match type is DetectMatchType's answer, or `""` when its error is dropped |
| Transform.OrClauses | supportv4/transform.go:170-181 | on success there is one clause per expression |
| Transform.AndGroups | supportv4/transform.go:156-167 | on success there is one or-filter per group |
| Transform.StepOf | supportv4/transform.go:129-139 | on success the step has one or-filter per group of its and-expression, and the detected match type when there is one |
| Transform.StepsOf | supportv4/transform.go:115-126 | on success there is one transformed step per step |
| Transform.ConditionFilter | supportv4/transform.go:142-153 | a simple segment whose `not` is the condition's Exclude |
| Transform.SequenceFilter | supportv4/transform.go:100-112 | a sequence segment that copies Not and FirstHitMatchesFirstStep |
| Transform.SegmentFilterOf | supportv4/transform.go:88-97 | the payload is simple for a condition and sequence for a sequence; a segment of no type fails with cannot-guess-type |
| Transform.RouteSegments | supportv4/transform.go:20-37 | on success every segment lands in exactly one of the two lists |
| Transform.DefinitionOf | supportv4/transform.go:39-48 | no definition exactly for an empty filter list, and otherwise a definition holding those filters |
| Transform.SegmentsOf | supportv4/transform.go:12-54 | succeeds exactly when the routing loop does, and the name is `-` |
| Transform.SegmentOf | supportv4/transform.go:57-85 | one filter in the segment's scope's definition and none in the other; no scope fails |
| Transform.Learned | supportv4/detect.go:251-265 | the cache map after detecting a set of identifiers: their keys are added, each stored with the type the lookup gives, and every other entry is kept |
| Transform.TransformExpression | supportv4/transform.go:184-197 | fails exactly when the cold-cache clause does, and gives the same clause on success; on an unseen target the answer is exactly the cold-cache one; the cache map afterwards is the old one with the target stored under the type the lookup gives, every other entry unchanged |
| Transform.TransformOrExpression | supportv4/transform.go:170-181 | the by-index fill agrees with the or-clauses specification, and the cache has learned exactly the targets of the expressions up to and including the first that fails (all of them on success), every other entry unchanged |
| Transform.TransformAndExpression | supportv4/transform.go:156-167 | the by-index fill agrees with the and-groups specification, and the cache has learned exactly the targets of the groups up to and including the first failing group, stopping inside it at its first failing expression |
| Transform.TransformSequenceStep | supportv4/transform.go:129-139 | agrees with the step specification, dropping the match-type error; the cache learns what transforming the step's and-expression learns |
| Transform.TransformSequenceSteps | supportv4/transform.go:115-126 | the by-index fill agrees with the steps specification, and the cache has learned the targets of the steps up to and including the first failing step |
| Transform.TransformCondition | supportv4/transform.go:142-153 | agrees with ConditionFilter; the cache learns what transforming the and-expression learns |
| Transform.TransformSequence | supportv4/transform.go:100-112 | agrees with SequenceFilter; the cache learns what transforming the steps learns |
| Transform.NewSegmentFilter | supportv4/transform.go:88-97 | agrees with SegmentFilterOf; the cache learns the targets of the condition or sequence, and nothing for a segment of no type |
| Transform.TransformSegments | supportv4/transform.go:12-54 | the appends to the two scope lists agree with SegmentsOf, and the cache has learned the targets of the segments up to the first failure; a segment without scope stops the walk before anything is looked up |
| Transform.TransformSegment | supportv4/transform.go:57-85 | agrees with SegmentOf; the cache learns the segment's targets when it has a scope and nothing otherwise |
| TransformFacts.OrClausesMeaning | supportv4/transform.go:170-181 | one clause per expression, in order, and success exactly when every expression succeeds |
| TransformFacts.OrClausesFirstFailure | supportv4/transform.go:173-177 | a failure is the error of the first failing expression |
| TransformFacts.AndGroupsMeaning | supportv4/transform.go:156-167 | one or-filter per group, in order, holding that group's clauses |
| TransformFacts.AndGroupsFirstFailure | supportv4/transform.go:159-163 | a failure is the error of the first failing group |
| TransformFacts.StepsOfMeaning | supportv4/transform.go:115-126 | one step per step, in order, and success exactly when every step succeeds |
| TransformFacts.StepsOfFirstFailure | supportv4/transform.go:118-122 | a failure is the error of the first failing step |
| TransformFacts.OrTargetsWithin | supportv4/transform.go:170-181 | the or-walk only looks up targets of its own expressions, and on success it has looked up every one of them |
| TransformFacts.AndTargetsWithin | supportv4/transform.go:156-167 | the and-walk only looks up targets of its own expressions, and on success it has looked up every one of them |
| TransformFacts.OfScope | supportv4/transform.go:20-37 | the segments of one scope, each with that scope, and empty exactly when no segment has it |
| TransformFacts.RouteSucceeds | supportv4/transform.go:20-37 | routing succeeds exactly when every segment has a scope and a filter |
| TransformFacts.RouteSessions | supportv4/transform.go:28-33 | the session list holds the filters of the session segments, in input order |
| TransformFacts.RouteUsers | supportv4/transform.go:22-27 | the user list holds the filters of the user segments, in input order |
| TransformFacts.NilDefinitions | supportv4/transform.go:13-53 | a scope no segment has gets no definition, one some segment has gets one filter per such segment, and the name is `-` |
| TransformFacts.SingleSegment | supportv4/transform.go:57-85 | TransformSegment gives what TransformSegments gives for the one-element list |
| TransformFacts.ParsedStepsHaveMatchTypes | supportv4/transform.go:129-131 | on parser output every step has a match type, so the dropped error never occurs: `""` first, then PRECEDES or IMMEDIATELY_PRECEDES |
| V3Stringify.DimensionOperator | supportv4/v3stringify.go:112-115 | the operator read is never `""` or OPERATOR_UNSPECIFIED, and any other operator is kept as it is |
| V3Stringify.DimensionFilterText | supportv4/v3stringify.go:106-174 | succeeds exactly when there is an expression, the operator is known, IN_LIST and NUMERIC_BETWEEN are not negated, and NUMERIC_BETWEEN has two expressions; no expressions and the negated list or range give their errors; the text starts with the dimension name |
| V3Stringify.ScopePrefix | supportv4/v3stringify.go:190-200 | the prefix is empty exactly for a scope other than PRODUCT, HIT, USER, SESSION |
| V3Stringify.MetricOperator | supportv4/v3stringify.go:184-187 | the operator read is never OPERATOR_UNSPECIFIED, and any other operator, `""` included, is kept as it is |
| V3Stringify.MetricFilterText | supportv4/v3stringify.go:177-225 | succeeds exactly on EQUAL, LESS_THAN, GREATER_THAN and a BETWEEN that is not negated, a negated BETWEEN giving its error; the text starts with the scope prefix and the metric name |
| V3Stringify.ClauseText | supportv4/v3stringify.go:92-103 | success needs a filter, and a clause with neither filter is an error |
| V3Stringify.SimpleSegmentText | supportv4/v3stringify.go:70-89 | nil gives `""`; otherwise success exactly when every group's clauses can be written |
| V3Stringify.FilterText | supportv4/v3stringify.go:49-67 | success only for a simple segment, and the text starts with `conditions::`; a sequence segment gives the TODO error, and neither kind gives an error |
| V3Stringify.DefinitionText | supportv4/v3stringify.go:33-46 | nil gives `""`; otherwise success exactly when every filter can be written |
| V3Stringify.DynamicSegmentText | supportv4/v3stringify.go:14-30 | `sessions::` when there is a session segment, `users::` when there is only a user segment, and an error with neither |
| V3Stringify.V3StringifySegmentDefinition | supportv4/v3stringify.go:33-46 | the append loop equals DefinitionText |
| V3Stringify.V3StringifySimpleSegment | supportv4/v3stringify.go:70-89 | the nested append loops equal SimpleSegmentText |
| V3StringifyFacts.ClauseTextsMeaning | supportv4/v3stringify.go:77-83 | one text per clause, in order, existing exactly when every clause can be written |
| V3StringifyFacts.FilterTextsMeaning | supportv4/v3stringify.go:38-44 | one text per filter, in order, existing exactly when every filter can be written |
| V3StringifyFacts.NonEmptyGroups | supportv4/v3stringify.go:84-86 | the groups that hold a clause, in order |
| V3StringifyFacts.EmptyGroupsSkipped | supportv4/v3stringify.go:75-87 | groups without clauses contribute nothing; one text per non-empty group |
| V3StringifyFacts.DimensionFilterWins | supportv4/v3stringify.go:96-101 | a clause with a dimension filter is written from it, whatever metric filter it also has |
| V3StringifyFacts.SessionTakesPrecedence | supportv4/v3stringify.go:15-21 | a session segment is written and the user segment ignored |
| V3StringifyFacts.UnspecifiedDimensionOperator | supportv4/v3stringify.go:111-115 | `""` and OPERATOR_UNSPECIFIED on a dimension behave as REGEXP |
| V3StringifyFacts.UnspecifiedMetricOperator | supportv4/v3stringify.go:183-187 | OPERATOR_UNSPECIFIED on a metric behaves as EQUAL, but `""` is an unsupported operator |
| V3StringifyFacts.ScopePrefixRoundTrip | supportv4/v3stringify.go:190-200 | the prefix written for DetectScope's answer is the metric-scope token the parser strips |
| RoundTrip.DimensionClauseRoundTrip | supportv4/v3stringify.go:139-165 | for `==`, `!=`, `<`, `<=`, `>`, `>=`, `[]`, `=@`, `!@`, `!~` on a dimension, the clause is written back as target, token, value |
| RoundTrip.RegexpClauseText | supportv4/v3stringify.go:123-127 | a dimension Regexp is written back with `=~`, which is not its token `=!` |
| RoundTrip.MetricClauseRoundTrip | supportv4/v3stringify.go:201-222 | a metric comparison, and a Between with `_`, is written back as target, token, value, and the metric scope is lost |
| RoundTrip.DimensionBetweenNotReversible | supportv4/v3stringify.go:116-118 | a dimension Between is transformed but is written back as the no-expressions error |
| RoundTrip.NegatedListAndRangeNotReversible | supportv4/v3stringify.go:149-154 | NotInList and NotBetween on a dimension are transformed but refused by the stringifier |
| RoundTrip.SequenceNotReversible | supportv4/v3stringify.go:63-65 | a transformed sequence segment is refused by the stringifier |
| RoundTrip.OneClauseFilter | supportv4/transform.go:142-153 | a condition of one expression becomes a simple segment of one group holding that clause |
| RoundTrip.OneClauseText | supportv4/v3stringify.go:49-67 | such a filter is written as `conditions::`, `!` if negated, and the clause |
| RoundTrip.SessionConditionText | supportv4/v3stringify.go:14-67 | a one-expression session condition comes back as `sessions::conditions::`, with `!` if excluded, then target, token and value |

## Left out

- Go's regexp engine in general: the four separator patterns and the operator alternation are hand-written scanners. Where `.` and `[^\\]` differ, on a newline, the scanners follow Go: a backslash before a newline is not an escape unit (Split.EscapeUnitAt).
- The separator patterns treat a backslash as escaping only through the unit `\\.` just before the separator, and Go retries the match at every start, so behind an odd run of three or more backslashes an escaped separator can still be cut (Split.OddBackslashRunExample). The model follows the code here, not a rule that counts the backslashes in the run.
- `unEscapeExpressionValue` (parser.go:221) is not part of this model. `Ast.UnescapeExpressionValue` stands in for it: it removes the backslash before `;` and `,` from left to right. ParserFacts.LessThanEqualExample relies on it leaving `=5` unchanged; PrintedText.PrintedConditionParses says nothing about the parsed value.
- The type definitions of the parser's tree (`Segment`, `Condition`, `Sequence`, `AndExpression`, `OrExpression`, `Expression`, the scope and type constants, `NotBetween`, `NotInList`, `Precedes`, `ImmediatelyPrecedes`) are not part of this model. They are declared as datatypes and enumerations. NotBetween and NotInList have no token.
- SegmentPrinter.StringWithoutScope: a sequence segment with a nil `Sequence` pointer would panic in Go. The `Printable` precondition excludes it instead of modelling the panic.
- Columns.ColumnForDimensionOrMetric: Go's map order is unspecified, so the method promises some matching entry, not a particular one.
- The column table's `init` (validation_dimension_and_metric.go:85-102) is left out: it loads an embedded asset and JSON. The table is a parameter.
- Columns: `strconv.Atoi` overflow is not modelled. Template ids are assumed free of regexp metacharacters, so the compiled pattern is `prefix(\d+)suffix` read literally.
- ParseEscape.ChunkCount: it bounds the chunks by all separator runes plus one. This is weaker than the bound by unescaped separators.
- `GetDimensionOrMetricAttributes` (supportv4/detect.go:236) is not part of this model. It is the parameter `lookup`, giving the attribute type or an error text.
- Detect.DetectScope and Detect.DetectOperatorOnDimension: the error branches of the Go switches (detect.go:63, 214) cannot be reached, because the tree's enumerations are closed.
- Transform.TransformExpression: on a cache hit the error value of a failure may differ from the cold-cache one. Only the failure itself is pinned, because a hit reports no lookup error.
- Nil pointers inside the v4 records' lists (nil clauses and filters) are not modelled. The nil-argument branches of v3stringify.go:50-51, 93-94 and 107-108 do not arise, because those arguments are values. The nil checks of v3stringify.go:34-35 and 71-72 are modelled: an absent definition or simple segment (`None`) gives `""`.
- A Go panic on an index out of range is modelled as the error value `IndexOutOfRange`: `vs[1]` in Transform.NewDimensionFilterClause and Transform.NewMetricFilterClause (transform.go:215, 246), and `node.Expressions[1]` of a BETWEEN dimension filter with one expression in V3Stringify.DimensionFilterText (v3stringify.go:170).
- The end-to-end reversibility tests (supportv4/v3stringify_test.go:23-72, segment_test.go:42-52 and 71-84) are not stated, because the code contradicts them; see the list above.
- I/O and networking: cmd/gasegment/main.go, test_helper.go, the API half of segment_test.go, `MustParse`'s panic, JSON tags.
