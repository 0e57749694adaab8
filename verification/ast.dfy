/** The parser-shape syntax tree of a segment definition: the types that
    parser.go, validation.go and supportv4/transform.go use (Segment,
    Condition, Sequence, AndExpression, OrExpression, Expression), together
    with the token constants of segment.go that the parser consults.

    Go's token types are string types; here the scopes, segment types, metric
    scopes and operators are enumerations, each with the text the parser
    recognises.  A sequence step's type stays the raw separator text, as the
    parser stores it. */
module Ast {

  /** SegmentScope; NoScope is Go's zero value (a scope whose text is ""). */
  datatype SegmentScope = NoScope | UserScope | SessionScope

  /** Segment type; NoType is Go's zero value, reached by no parse. */
  datatype SegmentType = NoType | ConditionSegment | SequenceSegment

  datatype MetricScope = Default | PerHit | PerSession | PerUser

  /** The metric-scope prefixes of segment.go:63-68. */
  function MetricScopeToken(ms: MetricScope): string
  {
    match ms
    case Default => ""
    case PerHit => "perHit::"
    case PerSession => "perSession::"
    case PerUser => "perUser::"
  }

  /** The fourteen operators.  NotBetween and NotInList are referred to by
      supportv4/detect.go but their text is not among segment.go's
      constants, so they have no token here. */
  datatype Operator =
    | Equal | NotEqual | LessThan | LessThanEqual | GreaterThan | GreaterThanEqual
    | Between | NotBetween | InList | NotInList
    | ContainsSubstring | NotContainsSubstring | Regexp | NotRegexp

  predicate HasToken(op: Operator)
  {
    op != NotBetween && op != NotInList
  }

  /** Operator text, segment.go:21-32 (note Regexp is "=!"). */
  function Token(op: Operator): (t: string)
    requires HasToken(op)
    ensures 1 <= |t| <= 2
  {
    match op
    case Equal => "=="
    case NotEqual => "!="
    case LessThan => "<"
    case LessThanEqual => "<="
    case GreaterThan => ">"
    case GreaterThanEqual => ">="
    case Between => "<>"
    case InList => "[]"
    case ContainsSubstring => "=@"
    case NotContainsSubstring => "!@"
    case Regexp => "=!"
    case NotRegexp => "!~"
  }

  /** The operator alternation of parser.go:23-36, in its order. */
  const ParserOperators: seq<Operator> :=
    [Equal, NotEqual, LessThan, LessThanEqual, GreaterThan, GreaterThanEqual,
     Between, InList, ContainsSubstring, NotContainsSubstring, Regexp, NotRegexp]

  /** A sequence step's type: the separator text before the step, "" for
      the first step. */
  type SequenceStepType = string

  const FirstStep: SequenceStepType := ""
  /** The values of Precedes and ImmediatelyPrecedes (supportv4/detect.go:32-34)
      are taken to be the separators the parser stores for them. */
  const Precedes: SequenceStepType := ";->>"
  const ImmediatelyPrecedes: SequenceStepType := ";->"

  datatype Expression = Expression(metricScope: MetricScope, target: string, operator: Operator, value: string)

  type OrExpression = seq<Expression>

  type AndExpression = seq<OrExpression>

  datatype Condition = Condition(exclude: bool, andExpression: AndExpression)

  datatype SequenceStep = SequenceStep(stepType: SequenceStepType, andExpression: AndExpression)

  datatype Sequence = Sequence(not: bool, firstHitMatchesFirstStep: bool, sequenceSteps: seq<SequenceStep>)

  /** A Go struct: both payloads are present, `segmentType` says which one
      is meant. */
  datatype Segment = Segment(scope: SegmentScope, segmentType: SegmentType, condition: Condition, sequence: Sequence)

  type Segments = seq<Segment>

  const EmptyCondition := Condition(false, [])

  const EmptySequence := Sequence(false, false, [])

  /** unEscapeExpressionValue: the inverse of the printer's escaping, read
      left to right: a backslash before `;` or `,` is dropped, every other
      character is kept. */
  function UnescapeExpressionValue(s: string): string
  {
    if |s| == 0 then ""
    else if s[0] == '\\' && |s| > 1 && (s[1] == ';' || s[1] == ',') then [s[1]] + UnescapeExpressionValue(s[2..])
    else [s[0]] + UnescapeExpressionValue(s[1..])
  }
}
