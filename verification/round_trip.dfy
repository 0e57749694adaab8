/** The forward transform of supportv4/transform.go followed by the reverse
    stringifier of supportv4/v3stringify.go, one clause at a time: which
    expressions come back as the operator token segment.go prints for
    them, and which do not come back at all. */
module RoundTrip {
  import opened Wrappers
  import opened Ast
  import opened Detect
  import opened Reporting
  import opened Transform
  import opened V3Stringify
  import TransformFacts

  /** The operators whose dimension clause is written back with the
      operator's own token. */
  predicate DimensionRoundTrips(op: Operator)
  {
    op in {Equal, NotEqual, LessThan, LessThanEqual, GreaterThan, GreaterThanEqual,
           InList, ContainsSubstring, NotContainsSubstring, NotRegexp}
  }

  /** A dimension expression under any of those operators comes back as
      target, token, value: DetectOperatorOnDimension and the dimension
      switch of the stringifier are inverse on them. */
  lemma DimensionClauseRoundTrip(lookup: string -> Result<string, string>, e: Expression)
    requires DetectFilterTypeOnce(lookup(e.target)).filterType == DimensionType
    requires DimensionRoundTrips(e.operator)
    ensures ExpressionClause(lookup, e).Success?
    ensures ClauseText(ExpressionClause(lookup, e).value) == Success(e.target + Token(e.operator) + e.value)
  {
    assert Strs.Join([e.value], "|") == e.value;
  }

  /** Regexp comes back as `=~`, which is not the `=!` token segment.go
      gives it. */
  lemma RegexpClauseText(lookup: string -> Result<string, string>, e: Expression)
    requires DetectFilterTypeOnce(lookup(e.target)).filterType == DimensionType
    requires e.operator == Regexp
    ensures ExpressionClause(lookup, e).Success?
    ensures ClauseText(ExpressionClause(lookup, e).value) == Success(e.target + "=~" + e.value)
    ensures Token(Regexp) != "=~"
  {
  }

  /** A metric expression under a comparison comes back as target, token,
      value, Between included when its value has an underscore.  The
      metric scope is not part of the text: the transform never sets the
      API scope, so a scoped metric loses its `perHit::`-style prefix. */
  lemma MetricClauseRoundTrip(lookup: string -> Result<string, string>, e: Expression)
    requires DetectFilterTypeOnce(lookup(e.target)).filterType == MetricType
    requires e.operator in {Equal, NotEqual, LessThan, LessThanEqual, GreaterThan, GreaterThanEqual} ||
      (e.operator == Between && '_' in e.value)
    ensures ExpressionClause(lookup, e).Success?
    ensures ClauseText(ExpressionClause(lookup, e).value) == Success(e.target + Token(e.operator) + e.value)
    ensures forall ms: MetricScope :: ExpressionClause(lookup, e.(metricScope := ms)) == ExpressionClause(lookup, e)
  {
    var f := ExpressionClause(lookup, e).value.metricFilter.value;
    assert ScopePrefix(f.scope) + f.metricName == e.target;
    if e.operator == Between {
      var lo, hi := f.comparisonValue, f.maxComparisonValue;
      assert e.target + "<>" + lo + "_" + hi == e.target + "<>" + (lo + "_" + hi);
    }
  }

  /** A dimension Between does not come back: its bounds go to the min and
      max values, and the stringifier reads the expressions, which are
      empty. */
  lemma DimensionBetweenNotReversible(lookup: string -> Result<string, string>, e: Expression)
    requires DetectFilterTypeOnce(lookup(e.target)).filterType == DimensionType
    requires e.operator == Between && '_' in e.value
    ensures ExpressionClause(lookup, e).Success?
    ensures ClauseText(ExpressionClause(lookup, e).value) == Failure(NoExpressions)
  {
  }

  /** The negated list and range operators on a dimension become negated
      IN_LIST and NUMERIC_BETWEEN, which the stringifier refuses. */
  lemma NegatedListAndRangeNotReversible(lookup: string -> Result<string, string>, e: Expression)
    requires DetectFilterTypeOnce(lookup(e.target)).filterType == DimensionType
    requires e.operator == NotInList || e.operator == NotBetween
    ensures ExpressionClause(lookup, e).Success?
    ensures ClauseText(ExpressionClause(lookup, e).value) ==
      Failure(NotUnsupported(DetectOperatorOnDimension(e.operator).0))
  {
  }

  /** A sequence segment is transformed but not written back. */
  lemma SequenceNotReversible(lookup: string -> Result<string, string>, seg: Segment)
    requires seg.segmentType == Ast.SequenceSegment && SegmentFilterOf(lookup, seg).Success?
    ensures FilterText(SegmentFilterOf(lookup, seg).value) == Failure(SequenceNotSupported)
  {
  }

  /** The transform side: the segment's filter is a simple segment of one
      group holding the expression's clause. */
  lemma OneClauseFilter(lookup: string -> Result<string, string>, seg: Segment, e: Expression)
    requires seg.segmentType == ConditionSegment && seg.condition.andExpression == [[e]]
    requires ExpressionClause(lookup, e).Success?
    ensures SegmentFilterOf(lookup, seg) ==
      Success(SegmentFilter(seg.condition.exclude,
        Some(SimpleSegment([OrFiltersForSegment([ExpressionClause(lookup, e).value])])), None))
  {
    var c := ExpressionClause(lookup, e).value;
    var noClauses: seq<SegmentFilterClause> := [];
    var noGroups: seq<OrFiltersForSegment> := [];
    assert [e][1..] == [] && [[e]][1..] == [];
    assert [c] + noClauses == [c] && [OrFiltersForSegment([c])] + noGroups == [OrFiltersForSegment([c])];
    assert OrClauses(lookup, [e]) == Success([c]);
    assert AndGroups(lookup, [[e]]) == Success([OrFiltersForSegment([c])]);
  }

  /** The stringifier side: a filter of one group of one clause is written
      as `conditions::`, the `!` of a negated filter, and the clause. */
  lemma OneClauseText(c: SegmentFilterClause, not: bool)
    requires ClauseText(c).Success?
    ensures FilterText(SegmentFilter(not, Some(SimpleSegment([OrFiltersForSegment([c])])), None)) ==
      Success("conditions::" + (if not then "!" else "") + ClauseText(c).value)
  {
    var text := ClauseText(c).value;
    var noTexts: seq<string> := [];
    assert [c][1..] == [] && [OrFiltersForSegment([c])][1..] == [];
    assert [text] + noTexts == [text];
    assert ClauseTexts([c]) == Success([text]);
    assert ClauseTexts([OrFiltersForSegment([c])][0].segmentFilterClauses) == Success([text]);
    assert GroupTexts([OrFiltersForSegment([c])]) == Success([text]);
    assert Strs.Join([text], ",") == text && Strs.Join([text], ";") == text;
    var prefix := "conditions::" + (if not then "!" else "");
    assert "conditions::" + (if not then "!" + text else text) == prefix + text;
  }

  /** Proof helper: concatenation regrouped. */
  lemma Regroup(a: string, b: string, c: string, d: string, e: string, f: string)
    ensures a + (b + c + (d + e + f)) == a + b + c + d + e + f
  {
  }

  /** A session condition of one dimension expression comes back under
      the keyword `conditions::` rather than `condition::`, with `!` when
      the condition excludes. */
  lemma SessionConditionText(lookup: string -> Result<string, string>, seg: Segment, e: Expression)
    requires seg.scope == SessionScope && seg.segmentType == ConditionSegment
    requires seg.condition.andExpression == [[e]]
    requires DetectFilterTypeOnce(lookup(e.target)).filterType == DimensionType
    requires DimensionRoundTrips(e.operator)
    ensures SegmentsOf(lookup, [seg]).Success?
    ensures DynamicSegmentText(SegmentsOf(lookup, [seg]).value) ==
      Success("sessions::" + "conditions::" + (if seg.condition.exclude then "!" else "") +
              e.target + Token(e.operator) + e.value)
  {
    DimensionClauseRoundTrip(lookup, e);
    var c := ExpressionClause(lookup, e).value;
    OneClauseFilter(lookup, seg, e);
    OneClauseText(c, seg.condition.exclude);
    TransformFacts.SingleSegment(lookup, seg);
    var f := SegmentFilterOf(lookup, seg).value;
    var noTexts: seq<string> := [];
    assert [f][1..] == [];
    assert [FilterText(f).value] + noTexts == [FilterText(f).value];
    assert FilterTexts([f]) == Success([FilterText(f).value]);
    assert Strs.Join([FilterText(f).value], ";") == FilterText(f).value;
    var bang := if seg.condition.exclude then "!" else "";
    var text := e.target + Token(e.operator) + e.value;
    Regroup("sessions::", "conditions::", bang, e.target, Token(e.operator), e.value);
  }
}
