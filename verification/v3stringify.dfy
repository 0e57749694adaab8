/** supportv4/v3stringify.go: writes a Reporting API v4 DynamicSegment back
    as a Core Reporting v3 segment definition.

    The two functions that loop, V3StringifySegmentDefinition and
    V3StringifySimpleSegment, are methods, each proved equal to a function
    that the pure switches (the dynamic segment, the filter, the clause
    and the two kinds of filter) call in its place. */
module V3Stringify {
  import opened Wrappers
  import opened Strs
  import opened Ast
  import opened Detect
  import opened Reporting

  datatype StringifyError =
    /** "at least either a session or a user segment" */
    | NoSegment
    /** "TODO": sequence segments are not written back. */
    | SequenceNotSupported
    /** "at least either a simple or a sequence segment" */
    | NoSegmentKind
    /** "must be wither a metric or a dimension filter" */
    | NoFilterKind
    /** "invalid expression. at least length >= 1" */
    | NoExpressions
    /** "not support %q with Not=true" */
    | NotUnsupported(operator: string)
    | UnsupportedDimensionOperator(operator: string)
    | UnsupportedMetricOperator(operator: string)
    /** The panic of reading a second expression that is not there. */
    | IndexOutOfRange

  const OperatorUnspecifiedName: string := "OPERATOR_UNSPECIFIED"

  // ---------------------------------------------------------------------
  // Dimension filters (lines 105-174)

  /** The operator a dimension filter is read with: an empty or
      OPERATOR_UNSPECIFIED operator means REGEXP. */
  function DimensionOperator(op: string): (r: string)
    ensures r != "" && r != OperatorUnspecifiedName
    ensures op != "" && op != OperatorUnspecifiedName ==> r == op
  {
    if op == OperatorUnspecifiedName || op == "" then OperatorRegexp else op
  }

  /** The dimension operators the switch of lines 122-173 knows. */
  predicate KnownDimensionOperator(op: string)
  {
    op in {OperatorRegexp, OperatorBeginsWith, OperatorEndsWith, OperatorPartial, OperatorExact,
           OperatorNumericEquals, OperatorInList, OperatorNumericLessThan, OperatorNumericGreaterThan,
           OperatorNumericBetween}
  }

  /** V3StringifySegmentDimensionFilter (lines 106-174).  It succeeds
      exactly when there is an expression, the operator is known, IN_LIST
      and NUMERIC_BETWEEN are not negated, and NUMERIC_BETWEEN has a second
      expression; the text starts with the dimension name. */
  function DimensionFilterText(f: SegmentDimensionFilter, not: bool): (r: Result<string, StringifyError>)
    ensures |f.expressions| == 0 ==> r == Failure(NoExpressions)
    ensures r.Success? <==>
      |f.expressions| > 0 && KnownDimensionOperator(DimensionOperator(f.operator)) &&
      !(not && DimensionOperator(f.operator) in {OperatorInList, OperatorNumericBetween}) &&
      (DimensionOperator(f.operator) == OperatorNumericBetween ==> |f.expressions| >= 2)
    ensures |f.expressions| > 0 && not && DimensionOperator(f.operator) in {OperatorInList, OperatorNumericBetween} ==>
      r == Failure(NotUnsupported(DimensionOperator(f.operator)))
    ensures r.Success? ==> HasPrefix(r.value, f.dimensionName)
  {
    var op := DimensionOperator(f.operator);
    if |f.expressions| == 0 then Failure(NoExpressions)
    else
      var name, x := f.dimensionName, f.expressions[0];
      if op == OperatorRegexp then Success(name + (if not then "!~" else "=~") + x)
      else if op == OperatorBeginsWith then Success(name + (if not then "!~" else "=~") + ("^" + x))
      else if op == OperatorEndsWith then Success(name + (if not then "!~" else "=~") + (x + "$"))
      else if op == OperatorPartial then Success(name + (if not then "!@" else "=@") + x)
      else if op == OperatorExact || op == OperatorNumericEquals then Success(name + (if not then "!=" else "==") + x)
      else if op == OperatorInList then
        if not then Failure(NotUnsupported(OperatorInList))
        else Success(name + "[]" + Join(f.expressions, "|"))
      else if op == OperatorNumericLessThan then Success(name + (if not then ">=" else "<") + x)
      else if op == OperatorNumericGreaterThan then Success(name + (if not then "<=" else ">") + x)
      else if op == OperatorNumericBetween then
        if not then Failure(NotUnsupported(OperatorNumericBetween))
        else if |f.expressions| < 2 then Failure(IndexOutOfRange)
        else Success(name + "<>" + x + "_" + f.expressions[1])
      else Failure(UnsupportedDimensionOperator(op))
  }

  // ---------------------------------------------------------------------
  // Metric filters (lines 176-225)

  /** The scope prefix of lines 190-200; an unknown scope, the empty one
      included, has none. */
  function ScopePrefix(scope: string): (p: string)
    ensures p == "" <==> scope !in {ScopeProduct, ScopeHit, ScopeUser, ScopeSession}
  {
    if scope == ScopeProduct then "perProduct::"
    else if scope == ScopeHit then "perHit::"
    else if scope == ScopeUser then "perUser::"
    else if scope == ScopeSession then "perSession::"
    else ""
  }

  /** The operator a metric filter is read with: only OPERATOR_UNSPECIFIED
      means EQUAL; the empty operator stays empty. */
  function MetricOperator(op: string): (r: string)
    ensures r != OperatorUnspecifiedName
    ensures op != OperatorUnspecifiedName ==> r == op
  {
    if op == OperatorUnspecifiedName then OperatorEqual else op
  }

  /** V3StringifySegmentMetricFilter (lines 177-225).  It succeeds exactly
      on EQUAL, LESS_THAN, GREATER_THAN and a BETWEEN that is not negated;
      the text starts with the scope prefix and the metric name. */
  function MetricFilterText(f: SegmentMetricFilter, not: bool): (r: Result<string, StringifyError>)
    ensures r.Success? <==>
      MetricOperator(f.operator) in {OperatorEqual, OperatorLessThan, OperatorGreaterThan, OperatorBetween} &&
      !(not && MetricOperator(f.operator) == OperatorBetween)
    ensures not && MetricOperator(f.operator) == OperatorBetween ==> r == Failure(NotUnsupported(OperatorBetween))
    ensures r.Success? ==> HasPrefix(r.value, ScopePrefix(f.scope) + f.metricName)
  {
    var op := MetricOperator(f.operator);
    var name := ScopePrefix(f.scope) + f.metricName;
    var v := f.comparisonValue;
    if op == OperatorEqual then Success(name + (if not then "!=" else "==") + v)
    else if op == OperatorLessThan then Success(name + (if not then ">=" else "<") + v)
    else if op == OperatorGreaterThan then Success(name + (if not then "<=" else ">") + v)
    else if op == OperatorBetween then
      if not then Failure(NotUnsupported(OperatorBetween))
      else Success(name + "<>" + v + "_" + f.maxComparisonValue)
    else Failure(UnsupportedMetricOperator(op))
  }

  // ---------------------------------------------------------------------
  // Clauses, simple segments, filters, definitions

  /** V3StringifySegmentFilterClause (lines 92-103): a dimension filter
      wins over a metric filter; a clause with neither is an error. */
  function ClauseText(c: SegmentFilterClause): (r: Result<string, StringifyError>)
    ensures r.Success? ==> c.dimensionFilter.Some? || c.metricFilter.Some?
    ensures c.dimensionFilter.None? && c.metricFilter.None? ==> r == Failure(NoFilterKind)
  {
    match c.dimensionFilter
    case Some(d) => DimensionFilterText(d, c.not)
    case None =>
      match c.metricFilter
      case Some(m) => MetricFilterText(m, c.not)
      case None => Failure(NoFilterKind)
  }

  /** The inner loop of lines 77-83: each clause's text, in order; the
      first failure stops the walk. */
  function ClauseTexts(cs: seq<SegmentFilterClause>): Result<seq<string>, StringifyError>
    decreases |cs|
  {
    if cs == [] then Success([])
    else
      match ClauseText(cs[0])
      case Failure(err) => Failure(err)
      case Success(t) => Prepend(t, ClauseTexts(cs[1..]))
  }

  /** The outer loop of lines 75-87: each group's clauses joined with `,`;
      a group with no clauses adds nothing. */
  function GroupTexts(gs: seq<OrFiltersForSegment>): Result<seq<string>, StringifyError>
    decreases |gs|
  {
    if gs == [] then Success([])
    else
      match ClauseTexts(gs[0].segmentFilterClauses)
      case Failure(err) => Failure(err)
      case Success(ts) =>
        if |ts| > 0 then Prepend(Join(ts, ","), GroupTexts(gs[1..])) else GroupTexts(gs[1..])
  }

  /** V3StringifySimpleSegment (lines 70-89): the group texts joined with
      `;`; nil gives the empty text. */
  function SimpleSegmentText(node: Option<SimpleSegment>): (r: Result<string, StringifyError>)
    ensures node.None? ==> r == Success("")
    ensures node.Some? ==> (r.Success? <==> GroupTexts(node.value.orFiltersForSegment).Success?)
  {
    match node
    case None => Success("")
    case Some(s) =>
      match GroupTexts(s.orFiltersForSegment)
      case Failure(err) => Failure(err)
      case Success(outer) => Success(Join(outer, ";"))
  }

  /** V3StringifySegmentFilter (lines 49-67): a simple segment becomes
      `conditions::`, with `!` after it when the filter is negated; a
      sequence segment is not written back. */
  function FilterText(f: SegmentFilter): (r: Result<string, StringifyError>)
    ensures r.Success? ==> f.simpleSegment.Some? && HasPrefix(r.value, "conditions::")
    ensures f.simpleSegment.None? && f.sequenceSegment.Some? ==> r == Failure(SequenceNotSupported)
    ensures f.simpleSegment.None? && f.sequenceSegment.None? ==> r == Failure(NoSegmentKind)
    ensures f.simpleSegment.Some? ==> (r.Success? <==> SimpleSegmentText(f.simpleSegment).Success?)
  {
    if f.simpleSegment.Some? then
      match SimpleSegmentText(f.simpleSegment)
      case Failure(err) => Failure(err)
      case Success(inner) => Success("conditions::" + (if f.not then "!" + inner else inner))
    else if f.sequenceSegment.Some? then Failure(SequenceNotSupported)
    else Failure(NoSegmentKind)
  }

  /** The loop of lines 38-44: each filter's text, in order. */
  function FilterTexts(fs: seq<SegmentFilter>): Result<seq<string>, StringifyError>
    decreases |fs|
  {
    if fs == [] then Success([])
    else
      match FilterText(fs[0])
      case Failure(err) => Failure(err)
      case Success(t) => Prepend(t, FilterTexts(fs[1..]))
  }

  /** V3StringifySegmentDefinition (lines 33-46): the filter texts joined
      with `;`; nil gives the empty text. */
  function DefinitionText(node: Option<SegmentDefinition>): (r: Result<string, StringifyError>)
    ensures node.None? ==> r == Success("")
    ensures node.Some? ==> (r.Success? <==> FilterTexts(node.value.segmentFilters).Success?)
  {
    match node
    case None => Success("")
    case Some(d) =>
      match FilterTexts(d.segmentFilters)
      case Failure(err) => Failure(err)
      case Success(outer) => Success(Join(outer, ";"))
  }

  /** V3StringifyDynamicSegment (lines 14-30): a session segment, when
      present, is written and the user segment ignored; otherwise the user
      segment is written; with neither it is an error. */
  function DynamicSegmentText(ds: DynamicSegment): (r: Result<string, StringifyError>)
    ensures ds.sessionSegment.None? && ds.userSegment.None? ==> r == Failure(NoSegment)
    ensures r.Success? && ds.sessionSegment.Some? ==> HasPrefix(r.value, "sessions::")
    ensures r.Success? && ds.sessionSegment.None? ==> HasPrefix(r.value, "users::")
    ensures ds.sessionSegment.Some? ==> (r.Success? <==> DefinitionText(ds.sessionSegment).Success?)
    ensures ds.sessionSegment.None? && ds.userSegment.Some? ==> (r.Success? <==> DefinitionText(ds.userSegment).Success?)
  {
    if ds.sessionSegment.Some? then
      match DefinitionText(ds.sessionSegment)
      case Failure(err) => Failure(err)
      case Success(inner) => Success("sessions::" + inner)
    else if ds.userSegment.Some? then
      match DefinitionText(ds.userSegment)
      case Failure(err) => Failure(err)
      case Success(inner) => Success("users::" + inner)
    else Failure(NoSegment)
  }

  // ---------------------------------------------------------------------
  // The two loops

  /** V3StringifySegmentDefinition (lines 33-46): appends each filter's
      text to `outer`, then joins. */
  method V3StringifySegmentDefinition(node: Option<SegmentDefinition>) returns (r: Result<string, StringifyError>)
    ensures r == DefinitionText(node)
  {
    if node.None? {
      return Success("");
    }
    var segmentFilters := node.value.segmentFilters;
    var outer: seq<string> := [];
    assert segmentFilters[0..] == segmentFilters;
    PrependNothing(FilterTexts(segmentFilters));
    for i := 0 to |segmentFilters|
      invariant FilterTexts(segmentFilters) == PrependAll(outer, FilterTexts(segmentFilters[i..]))
    {
      assert segmentFilters[i..][0] == segmentFilters[i] && segmentFilters[i..][1..] == segmentFilters[i + 1..];
      var inner := FilterText(segmentFilters[i]);
      if inner.Failure? {
        return Failure(inner.error);
      }
      PrependOneMore(outer, inner.value, FilterTexts(segmentFilters[i + 1..]));
      outer := outer + [inner.value];
    }
    assert segmentFilters[|segmentFilters|..] == [] && outer + [] == outer;
    return Success(Join(outer, ";"));
  }

  /** V3StringifySimpleSegment (lines 70-89): for each group, appends each
      clause's text to `inner`, and a non-empty `inner` joined with `,` to
      `outer`; then joins `outer` with `;`. */
  method V3StringifySimpleSegment(node: Option<SimpleSegment>) returns (r: Result<string, StringifyError>)
    ensures r == SimpleSegmentText(node)
  {
    if node.None? {
      return Success("");
    }
    var groups := node.value.orFiltersForSegment;
    var outer: seq<string> := [];
    assert groups[0..] == groups;
    PrependNothing(GroupTexts(groups));
    for i := 0 to |groups|
      invariant GroupTexts(groups) == PrependAll(outer, GroupTexts(groups[i..]))
    {
      assert groups[i..][0] == groups[i] && groups[i..][1..] == groups[i + 1..];
      var clauses := groups[i].segmentFilterClauses;
      var inner: seq<string> := [];
      assert clauses[0..] == clauses;
      PrependNothing(ClauseTexts(clauses));
      for j := 0 to |clauses|
        invariant ClauseTexts(clauses) == PrependAll(inner, ClauseTexts(clauses[j..]))
      {
        assert clauses[j..][0] == clauses[j] && clauses[j..][1..] == clauses[j + 1..];
        var expression := ClauseText(clauses[j]);
        if expression.Failure? {
          return Failure(expression.error);
        }
        PrependOneMore(inner, expression.value, ClauseTexts(clauses[j + 1..]));
        inner := inner + [expression.value];
      }
      assert clauses[|clauses|..] == [] && inner + [] == inner;
      if |inner| > 0 {
        PrependOneMore(outer, Join(inner, ","), GroupTexts(groups[i + 1..]));
        outer := outer + [Join(inner, ",")];
      }
    }
    assert groups[|groups|..] == [] && outer + [] == outer;
    return Success(Join(outer, ";"));
  }
}
