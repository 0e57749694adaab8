/** What the reverse stringifier of supportv4/v3stringify.go computes:
    the lists keep count and order, or-groups without clauses vanish, the
    session segment and the dimension filter take precedence, the
    defaulted operators, and the scope prefixes agree with the printer's
    metric-scope tokens. */
module V3StringifyFacts {
  import opened Wrappers
  import opened Strs
  import opened Ast
  import opened Detect
  import opened Reporting
  import opened V3Stringify

  // ---------------------------------------------------------------------
  // Count and order

  /** The clause texts are one per clause, in order, and exist exactly
      when every clause can be written. */
  lemma {:induction false} ClauseTextsMeaning(cs: seq<SegmentFilterClause>)
    ensures ClauseTexts(cs).Success? <==> forall k :: 0 <= k < |cs| ==> ClauseText(cs[k]).Success?
    ensures ClauseTexts(cs).Success? ==>
      |ClauseTexts(cs).value| == |cs| &&
      forall k :: 0 <= k < |cs| ==> ClauseText(cs[k]) == Success(ClauseTexts(cs).value[k])
    decreases |cs|
  {
    if cs != [] {
      ClauseTextsMeaning(cs[1..]);
      assert forall k :: 1 <= k < |cs| ==> cs[k] == cs[1..][k - 1];
    }
  }

  /** The filter texts are one per filter, in order, and exist exactly
      when every filter can be written. */
  lemma {:induction false} FilterTextsMeaning(fs: seq<SegmentFilter>)
    ensures FilterTexts(fs).Success? <==> forall k :: 0 <= k < |fs| ==> FilterText(fs[k]).Success?
    ensures FilterTexts(fs).Success? ==>
      |FilterTexts(fs).value| == |fs| &&
      forall k :: 0 <= k < |fs| ==> FilterText(fs[k]) == Success(FilterTexts(fs).value[k])
    decreases |fs|
  {
    if fs != [] {
      FilterTextsMeaning(fs[1..]);
      assert forall k :: 1 <= k < |fs| ==> fs[k] == fs[1..][k - 1];
    }
  }

  /** The or-groups that hold at least one clause, in order. */
  function NonEmptyGroups(gs: seq<OrFiltersForSegment>): (r: seq<OrFiltersForSegment>)
    ensures |r| <= |gs|
    ensures forall k :: 0 <= k < |r| ==> r[k].segmentFilterClauses != []
    decreases |gs|
  {
    if gs == [] then []
    else if gs[0].segmentFilterClauses == [] then NonEmptyGroups(gs[1..])
    else [gs[0]] + NonEmptyGroups(gs[1..])
  }

  /** An or-group without clauses contributes nothing: the simple segment
      is written as if only the non-empty groups were there, one text per
      such group. */
  lemma {:induction false} EmptyGroupsSkipped(gs: seq<OrFiltersForSegment>)
    ensures GroupTexts(gs) == GroupTexts(NonEmptyGroups(gs))
    ensures GroupTexts(gs).Success? ==> |GroupTexts(gs).value| == |NonEmptyGroups(gs)|
    decreases |gs|
  {
    if gs != [] {
      EmptyGroupsSkipped(gs[1..]);
      var cs := gs[0].segmentFilterClauses;
      ClauseTextsMeaning(cs);
      if cs != [] {
        var ne := NonEmptyGroups(gs);
        assert ne == [gs[0]] + NonEmptyGroups(gs[1..]);
        assert ne[0] == gs[0] && ne[1..] == NonEmptyGroups(gs[1..]);
      }
    }
  }

  // ---------------------------------------------------------------------
  // Precedence

  /** A clause with a dimension filter is written from it, whatever
      metric filter it also holds. */
  lemma DimensionFilterWins(c: SegmentFilterClause, m: Option<SegmentMetricFilter>)
    requires c.dimensionFilter.Some?
    ensures ClauseText(c.(metricFilter := m)) == ClauseText(c)
  {
  }

  /** A dynamic segment with a session segment is written from it, whatever
      user segment it also holds. */
  lemma SessionTakesPrecedence(ds: DynamicSegment, u: Option<SegmentDefinition>)
    requires ds.sessionSegment.Some?
    ensures DynamicSegmentText(ds.(userSegment := u)) == DynamicSegmentText(ds)
  {
  }

  // ---------------------------------------------------------------------
  // Defaulted operators

  /** An empty or OPERATOR_UNSPECIFIED dimension operator is read as
      REGEXP. */
  lemma UnspecifiedDimensionOperator(f: SegmentDimensionFilter, not: bool)
    ensures DimensionFilterText(f.(operator := ""), not) == DimensionFilterText(f.(operator := OperatorRegexp), not)
    ensures DimensionFilterText(f.(operator := OperatorUnspecifiedName), not) ==
      DimensionFilterText(f.(operator := OperatorRegexp), not)
  {
  }

  /** OPERATOR_UNSPECIFIED on a metric is read as EQUAL, but an empty
      metric operator is rejected. */
  lemma UnspecifiedMetricOperator(f: SegmentMetricFilter, not: bool)
    ensures MetricFilterText(f.(operator := OperatorUnspecifiedName), not) ==
      MetricFilterText(f.(operator := OperatorEqual), not)
    ensures MetricFilterText(f.(operator := ""), not) == Failure(UnsupportedMetricOperator(""))
  {
  }

  // ---------------------------------------------------------------------
  // Scope prefixes

  /** The prefix written for the scope DetectScope gives a metric scope is
      the printer's token for that metric scope. */
  lemma ScopePrefixRoundTrip(ms: MetricScope)
    ensures ScopePrefix(DetectScope(ms)) == MetricScopeToken(ms)
  {
  }
}
