/** What the forward transform of supportv4/transform.go computes, stated
    in terms of its input: the list levels keep count and order, the
    segments are routed by scope in order, a scope without segments gets
    no definition, and the steps the parser builds always have a match
    type. */
module TransformFacts {
  import opened Wrappers
  import opened Ast
  import opened Detect
  import opened Reporting
  import opened Transform
  import Split
  import Parser
  import ParserFacts

  // ---------------------------------------------------------------------
  // The list levels keep count and order; the first failure wins

  /** An or-expression becomes one clause per expression, in order; it
      fails exactly when some expression does. */
  lemma {:induction false} OrClausesMeaning(lookup: string -> Result<string, string>, oe: OrExpression)
    ensures OrClauses(lookup, oe).Success? <==> forall k :: 0 <= k < |oe| ==> ExpressionClause(lookup, oe[k]).Success?
    ensures OrClauses(lookup, oe).Success? ==>
      |OrClauses(lookup, oe).value| == |oe| &&
      forall k :: 0 <= k < |oe| ==> ExpressionClause(lookup, oe[k]) == Success(OrClauses(lookup, oe).value[k])
    decreases |oe|
  {
    if oe != [] {
      var rest := oe[1..];
      OrClausesMeaning(lookup, rest);
      assert forall k :: 1 <= k < |oe| ==> oe[k] == rest[k - 1];
    }
  }

  /** On failure the error is that of the first failing element. */
  lemma {:induction false} OrClausesFirstFailure(lookup: string -> Result<string, string>, oe: OrExpression)
    ensures OrClauses(lookup, oe).Failure? ==>
      exists k :: 0 <= k < |oe| && ExpressionClause(lookup, oe[k]) == Failure(OrClauses(lookup, oe).error) &&
        forall j :: 0 <= j < k ==> ExpressionClause(lookup, oe[j]).Success?
    decreases |oe|
  {
    if oe != [] {
      var rest := oe[1..];
      OrClausesFirstFailure(lookup, rest);
      assert forall k :: 1 <= k < |oe| ==> oe[k] == rest[k - 1];
      if ExpressionClause(lookup, oe[0]).Success? && OrClauses(lookup, rest).Failure? {
        var k :| 0 <= k < |rest| && ExpressionClause(lookup, rest[k]) == Failure(OrClauses(lookup, rest).error) &&
          forall j :: 0 <= j < k ==> ExpressionClause(lookup, rest[j]).Success?;
        assert oe[k + 1] == rest[k];
      }
    }
  }

  /** An and-expression becomes one or-filter per group, in order, each
      holding that group's clauses. */
  lemma {:induction false} AndGroupsMeaning(lookup: string -> Result<string, string>, ae: AndExpression)
    ensures AndGroups(lookup, ae).Success? <==> forall k :: 0 <= k < |ae| ==> OrClauses(lookup, ae[k]).Success?
    ensures AndGroups(lookup, ae).Success? ==>
      |AndGroups(lookup, ae).value| == |ae| &&
      forall k :: 0 <= k < |ae| ==>
        OrClauses(lookup, ae[k]) == Success(AndGroups(lookup, ae).value[k].segmentFilterClauses)
    decreases |ae|
  {
    if ae != [] {
      var rest := ae[1..];
      AndGroupsMeaning(lookup, rest);
      assert forall k :: 1 <= k < |ae| ==> ae[k] == rest[k - 1];
    }
  }

  /** On failure the error is that of the first failing element. */
  lemma {:induction false} AndGroupsFirstFailure(lookup: string -> Result<string, string>, ae: AndExpression)
    ensures AndGroups(lookup, ae).Failure? ==>
      exists k :: 0 <= k < |ae| && OrClauses(lookup, ae[k]) == Failure(AndGroups(lookup, ae).error) &&
        forall j :: 0 <= j < k ==> OrClauses(lookup, ae[j]).Success?
    decreases |ae|
  {
    if ae != [] {
      var rest := ae[1..];
      AndGroupsFirstFailure(lookup, rest);
      assert forall k :: 1 <= k < |ae| ==> ae[k] == rest[k - 1];
      if OrClauses(lookup, ae[0]).Success? && AndGroups(lookup, rest).Failure? {
        var k :| 0 <= k < |rest| && OrClauses(lookup, rest[k]) == Failure(AndGroups(lookup, rest).error) &&
          forall j :: 0 <= j < k ==> OrClauses(lookup, rest[j]).Success?;
        assert ae[k + 1] == rest[k];
      }
    }
  }

  /** A sequence keeps its number of steps and their order; it fails
      exactly when some step does. */
  lemma {:induction false} StepsOfMeaning(lookup: string -> Result<string, string>, steps: seq<SequenceStep>)
    ensures StepsOf(lookup, steps).Success? <==> forall k :: 0 <= k < |steps| ==> StepOf(lookup, steps[k]).Success?
    ensures StepsOf(lookup, steps).Success? ==>
      |StepsOf(lookup, steps).value| == |steps| &&
      forall k :: 0 <= k < |steps| ==> StepOf(lookup, steps[k]) == Success(StepsOf(lookup, steps).value[k])
    decreases |steps|
  {
    if steps != [] {
      var rest := steps[1..];
      StepsOfMeaning(lookup, rest);
      assert forall k :: 1 <= k < |steps| ==> steps[k] == rest[k - 1];
    }
  }

  /** On failure the error is that of the first failing element. */
  lemma {:induction false} StepsOfFirstFailure(lookup: string -> Result<string, string>, steps: seq<SequenceStep>)
    ensures StepsOf(lookup, steps).Failure? ==>
      exists k :: 0 <= k < |steps| && StepOf(lookup, steps[k]) == Failure(StepsOf(lookup, steps).error) &&
        forall j :: 0 <= j < k ==> StepOf(lookup, steps[j]).Success?
    decreases |steps|
  {
    if steps != [] {
      var rest := steps[1..];
      StepsOfFirstFailure(lookup, rest);
      assert forall k :: 1 <= k < |steps| ==> steps[k] == rest[k - 1];
      if StepOf(lookup, steps[0]).Success? && StepsOf(lookup, rest).Failure? {
        var k :| 0 <= k < |rest| && StepOf(lookup, rest[k]) == Failure(StepsOf(lookup, rest).error) &&
          forall j :: 0 <= j < k ==> StepOf(lookup, rest[j]).Success?;
        assert steps[k + 1] == rest[k];
      }
    }
  }

  // ---------------------------------------------------------------------
  // What the cache learns

  /** TransformOrExpression only ever stores targets of its own
      expressions, and when it succeeds it has stored all of them. */
  lemma {:induction false} OrTargetsWithin(lookup: string -> Result<string, string>, oe: OrExpression)
    ensures forall t :: t in OrTargets(lookup, oe) ==> exists k :: 0 <= k < |oe| && oe[k].target == t
    ensures OrClauses(lookup, oe).Success? ==> forall k :: 0 <= k < |oe| ==> oe[k].target in OrTargets(lookup, oe)
    decreases |oe|
  {
    if oe != [] {
      var rest := oe[1..];
      OrTargetsWithin(lookup, rest);
      assert forall k :: 1 <= k < |oe| ==> oe[k] == rest[k - 1];
      assert OrTargets(lookup, oe) ==
        {oe[0].target} + (if ExpressionClause(lookup, oe[0]).Failure? then {} else OrTargets(lookup, rest));
      forall t | t in OrTargets(lookup, oe) ensures exists k :: 0 <= k < |oe| && oe[k].target == t {
        if t != oe[0].target {
          var k :| 0 <= k < |rest| && rest[k].target == t;
          assert oe[k + 1].target == t;
        }
      }
    }
  }

  /** TransformAndExpression only ever stores targets of its own
      expressions, and when it succeeds it has stored all of them. */
  lemma {:induction false} AndTargetsWithin(lookup: string -> Result<string, string>, ae: AndExpression)
    ensures forall t :: t in AndTargets(lookup, ae) ==>
      exists i, j :: 0 <= i < |ae| && 0 <= j < |ae[i]| && ae[i][j].target == t
    ensures AndGroups(lookup, ae).Success? ==>
      forall i, j :: 0 <= i < |ae| && 0 <= j < |ae[i]| ==> ae[i][j].target in AndTargets(lookup, ae)
    decreases |ae|
  {
    if ae != [] {
      var rest := ae[1..];
      AndTargetsWithin(lookup, rest);
      OrTargetsWithin(lookup, ae[0]);
      assert forall i :: 1 <= i < |ae| ==> ae[i] == rest[i - 1];
      assert AndTargets(lookup, ae) ==
        OrTargets(lookup, ae[0]) + (if OrClauses(lookup, ae[0]).Failure? then {} else AndTargets(lookup, rest));
      forall t | t in AndTargets(lookup, ae)
        ensures exists i, j :: 0 <= i < |ae| && 0 <= j < |ae[i]| && ae[i][j].target == t
      {
        if t in OrTargets(lookup, ae[0]) {
          var j :| 0 <= j < |ae[0]| && ae[0][j].target == t;
          assert ae[0][j].target == t;
        } else {
          var i, j :| 0 <= i < |rest| && 0 <= j < |rest[i]| && rest[i][j].target == t;
          assert ae[i + 1][j].target == t;
        }
      }
    }
  }

  // ---------------------------------------------------------------------
  // Routing by scope

  /** The segments of one scope, in input order. */
  function OfScope(segs: Segments, scope: SegmentScope): (r: Segments)
    ensures forall k :: 0 <= k < |r| ==> r[k].scope == scope
    ensures r == [] <==> forall k :: 0 <= k < |segs| ==> segs[k].scope != scope
    decreases |segs|
  {
    if segs == [] then []
    else
      var rest := OfScope(segs[1..], scope);
      assert forall k :: 1 <= k < |segs| ==> segs[k] == segs[1..][k - 1];
      if segs[0].scope == scope then [segs[0]] + rest else rest
  }

  /** TransformSegments succeeds exactly when every segment has a scope and
      a filter. */
  lemma {:induction false} RouteSucceeds(lookup: string -> Result<string, string>, segs: Segments)
    ensures RouteSegments(lookup, segs).Success? <==>
      forall k :: 0 <= k < |segs| ==> segs[k].scope != NoScope && SegmentFilterOf(lookup, segs[k]).Success?
    decreases |segs|
  {
    if segs != [] {
      var rest := segs[1..];
      RouteSucceeds(lookup, rest);
      assert forall k :: 1 <= k < |segs| ==> segs[k] == rest[k - 1];
    }
  }

  /** On success the session list holds the filters of the session
      segments, in input order. */
  lemma {:induction false} RouteSessions(lookup: string -> Result<string, string>, segs: Segments)
    ensures RouteSegments(lookup, segs).Success? ==>
      var sessions := RouteSegments(lookup, segs).value.0;
      var sessionSegs := OfScope(segs, SessionScope);
      |sessions| == |sessionSegs| &&
      forall k :: 0 <= k < |sessions| ==> SegmentFilterOf(lookup, sessionSegs[k]) == Success(sessions[k])
    decreases |segs|
  {
    if segs != [] && RouteSegments(lookup, segs).Success? {
      var rest := segs[1..];
      RouteSessions(lookup, rest);
      var f := SegmentFilterOf(lookup, segs[0]).value;
      var (s, u) := RouteSegments(lookup, rest).value;
      assert [] + s == s && [] + u == u;
      var sessions := RouteSegments(lookup, segs).value.0;
      var sessionSegs := OfScope(segs, SessionScope);
      if segs[0].scope == SessionScope {
        assert sessions == [f] + s && sessionSegs == [segs[0]] + OfScope(rest, SessionScope);
      } else {
        assert sessions == s && sessionSegs == OfScope(rest, SessionScope);
      }
    }
  }

  /** On success the user list holds the filters of the user segments, in
      input order. */
  lemma {:induction false} RouteUsers(lookup: string -> Result<string, string>, segs: Segments)
    ensures RouteSegments(lookup, segs).Success? ==>
      var users := RouteSegments(lookup, segs).value.1;
      var userSegs := OfScope(segs, UserScope);
      |users| == |userSegs| &&
      forall k :: 0 <= k < |users| ==> SegmentFilterOf(lookup, userSegs[k]) == Success(users[k])
    decreases |segs|
  {
    if segs != [] && RouteSegments(lookup, segs).Success? {
      var rest := segs[1..];
      RouteUsers(lookup, rest);
      var f := SegmentFilterOf(lookup, segs[0]).value;
      var (s, u) := RouteSegments(lookup, rest).value;
      assert [] + s == s && [] + u == u;
      var users := RouteSegments(lookup, segs).value.1;
      var userSegs := OfScope(segs, UserScope);
      if segs[0].scope == UserScope {
        assert users == [f] + u && userSegs == [segs[0]] + OfScope(rest, UserScope);
      } else {
        assert users == u && userSegs == OfScope(rest, UserScope);
      }
    }
  }

  /** A scope that no segment has gets no definition, and one that some
      segment has gets a definition with one filter per such segment; the
      name is always "-". */
  lemma NilDefinitions(lookup: string -> Result<string, string>, segs: Segments)
    requires SegmentsOf(lookup, segs).Success?
    ensures var ds := SegmentsOf(lookup, segs).value;
      && ds.name == "-"
      && (ds.sessionSegment.None? <==> forall k :: 0 <= k < |segs| ==> segs[k].scope != SessionScope)
      && (ds.userSegment.None? <==> forall k :: 0 <= k < |segs| ==> segs[k].scope != UserScope)
      && (ds.sessionSegment.Some? ==> |ds.sessionSegment.value.segmentFilters| == |OfScope(segs, SessionScope)|)
      && (ds.userSegment.Some? ==> |ds.userSegment.value.segmentFilters| == |OfScope(segs, UserScope)|)
  {
    RouteSucceeds(lookup, segs);
    RouteSessions(lookup, segs);
    RouteUsers(lookup, segs);
  }

  /** TransformSegment gives what TransformSegments gives for the list of
      that one segment. */
  lemma SingleSegment(lookup: string -> Result<string, string>, seg: Segment)
    ensures SegmentOf(lookup, seg) == SegmentsOf(lookup, [seg])
  {
    assert [seg][1..] == [];
    if SegmentFilterOf(lookup, seg).Success? {
      var f := SegmentFilterOf(lookup, seg).value;
      var none: seq<SegmentFilter> := [];
      assert [f] + none == [f] && none + none == none;
      assert RouteSegments(lookup, [seg][1..]) == Success((none, none));
      if seg.scope == UserScope {
        assert RouteSegments(lookup, [seg]) == Success((none, [f]));
      } else if seg.scope == SessionScope {
        assert RouteSegments(lookup, [seg]) == Success(([f], none));
      }
    }
  }

  // ---------------------------------------------------------------------
  // Parsed sequences always have match types

  /** Every step of a parsed sequence has a match type, so the error that
      TransformSequqnceStep drops never occurs on parser output: the first
      step gets the unspecified match type and each later one PRECEDES or
      IMMEDIATELY_PRECEDES. */
  lemma ParsedStepsHaveMatchTypes(d: string)
    requires Parser.SequenceOf(d).Success?
    ensures var steps := Parser.SequenceOf(d).value.sequenceSteps;
      && |steps| > 0
      && StepMatchType(steps[0].stepType) == MatchTypeUnspecified
      && (forall k :: 0 <= k < |steps| ==> DetectMatchType(steps[k].stepType).Success?)
      && (forall k :: 1 <= k < |steps| ==>
            StepMatchType(steps[k].stepType) in {MatchTypePrecedes, MatchTypeImmediatelyPrecedes})
  {
    ParserFacts.SequenceSteps(d);
    var parts := Split.SplitOf(Parser.SequenceBody(d), Split.SequenceSeparatorRe);
    var steps := Parser.SequenceOf(d).value.sequenceSteps;
    forall k | 1 <= k < |steps|
      ensures steps[k].stepType == Precedes || steps[k].stepType == ImmediatelyPrecedes
    {
      var j := k - 1;
      assert steps[j + 1].stepType == ParserFacts.PartAt(parts, 1, j);
    }
  }
}
