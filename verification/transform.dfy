/** supportv4/transform.go: the forward transform from the parser-shape
    tree to the Reporting API v4 DynamicSegment.

    Each transform that may consult the filter-type cache is a method over
    a FilterTypeCache; beside it stands a function of the same step that
    reads the attribute lookup directly, as a cache that has never seen the
    identifier would.  Every method succeeds exactly when its function does
    and then returns the same value, so the cache never changes a
    successful transform.  Every method also states the cache map it
    leaves: the old map with each target it detected stored under the
    type the lookup gives, and nothing else changed. */
module Transform {
  import opened Wrappers
  import opened Ast
  import opened Detect
  import opened Reporting

  datatype TransformError =
    | CannotGuessScope(scope: SegmentScope)
    | CannotGuessType(segmentType: SegmentType)
    | CannotGuessExpression(filterType: FilterType)
    | DetectFailed(cause: DetectError)
    /** The panic of indexing `vs[1]` when a Between value has no `_`. */
    | IndexOutOfRange

  /** The name every transform gives its DynamicSegment (lines 13, 58). */
  const Name: string := "-"

  /** strings.SplitN(s, "_", 2) when the result has two elements; None when
      `s` has no underscore and the result has only one. */
  function SplitUnderscore(s: string): (r: Option<(string, string)>)
    ensures r.None? <==> '_' !in s
    ensures r.Some? ==> s == r.value.0 + "_" + r.value.1 && '_' !in r.value.0
  {
    if s == [] then None
    else if s[0] == '_' then Some(([], s[1..]))
    else
      match SplitUnderscore(s[1..])
      case None => None
      case Some((lo, hi)) =>
        assert s == [s[0]] + s[1..];
        Some(([s[0]] + lo, hi))
  }

  // ---------------------------------------------------------------------
  // Clause builders (lines 199-258)

  /** NewDimensionFilterClause (lines 200-228).  The operator and `not` come
      from the dimension table.  Between is split at its first underscore
      into the min and max values and fails without one; every other
      operator sends the value as the only expression. */
  function NewDimensionFilterClause(e: Expression): (r: Result<SegmentFilterClause, TransformError>)
    ensures r.Success? <==> e.operator != Between || '_' in e.value
    ensures r.Failure? ==> r.error == IndexOutOfRange
    ensures r.Success? ==>
      r.value.not == DetectOperatorOnDimension(e.operator).1 &&
      r.value.metricFilter.None? && r.value.dimensionFilter.Some? &&
      r.value.dimensionFilter.value.dimensionName == e.target &&
      r.value.dimensionFilter.value.operator == DetectOperatorOnDimension(e.operator).0
    ensures r.Success? && e.operator == Between ==>
      var f := r.value.dimensionFilter.value;
      f.expressions == [] && '_' !in f.minComparisonValue &&
      f.minComparisonValue + "_" + f.maxComparisonValue == e.value
    ensures r.Success? && e.operator != Between ==>
      var f := r.value.dimensionFilter.value;
      f.expressions == [e.value] && f.minComparisonValue == "" && f.maxComparisonValue == ""
  {
    var (op, not) := DetectOperatorOnDimension(e.operator);
    if e.operator == Between then
      match SplitUnderscore(e.value)
      case None => Failure(IndexOutOfRange)
      case Some((lo, hi)) =>
        Success(SegmentFilterClause(not, Some(SegmentDimensionFilter(e.target, op, [], lo, hi)), None))
    else
      Success(SegmentFilterClause(not, Some(SegmentDimensionFilter(e.target, op, [e.value], "", "")), None))
  }

  /** NewMetricFilterClause (lines 231-259).  Only comparison operators are
      accepted.  Between is split as for dimensions into the comparison and
      maximum values; otherwise the value is the comparison value.  The
      metric scope is never set. */
  function NewMetricFilterClause(e: Expression): (r: Result<SegmentFilterClause, TransformError>)
    ensures r.Success? <==> IsComparison(e.operator) && (e.operator != Between || '_' in e.value)
    ensures !IsComparison(e.operator) ==> r == Failure(DetectFailed(UnspecifiedOperatorOnMetric(e.operator)))
    ensures IsComparison(e.operator) && r.Failure? ==> r.error == IndexOutOfRange
    ensures r.Success? ==>
      r.value.not == DetectOperatorOnMetric(e.operator).value.1 &&
      r.value.dimensionFilter.None? && r.value.metricFilter.Some? &&
      r.value.metricFilter.value.metricName == e.target &&
      r.value.metricFilter.value.operator == DetectOperatorOnMetric(e.operator).value.0 &&
      r.value.metricFilter.value.scope == ScopeUnspecified
    ensures r.Success? && e.operator == Between ==>
      var f := r.value.metricFilter.value;
      '_' !in f.comparisonValue && f.comparisonValue + "_" + f.maxComparisonValue == e.value
    ensures r.Success? && e.operator != Between ==>
      var f := r.value.metricFilter.value;
      f.comparisonValue == e.value && f.maxComparisonValue == ""
  {
    match DetectOperatorOnMetric(e.operator)
    case Failure(err) => Failure(DetectFailed(err))
    case Success((op, not)) =>
      if e.operator == Between then
        match SplitUnderscore(e.value)
        case None => Failure(IndexOutOfRange)
        case Some((lo, hi)) =>
          Success(SegmentFilterClause(not, None, Some(SegmentMetricFilter(e.target, op, ScopeUnspecified, lo, hi))))
      else
        Success(SegmentFilterClause(not, None, Some(SegmentMetricFilter(e.target, op, ScopeUnspecified, e.value, ""))))
  }

  // ---------------------------------------------------------------------
  // The transform as functions of the attribute lookup

  /** TransformExpression (lines 184-197) on a cold cache: the target's
      filter type chooses the builder.  A clause carries a dimension filter
      exactly when the target is a dimension, a metric filter exactly when
      it is a metric. */
  function ExpressionClause(lookup: string -> Result<string, string>, e: Expression): (r: Result<SegmentFilterClause, TransformError>)
    ensures r.Success? ==> DetectFilterTypeOnce(lookup(e.target)).filterType != UnspecifiedType
    ensures r.Success? ==>
      (r.value.dimensionFilter.Some? <==> DetectFilterTypeOnce(lookup(e.target)).filterType == DimensionType) &&
      (r.value.metricFilter.Some? <==> DetectFilterTypeOnce(lookup(e.target)).filterType == MetricType)
  {
    var d := FirstDetection(e.target, lookup(e.target));
    match d.filterType
    case DimensionType => NewDimensionFilterClause(e)
    case MetricType => NewMetricFilterClause(e)
    case UnspecifiedType => Failure(DetectFailed(d.err.value))
  }

  /** TransformOrExpression (lines 170-181): the clauses in order; the first
      failure stops the walk. */
  function OrClauses(lookup: string -> Result<string, string>, oe: OrExpression): (r: Result<seq<SegmentFilterClause>, TransformError>)
    ensures r.Success? ==> |r.value| == |oe|
    decreases |oe|
  {
    if oe == [] then Success([])
    else
      match ExpressionClause(lookup, oe[0])
      case Failure(err) => Failure(err)
      case Success(c) => Prepend(c, OrClauses(lookup, oe[1..]))
  }

  /** TransformAndExpression (lines 156-167): one or-filter per group. */
  function AndGroups(lookup: string -> Result<string, string>, ae: AndExpression): (r: Result<seq<OrFiltersForSegment>, TransformError>)
    ensures r.Success? ==> |r.value| == |ae|
    decreases |ae|
  {
    if ae == [] then Success([])
    else
      match OrClauses(lookup, ae[0])
      case Failure(err) => Failure(err)
      case Success(cs) => Prepend(OrFiltersForSegment(cs), AndGroups(lookup, ae[1..]))
  }

  /** The match type a step is sent with: DetectMatchType's answer, or the
      empty string it returns beside its error, which line 130 drops. */
  function StepMatchType(stepType: SequenceStepType): (m: string)
    ensures DetectMatchType(stepType).Success? ==> m == DetectMatchType(stepType).value
    ensures DetectMatchType(stepType).Failure? ==> m == ""
  {
    match DetectMatchType(stepType)
    case Success(m) => m
    case Failure(_) => ""
  }

  /** TransformSequqnceStep (lines 129-139; the source's own spelling). */
  function StepOf(lookup: string -> Result<string, string>, step: SequenceStep): (r: Result<SegmentSequenceStep, TransformError>)
    ensures r.Success? ==> |r.value.orFiltersForSegment| == |step.andExpression|
    ensures r.Success? && DetectMatchType(step.stepType).Success? ==> r.value.matchType == DetectMatchType(step.stepType).value
  {
    match AndGroups(lookup, step.andExpression)
    case Failure(err) => Failure(err)
    case Success(gs) => Success(SegmentSequenceStep(StepMatchType(step.stepType), gs))
  }

  /** TransformSequenceSteps (lines 115-126). */
  function StepsOf(lookup: string -> Result<string, string>, steps: seq<SequenceStep>): (r: Result<seq<SegmentSequenceStep>, TransformError>)
    ensures r.Success? ==> |r.value| == |steps|
    decreases |steps|
  {
    if steps == [] then Success([])
    else
      match StepOf(lookup, steps[0])
      case Failure(err) => Failure(err)
      case Success(s) => Prepend(s, StepsOf(lookup, steps[1..]))
  }

  /** TransformCondition (lines 142-153): a simple segment, negated when
      the condition excludes. */
  function ConditionFilter(lookup: string -> Result<string, string>, c: Condition): (r: Result<SegmentFilter, TransformError>)
    ensures r.Success? <==> AndGroups(lookup, c.andExpression).Success?
    ensures r.Success? ==>
      r.value.not == c.exclude && r.value.sequenceSegment.None? && r.value.simpleSegment.Some?
  {
    match AndGroups(lookup, c.andExpression)
    case Failure(err) => Failure(err)
    case Success(gs) => Success(SegmentFilter(c.exclude, Some(SimpleSegment(gs)), None))
  }

  /** TransformSequence (lines 100-112): a sequence segment keeping the
      sequence's negation and first-hit flag. */
  function SequenceFilter(lookup: string -> Result<string, string>, s: Sequence): (r: Result<SegmentFilter, TransformError>)
    ensures r.Success? <==> StepsOf(lookup, s.sequenceSteps).Success?
    ensures r.Success? ==>
      r.value.not == s.not && r.value.simpleSegment.None? && r.value.sequenceSegment.Some? &&
      r.value.sequenceSegment.value.firstStepShouldMatchFirstHit == s.firstHitMatchesFirstStep
  {
    match StepsOf(lookup, s.sequenceSteps)
    case Failure(err) => Failure(err)
    case Success(steps) =>
      Success(SegmentFilter(s.not, None, Some(Reporting.SequenceSegment(s.firstHitMatchesFirstStep, steps))))
  }

  /** NewSegmentFilter (lines 88-97): the segment type chooses the payload;
      a segment of no type is an error. */
  function SegmentFilterOf(lookup: string -> Result<string, string>, seg: Segment): (r: Result<SegmentFilter, TransformError>)
    ensures seg.segmentType == NoType ==> r == Failure(CannotGuessType(NoType))
    ensures r.Success? ==>
      (r.value.simpleSegment.Some? <==> seg.segmentType == ConditionSegment) &&
      (r.value.sequenceSegment.Some? <==> seg.segmentType == Ast.SequenceSegment)
  {
    match seg.segmentType
    case ConditionSegment => ConditionFilter(lookup, seg.condition)
    case SequenceSegment => SequenceFilter(lookup, seg.sequence)
    case NoType => Failure(CannotGuessType(NoType))
  }

  /** Adds filters in front of both lists of a routing result. */
  function PrependRoute(sessions: seq<SegmentFilter>, users: seq<SegmentFilter>,
                        r: Result<(seq<SegmentFilter>, seq<SegmentFilter>), TransformError>)
    : Result<(seq<SegmentFilter>, seq<SegmentFilter>), TransformError>
  {
    match r
    case Failure(err) => Failure(err)
    case Success((s, u)) => Success((sessions + s, users + u))
  }

  /** Proof helper: prepending twice is prepending the concatenations,
      and prepending nothing changes nothing. */
  lemma PrependRouteTwice(s: seq<SegmentFilter>, u: seq<SegmentFilter>, s2: seq<SegmentFilter>, u2: seq<SegmentFilter>,
                          x: Result<(seq<SegmentFilter>, seq<SegmentFilter>), TransformError>)
    ensures PrependRoute(s, u, PrependRoute(s2, u2, x)) == PrependRoute(s + s2, u + u2, x)
    ensures PrependRoute([], [], x) == x
  {
    match x
    case Success((a, b)) =>
      assert [] + a == a && [] + b == b;
      assert s + (s2 + a) == (s + s2) + a;
      assert u + (u2 + b) == (u + u2) + b;
    case Failure(_) =>
  }

  /** The loop of TransformSegments (lines 20-37): the session filters and
      the user filters, each in input order; a segment of no scope stops
      the walk before its filter is built. */
  function RouteSegments(lookup: string -> Result<string, string>, segs: Segments)
    : (r: Result<(seq<SegmentFilter>, seq<SegmentFilter>), TransformError>)
    ensures r.Success? ==> |r.value.0| + |r.value.1| == |segs|
    decreases |segs|
  {
    if segs == [] then Success(([], []))
    else
      match segs[0].scope
      case UserScope =>
        (match SegmentFilterOf(lookup, segs[0])
         case Failure(err) => Failure(err)
         case Success(f) => PrependRoute([], [f], RouteSegments(lookup, segs[1..])))
      case SessionScope =>
        (match SegmentFilterOf(lookup, segs[0])
         case Failure(err) => Failure(err)
         case Success(f) => PrependRoute([f], [], RouteSegments(lookup, segs[1..])))
      case NoScope => Failure(CannotGuessScope(NoScope))
  }

  /** A segment definition for a scope's filters, nil when there are none
      (lines 39-48). */
  function DefinitionOf(filters: seq<SegmentFilter>): (r: Option<SegmentDefinition>)
    ensures r.None? <==> filters == []
    ensures r.Some? ==> r.value.segmentFilters == filters
  {
    if |filters| > 0 then Some(SegmentDefinition(filters)) else None
  }

  /** TransformSegments (lines 12-54). */
  function SegmentsOf(lookup: string -> Result<string, string>, segs: Segments): (r: Result<DynamicSegment, TransformError>)
    ensures r.Success? <==> RouteSegments(lookup, segs).Success?
    ensures r.Success? ==> r.value.name == Name
  {
    match RouteSegments(lookup, segs)
    case Failure(err) => Failure(err)
    case Success((sessions, users)) => Success(DynamicSegment(Name, DefinitionOf(sessions), DefinitionOf(users)))
  }

  /** TransformSegment (lines 57-85): one segment, one filter in its
      scope's definition and none in the other. */
  function SegmentOf(lookup: string -> Result<string, string>, seg: Segment): (r: Result<DynamicSegment, TransformError>)
    ensures seg.scope == NoScope ==> r == Failure(CannotGuessScope(NoScope))
    ensures r.Success? ==> r.value.name == Name
    ensures r.Success? && seg.scope == UserScope ==>
      SegmentFilterOf(lookup, seg).Success? && r.value.sessionSegment.None? &&
      r.value.userSegment == Some(SegmentDefinition([SegmentFilterOf(lookup, seg).value]))
    ensures r.Success? && seg.scope == SessionScope ==>
      SegmentFilterOf(lookup, seg).Success? && r.value.userSegment.None? &&
      r.value.sessionSegment == Some(SegmentDefinition([SegmentFilterOf(lookup, seg).value]))
  {
    match seg.scope
    case UserScope =>
      (match SegmentFilterOf(lookup, seg)
       case Failure(err) => Failure(err)
       case Success(f) => Success(DynamicSegment(Name, None, Some(SegmentDefinition([f])))))
    case SessionScope =>
      (match SegmentFilterOf(lookup, seg)
       case Failure(err) => Failure(err)
       case Success(f) => Success(DynamicSegment(Name, Some(SegmentDefinition([f])), None)))
    case NoScope => Failure(CannotGuessScope(NoScope))
  }

  // ---------------------------------------------------------------------
  // What a transform teaches the cache

  /** The cache map after each identifier of `ks` has been detected: every
      such identifier is stored with the type the lookup gives, and every
      other entry is kept. */
  ghost function Learned(m: map<string, FilterType>, lookup: string -> Result<string, string>, ks: set<string>)
    : (r: map<string, FilterType>)
    ensures r.Keys == m.Keys + ks
    ensures forall k :: k in ks ==> r[k] == DetectFilterTypeOnce(lookup(k)).filterType
    ensures forall k :: k in m && k !in ks ==> r[k] == m[k]
  {
    map k | k in m.Keys + ks :: if k in ks then DetectFilterTypeOnce(lookup(k)).filterType else m[k]
  }

  /** Proof helper: learning nothing keeps the map. */
  lemma LearnedNothing(m: map<string, FilterType>, lookup: string -> Result<string, string>)
    ensures Learned(m, lookup, {}) == m
  {
  }

  /** Proof helper: learning one identifier is one map update. */
  lemma LearnedOne(m: map<string, FilterType>, lookup: string -> Result<string, string>, k: string)
    ensures Learned(m, lookup, {k}) == m[k := DetectFilterTypeOnce(lookup(k)).filterType]
  {
  }

  /** Proof helper: learning `a` and then `b` is learning both. */
  lemma LearnedTwice(m: map<string, FilterType>, lookup: string -> Result<string, string>, a: set<string>, b: set<string>)
    ensures Learned(Learned(m, lookup, a), lookup, b) == Learned(m, lookup, a + b)
  {
  }

  /** Proof helper: one step of a walk that learns `a` and then, unless it
      failed, the rest. */
  lemma LearnedStep(before: map<string, FilterType>, lookup: string -> Result<string, string>,
                    a: set<string>, rest: set<string>, failed: bool, goal: map<string, FilterType>)
    requires Learned(before, lookup, a + (if failed then {} else rest)) == goal
    ensures failed ==> Learned(before, lookup, a) == goal
    ensures !failed ==> Learned(Learned(before, lookup, a), lookup, rest) == goal
  {
    LearnedTwice(before, lookup, a, rest);
    assert a + {} == a;
  }

  /** The targets TransformOrExpression detects: each expression's target,
      up to and including the first expression that fails. */
  ghost function OrTargets(lookup: string -> Result<string, string>, oe: OrExpression): set<string>
    decreases |oe|
  {
    if oe == [] then {}
    else {oe[0].target} + (if ExpressionClause(lookup, oe[0]).Failure? then {} else OrTargets(lookup, oe[1..]))
  }

  /** The targets TransformAndExpression detects, group by group up to the
      first group that fails. */
  ghost function AndTargets(lookup: string -> Result<string, string>, ae: AndExpression): set<string>
    decreases |ae|
  {
    if ae == [] then {}
    else OrTargets(lookup, ae[0]) + (if OrClauses(lookup, ae[0]).Failure? then {} else AndTargets(lookup, ae[1..]))
  }

  /** The targets TransformSequenceSteps detects, step by step up to the
      first step that fails. */
  ghost function StepsTargets(lookup: string -> Result<string, string>, steps: seq<SequenceStep>): set<string>
    decreases |steps|
  {
    if steps == [] then {}
    else
      AndTargets(lookup, steps[0].andExpression) +
      (if StepOf(lookup, steps[0]).Failure? then {} else StepsTargets(lookup, steps[1..]))
  }

  /** The targets NewSegmentFilter detects: none for a segment of no type. */
  ghost function SegmentTargets(lookup: string -> Result<string, string>, seg: Segment): set<string>
  {
    match seg.segmentType
    case ConditionSegment => AndTargets(lookup, seg.condition.andExpression)
    case SequenceSegment => StepsTargets(lookup, seg.sequence.sequenceSteps)
    case NoType => {}
  }

  /** The targets TransformSegments detects, segment by segment up to the
      first that fails; a segment of no scope stops the walk before its
      filter is built. */
  ghost function SegmentsTargets(lookup: string -> Result<string, string>, segs: Segments): set<string>
    decreases |segs|
  {
    if segs == [] || segs[0].scope == NoScope then {}
    else
      SegmentTargets(lookup, segs[0]) +
      (if SegmentFilterOf(lookup, segs[0]).Failure? then {} else SegmentsTargets(lookup, segs[1..]))
  }

  /** Proof helper: one expression of TransformOrExpression's walk. */
  lemma OrWalkStep(lookup: string -> Result<string, string>, oe: OrExpression, i: nat,
                   before: map<string, FilterType>, goal: map<string, FilterType>)
    requires i < |oe| && Learned(before, lookup, OrTargets(lookup, oe[i..])) == goal
    ensures ExpressionClause(lookup, oe[i]).Failure? ==> Learned(before, lookup, {oe[i].target}) == goal
    ensures ExpressionClause(lookup, oe[i]).Success? ==>
      Learned(Learned(before, lookup, {oe[i].target}), lookup, OrTargets(lookup, oe[i + 1..])) == goal
  {
    assert oe[i..][0] == oe[i] && oe[i..][1..] == oe[i + 1..];
    LearnedStep(before, lookup, {oe[i].target}, OrTargets(lookup, oe[i + 1..]), ExpressionClause(lookup, oe[i]).Failure?, goal);
  }

  /** Proof helper: one group of TransformAndExpression's walk. */
  lemma AndWalkStep(lookup: string -> Result<string, string>, ae: AndExpression, i: nat,
                    before: map<string, FilterType>, goal: map<string, FilterType>)
    requires i < |ae| && Learned(before, lookup, AndTargets(lookup, ae[i..])) == goal
    ensures OrClauses(lookup, ae[i]).Failure? ==> Learned(before, lookup, OrTargets(lookup, ae[i])) == goal
    ensures OrClauses(lookup, ae[i]).Success? ==>
      Learned(Learned(before, lookup, OrTargets(lookup, ae[i])), lookup, AndTargets(lookup, ae[i + 1..])) == goal
  {
    assert ae[i..][0] == ae[i] && ae[i..][1..] == ae[i + 1..];
    LearnedStep(before, lookup, OrTargets(lookup, ae[i]), AndTargets(lookup, ae[i + 1..]), OrClauses(lookup, ae[i]).Failure?, goal);
  }

  /** Proof helper: one step of TransformSequenceSteps' walk. */
  lemma StepsWalkStep(lookup: string -> Result<string, string>, steps: seq<SequenceStep>, i: nat,
                      before: map<string, FilterType>, goal: map<string, FilterType>)
    requires i < |steps| && Learned(before, lookup, StepsTargets(lookup, steps[i..])) == goal
    ensures StepOf(lookup, steps[i]).Failure? ==> Learned(before, lookup, AndTargets(lookup, steps[i].andExpression)) == goal
    ensures StepOf(lookup, steps[i]).Success? ==>
      Learned(Learned(before, lookup, AndTargets(lookup, steps[i].andExpression)), lookup, StepsTargets(lookup, steps[i + 1..])) == goal
  {
    assert steps[i..][0] == steps[i] && steps[i..][1..] == steps[i + 1..];
    LearnedStep(before, lookup, AndTargets(lookup, steps[i].andExpression), StepsTargets(lookup, steps[i + 1..]),
      StepOf(lookup, steps[i]).Failure?, goal);
  }

  // ---------------------------------------------------------------------
  // The transform over the cache

  /** TransformExpression (lines 184-197).  On a target the cache has not
      seen the answer is exactly the cold-cache one; on a target it has
      seen, only the error may differ. */
  method TransformExpression(cache: FilterTypeCache, e: Expression) returns (r: Result<SegmentFilterClause, TransformError>)
    requires cache.Valid()
    modifies cache
    ensures cache.Valid()
    ensures r.Failure? <==> ExpressionClause(cache.lookup, e).Failure?
    ensures r.Success? ==> r == ExpressionClause(cache.lookup, e)
    ensures e.target !in old(cache.filterTypeMap) ==> r == ExpressionClause(cache.lookup, e)
    ensures cache.filterTypeMap == old(cache.filterTypeMap)[e.target := DetectFilterTypeOnce(cache.lookup(e.target)).filterType]
  {
    var d := cache.DetectFilterType(e.target);
    if d.err.Some? {
      return Failure(DetectFailed(d.err.value));
    }
    match d.filterType
    case DimensionType =>
      r := NewDimensionFilterClause(e);
    case MetricType =>
      r := NewMetricFilterClause(e);
    case UnspecifiedType =>
      r := Failure(CannotGuessExpression(d.filterType));
  }

  /** TransformOrExpression (lines 170-181): fills the clause slice by
      index. */
  method TransformOrExpression(cache: FilterTypeCache, oe: OrExpression) returns (r: Result<OrFiltersForSegment, TransformError>)
    requires cache.Valid()
    modifies cache
    ensures cache.Valid()
    ensures r.Failure? <==> OrClauses(cache.lookup, oe).Failure?
    ensures r.Success? ==> r.value == OrFiltersForSegment(OrClauses(cache.lookup, oe).value)
    ensures cache.filterTypeMap == Learned(old(cache.filterTypeMap), cache.lookup, OrTargets(cache.lookup, oe))
  {
    var clauses := new SegmentFilterClause[|oe|];
    assert oe[0..] == oe;
    PrependNothing(OrClauses(cache.lookup, oe));
    ghost var goal := Learned(cache.filterTypeMap, cache.lookup, OrTargets(cache.lookup, oe));
    for i := 0 to |oe|
      invariant cache.Valid()
      invariant OrClauses(cache.lookup, oe) == PrependAll(clauses[..i], OrClauses(cache.lookup, oe[i..]))
      invariant Learned(cache.filterTypeMap, cache.lookup, OrTargets(cache.lookup, oe[i..])) == goal
    {
      assert oe[i..][0] == oe[i] && oe[i..][1..] == oe[i + 1..];
      ghost var before := cache.filterTypeMap;
      var clause := TransformExpression(cache, oe[i]);
      LearnedOne(before, cache.lookup, oe[i].target);
      OrWalkStep(cache.lookup, oe, i, before, goal);
      if clause.Failure? {
        return Failure(clause.error);
      }
      ghost var done := clauses[..i];
      PrependOneMore(done, clause.value, OrClauses(cache.lookup, oe[i + 1..]));
      clauses[i] := clause.value;
      assert clauses[..i] == done;
      assert clauses[..i + 1] == clauses[..i] + [clauses[i]];
    }
    assert oe[|oe|..] == [] && clauses[..|oe|] == clauses[..];
    LearnedNothing(cache.filterTypeMap, cache.lookup);
    return Success(OrFiltersForSegment(clauses[..]));
  }

  /** TransformAndExpression (lines 156-167). */
  method TransformAndExpression(cache: FilterTypeCache, ae: AndExpression) returns (r: Result<seq<OrFiltersForSegment>, TransformError>)
    requires cache.Valid()
    modifies cache
    ensures cache.Valid()
    ensures r.Failure? <==> AndGroups(cache.lookup, ae).Failure?
    ensures r.Success? ==> r == AndGroups(cache.lookup, ae)
    ensures cache.filterTypeMap == Learned(old(cache.filterTypeMap), cache.lookup, AndTargets(cache.lookup, ae))
  {
    var orSegments := new OrFiltersForSegment[|ae|];
    assert ae[0..] == ae;
    PrependNothing(AndGroups(cache.lookup, ae));
    ghost var goal := Learned(cache.filterTypeMap, cache.lookup, AndTargets(cache.lookup, ae));
    for i := 0 to |ae|
      invariant cache.Valid()
      invariant AndGroups(cache.lookup, ae) == PrependAll(orSegments[..i], AndGroups(cache.lookup, ae[i..]))
      invariant Learned(cache.filterTypeMap, cache.lookup, AndTargets(cache.lookup, ae[i..])) == goal
    {
      assert ae[i..][0] == ae[i] && ae[i..][1..] == ae[i + 1..];
      ghost var before := cache.filterTypeMap;
      var orSegment := TransformOrExpression(cache, ae[i]);
      AndWalkStep(cache.lookup, ae, i, before, goal);
      if orSegment.Failure? {
        return Failure(orSegment.error);
      }
      ghost var done := orSegments[..i];
      PrependOneMore(done, orSegment.value, AndGroups(cache.lookup, ae[i + 1..]));
      orSegments[i] := orSegment.value;
      assert orSegments[..i] == done;
      assert orSegments[..i + 1] == orSegments[..i] + [orSegments[i]];
    }
    assert ae[|ae|..] == [] && orSegments[..|ae|] == orSegments[..] && orSegments[..] + [] == orSegments[..];
    LearnedNothing(cache.filterTypeMap, cache.lookup);
    return Success(orSegments[..]);
  }

  /** TransformSequqnceStep (lines 129-139; the source's own spelling). */
  method TransformSequenceStep(cache: FilterTypeCache, step: SequenceStep) returns (r: Result<SegmentSequenceStep, TransformError>)
    requires cache.Valid()
    modifies cache
    ensures cache.Valid()
    ensures r.Failure? <==> StepOf(cache.lookup, step).Failure?
    ensures r.Success? ==> r == StepOf(cache.lookup, step)
    ensures cache.filterTypeMap == Learned(old(cache.filterTypeMap), cache.lookup, AndTargets(cache.lookup, step.andExpression))
  {
    var matchType := StepMatchType(step.stepType);
    var orSegments := TransformAndExpression(cache, step.andExpression);
    if orSegments.Failure? {
      return Failure(orSegments.error);
    }
    return Success(SegmentSequenceStep(matchType, orSegments.value));
  }

  /** TransformSequenceSteps (lines 115-126). */
  method TransformSequenceSteps(cache: FilterTypeCache, steps: seq<SequenceStep>) returns (r: Result<seq<SegmentSequenceStep>, TransformError>)
    requires cache.Valid()
    modifies cache
    ensures cache.Valid()
    ensures r.Failure? <==> StepsOf(cache.lookup, steps).Failure?
    ensures r.Success? ==> r == StepsOf(cache.lookup, steps)
    ensures cache.filterTypeMap == Learned(old(cache.filterTypeMap), cache.lookup, StepsTargets(cache.lookup, steps))
  {
    var dst := new SegmentSequenceStep[|steps|];
    assert steps[0..] == steps;
    PrependNothing(StepsOf(cache.lookup, steps));
    ghost var goal := Learned(cache.filterTypeMap, cache.lookup, StepsTargets(cache.lookup, steps));
    for i := 0 to |steps|
      invariant cache.Valid()
      invariant StepsOf(cache.lookup, steps) == PrependAll(dst[..i], StepsOf(cache.lookup, steps[i..]))
      invariant Learned(cache.filterTypeMap, cache.lookup, StepsTargets(cache.lookup, steps[i..])) == goal
    {
      assert steps[i..][0] == steps[i] && steps[i..][1..] == steps[i + 1..];
      ghost var before := cache.filterTypeMap;
      var dstStep := TransformSequenceStep(cache, steps[i]);
      StepsWalkStep(cache.lookup, steps, i, before, goal);
      if dstStep.Failure? {
        return Failure(dstStep.error);
      }
      ghost var done := dst[..i];
      PrependOneMore(done, dstStep.value, StepsOf(cache.lookup, steps[i + 1..]));
      dst[i] := dstStep.value;
      assert dst[..i] == done;
      assert dst[..i + 1] == dst[..i] + [dst[i]];
    }
    assert steps[|steps|..] == [] && dst[..|steps|] == dst[..] && dst[..] + [] == dst[..];
    LearnedNothing(cache.filterTypeMap, cache.lookup);
    return Success(dst[..]);
  }

  /** TransformCondition (lines 142-153). */
  method TransformCondition(cache: FilterTypeCache, c: Condition) returns (r: Result<SegmentFilter, TransformError>)
    requires cache.Valid()
    modifies cache
    ensures cache.Valid()
    ensures r.Failure? <==> ConditionFilter(cache.lookup, c).Failure?
    ensures r.Success? ==> r == ConditionFilter(cache.lookup, c)
    ensures cache.filterTypeMap == Learned(old(cache.filterTypeMap), cache.lookup, AndTargets(cache.lookup, c.andExpression))
  {
    var orSegments := TransformAndExpression(cache, c.andExpression);
    if orSegments.Failure? {
      return Failure(orSegments.error);
    }
    return Success(SegmentFilter(c.exclude, Some(SimpleSegment(orSegments.value)), None));
  }

  /** TransformSequence (lines 100-112). */
  method TransformSequence(cache: FilterTypeCache, s: Sequence) returns (r: Result<SegmentFilter, TransformError>)
    requires cache.Valid()
    modifies cache
    ensures cache.Valid()
    ensures r.Failure? <==> SequenceFilter(cache.lookup, s).Failure?
    ensures r.Success? ==> r == SequenceFilter(cache.lookup, s)
    ensures cache.filterTypeMap == Learned(old(cache.filterTypeMap), cache.lookup, StepsTargets(cache.lookup, s.sequenceSteps))
  {
    var steps := TransformSequenceSteps(cache, s.sequenceSteps);
    if steps.Failure? {
      return Failure(steps.error);
    }
    return Success(SegmentFilter(s.not, None, Some(Reporting.SequenceSegment(s.firstHitMatchesFirstStep, steps.value))));
  }

  /** NewSegmentFilter (lines 88-97). */
  method NewSegmentFilter(cache: FilterTypeCache, seg: Segment) returns (r: Result<SegmentFilter, TransformError>)
    requires cache.Valid()
    modifies cache
    ensures cache.Valid()
    ensures r.Failure? <==> SegmentFilterOf(cache.lookup, seg).Failure?
    ensures r.Success? ==> r == SegmentFilterOf(cache.lookup, seg)
    ensures cache.filterTypeMap == Learned(old(cache.filterTypeMap), cache.lookup, SegmentTargets(cache.lookup, seg))
  {
    match seg.segmentType
    case ConditionSegment =>
      r := TransformCondition(cache, seg.condition);
    case SequenceSegment =>
      r := TransformSequence(cache, seg.sequence);
    case NoType =>
      LearnedNothing(cache.filterTypeMap, cache.lookup);
      r := Failure(CannotGuessType(seg.segmentType));
  }

  /** TransformSegments (lines 12-54): appends each segment's filter to its
      scope's list, then wraps the non-empty lists. */
  method TransformSegments(cache: FilterTypeCache, segments: Segments) returns (r: Result<DynamicSegment, TransformError>)
    requires cache.Valid()
    modifies cache
    ensures cache.Valid()
    ensures r.Failure? <==> SegmentsOf(cache.lookup, segments).Failure?
    ensures r.Success? ==> r == SegmentsOf(cache.lookup, segments)
    ensures cache.filterTypeMap == Learned(old(cache.filterTypeMap), cache.lookup, SegmentsTargets(cache.lookup, segments))
  {
    var sessionSegmentFilters: seq<SegmentFilter> := [];
    var userSegmentFilters: seq<SegmentFilter> := [];
    assert segments[0..] == segments;
    PrependRouteTwice([], [], [], [], RouteSegments(cache.lookup, segments));
    ghost var goal := Learned(cache.filterTypeMap, cache.lookup, SegmentsTargets(cache.lookup, segments));
    for i := 0 to |segments|
      invariant cache.Valid()
      invariant RouteSegments(cache.lookup, segments) ==
        PrependRoute(sessionSegmentFilters, userSegmentFilters, RouteSegments(cache.lookup, segments[i..]))
      invariant Learned(cache.filterTypeMap, cache.lookup, SegmentsTargets(cache.lookup, segments[i..])) == goal
    {
      var segment := segments[i];
      assert segments[i..][0] == segment && segments[i..][1..] == segments[i + 1..];
      ghost var before := cache.filterTypeMap;
      ghost var rest := SegmentsTargets(cache.lookup, segments[i + 1..]);
      ghost var failed := SegmentFilterOf(cache.lookup, segment).Failure?;
      assert SegmentsTargets(cache.lookup, segments[i..]) ==
        if segment.scope == NoScope then {} else SegmentTargets(cache.lookup, segment) + (if failed then {} else rest);
      match segment.scope
      case UserScope =>
        var segmentFilter := NewSegmentFilter(cache, segment);
        LearnedStep(before, cache.lookup, SegmentTargets(cache.lookup, segment), rest, failed, goal);
        if segmentFilter.Failure? {
          return Failure(segmentFilter.error);
        }
        PrependRouteTwice(sessionSegmentFilters, userSegmentFilters, [], [segmentFilter.value],
          RouteSegments(cache.lookup, segments[i + 1..]));
        assert sessionSegmentFilters + [] == sessionSegmentFilters;
        userSegmentFilters := userSegmentFilters + [segmentFilter.value];
      case SessionScope =>
        var segmentFilter := NewSegmentFilter(cache, segment);
        LearnedStep(before, cache.lookup, SegmentTargets(cache.lookup, segment), rest, failed, goal);
        if segmentFilter.Failure? {
          return Failure(segmentFilter.error);
        }
        PrependRouteTwice(sessionSegmentFilters, userSegmentFilters, [segmentFilter.value], [],
          RouteSegments(cache.lookup, segments[i + 1..]));
        assert userSegmentFilters + [] == userSegmentFilters;
        sessionSegmentFilters := sessionSegmentFilters + [segmentFilter.value];
      case NoScope =>
        LearnedNothing(cache.filterTypeMap, cache.lookup);
        return Failure(CannotGuessScope(segment.scope));
    }
    assert segments[|segments|..] == [];
    LearnedNothing(cache.filterTypeMap, cache.lookup);
    assert sessionSegmentFilters + [] == sessionSegmentFilters && userSegmentFilters + [] == userSegmentFilters;
    return Success(DynamicSegment(Name, DefinitionOf(sessionSegmentFilters), DefinitionOf(userSegmentFilters)));
  }

  /** TransformSegment (lines 57-85). */
  method TransformSegment(cache: FilterTypeCache, segment: Segment) returns (r: Result<DynamicSegment, TransformError>)
    requires cache.Valid()
    modifies cache
    ensures cache.Valid()
    ensures r.Failure? <==> SegmentOf(cache.lookup, segment).Failure?
    ensures r.Success? ==> r == SegmentOf(cache.lookup, segment)
    ensures cache.filterTypeMap == Learned(old(cache.filterTypeMap), cache.lookup,
      if segment.scope == NoScope then {} else SegmentTargets(cache.lookup, segment))
  {
    match segment.scope
    case UserScope =>
      var segmentFilter := NewSegmentFilter(cache, segment);
      if segmentFilter.Failure? {
        return Failure(segmentFilter.error);
      }
      return Success(DynamicSegment(Name, None, Some(SegmentDefinition([segmentFilter.value]))));
    case SessionScope =>
      var segmentFilter := NewSegmentFilter(cache, segment);
      if segmentFilter.Failure? {
        return Failure(segmentFilter.error);
      }
      return Success(DynamicSegment(Name, Some(SegmentDefinition([segmentFilter.value])), None));
    case NoScope =>
      LearnedNothing(cache.filterTypeMap, cache.lookup);
      return Failure(CannotGuessScope(segment.scope));
  }
}
