/** The tables of supportv4/detect.go that translate the parser-shape tree
    into the names of the Analytics Reporting API v4, and the cache that
    remembers whether an identifier is a dimension or a metric.

    GetDimensionOrMetricAttributes is not part of this model: the cache
    holds it as a function from an identifier to the identifier's `Type`
    attribute, or to the text of the error the lookup returned. */
module Detect {
  import opened Wrappers
  import opened Ast

  datatype DetectError =
    | UnspecifiedMatchType(stepType: string)
    | UnspecifiedOperatorOnMetric(op: Operator)
    | UnspecifiedFilterType(dm: string)
    | LookupFailed(message: string)

  // ---------------------------------------------------------------------
  // Match types (lines 8-39)

  const MatchTypeUnspecified: string := ""
  const MatchTypePrecedes: string := "PRECEDES"
  const MatchTypeImmediatelyPrecedes: string := "IMMEDIATELY_PRECEDES"

  /** DetectMatchType (lines 16-39): the three step types the parser gives
      map to "", PRECEDES and IMMEDIATELY_PRECEDES, distinct from each
      other; any other text is an error. */
  function DetectMatchType(stepType: SequenceStepType): (r: Result<string, DetectError>)
    ensures r.Success? <==> stepType in {FirstStep, Precedes, ImmediatelyPrecedes}
    ensures r.Failure? ==> r.error == UnspecifiedMatchType(stepType)
    ensures r.Success? && r.value == MatchTypeUnspecified ==> stepType == FirstStep
    ensures r.Success? && r.value == MatchTypePrecedes ==> stepType == Precedes
    ensures r.Success? && r.value == MatchTypeImmediatelyPrecedes ==> stepType == ImmediatelyPrecedes
    ensures stepType == FirstStep ==> r == Success(MatchTypeUnspecified)
    ensures stepType == Precedes ==> r == Success(MatchTypePrecedes)
    ensures stepType == ImmediatelyPrecedes ==> r == Success(MatchTypeImmediatelyPrecedes)
  {
    if stepType == FirstStep then Success(MatchTypeUnspecified)
    else if stepType == Precedes then Success(MatchTypePrecedes)
    else if stepType == ImmediatelyPrecedes then Success(MatchTypeImmediatelyPrecedes)
    else Failure(UnspecifiedMatchType(stepType))
  }

  // ---------------------------------------------------------------------
  // Scopes (lines 41-65)

  const ScopeUnspecified: string := ""
  const ScopeProduct: string := "PRODUCT"
  const ScopeHit: string := "HIT"
  const ScopeSession: string := "SESSION"
  const ScopeUser: string := "USER"

  /** DetectScope (lines 51-65).  Every metric scope of the tree has an API
      scope, so the error branch of the Go switch is never taken here; no
      scope maps to PRODUCT, and only Default maps to the empty scope. */
  function DetectScope(ms: MetricScope): (r: string)
    ensures r != ScopeProduct
    ensures r == ScopeUnspecified <==> ms == Default
  {
    match ms
    case Default => ScopeUnspecified
    case PerHit => ScopeHit
    case PerSession => ScopeSession
    case PerUser => ScopeUser
  }

  /** Different metric scopes get different API scopes. */
  lemma DetectScopeDistinct(a: MetricScope, b: MetricScope)
    requires a != b
    ensures DetectScope(a) != DetectScope(b)
  {
  }

  // ---------------------------------------------------------------------
  // Operators (lines 67-216)

  const OperatorUnspecified: string := ""
  const OperatorLessThan: string := "LESS_THAN"
  const OperatorGreaterThan: string := "GREATER_THAN"
  const OperatorEqual: string := "EQUAL"
  const OperatorBetween: string := "BETWEEN"
  const OperatorRegexp: string := "REGEXP"
  const OperatorBeginsWith: string := "BEGINS_WITH"
  const OperatorEndsWith: string := "ENDS_WITH"
  const OperatorPartial: string := "PARTIAL"
  const OperatorExact: string := "EXACT"
  const OperatorInList: string := "IN_LIST"
  const OperatorNumericLessThan: string := "NUMERIC_LESS_THAN"
  const OperatorNumericGreaterThan: string := "NUMERIC_GREATER_THAN"
  const OperatorNumericBetween: string := "NUMERIC_BETWEEN"
  const OperatorNumericEquals: string := "NUMERIC_EQUALS"

  /** The eight comparison operators, the ones a metric accepts. */
  predicate IsComparison(op: Operator)
  {
    op in {Equal, NotEqual, LessThan, LessThanEqual, GreaterThan, GreaterThanEqual, Between, NotBetween}
  }

  /** The operator a negated operator negates: `x <= y` is `!(x > y)`,
      `x >= y` is `!(x < y)`, and each `Not...` operator negates its
      positive form.  None for the positive operators. */
  function Negates(op: Operator): Option<Operator>
  {
    match op
    case NotEqual => Some(Equal)
    case LessThanEqual => Some(GreaterThan)
    case GreaterThanEqual => Some(LessThan)
    case NotBetween => Some(Between)
    case NotInList => Some(InList)
    case NotContainsSubstring => Some(ContainsSubstring)
    case NotRegexp => Some(Regexp)
    case _ => None
  }

  /** DetectOperatorOnMetric (lines 88-131): the comparison operators get
      an API operator and a negation flag; the others are errors. */
  function DetectOperatorOnMetric(op: Operator): (r: Result<(string, bool), DetectError>)
    ensures r.Success? <==> IsComparison(op)
    ensures r.Failure? ==> r.error == UnspecifiedOperatorOnMetric(op)
  {
    match op
    case Equal => Success((OperatorEqual, false))
    case NotEqual => Success((OperatorEqual, true))
    case LessThan => Success((OperatorLessThan, false))
    case LessThanEqual => Success((OperatorGreaterThan, true))
    case GreaterThan => Success((OperatorGreaterThan, false))
    case GreaterThanEqual => Success((OperatorLessThan, true))
    case Between => Success((OperatorBetween, false))
    case NotBetween => Success((OperatorBetween, true))
    case _ => Failure(UnspecifiedOperatorOnMetric(op))
  }

  /** DetectOperatorOnDimension (lines 134-216): every operator of the tree
      has an API operator, so the Go error branch is never taken here. */
  function DetectOperatorOnDimension(op: Operator): (r: (string, bool))
    ensures r.1 <==> Negates(op).Some?
  {
    match op
    case Equal => (OperatorExact, false)
    case NotEqual => (OperatorExact, true)
    case LessThan => (OperatorNumericLessThan, false)
    case LessThanEqual => (OperatorNumericGreaterThan, true)
    case GreaterThan => (OperatorNumericGreaterThan, false)
    case GreaterThanEqual => (OperatorNumericLessThan, true)
    case Between => (OperatorNumericBetween, false)
    case NotBetween => (OperatorNumericBetween, true)
    case InList => (OperatorInList, false)
    case NotInList => (OperatorInList, true)
    case ContainsSubstring => (OperatorPartial, false)
    case NotContainsSubstring => (OperatorPartial, true)
    case Regexp => (OperatorRegexp, false)
    case NotRegexp => (OperatorRegexp, true)
  }

  /** A negated operator is sent as the API operator of the operator it
      negates, with the `not` flag set; on metrics `<=` and `>=` become
      negated GREATER_THAN and LESS_THAN. */
  lemma NegatedOperators(op: Operator)
    requires Negates(op).Some?
    ensures DetectOperatorOnDimension(op) == (DetectOperatorOnDimension(Negates(op).value).0, true)
    ensures !DetectOperatorOnDimension(Negates(op).value).1
    ensures IsComparison(op) ==> IsComparison(Negates(op).value)
    ensures IsComparison(op) ==>
      DetectOperatorOnMetric(op).value == (DetectOperatorOnMetric(Negates(op).value).value.0, true)
  {
  }

  /** For an operator both tables accept, the metric and dimension `not`
      flags agree. */
  lemma NotFlagsAgree(op: Operator)
    requires IsComparison(op)
    ensures DetectOperatorOnMetric(op).value.1 == DetectOperatorOnDimension(op).1
  {
  }

  // ---------------------------------------------------------------------
  // Filter types and their cache (lines 218-265)

  datatype FilterType = DimensionType | MetricType | UnspecifiedType

  /** A filter type with the error that came with it. */
  datatype Detected = Detected(filterType: FilterType, err: Option<DetectError>)

  /** detectFilterType (lines 235-248), given what the attribute lookup
      returned: the `Type` attribute, or the lookup's error. */
  function DetectFilterTypeOnce(found: Result<string, string>): (r: Detected)
    ensures r.err.Some? <==> found.Failure?
    ensures r.filterType == MetricType <==> found == Success("METRIC")
    ensures r.filterType == DimensionType <==> found == Success("DIMENSION")
  {
    match found
    case Failure(message) => Detected(UnspecifiedType, Some(LookupFailed(message)))
    case Success(attrType) =>
      if attrType == "METRIC" then Detected(MetricType, None)
      else if attrType == "DIMENSION" then Detected(DimensionType, None)
      else Detected(UnspecifiedType, None)
  }

  /** What DetectFilterType answers on a cache miss: the primitive answer,
      with an error added when the type is unspecified.  A miss fails
      exactly when it cannot name the type. */
  function FirstDetection(dm: string, found: Result<string, string>): (r: Detected)
    ensures r.filterType == DetectFilterTypeOnce(found).filterType
    ensures r.err.None? <==> r.filterType != UnspecifiedType
  {
    var d := DetectFilterTypeOnce(found);
    if d.err.Some? then d
    else if d.filterType == UnspecifiedType then Detected(UnspecifiedType, Some(UnspecifiedFilterType(dm)))
    else d
  }

  /** filterTypeMap together with the lookup it caches.  Only
      DetectFilterType writes the map, and only to add an entry. */
  class FilterTypeCache {
    var filterTypeMap: map<string, FilterType>
    const lookup: string -> Result<string, string>

    /** Every stored type is the one the lookup gives. */
    ghost predicate Valid()
      reads this
    {
      forall dm :: dm in filterTypeMap ==> filterTypeMap[dm] == DetectFilterTypeOnce(lookup(dm)).filterType
    }

    /** The `init` of lines 230-232: an empty map. */
    constructor (lookup: string -> Result<string, string>)
      ensures this.lookup == lookup && filterTypeMap == map[]
      ensures Valid()
    {
      this.lookup := lookup;
      filterTypeMap := map[];
    }

    /** DetectFilterType (lines 251-265).  A hit returns the stored type
      without error; a miss stores the primitive type (even when the
      lookup failed) and returns it with FirstDetection's error.  Either
      way the type is the one the lookup gives, and no stored entry
      changes. */
    method DetectFilterType(dm: string) returns (r: Detected)
      requires Valid()
      modifies this
      ensures Valid()
      ensures filterTypeMap == old(filterTypeMap)[dm := r.filterType]
      ensures r.filterType == DetectFilterTypeOnce(lookup(dm)).filterType
      ensures dm in old(filterTypeMap) ==> r == Detected(old(filterTypeMap)[dm], None) && filterTypeMap == old(filterTypeMap)
      ensures dm !in old(filterTypeMap) ==> r == FirstDetection(dm, lookup(dm))
    {
      if dm in filterTypeMap {
        return Detected(filterTypeMap[dm], None);
      }
      var d := DetectFilterTypeOnce(lookup(dm));
      filterTypeMap := filterTypeMap[dm := d.filterType];
      if d.err.Some? {
        return d;
      }
      if d.filterType == UnspecifiedType {
        return Detected(d.filterType, Some(UnspecifiedFilterType(dm)));
      }
      return d;
    }
  }
}
