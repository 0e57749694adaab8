/** The dimension and metric table of validation_dimension_and_metric.go:
    a column is named either by its exact id or, when its id contains `XX`,
    by a template in which the first `XX` stands for a decimal index.

    The table itself (loaded from an embedded JSON file by `init`) is a
    parameter here.  A template id compiles to the pattern
    `prefix(\d+)suffix`; matching it is written out as the scan Go's
    regexp package performs for that one shape: the leftmost start where
    the prefix is followed by digits and then the suffix, the digit group
    taking as many digits as still leave the suffix in place. */
module Columns {
  import opened Wrappers
  import opened Strs

  /** The text on either side of the first `XX` of a template id. */
  datatype Template = Template(prefix: string, suffix: string)

  /** ColumnAttributes (lines 19-37), with the fields this model reads:
      `columnType` is the `Type` attribute ("DIMENSION", "METRIC", ...), and
      `pattern` is None for an exact id. */
  datatype ColumnAttributes = ColumnAttributes(
    id: string,
    columnType: string,
    minTemplateIndex: int,
    maxTemplateIndex: int,
    pattern: Option<Template>)

  /** DimensionOrMetricError; its one value is NoSuchDimensionOrMetric. */
  datatype DimensionOrMetricError = NoSuchDimensionOrMetric

  // ---------------------------------------------------------------------
  // The template rule (lines 97-99)

  /** `XX` starts at index k of `id`. */
  predicate XXAt(id: string, k: nat)
  {
    k + 2 <= |id| && id[k] == 'X' && id[k + 1] == 'X'
  }

  function FirstXX(id: string, i: nat): (r: Option<nat>)
    requires i <= |id|
    ensures r.Some? ==> i <= r.value && XXAt(id, r.value)
    ensures r.Some? ==> forall k :: i <= k < r.value ==> !XXAt(id, k)
    ensures r.None? ==> forall k :: i <= k ==> !XXAt(id, k)
    decreases |id| - i
  {
    if i + 2 > |id| then None
    else if id[i] == 'X' && id[i + 1] == 'X' then Some(i)
    else FirstXX(id, i + 1)
  }

  /** An id containing `XX` becomes a template split at its first `XX`
      (strings.Replace with count 1); any other id has no pattern. */
  function TemplateOf(id: string): (r: Option<Template>)
    ensures r.None? <==> forall k: nat :: !XXAt(id, k)
    ensures r.Some? ==> id == r.value.prefix + ['X', 'X'] + r.value.suffix
    ensures r.Some? ==> forall k :: 0 <= k < |r.value.prefix| ==> !XXAt(id, k)
  {
    match FirstXX(id, 0)
    case None => None
    case Some(k) =>
      assert id == id[..k] + ['X', 'X'] + id[k + 2..];
      Some(Template(id[..k], id[k + 2..]))
  }

  /** The entry `init` builds for a column (lines 96-99): its attributes,
      and a pattern exactly when the id contains `XX`. */
  function NewColumn(id: string, columnType: string, minTemplateIndex: int, maxTemplateIndex: int): (ca: ColumnAttributes)
    ensures ca.id == id && ca.columnType == columnType
    ensures ca.pattern.Some? <==> exists k :: XXAt(id, k)
  {
    ColumnAttributes(id, columnType, minTemplateIndex, maxTemplateIndex, TemplateOf(id))
  }

  // ---------------------------------------------------------------------
  // Finding the digit group

  predicate IsDigit(c: char)
  {
    '0' <= c <= '9'
  }

  predicate AllDigits(d: string)
  {
    forall k :: 0 <= k < |d| ==> IsDigit(d[k])
  }

  /** How many digits follow index j: the furthest `\d+` can reach. */
  function DigitRun(s: string, j: nat): (n: nat)
    requires j <= |s|
    ensures j + n <= |s|
    ensures forall k :: j <= k < j + n ==> IsDigit(s[k])
    ensures j + n < |s| ==> !IsDigit(s[j + n])
    decreases |s| - j
  {
    if j < |s| && IsDigit(s[j]) then 1 + DigitRun(s, j + 1) else 0
  }

  /** The greedy group backing off: the longest run of at most n digits
      after index j that the suffix follows. */
  function Capture(s: string, j: nat, n: nat, suffix: string): Option<string>
    requires j + n <= |s|
    decreases n
  {
    if n == 0 then None
    else if StartsAt(s, j + n, suffix) then Some(s[j..j + n])
    else Capture(s, j, n - 1, suffix)
  }

  /** The group of a match starting at index i, if a match starts there. */
  function MatchAt(s: string, i: nat, t: Template): Option<string>
    requires i <= |s|
  {
    if !StartsAt(s, i, t.prefix) then None
    else Capture(s, i + |t.prefix|, DigitRun(s, i + |t.prefix|), t.suffix)
  }

  function FindFrom(s: string, t: Template, i: nat): Option<string>
    requires i <= |s|
    decreases |s| - i
  {
    match MatchAt(s, i, t)
    case Some(d) => Some(d)
    case None => if i == |s| then None else FindFrom(s, t, i + 1)
  }

  /** FindStringSubmatch(dm)[1]: the group of the leftmost match, or None
      when the pattern does not occur. */
  function Submatch(s: string, t: Template): Option<string>
  {
    FindFrom(s, t, 0)
  }

  /** strconv.Atoi on a run of digits. */
  function DecimalValue(d: string): nat
  {
    if d == [] then 0
    else DecimalValue(d[..|d| - 1]) * 10 + DigitValue(d[|d| - 1])
  }

  function DigitValue(c: char): nat
  {
    if IsDigit(c) then (c as int) - ('0' as int) else 0
  }

  // ---------------------------------------------------------------------
  // Match and the table scan

  /** ColumnAttributes.Match (lines 39-53): an exact id must equal `dm`; a
      template needs a digit group that does not start with `0` and whose
      value lies between the column's template indices. */
  function Match(ca: ColumnAttributes, dm: string): (r: bool)
    ensures ca.pattern.None? ==> (r <==> dm == ca.id)
    ensures ca.pattern.Some? && r ==> ca.minTemplateIndex <= ca.maxTemplateIndex
  {
    match ca.pattern
    case Some(t) =>
      (match Submatch(dm, t)
       case None => false
       case Some(digits) =>
         if HasPrefix(digits, "0") then false
         else ca.minTemplateIndex <= DecimalValue(digits) <= ca.maxTemplateIndex)
    case None => ca.id == dm
  }

  /** ColumnForDimensionOrMetric (lines 104-112): walks the table in an
      order the map does not fix and returns the first entry that matches;
      NoSuchDimensionOrMetric when none does. */
  method ColumnForDimensionOrMetric(table: map<string, ColumnAttributes>, dm: string)
    returns (r: Result<ColumnAttributes, DimensionOrMetricError>)
    ensures r.Success? ==> r.value in table.Values && Match(r.value, dm)
    ensures r.Failure? <==> forall ca :: ca in table.Values ==> !Match(ca, dm)
    ensures r.Failure? ==> r.error == NoSuchDimensionOrMetric
  {
    var keys := table.Keys;
    while keys != {}
      invariant keys <= table.Keys
      invariant forall k :: k in table.Keys - keys ==> !Match(table[k], dm)
      decreases keys
    {
      var k :| k in keys;
      if Match(table[k], dm) {
        return Success(table[k]);
      }
      keys := keys - {k};
    }
    return Failure(NoSuchDimensionOrMetric);
  }
}
