/** The canonical printer of segment.go (lines 88-210), over its own
    syntax tree: SegmentConditions, SegmentCondition, AndCondition,
    OrCondition, Condition, Sequence and SequenceStep.

    In Go every token type of this tree (ConditionScope, ConditionType,
    MetricScope, DimensionOrMetric, Operator, SequenceStepType) is a string
    type printed verbatim, so here each is its text.  The printers that fill
    a buffer in a loop are methods proved equal to a specification function;
    the printers that are one expression are functions. */
module SegmentPrinter {
  import opened Wrappers
  import opened Strs

  /** The scope and type tokens of segment.go:41-55. */
  const UserScope: string := "user::"
  const SessionScope: string := "session::"
  const ConditionSegment: string := "condition::"
  const SequenceSegment: string := "sequence::"

  /** The step tokens of segment.go:76-80; the arrow is written with an en
      dash (U+2013), not with the ASCII hyphen the parser splits on. */
  const FirstStep: string := ""
  const PrecedesSequence: string := ";\U{2013}>>"
  const Immediately: string := ";\U{2013}>"

  datatype Condition = Condition(metricScope: string, target: string, operator: string, value: string)

  datatype OrCondition = OrCondition(conditions: seq<Condition>)

  datatype AndCondition = AndCondition(exclude: bool, orConditions: seq<OrCondition>)

  datatype SequenceStep = SequenceStep(stepType: string, andCondition: AndCondition)

  datatype Sequence = Sequence(not: bool, firstHitMatchesFirstStep: bool, sequenceSteps: seq<SequenceStep>)

  /** `sequence` is Go's *Sequence: None stands for a nil pointer. */
  datatype SegmentCondition = SegmentCondition(scope: string, conditionType: string, andCondition: AndCondition, sequence: Option<Sequence>)

  /** The text of each element, in order: the buffers the String methods
      fill. */
  function Texts<T>(xs: seq<T>, text: T -> string): (r: seq<string>)
    ensures |r| == |xs|
    ensures forall k {:trigger r[k]} :: 0 <= k < |xs| ==> r[k] == text(xs[k])
  {
    seq(|xs|, k requires 0 <= k < |xs| => text(xs[k]))
  }

  // ---------------------------------------------------------------------
  // Condition and EscapedValue

  /** strings.Replace(s, [c], t, -1): every occurrence of `c` replaced by `t`. */
  function ReplaceAll(s: string, c: char, t: string): (r: string)
    ensures (forall i :: 0 <= i < |s| ==> s[i] != c) ==> r == s
    ensures |t| >= 1 ==> |r| >= |s|
    decreases |s|
  {
    if s == [] then ""
    else (if s[0] == c then t else [s[0]]) + ReplaceAll(s[1..], c, t)
  }

  /** Condition.EscapedValue (segment.go:159-161), applied to the value.
      The escaped text is never shorter, and a value without `;` and `,` is
      printed unchanged. */
  function EscapedValue(value: string): (r: string)
    ensures |r| >= |value|
    ensures (forall i :: 0 <= i < |value| ==> value[i] != ';' && value[i] != ',') ==> r == value
  {
    ReplaceAll(ReplaceAll(value, ';', "\\;"), ',', "\\,")
  }

  /** Condition.String (segment.go:163-165): metric scope, target,
      operator and escaped value, in that order with nothing between. */
  function ConditionText(c: Condition): (r: string)
    ensures r == c.metricScope + c.target + c.operator + EscapedValue(c.value)
  {
    assert [c.metricScope, c.target] + [c.operator] == [c.metricScope, c.target, c.operator];
    JoinEmptyTwo(c.metricScope, c.target, [c.operator]);
    Join([c.metricScope, c.target, c.operator], "") + EscapedValue(c.value)
  }

  // ---------------------------------------------------------------------
  // OrCondition and AndCondition

  /** OrCondition.String: the conditions joined with `,`; no conditions
      print nothing, and a single condition prints alone. */
  function OrConditionText(o: OrCondition): (r: string)
    ensures o.conditions == [] ==> r == ""
    ensures |o.conditions| == 1 ==> r == ConditionText(o.conditions[0])
  {
    Join(Texts(o.conditions, ConditionText), ",")
  }

  /** OrCondition.String (segment.go:144-150): fills a buffer of the
      conditions' length by index, then joins it. */
  method OrConditionString(o: OrCondition) returns (s: string)
    ensures s == OrConditionText(o)
  {
    var cs := o.conditions;
    var buf := new string[|cs|](_ => "");
    for i := 0 to |cs|
      invariant buf[..i] == Texts(cs, ConditionText)[..i]
    {
      buf[i] := ConditionText(cs[i]);
    }
    assert buf[..] == Texts(cs, ConditionText) by {
      assert buf[..] == buf[..|cs|] && Texts(cs, ConditionText) == Texts(cs, ConditionText)[..|cs|];
    }
    s := Join(buf[..], ",");
  }

  /** The `;`-joined elements of AndCondition.String: "!" first when the
      condition is excluded, then one element per or-condition. */
  function AndConditionParts(a: AndCondition): seq<string>
  {
    (if a.exclude then ["!"] else []) + Texts(a.orConditions, OrConditionText)
  }

  /** AndCondition.String: an excluded condition starts with `!`, and a
      condition neither excluded nor holding an or-condition prints
      nothing. */
  function AndConditionText(a: AndCondition): (r: string)
    ensures a.exclude ==> HasPrefix(r, "!")
    ensures !a.exclude && a.orConditions == [] ==> r == ""
  {
    var texts := Texts(a.orConditions, OrConditionText);
    assert a.exclude ==> AndConditionParts(a) == ["!"] + texts;
    JoinCons("!", texts, ";");
    Join(AndConditionParts(a), ";")
  }

  /** AndCondition.String (segment.go:129-138): appends "!" when excluded,
      then each or-condition's text, and joins with `;`. */
  method AndConditionString(a: AndCondition) returns (s: string)
    ensures s == AndConditionText(a)
  {
    var buf: seq<string> := [];
    if a.exclude {
      buf := buf + ["!"];
    }
    var mark := buf;
    for i := 0 to |a.orConditions|
      invariant buf == mark + Texts(a.orConditions, OrConditionText)[..i]
    {
      var t := OrConditionString(a.orConditions[i]);
      buf := buf + [t];
    }
    assert Texts(a.orConditions, OrConditionText)[..|a.orConditions|] == Texts(a.orConditions, OrConditionText);
    assert buf == AndConditionParts(a);
    s := Join(buf, ";");
  }

  // ---------------------------------------------------------------------
  // Sequence

  /** SequenceStep.String (segment.go:200-202): the type token, then the
      and-condition. */
  function SequenceStepText(st: SequenceStep): (r: string)
    ensures r == st.stepType + AndConditionText(st.andCondition)
  {
    var x := AndConditionText(st.andCondition);
    assert [st.stepType] + [x] == [st.stepType, x];
    JoinCons(st.stepType, [x], "");
    assert st.stepType + "" + x == st.stepType + x;
    Join([st.stepType, x], "")
  }

  /** SequenceSteps.String: the steps' texts with no separator; no steps
      print nothing, and a single step prints alone. */
  function SequenceStepsText(ss: seq<SequenceStep>): (r: string)
    ensures ss == [] ==> r == ""
    ensures |ss| == 1 ==> r == SequenceStepText(ss[0])
  {
    Join(Texts(ss, SequenceStepText), "")
  }

  /** SequenceSteps.String (segment.go:192-198): fills a buffer of the
      steps' length by index, then concatenates it. */
  method SequenceStepsString(ss: seq<SequenceStep>) returns (s: string)
    ensures s == SequenceStepsText(ss)
  {
    var buf := new string[|ss|](_ => "");
    for i := 0 to |ss|
      invariant buf[..i] == Texts(ss, SequenceStepText)[..i]
    {
      buf[i] := SequenceStepText(ss[i]);
    }
    assert buf[..] == Texts(ss, SequenceStepText) by {
      assert buf[..] == buf[..|ss|] && Texts(ss, SequenceStepText) == Texts(ss, SequenceStepText)[..|ss|];
    }
    s := Join(buf[..], "");
  }

  /** Sequence.String (segment.go:173-183): `!` if negated, then `^` if
      the first hit must match the first step, then the steps. */
  function SequenceText(q: Sequence): (r: string)
    ensures r ==
      (if q.not then "!" else "") + (if q.firstHitMatchesFirstStep then "^" else "") + SequenceStepsText(q.sequenceSteps)
  {
    var a, b, x := if q.not then "!" else "", if q.firstHitMatchesFirstStep then "^" else "", SequenceStepsText(q.sequenceSteps);
    assert [a, b] + [x] == [a, b, x];
    JoinEmptyTwo(a, b, [x]);
    Join([a, b, x], "")
  }

  // ---------------------------------------------------------------------
  // SegmentCondition and SegmentConditions

  /** What StringWithoutScope needs to print without a nil dereference: a
      sequence segment carries a sequence. */
  predicate Printable(sc: SegmentCondition)
  {
    sc.conditionType == SequenceSegment ==> sc.sequence.Some?
  }

  /** SegmentCondition.StringWithoutScope (segment.go:113-122): the type
      token and its payload; any other type prints as "". */
  function StringWithoutScope(sc: SegmentCondition): (r: string)
    requires Printable(sc)
    ensures r == "" <==> sc.conditionType != ConditionSegment && sc.conditionType != SequenceSegment
    ensures r != "" ==> HasPrefix(r, sc.conditionType)
  {
    if sc.conditionType == ConditionSegment then sc.conditionType + AndConditionText(sc.andCondition)
    else if sc.conditionType == SequenceSegment then sc.conditionType + SequenceText(sc.sequence.value)
    else ""
  }

  /** SegmentCondition.String (segment.go:109-111): the scope, then the
      text without scope; a segment of neither type prints only its
      scope. */
  function SegmentConditionText(sc: SegmentCondition): (r: string)
    requires Printable(sc)
    ensures HasPrefix(r, sc.scope) && r[|sc.scope|..] == StringWithoutScope(sc)
    ensures sc.conditionType != ConditionSegment && sc.conditionType != SequenceSegment ==> r == sc.scope
  {
    sc.scope + StringWithoutScope(sc)
  }

  /** The elements' texts without their scopes. */
  function WithoutScopeTexts(scs: seq<SegmentCondition>): (r: seq<string>)
    requires forall k :: 0 <= k < |scs| ==> Printable(scs[k])
    ensures |r| == |scs|
    ensures forall k {:trigger r[k]} :: 0 <= k < |scs| ==> r[k] == StringWithoutScope(scs[k])
  {
    seq(|scs|, k requires 0 <= k < |scs| => StringWithoutScope(scs[k]))
  }

  /** Element k of SegmentConditions.String shows its scope when that scope
      differs from the one before it; before the first element the scope is
      Go's zero value "". */
  predicate ScopeShown(scs: seq<SegmentCondition>, k: nat)
    requires k < |scs|
  {
    scs[k].scope != (if k == 0 then "" else scs[k - 1].scope)
  }

  /** Buffer entry k: the scope when it is shown, then the text without
      scope. */
  function PartText(scs: seq<SegmentCondition>, k: nat): string
    requires k < |scs| && Printable(scs[k])
  {
    (if ScopeShown(scs, k) then scs[k].scope else "") + StringWithoutScope(scs[k])
  }

  /** Proof helper: a prefix one longer is the prefix and the next
      element. */
  lemma PrefixSnoc<T>(xs: seq<T>, i: nat)
    requires i < |xs|
    ensures xs[..i + 1] == xs[..i] + [xs[i]]
  {
  }

  /** Proof helper: the entry the loop appends is buffer entry i. */
  lemma PartStep(scs: seq<SegmentCondition>, i: nat, currentScope: string, piece: string)
    requires i < |scs| && Printable(scs[i])
    requires currentScope == if i == 0 then "" else scs[i - 1].scope
    requires piece == if currentScope != scs[i].scope then scs[i].scope + StringWithoutScope(scs[i]) else StringWithoutScope(scs[i])
    ensures piece == PartText(scs, i)
  {
    assert "" + StringWithoutScope(scs[i]) == StringWithoutScope(scs[i]);
  }

  function SegmentConditionsParts(scs: seq<SegmentCondition>): (r: seq<string>)
    requires forall k :: 0 <= k < |scs| ==> Printable(scs[k])
    ensures |r| == |scs|
    ensures forall k :: 0 <= k < |scs| ==> r[k] == PartText(scs, k)
  {
    seq(|scs|, k requires 0 <= k < |scs| => PartText(scs, k))
  }

  /** SegmentConditions.String (segment.go:88-100): walks the list keeping
      the current scope, writes a scope only when it changes, and joins the
      elements with `;`.  Element k shows its scope exactly when that scope
      differs from the scope of element k - 1. */
  method SegmentConditionsString(scs: seq<SegmentCondition>) returns (s: string)
    requires forall k :: 0 <= k < |scs| ==> Printable(scs[k])
    ensures s == Join(SegmentConditionsParts(scs), ";")
    ensures scs == [] ==> s == ""
  {
    var currentScope := "";
    var buf: seq<string> := [];
    ghost var parts := SegmentConditionsParts(scs);
    for i := 0 to |scs|
      invariant currentScope == if i == 0 then "" else scs[i - 1].scope
      invariant buf == parts[..i]
    {
      var sc := scs[i];
      var piece: string;
      if currentScope != sc.scope {
        piece := sc.scope + StringWithoutScope(sc);
      } else {
        piece := StringWithoutScope(sc);
      }
      PartStep(scs, i, currentScope, piece);
      PrefixSnoc(parts, i);
      buf := buf + [piece];
      currentScope := sc.scope;
    }
    assert parts[..|scs|] == parts;
    s := Join(buf, ";");
  }
}
