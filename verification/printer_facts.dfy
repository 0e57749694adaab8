/** What the printer of segment.go writes, stated in terms of the tree: the
    escaping of values, the order and separators of each list level, and
    where scope and flag tokens appear. */
module PrinterFacts {
  import opened Strs
  import P = SegmentPrinter

  // ---------------------------------------------------------------------
  // EscapedValue

  lemma {:induction false} ReplaceAllConcat(a: string, b: string, c: char, t: string)
    ensures P.ReplaceAll(a + b, c, t) == P.ReplaceAll(a, c, t) + P.ReplaceAll(b, c, t)
    decreases |a|
  {
    if a != [] {
      var head := if a[0] == c then t else [a[0]];
      var ab := a + b;
      assert ab[0] == a[0] && ab[1..] == a[1..] + b;
      assert P.ReplaceAll(ab, c, t) == head + P.ReplaceAll(a[1..] + b, c, t);
      assert P.ReplaceAll(a, c, t) == head + P.ReplaceAll(a[1..], c, t);
      ReplaceAllConcat(a[1..], b, c, t);
      assert head + (P.ReplaceAll(a[1..], c, t) + P.ReplaceAll(b, c, t)) ==
        (head + P.ReplaceAll(a[1..], c, t)) + P.ReplaceAll(b, c, t);
    } else {
      assert a + b == b;
    }
  }

  /** EscapedValue works character by character: the escaped text of a
      concatenation is the concatenation of the escaped texts. */
  lemma EscapedValueConcat(a: string, b: string)
    ensures P.EscapedValue(a + b) == P.EscapedValue(a) + P.EscapedValue(b)
  {
    ReplaceAllConcat(a, b, ';', "\\;");
    ReplaceAllConcat(P.ReplaceAll(a, ';', "\\;"), P.ReplaceAll(b, ';', "\\;"), ',', "\\,");
  }

  /** Each `;` and `,` gets a backslash in front of it; every other
      character is kept as it is. */
  lemma EscapedValueChar(ch: char)
    ensures P.EscapedValue([ch]) == if ch == ';' || ch == ',' then ['\\', ch] else [ch]
  {
    assert [ch][1..] == [];
    if ch == ';' {
      assert P.ReplaceAll([ch], ';', "\\;") == "\\;";
      assert "\\;"[1..] == [';'];
      assert P.ReplaceAll("\\;", ',', "\\,") == "\\" + P.ReplaceAll([';'], ',', "\\,");
    }
  }

  // ---------------------------------------------------------------------
  // Condition, OrCondition, AndCondition

  lemma TextsCons<T>(x: T, xs: seq<T>, text: T -> string)
    ensures P.Texts([x] + xs, text) == [text(x)] + P.Texts(xs, text)
  {
    assert forall k :: 0 <= k < |xs| ==> ([x] + xs)[k + 1] == xs[k];
  }

  /** OrCondition.String keeps the conditions in order, separated by `,`. */
  lemma OrConditionTextCons(c: P.Condition, cs: seq<P.Condition>)
    ensures P.OrConditionText(P.OrCondition([c] + cs)) ==
      P.ConditionText(c) + (if cs == [] then "" else "," + P.OrConditionText(P.OrCondition(cs)))
  {
    TextsCons(c, cs, P.ConditionText);
    JoinCons(P.ConditionText(c), P.Texts(cs, P.ConditionText), ",");
  }

  /** An excluded and-condition prints as the same condition not excluded,
      with `!` in front, and a `;` after the `!` when there are
      or-conditions. */
  lemma AndConditionExclude(ors: seq<P.OrCondition>)
    ensures P.AndConditionText(P.AndCondition(true, ors)) ==
      "!" + (if ors == [] then "" else ";" + P.AndConditionText(P.AndCondition(false, ors)))
  {
    assert P.AndConditionParts(P.AndCondition(false, ors)) == P.Texts(ors, P.OrConditionText);
    JoinCons("!", P.Texts(ors, P.OrConditionText), ";");
  }

  /** A non-excluded and-condition prints its or-conditions in order,
      separated by `;`. */
  lemma AndConditionTextCons(o: P.OrCondition, ors: seq<P.OrCondition>)
    ensures P.AndConditionText(P.AndCondition(false, [o] + ors)) ==
      if ors == [] then P.OrConditionText(o)
      else P.OrConditionText(o) + ";" + P.AndConditionText(P.AndCondition(false, ors))
  {
    var xs, ys := P.Texts([o] + ors, P.OrConditionText), P.Texts(ors, P.OrConditionText);
    var x := P.OrConditionText(o);
    TextsCons(o, ors, P.OrConditionText);
    assert P.AndConditionParts(P.AndCondition(false, [o] + ors)) == xs by {
      assert [] + xs == xs;
    }
    assert P.AndConditionParts(P.AndCondition(false, ors)) == ys by {
      assert [] + ys == ys;
    }
    JoinCons(x, ys, ";");
  }

  // ---------------------------------------------------------------------
  // Sequence

  /** The steps are printed in order with nothing between them, each as
      its type token followed by its and-condition. */
  lemma SequenceStepsTextCons(st: P.SequenceStep, ss: seq<P.SequenceStep>)
    ensures P.SequenceStepsText([st] + ss) ==
      st.stepType + P.AndConditionText(st.andCondition) + P.SequenceStepsText(ss)
  {
    TextsCons(st, ss, P.SequenceStepText);
    JoinCons(P.SequenceStepText(st), P.Texts(ss, P.SequenceStepText), "");
    assert P.SequenceStepText(st) + "" == P.SequenceStepText(st);
  }

  // ---------------------------------------------------------------------
  // SegmentConditions

  /** A list whose elements share one scope prints that scope once, in
      front, and then the elements without scope separated by `;`. */
  lemma SharedScopePrintedOnce(scs: seq<P.SegmentCondition>, scope: string)
    requires |scs| > 0
    requires forall k :: 0 <= k < |scs| ==> P.Printable(scs[k]) && scs[k].scope == scope
    ensures Join(P.SegmentConditionsParts(scs), ";") == scope + Join(P.WithoutScopeTexts(scs), ";")
  {
    var parts := P.SegmentConditionsParts(scs);
    var bare := P.WithoutScopeTexts(scs);
    forall k | 1 <= k < |scs|
      ensures parts[k] == bare[k]
    {
      assert "" + bare[k] == bare[k];
    }
    JoinFirstPrefix(parts, bare, scope, ";");
  }

  /** When every element's scope differs from the one before it (and the
      first is not empty), each element is printed whole, scope included,
      as SegmentCondition.String prints it. */
  lemma ChangingScopesPrintedWhole(scs: seq<P.SegmentCondition>)
    requires forall k :: 0 <= k < |scs| ==> P.Printable(scs[k]) && P.ScopeShown(scs, k)
    ensures P.SegmentConditionsParts(scs) == seq(|scs|, k requires 0 <= k < |scs| => P.SegmentConditionText(scs[k]))
  {
  }
}
