/** The validity checks of validation.go over the parser-shape tree: a limit
    on the number of runes in each expression's value, combined by
    conjunction up through or-expressions, and-expressions, segments and
    segment lists.  A rune is one `char` here, so a rune count is a length. */
module Validation {
  import opened Ast

  /** The most runes a value may have under Regexp or NotRegexp. */
  const RegexpValueLimit: nat := 128

  /** The most runes a value may have under every other operator. */
  const ValueLimit: nat := 1024

  /** Expression.IsValid (validation.go:44-57).  A value of at most 128
      runes passes under every operator, one of more than 1024 under none,
      and in between only the non-regexp operators accept it. */
  predicate ExpressionIsValid(e: Expression)
    ensures |e.value| <= RegexpValueLimit ==> ExpressionIsValid(e)
    ensures |e.value| > ValueLimit ==> !ExpressionIsValid(e)
    ensures RegexpValueLimit < |e.value| <= ValueLimit ==>
      (ExpressionIsValid(e) <==> e.operator != Regexp && e.operator != NotRegexp)
  {
    match e.operator
    case Regexp | NotRegexp => !(|e.value| > RegexpValueLimit)
    case _ => !(|e.value| > ValueLimit)
  }

  /** The loop shared by the list checks: the first invalid element stops
      the walk with false; reaching the end gives true. */
  predicate AllValid<T>(xs: seq<T>, valid: T -> bool)
    decreases |xs|
  {
    if xs == [] then true
    else if !valid(xs[0]) then false
    else AllValid(xs[1..], valid)
  }

  /** OrExpression.IsValid (validation.go:34-42): a valid or-expression
      has no value over 1024 runes, and one whose values all have at most
      128 runes is valid. */
  predicate OrIsValid(oe: OrExpression)
    ensures OrIsValid(oe) ==> forall i :: 0 <= i < |oe| ==> |oe[i].value| <= ValueLimit
    ensures (forall i :: 0 <= i < |oe| ==> |oe[i].value| <= RegexpValueLimit) ==> OrIsValid(oe)
  {
    AllValidMeaning(oe, ExpressionIsValid);
    AllValid(oe, ExpressionIsValid)
  }

  /** AndExpression.IsValid (validation.go:24-32): the same bounds, over
      every expression of every group. */
  predicate AndIsValid(ae: AndExpression)
    ensures AndIsValid(ae) ==>
      forall i, j :: 0 <= i < |ae| && 0 <= j < |ae[i]| ==> |ae[i][j].value| <= ValueLimit
    ensures (forall i, j :: 0 <= i < |ae| && 0 <= j < |ae[i]| ==> |ae[i][j].value| <= RegexpValueLimit) ==>
      AndIsValid(ae)
  {
    AllValidMeaning(ae, OrIsValid);
    AllValid(ae, OrIsValid)
  }

  /** Segment.IsValid (validation.go:14-22): only a condition segment is
      checked; a sequence segment, and a segment of any other type, passes
      whatever it holds. */
  predicate SegmentIsValid(s: Segment)
    ensures s.segmentType != ConditionSegment ==> SegmentIsValid(s)
  {
    match s.segmentType
    case ConditionSegment => AndIsValid(s.condition.andExpression)
    case _ => true
  }

  /** Segments.IsValid (validation.go:5-12): in a valid list every
      condition segment's and-expression is valid, and a list without
      condition segments is valid. */
  predicate SegmentsIsValid(ss: Segments)
    ensures SegmentsIsValid(ss) ==>
      forall k :: 0 <= k < |ss| && ss[k].segmentType == ConditionSegment ==> AndIsValid(ss[k].condition.andExpression)
    ensures (forall k :: 0 <= k < |ss| ==> ss[k].segmentType != ConditionSegment) ==> SegmentsIsValid(ss)
  {
    AllValidMeaning(ss, SegmentIsValid);
    AllValid(ss, SegmentIsValid)
  }

  // ---------------------------------------------------------------------
  // The early-return walks are conjunctions

  /** The walk accepts a list exactly when every element is valid; in
      particular the empty list is valid. */
  lemma {:induction false} AllValidMeaning<T>(xs: seq<T>, valid: T -> bool)
    ensures AllValid(xs, valid) <==> forall i :: 0 <= i < |xs| ==> valid(xs[i])
    decreases |xs|
  {
    if xs != [] {
      AllValidMeaning(xs[1..], valid);
      assert forall i :: 1 <= i < |xs| ==> xs[i] == xs[1..][i - 1];
    }
  }

  /** An or-expression is valid exactly when each of its expressions is. */
  lemma OrIsValidMeaning(oe: OrExpression)
    ensures OrIsValid(oe) <==> forall i :: 0 <= i < |oe| ==> ExpressionIsValid(oe[i])
  {
    AllValidMeaning(oe, ExpressionIsValid);
  }

  /** An and-expression is valid exactly when every expression in every one
      of its or-expressions is. */
  lemma AndIsValidMeaning(ae: AndExpression)
    ensures AndIsValid(ae) <==>
      forall i, j :: 0 <= i < |ae| && 0 <= j < |ae[i]| ==> ExpressionIsValid(ae[i][j])
  {
    AllValidMeaning(ae, OrIsValid);
    forall i | 0 <= i < |ae|
      ensures OrIsValid(ae[i]) <==> forall j :: 0 <= j < |ae[i]| ==> ExpressionIsValid(ae[i][j])
    {
      OrIsValidMeaning(ae[i]);
    }
  }

  /** A segment is valid exactly when it is not a condition segment, or
      every expression of its condition is valid. */
  lemma SegmentIsValidMeaning(s: Segment)
    ensures SegmentIsValid(s) <==>
      (s.segmentType == ConditionSegment ==>
        forall i, j :: 0 <= i < |s.condition.andExpression| && 0 <= j < |s.condition.andExpression[i]| ==>
          ExpressionIsValid(s.condition.andExpression[i][j]))
  {
    AndIsValidMeaning(s.condition.andExpression);
  }

  /** A list of segments is valid exactly when each segment is. */
  lemma SegmentsIsValidMeaning(ss: Segments)
    ensures SegmentsIsValid(ss) <==> forall k :: 0 <= k < |ss| ==> SegmentIsValid(ss[k])
  {
    AllValidMeaning(ss, SegmentIsValid);
  }

  /** Validity of a list splits over concatenation. */
  lemma SegmentsIsValidConcat(a: Segments, b: Segments)
    ensures SegmentsIsValid(a + b) <==> SegmentsIsValid(a) && SegmentsIsValid(b)
  {
    SegmentsIsValidMeaning(a);
    SegmentsIsValidMeaning(b);
    SegmentsIsValidMeaning(a + b);
    if SegmentsIsValid(a + b) {
      forall k | 0 <= k < |b| ensures SegmentIsValid(b[k]) {
        assert b[k] == (a + b)[|a| + k];
      }
      forall k | 0 <= k < |a| ensures SegmentIsValid(a[k]) {
        assert a[k] == (a + b)[k];
      }
    }
  }

  /** Segments made only of sequence segments are valid, however long
      their values are. */
  lemma SequenceSegmentsValid(ss: Segments)
    requires forall k :: 0 <= k < |ss| ==> ss[k].segmentType == SequenceSegment
    ensures SegmentsIsValid(ss)
  {
    SegmentsIsValidMeaning(ss);
  }
}
