/** What the parser of parser.go computes, stated in terms of the input
    text: the list levels map every other piece of the split, the first
    failure wins, a segment without a scope inherits one, and an
    expression is cut at the leftmost operator. */
module ParserFacts {
  import opened Wrappers
  import opened Strs
  import opened Ast
  import opened Split
  import opened Parser

  /** The k-th piece counted every other one from index i: parts[i + 2k]. */
  function PartAt(parts: seq<string>, i: nat, k: nat): string
    requires i + 2 * k < |parts|
  {
    parts[i + 2 * k]
  }

  // ---------------------------------------------------------------------
  // The list levels: parseOrExpression, parseAndExpression

  /** MapEven over n pieces: it succeeds exactly when every piece does, and
      then holds one result per piece, in order. */
  lemma {:induction false} MapEvenSuccess<T>(parts: seq<string>, i: nat, n: nat, f: string -> Result<T, ParseError>)
    requires i + 2 * n == |parts| + 1
    ensures MapEven(parts, i, f).Success? <==> forall k :: 0 <= k < n ==> f(PartAt(parts, i, k)).Success?
    ensures MapEven(parts, i, f).Success? ==>
      |MapEven(parts, i, f).value| == n &&
      forall k :: 0 <= k < n ==> f(PartAt(parts, i, k)) == Success(MapEven(parts, i, f).value[k])
    decreases n
  {
    if n > 0 {
      assert PartAt(parts, i, 0) == parts[i];
      assert forall k :: 1 <= k < n ==> PartAt(parts, i, k) == PartAt(parts, i + 2, k - 1);
      if f(parts[i]).Success? {
        MapEvenSuccess(parts, i + 2, n - 1, f);
        var x := f(parts[i]).value;
        if MapEven(parts, i + 2, f).Success? {
          var ys := MapEven(parts, i + 2, f).value;
          assert MapEven(parts, i, f).value == [x] + ys;
          forall k | 1 <= k < n
            ensures f(PartAt(parts, i, k)) == Success(MapEven(parts, i, f).value[k])
          {
            assert MapEven(parts, i, f).value[k] == ys[k - 1];
          }
        } else {
          var k :| 0 <= k < n - 1 && !f(PartAt(parts, i + 2, k)).Success?;
          assert !f(PartAt(parts, i, k + 1)).Success?;
        }
      }
    }
  }

  /** When MapEven fails, it fails with the error of the first piece that
      fails, every earlier piece having succeeded. */
  lemma {:induction false} MapEvenFirstFailure<T>(parts: seq<string>, i: nat, n: nat, f: string -> Result<T, ParseError>)
    requires i + 2 * n == |parts| + 1
    requires MapEven(parts, i, f).Failure?
    ensures exists k ::
      && 0 <= k < n
      && f(PartAt(parts, i, k)) == Failure(MapEven(parts, i, f).error)
      && (forall k' :: 0 <= k' < k ==> f(PartAt(parts, i, k')).Success?)
    decreases n
  {
    assert PartAt(parts, i, 0) == parts[i];
    if f(parts[i]).Success? {
      var j := i + 2;
      MapEvenFirstFailure(parts, j, n - 1, f);
      var k :| 0 <= k < n - 1 && f(PartAt(parts, j, k)) == Failure(MapEven(parts, j, f).error) &&
        (forall k' :: 0 <= k' < k ==> f(PartAt(parts, j, k')).Success?);
      assert forall k' :: 1 <= k' < n ==> PartAt(parts, i, k') == PartAt(parts, j, k' - 1);
      assert f(PartAt(parts, i, k + 1)) == Failure(MapEven(parts, i, f).error);
    }
  }

  // ---------------------------------------------------------------------
  // parseExpression

  /** Every operator with a text is in the alternation. */
  lemma AlternationComplete(op: Operator)
    requires HasToken(op)
    ensures op in ParserOperators
  {
  }

  /** Every operator text begins with one of `=`, `!`, `<`, `>`, `[`. */
  lemma OperatorFirstChar(s: string, p: nat, op: Operator)
    requires OperatorStartsAt(s, p, op)
    ensures p < |s| && s[p] in "=!<>["
  {
    assert s[p] == Token(op)[0];
  }

  /** At one position the alternation yields the first operator in list
      order whose text starts there, and nothing when none does. */
  lemma {:induction false} OperatorAtFirst(s: string, p: nat, ops: seq<Operator>)
    ensures OperatorAt(s, p, ops).None? <==> forall k :: 0 <= k < |ops| ==> !OperatorStartsAt(s, p, ops[k])
    ensures OperatorAt(s, p, ops).Some? ==> OperatorStartsAt(s, p, OperatorAt(s, p, ops).value)
    ensures OperatorAt(s, p, ops).Some? ==> exists k ::
      && 0 <= k < |ops|
      && ops[k] == OperatorAt(s, p, ops).value
      && (forall k' :: 0 <= k' < k ==> !OperatorStartsAt(s, p, ops[k']))
    decreases ops
  {
    if ops != [] && !OperatorStartsAt(s, p, ops[0]) {
      var rest := ops[1..];
      OperatorAtFirst(s, p, rest);
      assert forall k :: 1 <= k < |ops| ==> ops[k] == rest[k - 1];
      if OperatorAt(s, p, rest).Some? {
        var k :| 0 <= k < |rest| && rest[k] == OperatorAt(s, p, rest).value &&
          (forall k' :: 0 <= k' < k ==> !OperatorStartsAt(s, p, rest[k']));
        assert ops[k + 1] == rest[k];
      }
    }
  }

  /** No operator at all starts at p exactly when the alternation finds none there. */
  lemma NoOperatorAt(s: string, p: nat)
    ensures OperatorAt(s, p, ParserOperators).None? <==> forall op :: !OperatorStartsAt(s, p, op)
  {
    OperatorAtFirst(s, p, ParserOperators);
    forall op | OperatorStartsAt(s, p, op)
      ensures exists k :: 0 <= k < |ParserOperators| && ParserOperators[k] == op
    {
      AlternationComplete(op);
    }
  }

  /** FirstOperator is the leftmost position where the alternation finds
      an operator. */
  lemma {:induction false} FirstOperatorLeftmost(s: string, i: nat, ops: seq<Operator>)
    ensures FirstOperator(s, i, ops).None? <==> forall p :: i <= p < |s| ==> OperatorAt(s, p, ops).None?
    ensures FirstOperator(s, i, ops).Some? ==>
      && OperatorAt(s, FirstOperator(s, i, ops).value.0, ops) == Some(FirstOperator(s, i, ops).value.1)
      && forall p :: i <= p < FirstOperator(s, i, ops).value.0 ==> OperatorAt(s, p, ops).None?
    decreases |s| - i
  {
    if i < |s| {
      match OperatorAt(s, i, ops)
      case Some(op) =>
        assert FirstOperator(s, i, ops) == Some((i, op));
        assert !OperatorAt(s, i, ops).None?;
      case None =>
        assert FirstOperator(s, i, ops) == FirstOperator(s, i + 1, ops);
        FirstOperatorLeftmost(s, i + 1, ops);
    }
  }

  /** No operator text starts at p. */
  predicate NoOperatorStartsAt(s: string, p: nat)
  {
    forall op :: !OperatorStartsAt(s, p, op)
  }

  /** The metric-scope cut of parseExpression (parser.go:204-211) removes
      exactly the token of the scope it reports, and reports Default only
      when none of the three prefixes is present. */
  lemma MetricScopeCut(d: string)
    ensures var (ms, s) := StripMetricScope(d);
      && d == MetricScopeToken(ms) + s
      && (ms == Default <==> !HasPrefix(d, "perHit::") && !HasPrefix(d, "perUser::") && !HasPrefix(d, "perSession::"))
  {
    var (ms, s) := StripMetricScope(d);
    assert d == d[..|MetricScopeToken(ms)|] + s;
  }

  /** parseExpression fails, with an invalid-expression error naming the
      whole definition, exactly when no operator text starts anywhere after
      the metric scope. */
  lemma ExpressionFailure(d: string)
    ensures var s := StripMetricScope(d).1;
      && (ExpressionOf(d).Failure? <==> forall p :: 0 <= p < |s| ==> NoOperatorStartsAt(s, p))
      && (ExpressionOf(d).Failure? ==> ExpressionOf(d).error == InvalidExpression(d))
  {
    var s := StripMetricScope(d).1;
    FirstOperatorLeftmost(s, 0, ParserOperators);
    match FirstOperator(s, 0, ParserOperators)
    case None =>
      forall p | 0 <= p < |s|
        ensures NoOperatorStartsAt(s, p)
      {
        NoOperatorAt(s, p);
      }
    case Some((p, op)) =>
      assert !NoOperatorStartsAt(s, p) by {
        NoOperatorAt(s, p);
      }
  }

  /** A parsed expression is the text after the metric scope cut at an
      operator: the target before it, the unescaped rest after it. */
  lemma ExpressionSplitsAtOperator(d: string)
    requires ExpressionOf(d).Success?
    ensures var (ms, s) := StripMetricScope(d);
      var e := ExpressionOf(d).value;
      && e.metricScope == ms
      && HasPrefix(s, e.target)
      && OperatorStartsAt(s, |e.target|, e.operator)
      && e.value == UnescapeExpressionValue(s[|e.target| + |Token(e.operator)|..])
  {
    var (ms, s) := StripMetricScope(d);
    var (p, op) := FirstOperator(s, 0, ParserOperators).value;
    var rest := s[p + |Token(op)|..];
    var e := ExpressionOf(d).value;
    assert e == Expression(ms, s[..p], op, UnescapeExpressionValue(rest));
    assert s[|e.target| + |Token(e.operator)|..] == rest;
    FirstOperatorLeftmost(s, 0, ParserOperators);
    OperatorAtFirst(s, p, ParserOperators);
  }

  /** The operator sits at the leftmost position where any operator text
      starts: none starts inside the target. */
  lemma ExpressionTargetHasNoOperator(d: string)
    requires ExpressionOf(d).Success?
    ensures var s := StripMetricScope(d).1;
      forall p :: 0 <= p < |ExpressionOf(d).value.target| ==> NoOperatorStartsAt(s, p)
  {
    var s := StripMetricScope(d).1;
    var p := FirstOperator(s, 0, ParserOperators).value.0;
    FirstOperatorLeftmost(s, 0, ParserOperators);
    assert |ExpressionOf(d).value.target| == p;
    forall q | 0 <= q < p
      ensures NoOperatorStartsAt(s, q)
    {
      NoOperatorAt(s, q);
    }
  }

  /** Of the operators whose text starts at that position, the parser takes
      the first in the order of the alternation. */
  lemma ExpressionOperatorFirstInList(d: string)
    requires ExpressionOf(d).Success?
    ensures var s := StripMetricScope(d).1;
      var e := ExpressionOf(d).value;
      exists k ::
        && 0 <= k < |ParserOperators|
        && ParserOperators[k] == e.operator
        && forall k' :: 0 <= k' < k ==> !OperatorStartsAt(s, |e.target|, ParserOperators[k'])
  {
    var s := StripMetricScope(d).1;
    var p := FirstOperator(s, 0, ParserOperators).value.0;
    FirstOperatorLeftmost(s, 0, ParserOperators);
    assert |ExpressionOf(d).value.target| == p;
    OperatorAtFirst(s, p, ParserOperators);
  }

  /** At any one position the alternation never yields `<=`, `>=` or `<>`:
      `<` is listed before `<=` and `<>`, and `>` before `>=`. */
  lemma AlternationNeverLong(s: string, p: nat)
    ensures OperatorAt(s, p, ParserOperators) !in {Some(LessThanEqual), Some(GreaterThanEqual), Some(Between)}
  {
    var ops := ParserOperators;
    if p < |s| && s[p] == '<' {
      assert !OperatorStartsAt(s, p, Equal) && !OperatorStartsAt(s, p, NotEqual);
      assert OperatorStartsAt(s, p, LessThan) by {
        assert s[p..p + 1] == "<";
      }
      assert OperatorAt(s, p, ops) == OperatorAt(s, p, ops[2..]) == Some(LessThan);
    } else if p < |s| && s[p] == '>' {
      assert !OperatorStartsAt(s, p, Equal) && !OperatorStartsAt(s, p, NotEqual);
      assert !OperatorStartsAt(s, p, LessThan) && !OperatorStartsAt(s, p, LessThanEqual);
      assert OperatorStartsAt(s, p, GreaterThan) by {
        assert s[p..p + 1] == ">";
      }
      assert OperatorAt(s, p, ops) == OperatorAt(s, p, ops[2..]) == OperatorAt(s, p, ops[4..]) == Some(GreaterThan);
    } else {
      OperatorAtFirst(s, p, ops);
      if OperatorAt(s, p, ops).Some? {
        OperatorFirstChar(s, p, OperatorAt(s, p, ops).value);
      }
    }
  }

  /** The parser never yields LessThanEqual, GreaterThanEqual or Between. */
  lemma ShortOperatorsWin(d: string)
    requires ExpressionOf(d).Success?
    ensures ExpressionOf(d).value.operator !in {LessThanEqual, GreaterThanEqual, Between}
  {
    var s := StripMetricScope(d).1;
    var p := FirstOperator(s, 0, ParserOperators).value.0;
    FirstOperatorLeftmost(s, 0, ParserOperators);
    AlternationNeverLong(s, p);
  }

  /** A character that begins no operator text starts no operator. */
  lemma NotOperatorChar(s: string, p: nat)
    requires p < |s| && s[p] !in "=!<>["
    ensures NoOperatorStartsAt(s, p)
  {
    forall op
      ensures !OperatorStartsAt(s, p, op)
    {
      if HasToken(op) {
        assert Token(op)[0] in "=!<>[";
      }
    }
  }

  /** `x<=5` is read as `x` `<` `=5`. */
  lemma LessThanEqualExample(s: string)
    requires s == "ga:x<=5"
    ensures ExpressionOf(s) == Success(Expression(Default, "ga:x", LessThan, "=5"))
  {
    assert StripMetricScope(s) == (Default, s);
    forall p | 0 <= p < 4
      ensures OperatorAt(s, p, ParserOperators).None?
    {
      NotOperatorChar(s, p);
      NoOperatorAt(s, p);
    }
    assert OperatorAt(s, 4, ParserOperators) == Some(LessThan) by {
      var ops := ParserOperators;
      assert s[4] == '<' && s[5] == '=';
      assert !OperatorStartsAt(s, 4, ops[0]) && !OperatorStartsAt(s, 4, ops[1]) && OperatorStartsAt(s, 4, ops[2]);
      assert OperatorAt(s, 4, ops) == OperatorAt(s, 4, ops[1..]) == OperatorAt(s, 4, ops[2..]);
    }
    assert FirstOperator(s, 4, ParserOperators) == Some((4, LessThan));
    assert FirstOperator(s, 3, ParserOperators) == FirstOperator(s, 4, ParserOperators);
    assert FirstOperator(s, 2, ParserOperators) == FirstOperator(s, 3, ParserOperators);
    assert FirstOperator(s, 1, ParserOperators) == FirstOperator(s, 2, ParserOperators);
    assert FirstOperator(s, 0, ParserOperators) == FirstOperator(s, 1, ParserOperators);
    assert s[..4] == "ga:x" && s[5..] == "=5";
    assert UnescapeExpressionValue("=5") == "=5";
  }

  // ---------------------------------------------------------------------
  // parseOrExpression, parseAndExpression, parseCondition

  /** parseOrExpression (parser.go:187-199): one expression per piece
      between unescaped commas, in order; it fails exactly when one of them
      does, and then with an invalid-expression error. */
  lemma OrExpressionPieces(d: string)
    ensures var parts := SplitOf(d, OrSeparatorRe);
      var n := |FindAll(d, OrSeparatorRe, 0)| + 1;
      && |parts| + 1 == 2 * n
      && (OrOf(d).Success? <==> forall k :: 0 <= k < n ==> ExpressionOf(PartAt(parts, 0, k)).Success?)
      && (OrOf(d).Success? ==>
        && |OrOf(d).value| == n
        && forall k :: 0 <= k < n ==> ExpressionOf(PartAt(parts, 0, k)) == Success(OrOf(d).value[k]))
      && (OrOf(d).Failure? ==> OrOf(d).error.InvalidExpression?)
  {
    var parts := SplitOf(d, OrSeparatorRe);
    var n := |FindAll(d, OrSeparatorRe, 0)| + 1;
    SplitShape(d, OrSeparatorRe);
    MapEvenSuccess(parts, 0, n, ExpressionOf);
    if OrOf(d).Failure? {
      MapEvenFirstFailure(parts, 0, n, ExpressionOf);
      var k :| 0 <= k < n && ExpressionOf(PartAt(parts, 0, k)) == Failure(OrOf(d).error);
      ExpressionFailure(PartAt(parts, 0, k));
    }
  }

  /** parseAndExpression (parser.go:173-185): one or-expression per piece
      between unescaped semicolons, in order; it fails exactly when one of
      them does, and then with an invalid-expression error. */
  lemma AndExpressionPieces(d: string)
    ensures var parts := SplitOf(d, AndSeparatorRe);
      var n := |FindAll(d, AndSeparatorRe, 0)| + 1;
      && |parts| + 1 == 2 * n
      && (AndOf(d).Success? <==> forall k :: 0 <= k < n ==> OrOf(PartAt(parts, 0, k)).Success?)
      && (AndOf(d).Success? ==>
        && |AndOf(d).value| == n
        && forall k :: 0 <= k < n ==> OrOf(PartAt(parts, 0, k)) == Success(AndOf(d).value[k]))
      && (AndOf(d).Failure? ==> AndOf(d).error.InvalidExpression?)
  {
    var parts := SplitOf(d, AndSeparatorRe);
    var n := |FindAll(d, AndSeparatorRe, 0)| + 1;
    SplitShape(d, AndSeparatorRe);
    MapEvenSuccess(parts, 0, n, OrOf);
    if AndOf(d).Failure? {
      MapEvenFirstFailure(parts, 0, n, OrOf);
      var k :| 0 <= k < n && OrOf(PartAt(parts, 0, k)) == Failure(AndOf(d).error);
      OrExpressionPieces(PartAt(parts, 0, k));
    }
  }

  /** parseCondition (parser.go:155-171): a leading `!` sets Exclude and is
      not part of the and-expression; errors are invalid expressions. */
  lemma ConditionMeaning(d: string)
    ensures var rest := if HasPrefix(d, "!") then d[1..] else d;
      && (ConditionOf(d).Success? <==> AndOf(rest).Success?)
      && (ConditionOf(d).Success? ==>
        ConditionOf(d).value == Condition(|d| > 0 && d[0] == '!', AndOf(rest).value))
      && (ConditionOf(d).Failure? ==> ConditionOf(d).error.InvalidExpression?)
  {
    var rest := if HasPrefix(d, "!") then d[1..] else d;
    AndExpressionPieces(rest);
  }

  // ---------------------------------------------------------------------
  // parseSequence

  /** The later steps over n (separator, step text) pairs from index i:
      one step per pair, typed by its separator, failing exactly when the
      text of one of them fails. `j` names i + 1, where the texts start. */
  lemma {:induction false} StepsFromAll(parts: seq<string>, i: nat, j: nat, n: nat, stepOf: string -> Result<AndExpression, ParseError>)
    requires j == i + 1 && i + 2 * n == |parts|
    ensures StepsFrom(parts, i, stepOf).Success? <==> forall k :: 0 <= k < n ==> stepOf(PartAt(parts, j, k)).Success?
    ensures StepsFrom(parts, i, stepOf).Success? ==>
      && |StepsFrom(parts, i, stepOf).value| == n
      && forall k :: 0 <= k < n ==>
        StepsFrom(parts, i, stepOf).value[k] == SequenceStep(PartAt(parts, i, k), stepOf(PartAt(parts, j, k)).value)
    ensures StepsFrom(parts, i, stepOf).Failure? ==> exists k :: 0 <= k < n && stepOf(PartAt(parts, j, k)) == Failure(StepsFrom(parts, i, stepOf).error)
    decreases n
  {
    if n > 0 {
      assert PartAt(parts, i, 0) == parts[i] && PartAt(parts, j, 0) == parts[i + 1];
      var i', j' := i + 2, j + 2;
      assert forall k :: 1 <= k < n ==> PartAt(parts, i, k) == PartAt(parts, i', k - 1);
      assert forall k :: 1 <= k < n ==> PartAt(parts, j, k) == PartAt(parts, j', k - 1);
      if stepOf(parts[i + 1]).Success? {
        StepsFromAll(parts, i', j', n - 1, stepOf);
        var step := SequenceStep(parts[i], stepOf(parts[i + 1]).value);
        assert StepsFrom(parts, i, stepOf) == Prepend(step, StepsFrom(parts, i', stepOf));
        if StepsFrom(parts, i', stepOf).Success? {
          var ys := StepsFrom(parts, i', stepOf).value;
          assert StepsFrom(parts, i, stepOf).value == [step] + ys;
          forall k | 1 <= k < n
            ensures StepsFrom(parts, i, stepOf).value[k] == SequenceStep(PartAt(parts, i, k), stepOf(PartAt(parts, j, k)).value)
          {
            assert StepsFrom(parts, i, stepOf).value[k] == ys[k - 1];
          }
        } else {
          var k :| 0 <= k < n - 1 && stepOf(PartAt(parts, j', k)) == Failure(StepsFrom(parts, i', stepOf).error);
          assert stepOf(PartAt(parts, j, k + 1)) == Failure(StepsFrom(parts, i, stepOf).error);
        }
      }
    }
  }

  /** parseSequence (parser.go:117-125): a leading `!` sets Not, then a
      `^` after it sets FirstHitMatchesFirstStep; both are removed before
      the steps are cut. */
  lemma SequenceFlags(d: string)
    requires SequenceOf(d).Success?
    ensures var q := SequenceOf(d).value;
      && q.not == (|d| > 0 && d[0] == '!')
      && q.firstHitMatchesFirstStep == (if q.not then |d| > 1 && d[1] == '^' else |d| > 0 && d[0] == '^')
      && SequenceBody(d) == d[(if q.not then 1 else 0) + (if q.firstHitMatchesFirstStep then 1 else 0)..]
  {
  }

  /** parseSequence (parser.go:126-151): the body, cut at every unescaped
      `;->>` or `;->`, gives one step per piece, the first typed FirstStep
      and each later one typed by the separator before it; the parse
      succeeds exactly when every piece does. */
  lemma SequenceSteps(d: string)
    ensures var body := SequenceBody(d);
      var parts := SplitOf(body, SequenceSeparatorRe);
      var n := |FindAll(body, SequenceSeparatorRe, 0)|;
      && |parts| == 2 * n + 1
      && (SequenceOf(d).Success? <==>
        AndOf(parts[0]).Success? && forall k :: 0 <= k < n ==> AndOf(PartAt(parts, 2, k)).Success?)
      && (SequenceOf(d).Success? ==>
        var steps := SequenceOf(d).value.sequenceSteps;
        && |steps| == n + 1
        && steps[0] == SequenceStep(FirstStep, AndOf(parts[0]).value)
        && forall k :: 0 <= k < n ==>
          && steps[k + 1] == SequenceStep(PartAt(parts, 1, k), AndOf(PartAt(parts, 2, k)).value)
          && (PartAt(parts, 1, k) == ";->>" || PartAt(parts, 1, k) == ";->"))
  {
    var body := SequenceBody(d);
    var parts := SplitOf(body, SequenceSeparatorRe);
    var n := |FindAll(body, SequenceSeparatorRe, 0)|;
    SplitShape(body, SequenceSeparatorRe);
    StepsFromAll(parts, 1, 2, n, AndOf);
    assert SequenceOf(d).Success? <==> AndOf(parts[0]).Success? && StepsFrom(parts, 1, AndOf).Success?;
    if SequenceOf(d).Success? {
      var steps := SequenceOf(d).value.sequenceSteps;
      var rest := StepsFrom(parts, 1, AndOf).value;
      assert steps == [SequenceStep(FirstStep, AndOf(parts[0]).value)] + rest;
      forall k | 0 <= k < n
        ensures steps[k + 1] == rest[k]
        ensures PartAt(parts, 1, k) == ";->>" || PartAt(parts, 1, k) == ";->"
      {
        assert PartAt(parts, 1, k) == parts[2 * k + 1];
      }
    }
  }

  /** Every error of parseSequence is an invalid expression. */
  lemma SequenceFailure(d: string)
    requires SequenceOf(d).Failure?
    ensures SequenceOf(d).error.InvalidExpression?
  {
    var body := SequenceBody(d);
    var parts := SplitOf(body, SequenceSeparatorRe);
    var n := |FindAll(body, SequenceSeparatorRe, 0)|;
    SplitShape(body, SequenceSeparatorRe);
    if AndOf(parts[0]).Failure? {
      AndExpressionPieces(parts[0]);
    } else {
      StepsFromAll(parts, 1, 2, n, AndOf);
      var k :| 0 <= k < n && AndOf(PartAt(parts, 2, k)) == Failure(StepsFrom(parts, 1, AndOf).error);
      AndExpressionPieces(PartAt(parts, 2, k));
    }
  }

  // ---------------------------------------------------------------------
  // parseSegment

  /** The scope prefixes of parseSegment (parser.go:79-86): `sessions::`
      is removed first and `users::` after it, so `users::` wins when both
      are present; the rest is a suffix of the definition. */
  lemma SegmentScopeCut(d: string)
    ensures var (scope, s) := SegmentScopeOf(d);
      var afterSessions := if HasPrefix(d, "sessions::") then d[10..] else d;
      && (scope == UserScope <==> HasPrefix(afterSessions, "users::"))
      && (scope == SessionScope <==> HasPrefix(d, "sessions::") && !HasPrefix(afterSessions, "users::"))
      && (scope == NoScope <==> !HasPrefix(d, "sessions::") && !HasPrefix(d, "users::"))
      && |s| <= |d| && s == d[|d| - |s|..]
  {
  }

  /** parseSegment (parser.go:74-111): after the scope prefixes, the text
      must start with `condition::` or `sequence::`; otherwise the error
      carries the rest of the text. Every other error is an invalid
      expression, so parseSegment never reports a missing scope. */
  lemma SegmentErrors(d: string)
    ensures var s := SegmentScopeOf(d).1;
      && (SegmentOf(d) == Failure(UnknownSegmentCondition(s)) <==>
        !HasPrefix(s, "condition::") && !HasPrefix(s, "sequence::"))
      && (SegmentOf(d).Failure? ==>
        SegmentOf(d).error == UnknownSegmentCondition(s) || SegmentOf(d).error.InvalidExpression?)
  {
    var s := SegmentScopeOf(d).1;
    if HasPrefix(s, "condition::") {
      ConditionMeaning(s[11..]);
    } else if HasPrefix(s, "sequence::") {
      if SequenceOf(s[10..]).Failure? {
        SequenceFailure(s[10..]);
      }
    }
  }

  /** A parsed segment keeps the scope its prefix gave it, and its type
      names the payload that was parsed: the other payload is empty. */
  lemma SegmentKinds(d: string)
    requires SegmentOf(d).Success?
    ensures var (scope, s) := SegmentScopeOf(d);
      var sg := SegmentOf(d).value;
      && sg.scope == scope
      && (sg.segmentType == ConditionSegment <==> HasPrefix(s, "condition::"))
      && (sg.segmentType == ConditionSegment ==> sg.condition == ConditionOf(s[11..]).value && sg.sequence == EmptySequence)
      && (sg.segmentType == SequenceSegment <==> !HasPrefix(s, "condition::") && HasPrefix(s, "sequence::"))
      && (sg.segmentType == SequenceSegment ==> sg.sequence == SequenceOf(s[10..]).value && sg.condition == EmptyCondition)
  {
  }

  // ---------------------------------------------------------------------
  // Parse

  /** The segment loop over n chunks from index i, with `last` the scope so
      far: it succeeds exactly when every chunk parses and the first has a
      scope or inherits one; then every segment has a scope, taken from its
      own prefix or else from the segment before it. */
  lemma {:induction false} SegmentsFromAll(parts: seq<string>, i: nat, n: nat, last: SegmentScope, segmentOf: string -> Result<Segment, ParseError>)
    requires i + 2 * n == |parts| + 1
    ensures SegmentsFrom(parts, i, last, segmentOf).Success? <==>
      && (forall k :: 0 <= k < n ==> segmentOf(PartAt(parts, i, k)).Success?)
      && (n > 0 && last == NoScope ==> segmentOf(PartAt(parts, i, 0)).value.scope != NoScope)
    ensures SegmentsFrom(parts, i, last, segmentOf).Success? ==>
      var r := SegmentsFrom(parts, i, last, segmentOf).value;
      && |r| == n
      && forall k :: 0 <= k < n ==>
        && r[k].scope != NoScope
        && r[k] == WithScope(segmentOf(PartAt(parts, i, k)).value, if k == 0 then last else r[k - 1].scope)
    decreases n
  {
    if n > 0 {
      assert PartAt(parts, i, 0) == parts[i];
      var i' := i + 2;
      assert forall k :: 1 <= k < n ==> PartAt(parts, i, k) == PartAt(parts, i', k - 1);
      if segmentOf(parts[i]).Success? {
        var sg := segmentOf(parts[i]).value;
        if sg.scope != NoScope || last != NoScope {
          var s := WithScope(sg, last);
          SegmentsFromAll(parts, i', n - 1, s.scope, segmentOf);
          assert SegmentsFrom(parts, i, last, segmentOf) == Prepend(s, SegmentsFrom(parts, i', s.scope, segmentOf));
          if SegmentsFrom(parts, i', s.scope, segmentOf).Success? {
            var ys := SegmentsFrom(parts, i', s.scope, segmentOf).value;
            var r := SegmentsFrom(parts, i, last, segmentOf).value;
            assert r == [s] + ys;
            forall k | 1 <= k < n
              ensures r[k] == WithScope(segmentOf(PartAt(parts, i, k)).value, r[k - 1].scope)
            {
              assert r[k] == ys[k - 1];
              if k > 1 {
                assert r[k - 1] == ys[k - 2];
              }
            }
          } else {
            var k :| 0 <= k < n - 1 && !segmentOf(PartAt(parts, i', k)).Success?;
            assert !segmentOf(PartAt(parts, i, k + 1)).Success?;
          }
        }
      }
    }
  }

  /** The loop never fails with a missing scope once a scope is known, and
      with no scope known it fails so exactly when the first chunk parses
      without one. */
  lemma {:induction false} SegmentsFromMissingScope(parts: seq<string>, i: nat, n: nat, last: SegmentScope, segmentOf: string -> Result<Segment, ParseError>)
    requires i + 2 * n == |parts| + 1
    requires forall x :: segmentOf(x).Failure? ==> segmentOf(x).error != MissingScope
    ensures SegmentsFrom(parts, i, last, segmentOf) == Failure(MissingScope) <==>
      n > 0 && last == NoScope && segmentOf(PartAt(parts, i, 0)).Success? && segmentOf(PartAt(parts, i, 0)).value.scope == NoScope
    decreases n
  {
    if n > 0 {
      assert PartAt(parts, i, 0) == parts[i];
      if segmentOf(parts[i]).Success? {
        var sg := segmentOf(parts[i]).value;
        if sg.scope != NoScope || last != NoScope {
          var s := WithScope(sg, last);
          SegmentsFromMissingScope(parts, i + 2, n - 1, s.scope, segmentOf);
        }
      }
    }
  }

  /** Parse (parser.go:52-72): one segment per chunk between segment
      boundaries, each with a scope, explicit or inherited from the segment
      before it; it fails with a missing scope exactly when the first chunk
      parses without a scope, and otherwise exactly when a chunk fails. */
  lemma ParseMeaning(d: string)
    ensures var parts := SplitOf(d, SegmentConditionRe);
      var n := |FindAll(d, SegmentConditionRe, 0)| + 1;
      && |parts| + 1 == 2 * n
      && (SegmentsOf(d) == Failure(MissingScope) <==>
        SegmentOf(parts[0]).Success? && SegmentOf(parts[0]).value.scope == NoScope)
      && (SegmentsOf(d).Success? <==>
        && (forall k :: 0 <= k < n ==> SegmentOf(PartAt(parts, 0, k)).Success?)
        && SegmentOf(PartAt(parts, 0, 0)).value.scope != NoScope)
      && (SegmentsOf(d).Success? ==>
        var r := SegmentsOf(d).value;
        && |r| == n
        && forall k :: 0 <= k < n ==>
          && r[k].scope != NoScope
          && r[k] == WithScope(SegmentOf(PartAt(parts, 0, k)).value, if k == 0 then NoScope else r[k - 1].scope))
  {
    var parts := SplitOf(d, SegmentConditionRe);
    var n := |FindAll(d, SegmentConditionRe, 0)| + 1;
    SplitShape(d, SegmentConditionRe);
    assert PartAt(parts, 0, 0) == parts[0];
    SegmentsFromAll(parts, 0, n, NoScope, SegmentOf);
    forall x | SegmentOf(x).Failure?
      ensures SegmentOf(x).error != MissingScope
    {
      SegmentErrors(x);
    }
    SegmentsFromMissingScope(parts, 0, n, NoScope, SegmentOf);
  }
}
