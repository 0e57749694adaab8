/** How the printer's output of segment.go reads back through the parser
    of parser.go: a printed condition parses to the same metric scope,
    target and operator, while the printer's scope tokens are not the ones
    the parser looks for. */
module PrintedText {
  import opened Wrappers
  import opened Strs
  import opened Ast
  import opened Parser
  import opened ParserFacts
  import P = SegmentPrinter
  import PrinterFacts

  // ---------------------------------------------------------------------
  // Printer output read back by the parser

  /** A prefix that the target lacks cannot be completed by text starting
      with an operator character, when the prefix has none. */
  lemma NotPrefixBeforeOperator(target: string, rest: string, pfx: string)
    requires !HasPrefix(target, pfx)
    requires forall i :: 0 <= i < |pfx| ==> pfx[i] !in "=!<>["
    requires |rest| > 0 && rest[0] in "=!<>["
    ensures !HasPrefix(target + rest, pfx)
  {
    if |target| < |pfx| <= |target + rest| {
      assert (target + rest)[..|pfx|][|target|] == rest[0];
    } else if |pfx| <= |target| {
      assert (target + rest)[..|pfx|] == target[..|pfx|];
    }
  }

  /** The alternation passes over leading operators that do not start at p. */
  lemma {:induction false} OperatorAtSkip(s: string, p: nat, ops: seq<Operator>, n: nat)
    requires n <= |ops|
    requires forall k :: 0 <= k < n ==> !OperatorStartsAt(s, p, ops[k])
    ensures OperatorAt(s, p, ops) == OperatorAt(s, p, ops[n..])
    decreases n
  {
    if n > 0 {
      assert ops[1..][n - 1..] == ops[n..];
      OperatorAtSkip(s, p, ops[1..], n - 1);
    }
  }

  /** Where an operator that is not shadowed by an earlier, shorter one
      starts, the alternation of parser.go:23-36 yields that operator. */
  lemma OperatorAtUnshadowed(s: string, p: nat, op: Operator)
    requires op in ParserOperators && op !in {LessThanEqual, GreaterThanEqual, Between}
    requires OperatorStartsAt(s, p, op)
    ensures OperatorAt(s, p, ParserOperators) == Some(op)
  {
    var ops := ParserOperators;
    var n := match op
      case Equal => 0
      case NotEqual => 1
      case LessThan => 2
      case GreaterThan => 4
      case InList => 7
      case ContainsSubstring => 8
      case NotContainsSubstring => 9
      case Regexp => 10
      case _ => 11;
    assert ops[n] == op;
    OperatorAtSkip(s, p, ops, n);
  }

  /** Condition.String read back by parseExpression: when the metric scope
      is one of the parser's prefixes (or empty, with a target that does not
      start with one), the target holds no operator character and the
      operator is not shadowed by a shorter one, the parser recovers the
      metric scope, the target and the operator, and hands the escaped value
      to unEscapeExpressionValue. */
  lemma PrintedConditionParses(c: P.Condition, ms: MetricScope, op: Operator)
    requires op in ParserOperators && op !in {LessThanEqual, GreaterThanEqual, Between}
    requires c.metricScope == MetricScopeToken(ms) && c.operator == Token(op)
    requires forall i :: 0 <= i < |c.target| ==> c.target[i] !in "=!<>["
    requires ms == Default ==>
      !HasPrefix(c.target, "perHit::") && !HasPrefix(c.target, "perUser::") && !HasPrefix(c.target, "perSession::")
    ensures ExpressionOf(P.ConditionText(c)) ==
      Success(Expression(ms, c.target, op, UnescapeExpressionValue(P.EscapedValue(c.value))))
  {
    var tok, esc := Token(op), P.EscapedValue(c.value);
    var s := c.target + tok + esc;
    assert c.target + (tok + esc) == s;
    assert P.ConditionText(c) == MetricScopeToken(ms) + c.target + (tok + esc);
    StripPrintedScope(ms, c.target, tok + esc);
    FirstOperatorAfterTarget(c.target, tok + esc, op);
    ExpressionOfCut(P.ConditionText(c), ms, c.target, op, esc);
  }

  /** parseExpression on a text whose metric-scope cut leaves
      target ++ operator ++ rest, with that operator first. */
  lemma ExpressionOfCut(d: string, ms: MetricScope, target: string, op: Operator, rest: string)
    requires HasToken(op)
    requires StripMetricScope(d) == (ms, target + Token(op) + rest)
    requires FirstOperator(target + Token(op) + rest, 0, ParserOperators) == Some((|target|, op))
    ensures ExpressionOf(d) == Success(Expression(ms, target, op, UnescapeExpressionValue(rest)))
  {
    var s := target + Token(op) + rest;
    assert s[..|target|] == target;
    assert s[|target| + |Token(op)|..] == rest;
  }

  /** The metric-scope cut of parseExpression applied to a printed metric
      scope and target removes exactly the metric scope. */
  lemma StripPrintedScope(ms: MetricScope, target: string, rest: string)
    requires |rest| > 0 && rest[0] in "=!<>["
    requires ms == Default ==>
      !HasPrefix(target, "perHit::") && !HasPrefix(target, "perUser::") && !HasPrefix(target, "perSession::")
    ensures StripMetricScope(MetricScopeToken(ms) + target + rest) == (ms, target + rest)
  {
    var s := target + rest;
    var d := MetricScopeToken(ms) + target + rest;
    assert d == MetricScopeToken(ms) + s;
    match ms
    case Default =>
      assert d == s;
      NotPrefixBeforeOperator(target, rest, "perHit::");
      NotPrefixBeforeOperator(target, rest, "perUser::");
      NotPrefixBeforeOperator(target, rest, "perSession::");
    case PerHit =>
      assert d[..8] == "perHit::" && d[8..] == s;
    case PerUser =>
      assert d[3] != "perHit::"[3];
      assert d[..9] == "perUser::" && d[9..] == s;
    case PerSession =>
      assert d[3] != "perHit::"[3] && d[4] != "perUser::"[4];
      assert d[..12] == "perSession::" && d[12..] == s;
  }

  /** With no operator character in the target, the first operator of the
      text is the unshadowed one that follows the target. */
  lemma FirstOperatorAfterTarget(target: string, rest: string, op: Operator)
    requires op in ParserOperators && op !in {LessThanEqual, GreaterThanEqual, Between}
    requires forall i :: 0 <= i < |target| ==> target[i] !in "=!<>["
    requires HasPrefix(rest, Token(op))
    ensures FirstOperator(target + rest, 0, ParserOperators) == Some((|target|, op))
  {
    var s := target + rest;
    var p := |target|;
    assert OperatorStartsAt(s, p, op) by {
      assert s[p] == rest[0] == Token(op)[0];
      assert |Token(op)| == 2 ==> s[p + 1] == rest[1] == Token(op)[1];
    }
    OperatorAtUnshadowed(s, p, op);
    forall q | 0 <= q < p
      ensures OperatorAt(s, q, ParserOperators).None?
    {
      assert s[q] == target[q];
      NotOperatorChar(s, q);
      NoOperatorAt(s, q);
    }
    FirstOperatorSkip(s, 0, p, ParserOperators);
  }

  /** The scan for the first operator passes over positions where the
      alternation finds nothing and stops at the first where it finds one. */
  lemma {:induction false} FirstOperatorSkip(s: string, i: nat, p: nat, ops: seq<Operator>)
    requires i <= p
    requires forall q :: i <= q < p ==> OperatorAt(s, q, ops).None?
    requires OperatorAt(s, p, ops).Some?
    ensures FirstOperator(s, i, ops) == Some((p, OperatorAt(s, p, ops).value))
    decreases p - i
  {
    if i < p {
      assert OperatorAt(s, i, ops).None?;
      FirstOperatorSkip(s, i + 1, p, ops);
    }
  }

  /** The printer's scope tokens `user::` and `session::` are not the
      parser's `users::` and `sessions::`: a printed scoped segment is read
      back as an unknown segment condition naming the whole text. */
  lemma PrintedScopeNotParsed(scope: string, rest: string)
    requires scope == P.UserScope || scope == P.SessionScope
    ensures SegmentOf(scope + rest) == Failure(UnknownSegmentCondition(scope + rest))
  {
    var d := scope + rest;
    assert !HasPrefix(d, "sessions::") by {
      if |d| >= 10 {
        assert d[7] != "sessions::"[7] || d[4] != "sessions::"[4];
      }
    }
    assert !HasPrefix(d, "users::") by {
      if |d| >= 7 {
        assert d[4] != "users::"[4] || d[0] != "users::"[0];
      }
    }
    assert !HasPrefix(d, "condition::") by {
      if |d| >= 11 {
        assert d[0] != "condition::"[0];
      }
    }
    assert !HasPrefix(d, "sequence::") by {
      if |d| >= 10 {
        assert d[2] != "sequence::"[2];
      }
    }
  }
}
