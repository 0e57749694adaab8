/** The recursive-descent parser of parser.go: Parse (52-72), parseSegment
    (74-111), parseSequence (113-153), parseCondition (155-171),
    parseAndExpression (173-185), parseOrExpression (187-199) and
    parseExpression (201-223).

    Each level has a specification function (SegmentsOf, SegmentOf,
    SequenceOf, ConditionOf, AndOf, OrOf, ExpressionOf) and a method that
    follows the Go code step by step and is proved equal to it.  The lemmas
    at the end state what a parse means in terms of the input text. */
module Parser {
  import opened Wrappers
  import opened Strs
  import opened Ast
  import opened Split

  datatype ParseError =
    | MissingScope                        // "no segment scope (user:: or session::)"
    | UnknownSegmentCondition(rest: string)
    | InvalidExpression(definition: string)

  // ---------------------------------------------------------------------
  // Operators

  /** The text of `op` (one or two characters) starts at index i of s. */
  predicate OperatorStartsAt(s: string, i: nat, op: Operator)
  {
    && HasToken(op)
    && i + |Token(op)| <= |s|
    && s[i] == Token(op)[0]
    && (|Token(op)| == 2 ==> s[i + 1] == Token(op)[1])
  }

  /** The first operator of `ops` whose text starts at i: the alternation
      tried in list order at one position. */
  function OperatorAt(s: string, i: nat, ops: seq<Operator>): (r: Option<Operator>)
    ensures r.Some? ==> HasToken(r.value) && i < i + |Token(r.value)| <= |s|
  {
    if ops == [] then None
    else if OperatorStartsAt(s, i, ops[0]) then Some(ops[0])
    else OperatorAt(s, i, ops[1..])
  }

  /** The leftmost position at or after i where one of `ops` starts, with
      the operator the alternation finds there: the first match of
      OpSeparatorRe when `ops` is ParserOperators. */
  function FirstOperator(s: string, i: nat, ops: seq<Operator>): (r: Option<(nat, Operator)>)
    ensures r.Some? ==> HasToken(r.value.1) && i <= r.value.0 < r.value.0 + |Token(r.value.1)| <= |s|
    decreases |s| - i
  {
    if i >= |s| then None
    else
      match OperatorAt(s, i, ops)
      case Some(op) => Some((i, op))
      case None => FirstOperator(s, i + 1, ops)
  }

  // ---------------------------------------------------------------------
  // Specification of each level

  /** The metric-scope prefix tried in the order PerHit, PerUser,
      PerSession; at most one is removed. */
  function StripMetricScope(s: string): (MetricScope, string)
  {
    if HasPrefix(s, "perHit::") then (PerHit, s[8..])
    else if HasPrefix(s, "perUser::") then (PerUser, s[9..])
    else if HasPrefix(s, "perSession::") then (PerSession, s[12..])
    else (Default, s)
  }

  /** parseExpression: the metric scope that was cut, an operator that has
      a token, and on failure the whole definition in the error. */
  function ExpressionOf(definition: string): (r: Result<Expression, ParseError>)
    ensures r.Failure? ==> r.error == InvalidExpression(definition)
    ensures r.Success? ==> HasToken(r.value.operator) && r.value.metricScope == StripMetricScope(definition).0
  {
    var (ms, s) := StripMetricScope(definition);
    match FirstOperator(s, 0, ParserOperators)
    case None => Failure(InvalidExpression(definition))
    case Some((i, op)) =>
      Success(Expression(ms, s[..i], op, UnescapeExpressionValue(s[i + |Token(op)|..])))
  }

  /** `f` applied to parts[i], parts[i+2], ...; the first failure wins. */
  function MapEven<T>(parts: seq<string>, i: nat, f: string -> Result<T, ParseError>): (r: Result<seq<T>, ParseError>)
    ensures r.Success? ==> |r.value| == if i >= |parts| then 0 else (|parts| - i + 1) / 2
    decreases |parts| - i
  {
    if i >= |parts| then Success([])
    else
      match f(parts[i])
      case Failure(e) => Failure(e)
      case Success(x) => Prepend(x, MapEven(parts, i + 2, f))
  }

  /** parseOrExpression: one expression per piece between unescaped
      commas. */
  function OrOf(definition: string): (r: Result<OrExpression, ParseError>)
    ensures r.Success? ==> |r.value| == (|SplitOf(definition, OrSeparatorRe)| + 1) / 2
  {
    MapEven(SplitOf(definition, OrSeparatorRe), 0, ExpressionOf)
  }

  /** parseAndExpression: one or-expression per piece between unescaped
      semicolons. */
  function AndOf(definition: string): (r: Result<AndExpression, ParseError>)
    ensures r.Success? ==> |r.value| == (|SplitOf(definition, AndSeparatorRe)| + 1) / 2
  {
    MapEven(SplitOf(definition, AndSeparatorRe), 0, OrOf)
  }

  /** parseCondition: excluded exactly when the text starts with `!`. */
  function ConditionOf(definition: string): (r: Result<Condition, ParseError>)
    ensures r.Success? ==> r.value.exclude == HasPrefix(definition, "!")
  {
    var exclude := HasPrefix(definition, "!");
    var s := if exclude then definition[1..] else definition;
    match AndOf(s)
    case Failure(e) => Failure(e)
    case Success(ae) => Success(Condition(exclude, ae))
  }

  /** The steps after the first: a separator at i, the step's text at i+1. */
  function StepsFrom(parts: seq<string>, i: nat, stepOf: string -> Result<AndExpression, ParseError>): Result<seq<SequenceStep>, ParseError>
    decreases |parts| - i
  {
    if i + 1 >= |parts| then Success([])
    else
      match stepOf(parts[i + 1])
      case Failure(e) => Failure(e)
      case Success(ae) => Prepend(SequenceStep(parts[i], ae), StepsFrom(parts, i + 2, stepOf))
  }

  /** What remains of a sequence body after the optional `!` and `^`. */
  function SequenceBody(definition: string): string
  {
    var s := if HasPrefix(definition, "!") then definition[1..] else definition;
    if HasPrefix(s, "^") then s[1..] else s
  }

  /** parseSequence: negated exactly when the text starts with `!`, and
      at least one step, the first of type FirstStep. */
  function SequenceOf(definition: string): (r: Result<Sequence, ParseError>)
    ensures r.Success? ==>
      r.value.not == HasPrefix(definition, "!") &&
      |r.value.sequenceSteps| >= 1 && r.value.sequenceSteps[0].stepType == FirstStep
  {
    var not := HasPrefix(definition, "!");
    var s := if not then definition[1..] else definition;
    var firstHit := HasPrefix(s, "^");
    var parts := SplitOf(SequenceBody(definition), SequenceSeparatorRe);
    SplitShape(SequenceBody(definition), SequenceSeparatorRe);
    match AndOf(parts[0])
    case Failure(e) => Failure(e)
    case Success(first) =>
      match StepsFrom(parts, 1, AndOf)
      case Failure(e) => Failure(e)
      case Success(rest) => Success(Sequence(not, firstHit, [SequenceStep(FirstStep, first)] + rest))
  }

  /** The scope prefixes parseSegment removes: `sessions::`, then `users::`. */
  function SegmentScopeOf(definition: string): (SegmentScope, string)
  {
    var (sc, s) := if HasPrefix(definition, "sessions::") then (SessionScope, definition[10..]) else (NoScope, definition);
    if HasPrefix(s, "users::") then (UserScope, s[7..]) else (sc, s)
  }

  function SegmentOf(definition: string): Result<Segment, ParseError>
  {
    var (scope, s) := SegmentScopeOf(definition);
    if HasPrefix(s, "condition::") then
      match ConditionOf(s[11..])
      case Failure(e) => Failure(e)
      case Success(c) => Success(Segment(scope, ConditionSegment, c, EmptySequence))
    else if HasPrefix(s, "sequence::") then
      match SequenceOf(s[10..])
      case Failure(e) => Failure(e)
      case Success(sq) => Success(Segment(scope, SequenceSegment, EmptyCondition, sq))
    else Failure(UnknownSegmentCondition(s))
  }

  /** A segment with no scope of its own takes `scope`. */
  function WithScope(sg: Segment, scope: SegmentScope): Segment
  {
    if sg.scope == NoScope then sg.(scope := scope) else sg
  }

  /** The segments parsed from parts[i], parts[i+2], ..., each inheriting
      the scope of the one before it; `last` is the scope so far. */
  function SegmentsFrom(parts: seq<string>, i: nat, last: SegmentScope, segmentOf: string -> Result<Segment, ParseError>)
    : (r: Result<Segments, ParseError>)
    ensures r.Success? ==> |r.value| == if i >= |parts| then 0 else (|parts| - i + 1) / 2
    ensures r.Success? ==> forall k :: 0 <= k < |r.value| ==> r.value[k].scope != NoScope
    decreases |parts| - i
  {
    if i >= |parts| then Success([])
    else
      match segmentOf(parts[i])
      case Failure(e) => Failure(e)
      case Success(sg) =>
        if sg.scope == NoScope && last == NoScope then Failure(MissingScope)
        else
          var s := WithScope(sg, last);
          Prepend(s, SegmentsFrom(parts, i + 2, s.scope, segmentOf))
  }

  function SegmentsOf(definition: string): Result<Segments, ParseError>
  {
    SegmentsFrom(SplitOf(definition, SegmentConditionRe), 0, NoScope, SegmentOf)
  }

  // ---------------------------------------------------------------------
  // The parser

  /** parseExpression: the metric-scope loop with its `break`, then the
      first operator match. */
  method ParseExpression(definition: string) returns (r: Result<Expression, ParseError>)
    ensures r == ExpressionOf(definition)
  {
    var metricScope, s := CutMetricScope(definition);
    var idx := FirstOperator(s, 0, ParserOperators);
    if idx.None? {
      return Failure(InvalidExpression(definition));
    }
    var (start, op) := idx.value;
    var end := start + |Token(op)|;
    r := Success(Expression(metricScope, s[..start], op, UnescapeExpressionValue(s[end..])));
  }

  /** The metric-scope loop of parseExpression (parser.go:204-211): the
      first of perHit::, perUser::, perSession:: that prefixes the text is
      cut off, and the loop stops there. */
  method CutMetricScope(definition: string) returns (metricScope: MetricScope, s: string)
    ensures (metricScope, s) == StripMetricScope(definition)
  {
    metricScope, s := Default, definition;
    var mss := [PerHit, PerUser, PerSession];
    var k := 0;
    while k < |mss|
      invariant k <= |mss|
      invariant metricScope == Default && s == definition
      invariant forall j :: 0 <= j < k ==> !HasPrefix(definition, MetricScopeToken(mss[j]))
    {
      var token := MetricScopeToken(mss[k]);
      if HasPrefix(s, token) {
        metricScope := mss[k];
        s := s[|token|..];
        break;
      }
      k := k + 1;
    }
    assert mss[0] == PerHit && mss[1] == PerUser && mss[2] == PerSession;
  }

  /** The loop shared by parseOrExpression, parseAndExpression and the
      segment loop of Parse: how far the accumulated list has got. */
  lemma MapEvenStep<T>(parts: seq<string>, i: nat, f: string -> Result<T, ParseError>, acc: seq<T>)
    requires i < |parts| && f(parts[i]).Success?
    ensures PrependAll(acc, MapEven(parts, i, f)) == PrependAll(acc + [f(parts[i]).value], MapEven(parts, i + 2, f))
  {
    var x := f(parts[i]).value;
    match MapEven(parts, i + 2, f)
    case Success(ys) =>
      assert acc + ([x] + ys) == (acc + [x]) + ys;
    case Failure(_) =>
  }

  lemma MapEvenStop<T>(parts: seq<string>, i: nat, f: string -> Result<T, ParseError>, acc: seq<T>)
    requires i < |parts| && f(parts[i]).Failure?
    ensures PrependAll(acc, MapEven(parts, i, f)) == Failure(f(parts[i]).error)
  {
  }

  lemma MapEvenEnd<T>(parts: seq<string>, i: nat, f: string -> Result<T, ParseError>, acc: seq<T>)
    requires i >= |parts|
    ensures PrependAll(acc, MapEven(parts, i, f)) == Success(acc)
  {
    assert acc + [] == acc;
  }


  method ParseOrExpression(definition: string) returns (r: Result<OrExpression, ParseError>)
    ensures r == OrOf(definition)
  {
    var parts := SplitByFirstRegexpGroup(definition, OrSeparatorRe);
    PrependNothing(MapEven(parts, 0, ExpressionOf));
    var expressions: seq<Expression> := [];
    var i := 0;
    while i < |parts|
      invariant OrOf(definition) == PrependAll(expressions, MapEven(parts, i, ExpressionOf))
      decreases |parts| - i
    {
      var e := ParseExpression(parts[i]);
      if e.Failure? {
        MapEvenStop(parts, i, ExpressionOf, expressions);
        return Failure(e.error);
      }
      MapEvenStep(parts, i, ExpressionOf, expressions);
      expressions := expressions + [e.value];
      i := i + 2;
    }
    MapEvenEnd(parts, i, ExpressionOf, expressions);
    r := Success(expressions);
  }

  method ParseAndExpression(definition: string) returns (r: Result<AndExpression, ParseError>)
    ensures r == AndOf(definition)
  {
    var parts := SplitByFirstRegexpGroup(definition, AndSeparatorRe);
    PrependNothing(MapEven(parts, 0, OrOf));
    var orExpressions: seq<OrExpression> := [];
    var i := 0;
    while i < |parts|
      invariant AndOf(definition) == PrependAll(orExpressions, MapEven(parts, i, OrOf))
      decreases |parts| - i
    {
      var or := ParseOrExpression(parts[i]);
      if or.Failure? {
        MapEvenStop(parts, i, OrOf, orExpressions);
        return Failure(or.error);
      }
      MapEvenStep(parts, i, OrOf, orExpressions);
      orExpressions := orExpressions + [or.value];
      i := i + 2;
    }
    MapEvenEnd(parts, i, OrOf, orExpressions);
    r := Success(orExpressions);
  }

  method ParseCondition(definition: string) returns (r: Result<Condition, ParseError>)
    ensures r == ConditionOf(definition)
  {
    var s := definition;
    var exclude := false;
    if HasPrefix(s, "!") {
      exclude := true;
      s := s[1..];
    }
    var ae := ParseAndExpression(s);
    if ae.Failure? {
      return Failure(ae.error);
    }
    r := Success(Condition(exclude, ae.value));
  }

  lemma StepsFromStep(parts: seq<string>, i: nat, acc: seq<SequenceStep>)
    requires i + 1 < |parts| && AndOf(parts[i + 1]).Success?
    ensures var step := SequenceStep(parts[i], AndOf(parts[i + 1]).value);
      PrependAll(acc, StepsFrom(parts, i, AndOf)) == PrependAll(acc + [step], StepsFrom(parts, i + 2, AndOf))
  {
    var step := SequenceStep(parts[i], AndOf(parts[i + 1]).value);
    assert StepsFrom(parts, i, AndOf) == Prepend(step, StepsFrom(parts, i + 2, AndOf));
    match StepsFrom(parts, i + 2, AndOf)
    case Success(ys) =>
      assert acc + ([step] + ys) == (acc + [step]) + ys;
    case Failure(_) =>
  }

  method ParseSequence(definition: string) returns (r: Result<Sequence, ParseError>)
    ensures r == SequenceOf(definition)
  {
    var s := definition;
    var not, firstHit := false, false;
    if HasPrefix(s, "!") {
      not := true;
      s := s[1..];
    }
    if HasPrefix(s, "^") {
      firstHit := true;
      s := s[1..];
    }
    assert s == SequenceBody(definition);
    var sParts := SplitByFirstRegexpGroup(s, SequenceSeparatorRe);
    assert |sParts| % 2 == 1 by {
      SplitShape(s, SequenceSeparatorRe);
    }
    var first := ParseAndExpression(sParts[0]);
    if first.Failure? {
      return Failure(first.error);
    }
    var rest := ParseLaterSteps(sParts);
    if rest.Failure? {
      return Failure(rest.error);
    }
    r := Success(Sequence(not, firstHit, [SequenceStep(FirstStep, first.value)] + rest.value));
  }

  /** The loop of parseSequence (parser.go:140-150): each later step is a
      separator followed by the text of the step. */
  method ParseLaterSteps(sParts: seq<string>) returns (r: Result<seq<SequenceStep>, ParseError>)
    requires |sParts| % 2 == 1
    ensures r == StepsFrom(sParts, 1, AndOf)
  {
    var steps: seq<SequenceStep> := [];
    PrependNothing(StepsFrom(sParts, 1, AndOf));
    ghost var n := |sParts| / 2;
    var i := 1;
    ghost var k := 0;
    while i < |sParts|
      invariant i == 2 * k + 1 && k <= n && |sParts| == 2 * n + 1
      invariant StepsFrom(sParts, 1, AndOf) == PrependAll(steps, StepsFrom(sParts, i, AndOf))
      decreases |sParts| - i
    {
      var ae := ParseAndExpression(sParts[i + 1]);
      if ae.Failure? {
        assert StepsFrom(sParts, i, AndOf) == Failure(ae.error);
        return Failure(ae.error);
      }
      StepsFromStep(sParts, i, steps);
      steps := steps + [SequenceStep(sParts[i], ae.value)];
      i, k := i + 2, k + 1;
    }
    assert steps + [] == steps;
    r := Success(steps);
  }

  method ParseSegment(definition: string) returns (r: Result<Segment, ParseError>)
    ensures r == SegmentOf(definition)
  {
    var s := definition;
    var scope := NoScope;
    if HasPrefix(s, "sessions::") {
      scope := SessionScope;
      s := s[10..];
    }
    if HasPrefix(s, "users::") {
      scope := UserScope;
      s := s[7..];
    }
    assert (scope, s) == SegmentScopeOf(definition);
    if HasPrefix(s, "condition::") {
      var c := ParseCondition(s[11..]);
      if c.Failure? {
        return Failure(c.error);
      }
      r := Success(Segment(scope, ConditionSegment, c.value, EmptySequence));
    } else if HasPrefix(s, "sequence::") {
      var sq := ParseSequence(s[10..]);
      if sq.Failure? {
        return Failure(sq.error);
      }
      r := Success(Segment(scope, SequenceSegment, EmptyCondition, sq.value));
    } else {
      r := Failure(UnknownSegmentCondition(s));
    }
  }

  lemma SegmentsFromStop(parts: seq<string>, i: nat, last: SegmentScope, acc: Segments)
    requires i < |parts|
    ensures SegmentOf(parts[i]).Failure? ==>
      PrependAll(acc, SegmentsFrom(parts, i, last, SegmentOf)) == Failure(SegmentOf(parts[i]).error)
    ensures SegmentOf(parts[i]).Success? && SegmentOf(parts[i]).value.scope == NoScope && last == NoScope ==>
      PrependAll(acc, SegmentsFrom(parts, i, last, SegmentOf)) == Failure(MissingScope)
  {
  }

  lemma SegmentsFromStep(parts: seq<string>, i: nat, last: SegmentScope, acc: Segments)
    requires i < |parts| && SegmentOf(parts[i]).Success?
    requires SegmentOf(parts[i]).value.scope != NoScope || last != NoScope
    ensures var s := WithScope(SegmentOf(parts[i]).value, last);
      PrependAll(acc, SegmentsFrom(parts, i, last, SegmentOf)) == PrependAll(acc + [s], SegmentsFrom(parts, i + 2, s.scope, SegmentOf))
  {
    var s := WithScope(SegmentOf(parts[i]).value, last);
    var rest := SegmentsFrom(parts, i + 2, s.scope, SegmentOf);
    assert SegmentsFrom(parts, i, last, SegmentOf) == Prepend(s, rest);
    PrependOneMore(acc, s, rest);
  }

  /** Parse: cut at every segment boundary, parse each chunk, and let a
      chunk without a scope take the scope of the previous segment. */
  method Parse(definition: string) returns (r: Result<Segments, ParseError>)
    ensures r == SegmentsOf(definition)
  {
    var parts := SplitByFirstRegexpGroup(definition, SegmentConditionRe);
    PrependNothing(SegmentsFrom(parts, 0, NoScope, SegmentOf));
    var ret: Segments := [];
    var lastScope := NoScope;
    var i := 0;
    while i < |parts|
      invariant SegmentsOf(definition) == PrependAll(ret, SegmentsFrom(parts, i, lastScope, SegmentOf))
      decreases |parts| - i
    {
      var s := ParseSegment(parts[i]);
      if s.Failure? {
        SegmentsFromStop(parts, i, lastScope, ret);
        return Failure(s.error);
      }
      var sg := s.value;
      if sg.scope == NoScope {
        if lastScope == NoScope {
          SegmentsFromStop(parts, i, lastScope, ret);
          return Failure(MissingScope);
        }
        sg := sg.(scope := lastScope);
      }
      SegmentsFromStep(parts, i, lastScope, ret);
      ret := ret + [sg];
      lastScope := sg.scope;
      i := i + 2;
    }
    assert ret + [] == ret;
    r := Success(ret);
  }
}
