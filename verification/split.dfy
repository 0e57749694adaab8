/** The escape-aware splitter of parser.go: the four separator patterns of
    parser.go:18-21, written as hand-coded scanners, Go's leftmost-first
    FindAllStringSubmatchIndex over them, and splitByFirstRegexpGroup
    (parser.go:225-243), which cuts a string at the captured group of every
    match: [chunk, sep, chunk, ..., chunk]. */
module Split {
  import opened Wrappers
  import opened Strs

  datatype Pattern = SegmentConditionRe | SequenceSeparatorRe | AndSeparatorRe | OrSeparatorRe

  /** One match: it spans [start, end) and its group spans [groupStart, groupEnd). */
  datatype Match = Match(start: nat, groupStart: nat, groupEnd: nat, end: nat)

  /** Length of `(?:\\.|[^\\])` at p, or 0 when it does not match there.
      `.` does not match a newline in Go; `[^\\]` does. */
  function EscapeUnitAt(s: string, p: nat): (n: nat)
    ensures n <= 2 && (n > 0 ==> p + n <= |s|)
    ensures n == 1 ==> s[p] != '\\'
    ensures n == 2 ==> s[p] == '\\'
  {
    if p < |s| && s[p] != '\\' then 1
    else if p + 1 < |s| && s[p] == '\\' && s[p + 1] != '\n' then 2
    else 0
  }

  /** End of `(?:condition::|sequence::)` at i. */
  function KeywordEnd(s: string, i: nat): (e: Option<nat>)
    ensures e.Some? ==> i < e.value <= |s|
  {
    if StartsAt(s, i, "condition::") then Some(i + 11)
    else if StartsAt(s, i, "sequence::") then Some(i + 10)
    else None
  }

  /** End of `(?:users::|sessions::)?(?:condition::|sequence::)` at i,
      trying the alternatives in order and backtracking to the empty scope. */
  function SegmentTailEnd(s: string, i: nat): (e: Option<nat>)
    ensures e.Some? ==> i < e.value <= |s|
  {
    if StartsAt(s, i, "users::") && KeywordEnd(s, i + 7).Some? then KeywordEnd(s, i + 7)
    else if StartsAt(s, i, "sessions::") && KeywordEnd(s, i + 10).Some? then KeywordEnd(s, i + 10)
    else KeywordEnd(s, i)
  }

  /** The separator texts a pattern can capture. */
  predicate IsSeparator(pat: Pattern, t: string)
  {
    match pat
    case SegmentConditionRe => t == ";"
    case SequenceSeparatorRe => t == ";->>" || t == ";->"
    case AndSeparatorRe => t == ";"
    case OrSeparatorRe => t == ","
  }

  /** A match's four offsets are in order and inside a string of length n. */
  predicate WellPlaced(m: Match, n: nat)
  {
    m.start < m.groupStart < m.groupEnd <= m.end <= n
  }

  /** The match of `pat` that starts at p, if any. */
  function MatchAt(s: string, pat: Pattern, p: nat): (r: Option<Match>)
    ensures r.Some? ==> r.value.start == p && WellPlaced(r.value, |s|)
  {
    var n := EscapeUnitAt(s, p);
    if n == 0 then None
    else
      var g := p + n;
      match pat
      case AndSeparatorRe =>
        if g < |s| && s[g] == ';' then Some(Match(p, g, g + 1, g + 1)) else None
      case OrSeparatorRe =>
        if g < |s| && s[g] == ',' then Some(Match(p, g, g + 1, g + 1)) else None
      case SequenceSeparatorRe =>
        if StartsAt(s, g, ";->>") then Some(Match(p, g, g + 4, g + 4))
        else if StartsAt(s, g, ";->") then Some(Match(p, g, g + 3, g + 3))
        else None
      case SegmentConditionRe =>
        if g < |s| && s[g] == ';' then
          match SegmentTailEnd(s, g + 1)
          case Some(e) => Some(Match(p, g, g + 1, e))
          case None => None
        else None
  }

  /** What a match captures: a separator text, preceded by one unit of
      `(?:\\.|[^\\])`, so a separator right after a backslash is one whose
      backslash is itself the escaped half of a backslash pair. */
  lemma MatchAtCaptures(s: string, pat: Pattern, p: nat)
    requires MatchAt(s, pat, p).Some?
    ensures var m := MatchAt(s, pat, p).value;
      && IsSeparator(pat, s[m.groupStart..m.groupEnd])
      && (m.groupStart == p + 1 ==> s[p] != '\\')
      && (m.groupStart == p + 2 ==> s[p] == '\\' && s[p + 1] != '\n')
      && (m.groupStart == p + 1 || m.groupStart == p + 2)
  {
  }

  /** Matches in order, none overlapping, all at or after `from`. */
  predicate Ordered(ms: seq<Match>, from: nat, n: nat)
    decreases ms
  {
    ms == [] || (from <= ms[0].start && WellPlaced(ms[0], n) && Ordered(ms[1..], ms[0].end, n))
  }

  lemma OrderedFrom(ms: seq<Match>, from: nat, from': nat, n: nat)
    requires Ordered(ms, from, n) && from' <= from
    ensures Ordered(ms, from', n)
  {
  }

  /** FindAllStringSubmatchIndex: successive non-overlapping leftmost matches. */
  function FindAll(s: string, pat: Pattern, from: nat): (ms: seq<Match>)
    ensures Ordered(ms, from, |s|)
    decreases |s| - from
  {
    if from >= |s| then []
    else
      match MatchAt(s, pat, from)
      case Some(m) => [m] + FindAll(s, pat, m.end)
      case None => FindAll(s, pat, from + 1)
  }

  /** Every match FindAll reports is the match found at its own start. */
  lemma {:induction false} FindAllMatches(s: string, pat: Pattern, from: nat, k: nat)
    requires k < |FindAll(s, pat, from)|
    ensures var m := FindAll(s, pat, from)[k]; from <= m.start && MatchAt(s, pat, m.start) == Some(m)
    decreases |s| - from
  {
    if from < |s| {
      var here := MatchAt(s, pat, from);
      if here.Some? {
        var m := here.value;
        var rest := FindAll(s, pat, m.end);
        assert FindAll(s, pat, from) == [m] + rest;
        if k > 0 {
          FindAllMatches(s, pat, m.end, k - 1);
          assert FindAll(s, pat, from)[k] == rest[k - 1];
        }
      } else {
        assert FindAll(s, pat, from) == FindAll(s, pat, from + 1);
        FindAllMatches(s, pat, from + 1, k);
      }
    }
  }

  /** The chunks and captured separators that the matches `ms` cut from
      s[last..]. */
  function Pieces(s: string, ms: seq<Match>, last: nat): (r: seq<string>)
    requires Ordered(ms, last, |s|) && last <= |s|
    ensures |r| == 2 * |ms| + 1
    decreases ms
  {
    if ms == [] then [s[last..]]
    else
      var m := ms[0];
      OrderedFrom(ms[1..], m.end, m.groupEnd, |s|);
      [s[last..m.groupStart], s[m.groupStart..m.groupEnd]] + Pieces(s, ms[1..], m.groupEnd)
  }

  /** The same pieces, cut while scanning: the chunk so far starts at
      `last` and the scan has reached `from`. */
  function SplitFrom(s: string, pat: Pattern, from: nat, last: nat): seq<string>
    requires last <= from <= |s|
    decreases |s| - from
  {
    if from == |s| then [s[last..]]
    else
      match MatchAt(s, pat, from)
      case Some(m) => [s[last..m.groupStart], s[m.groupStart..m.groupEnd]] + SplitFrom(s, pat, m.end, m.groupEnd)
      case None => SplitFrom(s, pat, from + 1, last)
  }

  /** What splitByFirstRegexpGroup returns. */
  function SplitOf(s: string, pat: Pattern): seq<string>
  {
    SplitFrom(s, pat, 0, 0)
  }

  /** Cutting at the matches FindAll reports is cutting while scanning. */
  lemma {:induction false} PiecesOfFindAll(s: string, pat: Pattern, from: nat, last: nat)
    requires last <= from <= |s|
    ensures Ordered(FindAll(s, pat, from), last, |s|)
    ensures Pieces(s, FindAll(s, pat, from), last) == SplitFrom(s, pat, from, last)
    decreases |s| - from
  {
    var ms := FindAll(s, pat, from);
    OrderedFrom(ms, from, last, |s|);
    if from < |s| {
      match MatchAt(s, pat, from)
      case Some(m) =>
        var rest := FindAll(s, pat, m.end);
        assert ms == [m] + rest;
        assert ms[1..] == rest;
        PiecesOfFindAll(s, pat, m.end, m.groupEnd);
        assert Pieces(s, ms, last) == [s[last..m.groupStart], s[m.groupStart..m.groupEnd]] + Pieces(s, rest, m.groupEnd);
      case None =>
        assert ms == FindAll(s, pat, from + 1);
        PiecesOfFindAll(s, pat, from + 1, last);
    }
  }

  /** Where the k-th chunk begins. */
  function ChunkStart(ms: seq<Match>, last: nat, k: nat): nat
    requires k <= |ms|
  {
    if k == 0 then last else ms[k - 1].groupEnd
  }

  /** Proof helper: past the first match, the pieces are those of the
      remaining matches, shifted by two. */
  lemma PiecesShift(s: string, ms: seq<Match>, last: nat, k: nat)
    requires Ordered(ms, last, |s|) && last <= |s| && 0 < k <= |ms|
    ensures Ordered(ms[1..], ms[0].groupEnd, |s|)
    ensures Pieces(s, ms, last)[2 * k] == Pieces(s, ms[1..], ms[0].groupEnd)[2 * (k - 1)]
    ensures k < |ms| ==> Pieces(s, ms, last)[2 * k + 1] == Pieces(s, ms[1..], ms[0].groupEnd)[2 * (k - 1) + 1]
    ensures ChunkStart(ms, last, k) == ChunkStart(ms[1..], ms[0].groupEnd, k - 1)
    ensures k < |ms| ==> ms[1..][k - 1] == ms[k]
  {
    OrderedFrom(ms[1..], ms[0].end, ms[0].groupEnd, |s|);
  }

  /** The k-th chunk and k-th separator of Pieces, by index. */
  lemma {:induction false} PiecesAt(s: string, ms: seq<Match>, last: nat, k: nat)
    requires Ordered(ms, last, |s|) && last <= |s| && k <= |ms|
    ensures var c := ChunkStart(ms, last, k);
      && c <= |s| && (k < |ms| ==> c <= ms[k].groupStart && WellPlaced(ms[k], |s|))
      && Pieces(s, ms, last)[2 * k] == (if k < |ms| then s[c..ms[k].groupStart] else s[c..])
      && (k < |ms| ==> Pieces(s, ms, last)[2 * k + 1] == s[ms[k].groupStart..ms[k].groupEnd])
    decreases ms
  {
    if k > 0 {
      PiecesShift(s, ms, last, k);
      PiecesAt(s, ms[1..], ms[0].groupEnd, k - 1);
    }
  }

  /** splitByFirstRegexpGroup (parser.go:225-243): asks for every match,
      then cuts at their groups. */
  method SplitByFirstRegexpGroup(s: string, pat: Pattern) returns (ret: seq<string>)
    ensures ret == SplitOf(s, pat)
  {
    var indexes := FindAll(s, pat, 0);
    if |indexes| == 0 {
      ret := [s];
    } else {
      ret := CutAtGroups(s, indexes);
    }
    PiecesOfFindAll(s, pat, 0, 0);
  }

  /** The loop of splitByFirstRegexpGroup (parser.go:230-241): fills `ret`
      by index while moving the `last` cursor over the group of each match. */
  method CutAtGroups(s: string, indexes: seq<Match>) returns (ret: seq<string>)
    requires Ordered(indexes, 0, |s|)
    ensures ret == Pieces(s, indexes, 0)
  {
    ghost var pieces := Pieces(s, indexes, 0);
    var buf := new string[|indexes| * 2 + 1];
    var last: nat := 0;
    for i := 0 to |indexes|
      invariant last == ChunkStart(indexes, 0, i)
      invariant forall j :: 0 <= j < 2 * i ==> buf[j] == pieces[j]
    {
      var pos := indexes[i];
      assert last <= pos.groupStart < pos.groupEnd <= |s|
        && pieces[2 * i] == s[last..pos.groupStart] && pieces[2 * i + 1] == s[pos.groupStart..pos.groupEnd] by {
        PiecesAt(s, indexes, 0, i);
      }
      buf[i * 2] := s[last..pos.groupStart];
      buf[i * 2 + 1] := s[pos.groupStart..pos.groupEnd];
      last := pos.groupEnd;
    }
    assert last <= |s| && pieces[2 * |indexes|] == s[last..] by {
      PiecesAt(s, indexes, 0, |indexes|);
    }
    buf[buf.Length - 1] := s[last..];
    assert forall j :: 0 <= j < buf.Length ==> buf[j] == pieces[j];
    ret := buf[..];
  }

  // ---------------------------------------------------------------------
  // Properties of the split

  /** The pieces concatenate back to the text they were cut from. */
  lemma {:induction false} PiecesConcat(s: string, ms: seq<Match>, last: nat)
    requires Ordered(ms, last, |s|) && last <= |s|
    ensures Join(Pieces(s, ms, last), "") == s[last..]
    decreases ms
  {
    if ms != [] {
      var m := ms[0];
      OrderedFrom(ms[1..], m.end, m.groupEnd, |s|);
      PiecesConcat(s, ms[1..], m.groupEnd);
      var a, b := s[last..m.groupStart], s[m.groupStart..m.groupEnd];
      JoinEmptyTwo(a, b, Pieces(s, ms[1..], m.groupEnd));
      assert s[last..] == a + b + s[m.groupEnd..];
    }
  }

  /** The split has 2n+1 pieces for n matches, concatenates back to the
      input, and every odd-indexed piece is a separator text. */
  lemma SplitShape(s: string, pat: Pattern)
    ensures var r := SplitOf(s, pat);
      && |r| == 2 * |FindAll(s, pat, 0)| + 1
      && Join(r, "") == s
      && (forall k :: 0 <= k < |r| / 2 ==> IsSeparator(pat, r[2 * k + 1]))
  {
    var ms := FindAll(s, pat, 0);
    PiecesOfFindAll(s, pat, 0, 0);
    PiecesConcat(s, ms, 0);
    forall k | 0 <= k < |ms|
      ensures IsSeparator(pat, SplitOf(s, pat)[2 * k + 1])
    {
      PiecesAt(s, ms, 0, k);
      FindAllMatches(s, pat, 0, k);
      MatchAtCaptures(s, pat, ms[k].start);
    }
  }

  /** FindAll finds nothing exactly when no position from `from` on starts a match. */
  lemma {:induction false} FindAllEmpty(s: string, pat: Pattern, from: nat)
    ensures FindAll(s, pat, from) == [] <==> forall p :: from <= p < |s| ==> MatchAt(s, pat, p).None?
    decreases |s| - from
  {
    if from < |s| {
      var here := MatchAt(s, pat, from);
      if here.None? {
        assert FindAll(s, pat, from) == FindAll(s, pat, from + 1);
        FindAllEmpty(s, pat, from + 1);
      } else {
        assert FindAll(s, pat, from) == [here.value] + FindAll(s, pat, here.value.end);
      }
    }
  }

  /** The split returns [s] exactly when no position of `s` starts a match. */
  lemma SplitUnsplit(s: string, pat: Pattern)
    ensures SplitOf(s, pat) == [s] <==> forall p :: 0 <= p < |s| ==> MatchAt(s, pat, p).None?
  {
    PiecesOfFindAll(s, pat, 0, 0);
    FindAllEmpty(s, pat, 0);
    SplitShape(s, pat);
  }

  /** Every cut point has a character before it, and a cut right after a
      backslash is one whose backslash is the second half of a `\\` pair:
      a separator behind a single escaping backslash is never cut at.  A
      longer run of backslashes is not counted, since the match may start
      inside the run (OddBackslashRunExample). */
  lemma SplitPointsNotEscaped(s: string, pat: Pattern, k: nat)
    requires k < |FindAll(s, pat, 0)|
    ensures var g := FindAll(s, pat, 0)[k].groupStart;
      1 <= g < |s| && (s[g - 1] == '\\' ==> g >= 2 && s[g - 2] == '\\')
  {
    FindAllMatches(s, pat, 0, k);
    MatchAtCaptures(s, pat, FindAll(s, pat, 0)[k].start);
  }

  // Examples

  lemma SequenceSplitExample()
    ensures SplitOf("a;->b;->>c", SequenceSeparatorRe) == ["a", ";->", "b", ";->>", "c"]
  {
    var s := "a;->b;->>c";
    var pat := SequenceSeparatorRe;
    assert !StartsAt(s, 1, ";->>") && StartsAt(s, 1, ";->") by {
      assert s[1..5] == ";->b";
      assert s[1..4] == ";->";
    }
    assert MatchAt(s, pat, 0) == Some(Match(0, 1, 4, 4));
    assert StartsAt(s, 5, ";->>") by {
      assert s[5..9] == ";->>";
    }
    assert MatchAt(s, pat, 4) == Some(Match(4, 5, 9, 9));
    assert MatchAt(s, pat, 9) == None;
    assert FindAll(s, pat, 10) == [];
    assert FindAll(s, pat, 9) == [];
    assert FindAll(s, pat, 4) == [Match(4, 5, 9, 9)];
    var ms := [Match(0, 1, 4, 4), Match(4, 5, 9, 9)];
    assert FindAll(s, pat, 0) == ms;
    assert ms[1..][1..] == [];
    assert Pieces(s, ms[1..], 4) == ["b", ";->>", "c"] by {
      assert s[4..5] == "b" && s[5..9] == ";->>" && s[9..] == "c";
    }
    assert s[0..1] == "a" && s[1..4] == ";->";
  }

  lemma EscapedSemicolonExample()
    ensures SplitOf("a\\;b", AndSeparatorRe) == ["a\\;b"]
  {
    var s := "a\\;b";
    var pat := AndSeparatorRe;
    assert MatchAt(s, pat, 0) == None;
    assert MatchAt(s, pat, 1) == None;
    assert MatchAt(s, pat, 2) == None;
    assert MatchAt(s, pat, 3) == None;
    SplitUnsplit(s, pat);
  }

  lemma DoubleSemicolonExample()
    ensures SplitOf("a;;b", AndSeparatorRe) == ["a", ";", ";b"]
  {
    var s := "a;;b";
    var pat := AndSeparatorRe;
    assert MatchAt(s, pat, 0) == Some(Match(0, 1, 2, 2));
    assert MatchAt(s, pat, 2) == None;
    assert MatchAt(s, pat, 3) == None;
    assert FindAll(s, pat, 4) == [];
    assert FindAll(s, pat, 3) == [];
    assert FindAll(s, pat, 2) == [];
    var ms := [Match(0, 1, 2, 2)];
    assert FindAll(s, pat, 0) == ms;
    assert ms[1..] == [];
    assert s[0..1] == "a" && s[1..2] == ";" && s[2..] == ";b";
  }

  /** Behind three backslashes the `;` is escaped by the third one, yet it
      is cut: the match starts at the second backslash, whose unit is the
      pair of the second and third. */
  lemma OddBackslashRunExample()
    ensures SplitOf("a\\\\\\;b", AndSeparatorRe) == ["a\\\\\\", ";", "b"]
  {
    var s := "a\\\\\\;b";
    var pat := AndSeparatorRe;
    assert MatchAt(s, pat, 0) == None;
    assert MatchAt(s, pat, 1) == None;
    assert MatchAt(s, pat, 2) == Some(Match(2, 4, 5, 5));
    assert MatchAt(s, pat, 5) == None;
    assert FindAll(s, pat, 6) == [];
    assert FindAll(s, pat, 5) == [];
    var ms := [Match(2, 4, 5, 5)];
    assert FindAll(s, pat, 0) == ms;
    assert ms[1..] == [];
    assert s[0..4] == "a\\\\\\" && s[4..5] == ";" && s[5..] == "b";
  }
}
