/** ParseStringWithEscape of supportv4/parse_escape.go: splits a string at
    a separator character, where an escape character makes the next
    separator (or escape) literal.  The Go loop walks the runes once,
    carrying the finished chunks, the chunk being built and an `escaped`
    flag; ScanFrom is that walk as a function, and the method is proved to
    compute it. */
module ParseEscape {
  import opened Strs

  /** What the loop carries between runes. */
  datatype ScanState = ScanState(chunks: seq<string>, buf: string, escaped: bool)

  const Start := ScanState([], [], false)

  /** One turn of the loop (lines 10-27).  An escape rune is kept only when
      it is itself escaped, and toggles the flag; a separator is kept when
      escaped and otherwise closes the chunk; any other rune is kept and
      clears the flag. */
  function Step(st: ScanState, c: char, sep: char, escape: char): ScanState
  {
    if c == escape then
      ScanState(st.chunks, if st.escaped then st.buf + [c] else st.buf, !st.escaped)
    else if c == sep then
      if st.escaped then ScanState(st.chunks, st.buf + [c], false)
      else ScanState(st.chunks + [st.buf], [], false)
    else
      ScanState(st.chunks, st.buf + [c], false)
  }

  function ScanFrom(st: ScanState, s: string, sep: char, escape: char): ScanState
    decreases |s|
  {
    if s == [] then st else ScanFrom(Step(st, s[0], sep, escape), s[1..], sep, escape)
  }

  /** After the loop (lines 29-31): a non-empty last chunk is kept, an
      empty one dropped. */
  function Finish(st: ScanState): seq<string>
  {
    if |st.buf| > 0 then st.chunks + [st.buf] else st.chunks
  }

  function Chunks(s: string, sep: char, escape: char): seq<string>
  {
    Finish(ScanFrom(Start, s, sep, escape))
  }

  /** ParseStringWithEscape (lines 4-37). */
  method ParseStringWithEscape(s: string, sep: char, escape: char) returns (result: seq<string>)
    ensures result == Chunks(s, sep, escape)
  {
    var chunks: seq<string> := [];
    var buf: string := [];
    var escaped := false;
    for i := 0 to |s|
      invariant ScanFrom(ScanState(chunks, buf, escaped), s[i..], sep, escape) == ScanFrom(Start, s, sep, escape)
    {
      assert s[i..][1..] == s[i + 1..];
      var r := s[i];
      if r == escape {
        if escaped {
          buf := buf + [r];
        }
        escaped := !escaped;
      } else if r == sep {
        if escaped {
          escaped := false;
          buf := buf + [r];
        } else {
          chunks := chunks + [buf];
          buf := [];
        }
      } else {
        escaped := false;
        buf := buf + [r];
      }
    }
    if |buf| > 0 {
      chunks := chunks + [buf];
    }
    var out := new string[|chunks|](_ => "");
    for i := 0 to |chunks|
      invariant out[..i] == chunks[..i]
    {
      out[i] := chunks[i];
    }
    assert out[..] == out[..|chunks|];
    result := out[..];
  }

  // ---------------------------------------------------------------------
  // What the walk does

  lemma {:induction false} ScanConcat(st: ScanState, a: string, b: string, sep: char, escape: char)
    ensures ScanFrom(st, a + b, sep, escape) == ScanFrom(ScanFrom(st, a, sep, escape), b, sep, escape)
    decreases |a|
  {
    if a != [] {
      assert (a + b)[0] == a[0] && (a + b)[1..] == a[1..] + b;
      ScanConcat(Step(st, a[0], sep, escape), a[1..], b, sep, escape);
    } else {
      assert a + b == b;
    }
  }

  /** The empty string gives no chunks. */
  lemma EmptyInput(sep: char, escape: char)
    ensures Chunks("", sep, escape) == []
  {
  }

  /** An escape before an ordinary rune is dropped; the rune is kept. */
  lemma EscapeBeforeOrdinary(st: ScanState, c: char, sep: char, escape: char)
    requires !st.escaped && c != sep && c != escape
    ensures ScanFrom(st, [escape, c], sep, escape) == ScanState(st.chunks, st.buf + [c], false)
  {
    var mid := ScanState(st.chunks, st.buf, true);
    assert Step(st, escape, sep, escape) == mid;
    assert [escape, c][1..] == [c];
    assert ScanFrom(mid, [c], sep, escape) == ScanFrom(Step(mid, c, sep, escape), [], sep, escape);
  }

  /** Runes other than the separator and the escape are copied into the
      chunk being built and clear the flag. */
  lemma {:induction false} PlainRunes(st: ScanState, s: string, sep: char, escape: char)
    requires forall k :: 0 <= k < |s| ==> s[k] != sep && s[k] != escape
    requires s != [] || !st.escaped
    ensures ScanFrom(st, s, sep, escape) == ScanState(st.chunks, st.buf + s, false)
    decreases |s|
  {
    if s != [] {
      PlainRunes(Step(st, s[0], sep, escape), s[1..], sep, escape);
      assert st.buf + [s[0]] + s[1..] == st.buf + s;
    } else {
      assert st.buf + s == st.buf;
    }
  }

  /** A non-empty string with no separator and no escape is one chunk. */
  lemma NoSpecialRunes(s: string, sep: char, escape: char)
    requires s != []
    requires forall k :: 0 <= k < |s| ==> s[k] != sep && s[k] != escape
    ensures Chunks(s, sep, escape) == [s]
  {
    PlainRunes(Start, s, sep, escape);
    assert [] + s == s;
  }

  function Count(s: string, c: char): nat
  {
    if s == [] then 0 else (if s[0] == c then 1 else 0) + Count(s[1..], c)
  }

  lemma {:induction false} ScanChunkCount(st: ScanState, s: string, sep: char, escape: char)
    ensures |ScanFrom(st, s, sep, escape).chunks| <= |st.chunks| + Count(s, sep)
    decreases |s|
  {
    if s != [] {
      ScanChunkCount(Step(st, s[0], sep, escape), s[1..], sep, escape);
    }
  }

  /** Each chunk but the last is closed by a separator, so there are at
      most one more chunk than separator runes. */
  lemma ChunkCount(s: string, sep: char, escape: char)
    ensures |Chunks(s, sep, escape)| <= Count(s, sep) + 1
  {
    ScanChunkCount(Start, s, sep, escape);
  }

  // ---------------------------------------------------------------------
  // The inverse: escaping and joining

  /** A chunk written so that the walk reads it back: every separator and
      escape rune gets an escape in front. */
  function EscapeChunk(x: string, sep: char, escape: char): string
    decreases |x|
  {
    if x == [] then []
    else (if x[0] == sep || x[0] == escape then [escape, x[0]] else [x[0]]) + EscapeChunk(x[1..], sep, escape)
  }

  /** The chunks escaped and joined with the separator. */
  function EscapeJoin(xs: seq<string>, sep: char, escape: char): string
    decreases |xs|
  {
    if xs == [] then []
    else if |xs| == 1 then EscapeChunk(xs[0], sep, escape)
    else EscapeChunk(xs[0], sep, escape) + [sep] + EscapeJoin(xs[1..], sep, escape)
  }

  lemma {:induction false} ScanEscapedChunk(st: ScanState, x: string, sep: char, escape: char)
    requires !st.escaped
    ensures ScanFrom(st, EscapeChunk(x, sep, escape), sep, escape) == ScanState(st.chunks, st.buf + x, false)
    decreases |x|
  {
    if x != [] {
      var c := x[0];
      var head := if c == sep || c == escape then [escape, c] else [c];
      ScanConcat(st, head, EscapeChunk(x[1..], sep, escape), sep, escape);
      var mid := ScanState(st.chunks, st.buf + [c], false);
      assert ScanFrom(st, head, sep, escape) == mid by {
        if c == sep || c == escape {
          var flagged := ScanState(st.chunks, st.buf, true);
          assert Step(st, escape, sep, escape) == flagged;
          assert head[1..] == [c];
          assert Step(flagged, c, sep, escape) == mid;
          assert ScanFrom(flagged, [c], sep, escape) == ScanFrom(mid, [], sep, escape);
        } else {
          assert Step(st, c, sep, escape) == mid;
          assert ScanFrom(st, [c], sep, escape) == ScanFrom(mid, [], sep, escape);
        }
      }
      ScanEscapedChunk(mid, x[1..], sep, escape);
      assert st.buf + [c] + x[1..] == st.buf + x;
    } else {
      assert st.buf + x == st.buf;
    }
  }

  lemma {:induction false} ScanEscapeJoin(cs: seq<string>, xs: seq<string>, sep: char, escape: char)
    requires sep != escape && xs != []
    ensures ScanFrom(ScanState(cs, [], false), EscapeJoin(xs, sep, escape), sep, escape) ==
      ScanState(cs + xs[..|xs| - 1], xs[|xs| - 1], false)
    decreases |xs|
  {
    var st := ScanState(cs, [], false);
    ScanEscapedChunk(st, xs[0], sep, escape);
    assert [] + xs[0] == xs[0];
    if |xs| > 1 {
      var e := EscapeChunk(xs[0], sep, escape);
      var closed := ScanState(cs + [xs[0]], [], false);
      assert EscapeJoin(xs, sep, escape) == e + [sep] + EscapeJoin(xs[1..], sep, escape);
      ScanConcat(st, e + [sep], EscapeJoin(xs[1..], sep, escape), sep, escape);
      ScanConcat(st, e, [sep], sep, escape);
      assert ScanFrom(ScanState(cs, xs[0], false), [sep], sep, escape) == closed by {
        assert Step(ScanState(cs, xs[0], false), sep, sep, escape) == closed;
        assert [sep][1..] == [];
      }
      ScanEscapeJoin(cs + [xs[0]], xs[1..], sep, escape);
      assert cs + [xs[0]] + xs[1..][..|xs[1..]| - 1] == cs + xs[..|xs| - 1];
    } else {
      assert xs[..0] == [] && cs + [] == cs;
    }
  }

  /** Splitting undoes escaping and joining, as long as the last chunk is
      not empty (see TrailingEmptyDropped for that case); empty chunks
      elsewhere are kept.  The separator and the escape must differ: the escape case
      is tested first, so a separator equal to it never splits. */
  lemma EscapeJoinRoundTrip(xs: seq<string>, sep: char, escape: char)
    requires sep != escape
    requires xs == [] || xs[|xs| - 1] != []
    ensures Chunks(EscapeJoin(xs, sep, escape), sep, escape) == xs
  {
    if xs != [] {
      ScanEscapeJoin([], xs, sep, escape);
      assert [] + xs[..|xs| - 1] + [xs[|xs| - 1]] == xs;
    }
  }

  /** An empty last chunk is dropped (lines 29-31): the escaped join of xs
      followed by an empty chunk splits back to xs alone. */
  lemma TrailingEmptyDropped(xs: seq<string>, sep: char, escape: char)
    requires sep != escape
    ensures Chunks(EscapeJoin(xs + [""], sep, escape), sep, escape) == xs
  {
    ScanEscapeJoin([], xs + [""], sep, escape);
    assert (xs + [""])[..|xs|] == xs;
  }

  // ---------------------------------------------------------------------
  // The cases of supportv4/parse_escape_test.go, with `|` and `\`

  lemma PlainCase(s: string)
    requires s == "foo bar"
    ensures Chunks(s, '|', '\\') == ["foo bar"]
  {
    NoSpecialRunes(s, '|', '\\');
  }

  lemma SeparatorSplits(s: string)
    requires s == "foo|bar"
    ensures Chunks(s, '|', '\\') == ["foo", "bar"]
  {
    assert s == EscapeJoin(["foo", "bar"], '|', '\\');
    EscapeJoinRoundTrip(["foo", "bar"], '|', '\\');
  }

  /** An escaped separator stays in the chunk, its escape removed. */
  lemma EscapedSeparatorKept(s: string)
    requires s == "foo\\|bar"
    ensures Chunks(s, '|', '\\') == ["foo|bar"]
  {
    assert s == EscapeJoin(["foo|bar"], '|', '\\');
    EscapeJoinRoundTrip(["foo|bar"], '|', '\\');
  }

  /** A doubled escape gives one escape rune, and the separator after it
      splits. */
  lemma DoubledEscapeSplits(s: string)
    requires s == "foo\\\\|bar"
    ensures Chunks(s, '|', '\\') == ["foo\\", "bar"]
  {
    assert s == EscapeJoin(["foo\\", "bar"], '|', '\\');
    EscapeJoinRoundTrip(["foo\\", "bar"], '|', '\\');
  }

  /** A control character (BEL) is an ordinary rune. */
  lemma BellKept(s: string)
    requires s == "foo\U{7}\\|bar"
    ensures Chunks(s, '|', '\\') == ["foo\U{7}|bar"]
  {
    assert s == EscapeJoin(["foo\U{7}|bar"], '|', '\\');
    EscapeJoinRoundTrip(["foo\U{7}|bar"], '|', '\\');
  }
}
