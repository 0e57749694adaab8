/** String helpers standing for Go's `strings` package: Join, HasPrefix and
    positional prefix tests. */
module Strs {

  /** strings.Join: the parts separated by `sep`; no parts give "". */
  function Join(parts: seq<string>, sep: string): string
  {
    if |parts| == 0 then ""
    else if |parts| == 1 then parts[0]
    else Join(parts[..|parts| - 1], sep) + sep + parts[|parts| - 1]
  }

  /** strings.HasPrefix. */
  predicate HasPrefix(s: string, p: string)
  {
    |p| <= |s| && s[..|p|] == p
  }

  /** `t` occurs in `s` starting at index `i`. */
  predicate StartsAt(s: string, i: nat, t: string)
  {
    i + |t| <= |s| && s[i..i + |t|] == t
  }

  lemma {:induction false} JoinCons(x: string, xs: seq<string>, sep: string)
    ensures Join([x] + xs, sep) == if xs == [] then x else x + sep + Join(xs, sep)
    decreases |xs|
  {
    if |xs| > 1 {
      var ys, z := xs[..|xs| - 1], xs[|xs| - 1];
      assert ([x] + xs)[..|xs|] == [x] + ys;
      assert Join([x] + xs, sep) == Join([x] + ys, sep) + sep + z;
      assert Join(xs, sep) == Join(ys, sep) + sep + z;
      JoinCons(x, ys, sep);
    } else if |xs| == 1 {
      assert ([x] + xs)[..1] == [x];
    }
  }

  lemma JoinSnoc(xs: seq<string>, x: string, sep: string)
    ensures Join(xs + [x], sep) == if xs == [] then x else Join(xs, sep) + sep + x
  {
    assert (xs + [x])[..|xs|] == xs;
  }

  /** Proof helper: joining with no separator, two leading parts are
      simply prepended. */
  lemma JoinEmptyTwo(a: string, b: string, rest: seq<string>)
    requires rest != []
    ensures Join([a, b] + rest, "") == a + b + Join(rest, "")
  {
    assert [a, b] + rest == [a] + ([b] + rest);
    JoinCons(b, rest, "");
    JoinCons(a, [b] + rest, "");
  }

  /** Joining lists that differ only in a prefix on their first element. */
  lemma JoinFirstPrefix(xs: seq<string>, ys: seq<string>, pre: string, sep: string)
    requires |xs| == |ys| > 0 && xs[0] == pre + ys[0]
    requires forall k :: 1 <= k < |xs| ==> xs[k] == ys[k]
    ensures Join(xs, sep) == pre + Join(ys, sep)
  {
    assert xs == [xs[0]] + xs[1..];
    assert ys == [ys[0]] + ys[1..];
    assert xs[1..] == ys[1..];
    JoinCons(xs[0], xs[1..], sep);
    JoinCons(ys[0], ys[1..], sep);
  }
}
