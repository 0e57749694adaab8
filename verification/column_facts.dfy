/** What matching a name against the column table means: the digit group
    found is the one of the leftmost occurrence of `prefix digits suffix`,
    an exact id matches only itself, and a name built from a template with
    a digit string matches exactly when the digits have no leading zero and
    lie in the column's index range.  The examples are the cases of
    validation_dimension_and_metric_test.go. */
module ColumnFacts {
  import opened Wrappers
  import opened Strs
  import opened Columns

  /** `prefix d suffix` occurs in s at index i, with d a non-empty run of
      digits: a match of the template's pattern whose group is d. */
  predicate OccursAt(s: string, i: nat, t: Template, d: string)
  {
    |d| > 0 && AllDigits(d) && StartsAt(s, i, t.prefix + d + t.suffix)
  }

  // ---------------------------------------------------------------------
  // The greedy group

  lemma {:induction false} CaptureSound(s: string, j: nat, n: nat, suffix: string, d: string)
    requires j + n <= |s|
    requires Capture(s, j, n, suffix) == Some(d)
    ensures 1 <= |d| <= n && d == s[j..j + |d|] && StartsAt(s, j + |d|, suffix)
    ensures forall m :: j + |d| < m <= j + n ==> !StartsAt(s, m, suffix)
    decreases n
  {
    if !StartsAt(s, j + n, suffix) {
      CaptureSound(s, j, n - 1, suffix, d);
    }
  }

  /** A suffix found after L <= n digits makes the greedy group succeed. */
  lemma {:induction false} CaptureFinds(s: string, j: nat, n: nat, suffix: string, len: nat)
    requires j + n <= |s| && 1 <= len <= n
    requires StartsAt(s, j + len, suffix)
    ensures Capture(s, j, n, suffix).Some?
    decreases n
  {
    if !StartsAt(s, j + n, suffix) {
      assert len != n;
      CaptureFinds(s, j, n - 1, suffix, len);
    }
  }

  /** The digit run from j reaches at least as far as any digits that
      follow j, and exactly to the first non-digit. */
  lemma {:induction false} DigitRunCovers(s: string, j: nat, len: nat)
    requires j + len <= |s|
    requires forall k :: j <= k < j + len ==> IsDigit(s[k])
    ensures len <= DigitRun(s, j)
    ensures j + len == |s| || !IsDigit(s[j + len]) ==> DigitRun(s, j) == len
    decreases len
  {
    if len > 0 {
      assert IsDigit(s[j]);
      DigitRunCovers(s, j + 1, len - 1);
    }
  }

  /** Proof helper: an occurrence, character by character. */
  lemma StartsAtChars(s: string, i: nat, t: string)
    ensures StartsAt(s, i, t) <==> i + |t| <= |s| && forall k :: 0 <= k < |t| ==> s[i + k] == t[k]
  {
    if i + |t| <= |s| && forall k :: 0 <= k < |t| ==> s[i + k] == t[k] {
      assert forall k :: 0 <= k < |t| ==> s[i..i + |t|][k] == t[k];
    }
  }

  /** Pieces of an occurrence of `a + b + c` at index i. */
  lemma StartsAtThree(s: string, i: nat, a: string, b: string, c: string)
    ensures StartsAt(s, i, a + b + c) <==>
      StartsAt(s, i, a) && StartsAt(s, i + |a|, b) && StartsAt(s, i + |a| + |b|, c)
  {
    var w := a + b + c;
    StartsAtChars(s, i, w);
    StartsAtChars(s, i, a);
    StartsAtChars(s, i + |a|, b);
    StartsAtChars(s, i + |a| + |b|, c);
    assert forall k :: 0 <= k < |a| ==> w[k] == a[k];
    assert forall k :: 0 <= k < |b| ==> w[|a| + k] == b[k];
    assert forall k :: 0 <= k < |c| ==> w[|a| + |b| + k] == c[k];
    if StartsAt(s, i, a) && StartsAt(s, i + |a|, b) && StartsAt(s, i + |a| + |b|, c) {
      forall k | 0 <= k < |w|
        ensures s[i + k] == w[k]
      {
        if k < |a| {
        } else if k < |a| + |b| {
          assert s[i + |a| + (k - |a|)] == b[k - |a|];
        } else {
          assert s[i + |a| + |b| + (k - |a| - |b|)] == c[k - |a| - |b|];
        }
      }
    }
  }

  /** A match starting at i yields a group that really sits between the
      prefix and the suffix there. */
  lemma MatchAtSound(s: string, i: nat, t: Template, d: string)
    requires i <= |s|
    requires MatchAt(s, i, t) == Some(d)
    ensures OccursAt(s, i, t, d)
    ensures forall e :: OccursAt(s, i, t, e) ==> |e| <= |d|
  {
    var j := i + |t.prefix|;
    CaptureSound(s, j, DigitRun(s, j), t.suffix, d);
    assert forall k :: 0 <= k < |d| ==> d[k] == s[j + k];
    StartsAtThree(s, i, t.prefix, d, t.suffix);
    MatchAtLongest(s, i, t, d);
  }

  /** Proof helper: the group of a match at i is at least as long as that
      of any occurrence at i. */
  lemma MatchAtLongest(s: string, i: nat, t: Template, d: string)
    requires i <= |s|
    requires MatchAt(s, i, t) == Some(d)
    ensures forall e :: OccursAt(s, i, t, e) ==> |e| <= |d|
  {
    var j := i + |t.prefix|;
    var n := DigitRun(s, j);
    CaptureSound(s, j, n, t.suffix, d);
    forall e | OccursAt(s, i, t, e)
      ensures |e| <= |d|
    {
      OccurrenceWithinRun(s, i, t, e);
      assert j + |e| <= j + n && StartsAt(s, j + |e|, t.suffix);
    }
  }

  /** Proof helper: the digits of an occurrence at i lie within the digit
      run after the prefix, and the suffix starts right after them. */
  lemma OccurrenceWithinRun(s: string, i: nat, t: Template, e: string)
    requires OccursAt(s, i, t, e)
    ensures var j := i + |t.prefix|;
      j + |e| <= j + DigitRun(s, j) && StartsAt(s, j + |e|, t.suffix)
  {
    var j := i + |t.prefix|;
    StartsAtThree(s, i, t.prefix, e, t.suffix);
    assert forall k :: j <= k < j + |e| ==> s[k] == e[k - j];
    DigitRunCovers(s, j, |e|);
  }

  /** Wherever the pattern occurs, a match starts. */
  lemma MatchAtFinds(s: string, i: nat, t: Template)
    requires i <= |s|
    ensures forall d :: OccursAt(s, i, t, d) ==> MatchAt(s, i, t).Some?
  {
    forall d | OccursAt(s, i, t, d)
      ensures MatchAt(s, i, t).Some?
    {
      var j := i + |t.prefix|;
      StartsAtThree(s, i, t.prefix, d, t.suffix);
      OccurrenceWithinRun(s, i, t, d);
      CaptureFinds(s, j, DigitRun(s, j), t.suffix, |d|);
    }
  }

  lemma {:induction false} FindFromSound(s: string, t: Template, i: nat, d: string)
    requires i <= |s|
    requires FindFrom(s, t, i) == Some(d)
    ensures exists p: nat :: i <= p && OccursAt(s, p, t, d) &&
                             (forall e :: OccursAt(s, p, t, e) ==> |e| <= |d|) &&
                             forall q: nat, e :: i <= q < p ==> !OccursAt(s, q, t, e)
    decreases |s| - i
  {
    if MatchAt(s, i, t).Some? {
      MatchAtSound(s, i, t, d);
      assert forall q: nat, e :: i <= q < i ==> !OccursAt(s, q, t, e);
    } else {
      MatchAtFinds(s, i, t);
      FindFromSound(s, t, i + 1, d);
      var p: nat :| i + 1 <= p && OccursAt(s, p, t, d) &&
                    (forall e :: OccursAt(s, p, t, e) ==> |e| <= |d|) &&
                    forall q: nat, e :: i + 1 <= q < p ==> !OccursAt(s, q, t, e);
      assert forall q: nat, e :: i <= q < p ==> !OccursAt(s, q, t, e);
    }
  }

  lemma {:induction false} FindFromFinds(s: string, t: Template, i: nat)
    requires i <= |s|
    ensures forall q: nat, e :: i <= q && OccursAt(s, q, t, e) ==> FindFrom(s, t, i).Some?
    decreases |s| - i
  {
    MatchAtFinds(s, i, t);
    if i < |s| {
      FindFromFinds(s, t, i + 1);
    }
  }

  /** The group Match reads is the group of the leftmost occurrence. */
  lemma SubmatchLeftmost(s: string, t: Template, d: string)
    requires Submatch(s, t) == Some(d)
    ensures exists p: nat :: OccursAt(s, p, t, d) && (forall e :: OccursAt(s, p, t, e) ==> |e| <= |d|) &&
                             forall q: nat, e :: q < p ==> !OccursAt(s, q, t, e)
  {
    FindFromSound(s, t, 0, d);
  }

  /** No group is found exactly when the pattern occurs nowhere. */
  lemma SubmatchNone(s: string, t: Template)
    ensures Submatch(s, t) == None <==> forall q: nat, e :: !OccursAt(s, q, t, e)
  {
    FindFromFinds(s, t, 0);
    if Submatch(s, t).Some? {
      FindFromSound(s, t, 0, Submatch(s, t).value);
    }
  }

  // ---------------------------------------------------------------------
  // Match

  /** A template column never matches a name in which its pattern does not
      occur. */
  lemma NoOccurrenceNoMatch(ca: ColumnAttributes, dm: string)
    requires ca.pattern.Some?
    requires forall q: nat, e :: !OccursAt(dm, q, ca.pattern.value, e)
    ensures !Match(ca, dm)
  {
    SubmatchNone(dm, ca.pattern.value);
  }

  /** A template column matches only through an occurrence of its pattern
      whose digits have no leading zero and lie in its index range. */
  lemma TemplateMatchSound(ca: ColumnAttributes, dm: string)
    requires ca.pattern.Some? && Match(ca, dm)
    ensures exists p: nat, d :: OccursAt(dm, p, ca.pattern.value, d) && d[0] != '0' &&
                                ca.minTemplateIndex <= DecimalValue(d) <= ca.maxTemplateIndex
  {
    var d := Submatch(dm, ca.pattern.value).value;
    SubmatchLeftmost(dm, ca.pattern.value, d);
  }

  /** A column whose id contains no `XX` matches exactly its own id. */
  lemma ExactIdMatch(id: string, columnType: string, lo: int, hi: int, dm: string)
    requires forall k: nat :: !XXAt(id, k)
    ensures Match(NewColumn(id, columnType, lo, hi), dm) <==> dm == id
  {
    assert TemplateOf(id).None?;
  }

  /** A name made of a template's prefix, a run of digits and its suffix
      (which does not itself start with a digit) matches the column exactly
      when the digits have no leading zero and their value is in range. */
  lemma TemplateNameMatch(ca: ColumnAttributes, d: string, dm: string)
    requires ca.pattern.Some?
    requires |d| > 0 && AllDigits(d)
    requires ca.pattern.value.suffix == [] || !IsDigit(ca.pattern.value.suffix[0])
    requires dm == ca.pattern.value.prefix + d + ca.pattern.value.suffix
    ensures Match(ca, dm) <==> d[0] != '0' && ca.minTemplateIndex <= DecimalValue(d) <= ca.maxTemplateIndex
  {
    var t := ca.pattern.value;
    assert Submatch(dm, t) == Some(d) by {
      TemplateNameGroup(t.prefix, d, t.suffix, dm);
    }
    assert HasPrefix(d, "0") <==> d[0] == '0';
  }

  lemma TemplateNameGroup(prefix: string, d: string, suffix: string, dm: string)
    requires |d| > 0 && AllDigits(d)
    requires suffix == [] || !IsDigit(suffix[0])
    requires dm == prefix + d + suffix
    ensures MatchAt(dm, 0, Template(prefix, suffix)) == Some(d)
  {
    var j := |prefix|;
    StartsAtThree(dm, 0, prefix, d, suffix);
    assert forall k :: j <= k < j + |d| ==> dm[k] == d[k - j];
    assert j + |d| < |dm| ==> dm[j + |d|] == suffix[0];
    DigitRunCovers(dm, j, |d|);
    assert dm[j..j + |d|] == d;
  }

  // ---------------------------------------------------------------------
  // The cases of validation_dimension_and_metric_test.go

  lemma GoalTemplate(id: string)
    requires id == "ga:goalXXStarts"
    ensures TemplateOf(id) == Some(Template("ga:goal", "Starts"))
  {
    assert XXAt(id, 7);
    assert forall k :: 0 <= k < 7 ==> !XXAt(id, k);
    assert id[..7] == "ga:goal" && id[9..] == "Starts";
  }

  /** The goal-starts column, indices 1 to 20. */
  function GoalStarts(): ColumnAttributes
  {
    NewColumn("ga:goalXXStarts", "METRIC", 1, 20)
  }

  function Sessions(): ColumnAttributes
  {
    NewColumn("ga:sessions", "METRIC", 0, 0)
  }

  lemma GoalNameMatch(digits: string, dm: string)
    requires |digits| > 0 && AllDigits(digits)
    requires dm == "ga:goal" + digits + "Starts"
    ensures Match(GoalStarts(), dm) <==> digits[0] != '0' && 1 <= DecimalValue(digits) <= 20
  {
    GoalTemplate("ga:goalXXStarts");
    TemplateNameMatch(GoalStarts(), digits, dm);
  }

  /** Proof helper: a two-digit decimal's value. */
  lemma DecimalValueTwo(a: char, b: char)
    ensures DecimalValue([a, b]) == DigitValue(a) * 10 + DigitValue(b)
  {
    assert [a][..0] == [];
    assert DecimalValue([a]) == DigitValue(a);
    assert [a, b][..1] == [a];
  }

  /** ga:goal1Starts and ga:goal12Starts name the goal column. */
  lemma GoalExamplesValid(digits: string)
    requires digits == "1" || digits == "12"
    ensures Match(GoalStarts(), "ga:goal" + digits + "Starts")
  {
    DecimalValueTwo('1', '2');
    GoalNameMatch(digits, "ga:goal" + digits + "Starts");
  }

  /** ga:goal0Starts and ga:goal02Starts have a leading zero, and
      ga:goal21Starts is past the last goal: none names the goal column. */
  lemma GoalExamplesInvalid(digits: string)
    requires digits == "0" || digits == "02" || digits == "21"
    ensures !Match(GoalStarts(), "ga:goal" + digits + "Starts")
  {
    DecimalValueTwo('2', '1');
    GoalNameMatch(digits, "ga:goal" + digits + "Starts");
  }

  /** ga:sessions is an exact id: it matches only itself. */
  lemma SessionsMatch(dm: string)
    ensures Match(Sessions(), dm) <==> dm == "ga:sessions"
  {
    var id := "ga:sessions";
    forall k: nat
      ensures !XXAt(id, k)
    {
      if k < |id| {
        assert id[k] != 'X';
      }
    }
    ExactIdMatch(id, "METRIC", 0, 0, dm);
  }

  lemma NoGoalPrefixAt(dm: string, q: nat)
    requires dm == "ga:session2"
    ensures !StartsAt(dm, q, "ga:goal")
  {
    if q + 7 <= |dm| {
      assert dm[q..q + 7][0] == dm[q] && dm[q..q + 7][3] == dm[q + 3];
    }
  }

  /** ga:session2 names neither column: it is not the exact id ga:sessions,
      and the goal prefix ga:goal occurs nowhere in it. */
  lemma SessionTwoExample(dm: string)
    requires dm == "ga:session2"
    ensures Match(Sessions(), "ga:sessions")
    ensures !Match(Sessions(), dm)
    ensures !Match(GoalStarts(), dm)
  {
    SessionsMatch("ga:sessions");
    SessionsMatch(dm);
    GoalTemplate("ga:goalXXStarts");
    var t := Template("ga:goal", "Starts");
    forall q: nat, e
      ensures !OccursAt(dm, q, t, e)
    {
      StartsAtThree(dm, q, t.prefix, e, t.suffix);
      NoGoalPrefixAt(dm, q);
    }
    NoOccurrenceNoMatch(GoalStarts(), dm);
  }

  /** A table holding the two columns the cases refer to, keyed by id. */
  function TestTable(): map<string, ColumnAttributes>
  {
    map["ga:sessions" := Sessions(), "ga:goalXXStarts" := GoalStarts()]
  }

  /** In that table ga:goal1Starts and ga:goal12Starts are found, and the
      only entry they match is the goal column, so the lookup returns it. */
  lemma TestTableFinds(digits: string)
    requires digits == "1" || digits == "12"
    ensures GoalStarts() in TestTable().Values && Match(GoalStarts(), "ga:goal" + digits + "Starts")
    ensures forall ca :: ca in TestTable().Values && Match(ca, "ga:goal" + digits + "Starts") ==> ca.id == "ga:goalXXStarts"
  {
    var dm := "ga:goal" + digits + "Starts";
    GoalExamplesValid(digits);
    SessionsMatch(dm);
    assert TestTable()["ga:goalXXStarts"] == GoalStarts();
    assert |dm| != |"ga:sessions"|;
  }

  /** ga:goal0Starts, ga:goal02Starts, ga:goal21Starts and ga:session2
      match no entry, so the lookup gives NoSuchDimensionOrMetric. */
  lemma TestTableMisses(digits: string)
    requires digits == "0" || digits == "02" || digits == "21"
    ensures forall ca :: ca in TestTable().Values ==> !Match(ca, "ga:goal" + digits + "Starts") && !Match(ca, "ga:session2")
  {
    var dm := "ga:goal" + digits + "Starts";
    GoalExamplesInvalid(digits);
    SessionsMatch(dm);
    assert |dm| != |"ga:sessions"|;
    SessionTwoExample("ga:session2");
  }
}
