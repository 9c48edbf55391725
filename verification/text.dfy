/**
 * String operations the action relies on: JavaScript's `startsWith` and
 * `endsWith`, and the literal global substitution that `sed s@pat@rep@g`
 * performs when neither side contains a character sed treats specially.
 */
module Text {
  import opened Wrappers

  predicate StartsWith(s: string, prefix: string) {
    |prefix| <= |s| && s[..|prefix|] == prefix
  }

  predicate EndsWith(s: string, suffix: string) {
    |suffix| <= |s| && s[|s| - |suffix|..] == suffix
  }

  /** `pat` occurs in `s` starting at index `i`. */
  predicate OccursAt(s: string, pat: string, i: int) {
    0 <= i && i + |pat| <= |s| && s[i..i + |pat|] == pat
  }

  predicate Occurs(s: string, pat: string) {
    exists i | 0 <= i <= |s| - |pat| :: OccursAt(s, pat, i)
  }

  /** Number of occurrences of `pat` a left-to-right scan finds, skipping past each match. */
  function Count(s: string, pat: string): (n: nat)
    requires |pat| > 0
    decreases |s|
  {
    if |s| < |pat| then 0
    else if s[..|pat|] == pat then 1 + Count(s[|pat|..], pat)
    else Count(s[1..], pat)
  }

  /**
   * Replaces every occurrence of `pat` found by a left-to-right scan with
   * `rep`; the text after a replacement is scanned again, but never the
   * replacement itself.
   */
  function ReplaceAll(s: string, pat: string, rep: string): (r: string)
    requires |pat| > 0
    ensures Count(s, pat) == 0 ==> r == s
    decreases |s|
  {
    if |s| < |pat| then s
    else if s[..|pat|] == pat then rep + ReplaceAll(s[|pat|..], pat, rep)
    else [s[0]] + ReplaceAll(s[1..], pat, rep)
  }

  /** Concatenation of chunks in order, as a listener that appends each chunk builds it. */
  function Concat(chunks: seq<string>): (r: string)
    ensures chunks == [] ==> r == ""
    ensures |chunks| == 1 ==> r == chunks[0]
  {
    if chunks == [] then "" else Concat(chunks[..|chunks| - 1]) + chunks[|chunks| - 1]
  }

  /** Index of the last `c` in `s`. */
  function LastIndexOf(s: string, c: char): (r: Option<nat>)
    ensures r.None? ==> c !in s
    ensures r.Some? ==> r.value < |s| && s[r.value] == c && c !in s[r.value + 1..]
  {
    if |s| == 0 then None
    else if s[|s| - 1] == c then Some(|s| - 1)
    else
      var r := LastIndexOf(s[..|s| - 1], c);
      assert r.Some? ==> s[r.value + 1..] == s[..|s| - 1][r.value + 1..] + [s[|s| - 1]];
      assert s == s[..|s| - 1] + [s[|s| - 1]];
      r
  }

  lemma {:induction false} LastIndexOfAfter(a: string, c: char, b: string)
    requires c !in b
    ensures LastIndexOf(a + [c] + b, c) == Some(|a|)
    decreases |b|
  {
    var s := a + [c] + b;
    if |b| > 0 {
      assert s[|s| - 1] == b[|b| - 1];
      assert s[..|s| - 1] == a + [c] + b[..|b| - 1];
      LastIndexOfAfter(a, c, b[..|b| - 1]);
    }
  }

  lemma StartsWithCons(c: char, x: string, p: string)
    requires |p| > 0
    ensures StartsWith([c] + x, p) <==> c == p[0] && StartsWith(x, p[1..])
  {
    if |p| - 1 <= |x| {
      assert ([c] + x)[..|p|] == [c] + x[..|p| - 1];
      assert p == [p[0]] + p[1..];
    }
  }

  lemma OccursAtShift(s: string, pat: string, i: int)
    requires |s| > 0 && i >= 1
    ensures OccursAt(s, pat, i) <==> OccursAt(s[1..], pat, i - 1)
  {
    if i + |pat| <= |s| {
      assert s[1..][i - 1..i - 1 + |pat|] == s[i..i + |pat|];
    }
  }

  /** Where `pat` does not start `s`, it occurs in `s` exactly when it occurs in `s[1..]`. */
  lemma OccursSkipFirst(s: string, pat: string)
    requires |s| > 0 && !OccursAt(s, pat, 0)
    ensures Occurs(s, pat) <==> Occurs(s[1..], pat)
  {
    if Occurs(s, pat) {
      var i :| 0 <= i <= |s| - |pat| && OccursAt(s, pat, i);
      OccursAtShift(s, pat, i);
      assert OccursAt(s[1..], pat, i - 1);
    }
    if Occurs(s[1..], pat) {
      var i :| 0 <= i <= |s[1..]| - |pat| && OccursAt(s[1..], pat, i);
      OccursAtShift(s, pat, i + 1);
      assert OccursAt(s, pat, i + 1);
    }
  }

  lemma {:induction false} CountZeroIffAbsent(s: string, pat: string)
    requires |pat| > 0
    ensures Count(s, pat) == 0 <==> !Occurs(s, pat)
    decreases |s|
  {
    if |s| < |pat| {
    } else if s[..|pat|] == pat {
      assert OccursAt(s, pat, 0);
    } else {
      CountZeroIffAbsent(s[1..], pat);
      OccursSkipFirst(s, pat);
    }
  }

  lemma Distribute(c: nat, d: int)
    ensures (1 + c) * d == d + c * d
  {
  }

  /**
   * Every occurrence the scan finds is replaced: the length changes by
   * |rep| - |pat| once per occurrence.
   */
  lemma {:induction false} ReplaceAllLength(s: string, pat: string, rep: string)
    requires |pat| > 0
    ensures |ReplaceAll(s, pat, rep)| == |s| + Count(s, pat) * (|rep| - |pat|)
    decreases |s|
  {
    var d := |rep| - |pat|;
    if |s| < |pat| {
    } else if s[..|pat|] == pat {
      var t := s[|pat|..];
      assert ReplaceAll(s, pat, rep) == rep + ReplaceAll(t, pat, rep);
      assert Count(s, pat) == 1 + Count(t, pat);
      assert |s| == |pat| + |t|;
      ReplaceAllLength(t, pat, rep);
      Distribute(Count(t, pat), d);
    } else {
      var t := s[1..];
      assert ReplaceAll(s, pat, rep) == [s[0]] + ReplaceAll(t, pat, rep);
      assert Count(s, pat) == Count(t, pat);
      ReplaceAllLength(t, pat, rep);
    }
  }

  /** A replacement longer than the tag makes the text grow by at least one character per occurrence. */
  lemma {:induction false} ReplaceAllGrows(s: string, pat: string, rep: string)
    requires |pat| > 0 && |rep| > |pat|
    ensures |ReplaceAll(s, pat, rep)| >= |s| + Count(s, pat)
    decreases |s|
  {
    if |s| < |pat| {
    } else if s[..|pat|] == pat {
      ReplaceAllGrows(s[|pat|..], pat, rep);
    } else {
      ReplaceAllGrows(s[1..], pat, rep);
    }
  }

  /** With a replacement longer than the tag, the text is unchanged exactly when the tag does not occur. */
  lemma ReplaceAllUnchangedIffAbsent(s: string, pat: string, rep: string)
    requires |pat| > 0 && |rep| > |pat|
    ensures ReplaceAll(s, pat, rep) == s <==> !Occurs(s, pat)
  {
    ReplaceAllGrows(s, pat, rep);
    CountZeroIffAbsent(s, pat);
  }

  lemma CountStep(c: char, t: string, pat: string)
    requires |pat| > 0
    ensures !StartsWith([c] + t, pat) ==> Count([c] + t, pat) == Count(t, pat)
  {
    assert ([c] + t)[1..] == t;
  }

  lemma CountAfterTag(pat: string, t: string)
    requires |pat| > 0
    ensures Count(pat + t, pat) == 1 + Count(t, pat)
  {
    assert (pat + t)[..|pat|] == pat;
    assert (pat + t)[|pat|..] == t;
  }

  /** Text without the first character of `pat` adds no occurrence in front of `t`. */
  lemma {:induction false} CountSkipFree(w: string, t: string, pat: string)
    requires |pat| > 0 && pat[0] !in w
    ensures Count(w + t, pat) == Count(t, pat)
    decreases |w|
  {
    if w == [] {
      assert w + t == t;
    } else {
      assert w + t == [w[0]] + (w[1..] + t);
      assert w[0] in w;
      assert pat[0] !in w[1..] by { assert forall x :: x in w[1..] ==> x in w; }
      StartsWithCons(w[0], w[1..] + t, pat);
      CountStep(w[0], w[1..] + t, pat);
      CountSkipFree(w[1..], t, pat);
    }
  }

  /**
   * A replacement that starts with a character foreign to `pat[1..]` cannot
   * complete a partial match begun just before it.
   */
  lemma {:induction false} ReplaceAllAddsNoTail(t: string, pat: string, rep: string, j: nat)
    requires |pat| > 0 && |rep| > 0 && rep[0] !in pat[1..]
    requires 1 <= j <= |pat|
    ensures StartsWith(ReplaceAll(t, pat, rep), pat[j..]) ==> StartsWith(t, pat[j..])
    decreases |t|
  {
    var r := ReplaceAll(t, pat, rep);
    if j == |pat| {
      assert pat[j..] == [];
    } else if |t| < |pat| {
    } else if t[..|pat|] == pat {
      assert r == [rep[0]] + (rep[1..] + ReplaceAll(t[|pat|..], pat, rep));
      assert pat[1..][j - 1] == pat[j];
      StartsWithCons(rep[0], rep[1..] + ReplaceAll(t[|pat|..], pat, rep), pat[j..]);
    } else {
      var rest := ReplaceAll(t[1..], pat, rep);
      assert r == [t[0]] + rest;
      ReplaceAllAddsNoTail(t[1..], pat, rep, j + 1);
      StartsWithCons(t[0], rest, pat[j..]);
      StartsWithCons(t[0], t[1..], pat[j..]);
      assert [t[0]] + t[1..] == t;
      assert pat[j..][1..] == pat[j + 1..];
    }
  }

  /** A tag preceded by a comment `[pat[0]] + mid` is counted once, and the comment adds nothing. */
  lemma CommentedTagCount(pat: string, mid: string, t: string)
    requires |pat| >= 2
    requires |mid| >= 1 && mid[0] != pat[1] && pat[0] !in mid
    ensures Count([pat[0]] + mid + pat + t, pat) == 1 + Count(t, pat)
  {
    var w := mid + (pat + t);
    assert [pat[0]] + mid + pat + t == [pat[0]] + w;
    assert !StartsWith(w, pat[1..]) by {
      assert w == [mid[0]] + (mid[1..] + (pat + t));
      StartsWithCons(mid[0], mid[1..] + (pat + t), pat[1..]);
    }
    StartsWithCons(pat[0], w, pat);
    CountStep(pat[0], w, pat);
    CountSkipFree(mid, pat + t, pat);
    CountAfterTag(pat, t);
  }

  /** The step of `ReplaceAllKeepsCount` where `s` starts with the tag. */
  lemma {:induction false} KeepsCountAtTag(s: string, pat: string, mid: string)
    requires |pat| >= 2
    requires |mid| >= 1 && mid[0] != pat[1] && pat[0] !in mid
    requires |s| >= |pat| && s[..|pat|] == pat
    requires Count(ReplaceAll(s[|pat|..], pat, [pat[0]] + mid + pat), pat) == Count(s[|pat|..], pat)
    ensures Count(ReplaceAll(s, pat, [pat[0]] + mid + pat), pat) == Count(s, pat)
  {
    var rep := [pat[0]] + mid + pat;
    var t := ReplaceAll(s[|pat|..], pat, rep);
    assert ReplaceAll(s, pat, rep) == rep + t;
    CommentedTagCount(pat, mid, t);
  }

  /** The step of `ReplaceAllKeepsCount` where `s` does not start with the tag. */
  lemma {:induction false} KeepsCountPastChar(s: string, pat: string, mid: string)
    requires |pat| >= 2 && pat[0] !in pat[1..]
    requires |mid| >= 1 && pat[0] !in mid
    requires |s| >= |pat| && s[..|pat|] != pat
    requires Count(ReplaceAll(s[1..], pat, [pat[0]] + mid + pat), pat) == Count(s[1..], pat)
    ensures Count(ReplaceAll(s, pat, [pat[0]] + mid + pat), pat) == Count(s, pat)
  {
    var rep := [pat[0]] + mid + pat;
    var t := ReplaceAll(s[1..], pat, rep);
    assert ReplaceAll(s, pat, rep) == [s[0]] + t;
    ReplaceAllAddsNoTail(s[1..], pat, rep, 1);
    StartsWithCons(s[0], t, pat);
    StartsWithCons(s[0], s[1..], pat);
    assert [s[0]] + s[1..] == s;
    CountStep(s[0], t, pat);
    CountStep(s[0], s[1..], pat);
  }

  /**
   * Inserting a comment `[pat[0]] + mid` in front of every occurrence of a
   * tag whose first character is not repeated keeps the number of tags.
   */
  lemma {:induction false} ReplaceAllKeepsCount(s: string, pat: string, mid: string)
    requires |pat| >= 2 && pat[0] !in pat[1..]
    requires |mid| >= 1 && mid[0] != pat[1] && pat[0] !in mid
    ensures Count(ReplaceAll(s, pat, [pat[0]] + mid + pat), pat) == Count(s, pat)
    decreases |s|
  {
    if |s| < |pat| {
    } else if s[..|pat|] == pat {
      ReplaceAllKeepsCount(s[|pat|..], pat, mid);
      KeepsCountAtTag(s, pat, mid);
    } else {
      ReplaceAllKeepsCount(s[1..], pat, mid);
      KeepsCountPastChar(s, pat, mid);
    }
  }
}
