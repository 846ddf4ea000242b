/** Character-string helpers with the meaning Python gives them:
    `str.startswith`, `str.endswith`, `str.replace` and the `<` order on
    `str`, plus `sorted` on lists of strings. */
module Strings {

  predicate StartsWith(s: string, prefix: string) {
    |prefix| <= |s| && s[..|prefix|] == prefix
  }

  predicate EndsWith(s: string, suffix: string) {
    |suffix| <= |s| && s[|s| - |suffix|..] == suffix
  }

  /** `pat` occurs in `s` starting at index `i`. */
  predicate OccursAt(s: string, pat: string, i: int) {
    0 <= i && i + |pat| <= |s| && s[i..i + |pat|] == pat
  }

  /** `os.path.join(a, b)` for two components: an absolute `b` replaces
      `a`, otherwise a separator is inserted unless `a` is empty or already
      ends in one. */
  function PathJoin(a: string, b: string): string {
    if StartsWith(b, "/") then b
    else if a == "" || EndsWith(a, "/") then a + b
    else a + "/" + b
  }

  /** Python's `a < b` on `str`: lexicographic by code point, a proper
      prefix being smaller. */
  predicate Less(a: string, b: string) {
    if |a| == 0 then |b| > 0
    else if |b| == 0 then false
    else if a[0] != b[0] then a[0] < b[0]
    else Less(a[1..], b[1..])
  }

  lemma {:induction false} LessIrreflexive(a: string)
    ensures !Less(a, a)
  {
    if |a| > 0 {
      LessIrreflexive(a[1..]);
    }
  }

  lemma {:induction false} LessTransitive(a: string, b: string, c: string)
    requires Less(a, b) && Less(b, c)
    ensures Less(a, c)
  {
    if |a| > 0 && |b| > 0 && |c| > 0 && a[0] == b[0] && b[0] == c[0] {
      LessTransitive(a[1..], b[1..], c[1..]);
    }
  }

  lemma {:induction false} LessTotal(a: string, b: string)
    ensures a == b || Less(a, b) || Less(b, a)
  {
    if |a| > 0 && |b| > 0 && a[0] == b[0] {
      LessTotal(a[1..], b[1..]);
      if a[1..] == b[1..] {
        assert a == [a[0]] + a[1..] && b == [b[0]] + b[1..];
      }
    }
  }

  lemma {:induction false} LessAsymmetric(a: string, b: string)
    requires Less(a, b)
    ensures !Less(b, a)
  {
    if |a| > 0 && |b| > 0 && a[0] == b[0] {
      LessAsymmetric(a[1..], b[1..]);
    }
  }

  /** Python's `s.replace(pat, rep)` for a non-empty `pat`: every
      non-overlapping occurrence, scanned from the left, is replaced. */
  function ReplaceAll(s: string, pat: string, rep: string): (r: string)
    requires |pat| > 0
    decreases |s|
  {
    if |s| < |pat| then s
    else if s[..|pat|] == pat then rep + ReplaceAll(s[|pat|..], pat, rep)
    else [s[0]] + ReplaceAll(s[1..], pat, rep)
  }

  /** Stripping a trailing `pat` by replacement gives back the stem when the
      stem never contains the first character of `pat`. */
  lemma {:induction false} ReplaceTrailing(stem: string, pat: string)
    requires |pat| > 0
    requires forall k :: 0 <= k < |stem| ==> stem[k] != pat[0]
    ensures ReplaceAll(stem + pat, pat, "") == stem
  {
    var s := stem + pat;
    if |stem| == 0 {
      assert s == pat;
      assert s[|pat|..] == [];
    } else {
      assert s[0] == stem[0];
      assert s[..|pat|][0] != pat[0];
      assert s[1..] == stem[1..] + pat;
      ReplaceTrailing(stem[1..], pat);
      assert stem == [stem[0]] + stem[1..];
    }
  }

  // ---------------------------------------------------------------------
  // sorted(...) on lists of strings

  /** Non-decreasing in Python's string order. */
  predicate Sorted(s: seq<string>) {
    forall i, j :: 0 <= i < j < |s| ==> !Less(s[j], s[i])
  }

  /** Strictly increasing: sorted and free of duplicates. */
  predicate StrictlySorted(s: seq<string>) {
    forall i, j :: 0 <= i < j < |s| ==> Less(s[i], s[j])
  }

  function Insert(x: string, s: seq<string>): (r: seq<string>)
    requires Sorted(s)
    ensures Sorted(r)
    ensures multiset(r) == multiset(s) + multiset{x}
    ensures |r| == |s| + 1
  {
    if |s| == 0 then [x]
    else if !Less(s[0], x) then
      (LessOrEqualHead(x, s); [x] + s)
    else
      var tail := Insert(x, s[1..]);
      assert s == [s[0]] + s[1..];
      HeadBelowInserted(x, s, tail);
      [s[0]] + tail
  }

  lemma LessOrEqualHead(x: string, s: seq<string>)
    requires |s| > 0 && Sorted(s) && !Less(s[0], x)
    ensures Sorted([x] + s)
  {
    forall j | 0 < j < |s| + 1
      ensures !Less(([x] + s)[j], x)
    {
      var y := s[j - 1];
      assert !Less(y, s[0]) by { if j - 1 > 0 {} else { LessIrreflexive(y); } }
      if Less(y, x) {
        LessTotal(y, s[0]);
        if y == s[0] {
        } else {
          LessTransitive(s[0], y, x);
        }
      }
    }
  }

  lemma HeadBelowInserted(x: string, s: seq<string>, tail: seq<string>)
    requires |s| > 0 && Sorted(s) && Less(s[0], x)
    requires Sorted(tail) && multiset(tail) == multiset(s[1..]) + multiset{x}
    ensures Sorted([s[0]] + tail)
  {
    forall j | 0 <= j < |tail|
      ensures !Less(tail[j], s[0])
    {
      assert tail[j] in multiset(tail);
      if tail[j] == x {
        LessAsymmetric(s[0], x);
      } else {
        assert tail[j] in multiset(s[1..]);
        var k :| 0 <= k < |s[1..]| && s[1..][k] == tail[j];
        assert s[k + 1] == tail[j];
      }
    }
  }

  /** Python's `sorted(xs)` on a list of strings (an insertion sort; the
      result is the unique sorted permutation). */
  function Sort(xs: seq<string>): (r: seq<string>)
    ensures Sorted(r)
    ensures multiset(r) == multiset(xs)
    ensures |r| == |xs|
  {
    if |xs| == 0 then []
    else
      assert xs == xs[..|xs| - 1] + [xs[|xs| - 1]];
      Insert(xs[|xs| - 1], Sort(xs[..|xs| - 1]))
  }

  /** The elements of `xs` once each, in first-occurrence order. */
  function Distinct(xs: seq<string>): (r: seq<string>)
    ensures forall x :: x in r <==> x in xs
    ensures forall i, j :: 0 <= i < j < |r| ==> r[i] != r[j]
  {
    if |xs| == 0 then []
    else
      var init := xs[..|xs| - 1];
      var rest := Distinct(init);
      var last := xs[|xs| - 1];
      assert xs == init + [last];
      if last in rest then rest else rest + [last]
  }

  /** Python's `sorted(set(xs))` for strings. */
  function SortedSet(xs: seq<string>): (r: seq<string>)
    ensures StrictlySorted(r)
    ensures forall x :: x in r <==> x in xs
  {
    var d := Distinct(xs);
    var r := Sort(d);
    forall x ensures x in r <==> x in d {
      assert x in r <==> x in multiset(r);
      assert x in d <==> x in multiset(d);
    }
    forall i, j | 0 <= i < j < |r| ensures Less(r[i], r[j]) {
      NoDuplicateSorted(d, r, i, j);
      LessTotal(r[i], r[j]);
    }
    r
  }

  lemma NoDuplicateSorted(d: seq<string>, r: seq<string>, i: int, j: int)
    requires forall a, b :: 0 <= a < b < |d| ==> d[a] != d[b]
    requires multiset(r) == multiset(d)
    requires 0 <= i < j < |r|
    ensures r[i] != r[j]
  {
    if r[i] == r[j] {
      var x := r[i];
      assert multiset(r)[x] >= 2 by {
        assert r == r[..i] + [r[i]] + r[i + 1..j] + [r[j]] + r[j + 1..];
        assert multiset(r) == multiset(r[..i]) + multiset{x} + multiset(r[i + 1..j]) + multiset{x} + multiset(r[j + 1..]);
      }
      DistinctCountsOnce(d, x);
    }
  }

  lemma {:induction false} DistinctCountsOnce(d: seq<string>, x: string)
    requires forall a, b :: 0 <= a < b < |d| ==> d[a] != d[b]
    ensures multiset(d)[x] <= 1
  {
    if |d| > 0 {
      var init := d[..|d| - 1];
      assert d == init + [d[|d| - 1]];
      DistinctCountsOnce(init, x);
      if d[|d| - 1] == x {
        forall a | 0 <= a < |init| ensures init[a] != x {
          assert d[a] != d[|d| - 1];
        }
        assert x !in init;
      }
    }
  }
}
