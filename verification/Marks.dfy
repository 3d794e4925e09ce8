/** Change marks over a sequence, and what it means for two markings to describe a diff. */
module Marks {

  /** The elements that carry no change mark, in their original order. */
  function Kept<T>(s: seq<T>, change: seq<bool>): (r: seq<T>)
    requires |s| == |change|
  {
    if s == [] then []
    else
      var n := |s| - 1;
      Kept(s[..n], change[..n]) + if change[n] then [] else [s[n]]
  }

  /** The number of change marks. */
  function Marked(change: seq<bool>): (n: nat)
  {
    if change == [] then 0
    else Marked(change[..|change| - 1]) + if change[|change| - 1] then 1 else 0
  }

  /** Both markings leave the same sequence unmarked: they describe a common subsequence. */
  ghost predicate Common(a: seq<int>, b: seq<int>, change1: seq<bool>, change2: seq<bool>)
  {
    && |change1| == |a|
    && |change2| == |b|
    && Kept(a, change1) == Kept(b, change2)
  }

  /** A common subsequence than which no pair of markings keeps more. */
  ghost predicate Longest(a: seq<int>, b: seq<int>, change1: seq<bool>, change2: seq<bool>)
  {
    && Common(a, b, change1, change2)
    && forall other1, other2 :: Common(a, b, other1, other2) ==> |Kept(a, other1)| <= |Kept(a, change1)|
  }

  lemma {:induction false} KeptLength<T>(s: seq<T>, change: seq<bool>)
    requires |s| == |change|
    ensures |Kept(s, change)| + Marked(change) == |s|
  {
    if s != [] {
      KeptLength(s[..|s| - 1], change[..|s| - 1]);
    }
  }

  lemma {:induction false} MarkedConcat(m: seq<bool>, n: seq<bool>)
    ensures Marked(m + n) == Marked(m) + Marked(n)
  {
    if n == [] {
      assert m + n == m;
    } else {
      MarkedConcat(m, n[..|n| - 1]);
      assert (m + n)[..|m + n| - 1] == m + n[..|n| - 1];
    }
  }

  lemma {:induction false} KeptConcat<T>(s: seq<T>, t: seq<T>, m: seq<bool>, n: seq<bool>)
    requires |s| == |m| && |t| == |n|
    ensures Kept(s + t, m + n) == Kept(s, m) + Kept(t, n)
  {
    if t == [] {
      assert s + t == s && m + n == m;
    } else {
      var l := |t| - 1;
      KeptConcat(s, t[..l], m, n[..l]);
      assert (s + t)[..|s + t| - 1] == s + t[..l];
      assert (m + n)[..|m + n| - 1] == m + n[..l];
    }
  }

  /** KeptConcat read from the whole towards its two parts. */
  lemma KeptSplit<T>(s: seq<T>, m: seq<bool>, i: nat)
    requires |s| == |m| && i <= |s|
    ensures Kept(s, m) == Kept(s[..i], m[..i]) + Kept(s[i..], m[i..])
    ensures Marked(m) == Marked(m[..i]) + Marked(m[i..])
  {
    var s1, s2, m1, m2 := s[..i], s[i..], m[..i], m[i..];
    assert s == s1 + s2;
    assert m == m1 + m2;
    KeptConcat(s1, s2, m1, m2);
    MarkedConcat(m1, m2);
  }

  lemma KeptAt<T>(s: seq<T>, m: seq<bool>, lo: nat, i: nat, hi: nat)
    requires |s| == |m| && lo <= i <= hi <= |s|
    ensures Kept(s[lo..hi], m[lo..hi]) == Kept(s[lo..i], m[lo..i]) + Kept(s[i..hi], m[i..hi])
    ensures Marked(m[lo..hi]) == Marked(m[lo..i]) + Marked(m[i..hi])
  {
    assert s[lo..hi] == s[lo..i] + s[i..hi];
    assert m[lo..hi] == m[lo..i] + m[i..hi];
    KeptConcat(s[lo..i], s[i..hi], m[lo..i], m[i..hi]);
    MarkedConcat(m[lo..i], m[i..hi]);
  }

  lemma KeptInThree<T>(s: seq<T>, m: seq<bool>, lo: nat, hi: nat)
    requires |s| == |m| && lo <= hi <= |m|
    ensures Kept(s, m) == Kept(s[..lo], m[..lo]) + Kept(s[lo..hi], m[lo..hi]) + Kept(s[hi..], m[hi..])
    ensures Marked(m) == Marked(m[..lo]) + Marked(m[lo..hi]) + Marked(m[hi..])
  {
    KeptSplit(s, m, hi);
    KeptAt(s, m, 0, lo, hi);
    assert s[0..hi] == s[..hi] && m[0..hi] == m[..hi];
    assert s[0..lo] == s[..lo] && m[0..lo] == m[..lo];
  }

  /** Positions lo to hi all hold the given value. */
  ghost predicate All(change: seq<bool>, lo: int, hi: int, value: bool)
  {
    0 <= lo <= hi <= |change| && forall i :: lo <= i < hi ==> change[i] == value
  }

  /** Between the two states, only positions lo to hi changed. */
  ghost predicate Within<T>(before: seq<T>, after: seq<T>, lo: int, hi: int)
  {
    && 0 <= lo <= hi <= |before| == |after|
    && forall i :: 0 <= i < |before| && (i < lo || hi <= i) ==> after[i] == before[i]
  }

  lemma SameOutside<T>(before: seq<T>, after: seq<T>, lo: int, hi: int)
    requires Within(before, after, lo, hi)
    ensures after[..lo] == before[..lo] && after[hi..] == before[hi..]
  {
  }

  lemma {:induction false} KeptAll<T>(s: seq<T>, change: seq<bool>, value: bool)
    requires |s| == |change| && All(change, 0, |change|, value)
    ensures Kept(s, change) == if value then [] else s
    ensures Marked(change) == if value then |s| else 0
  {
    if s != [] {
      KeptAll(s[..|s| - 1], change[..|s| - 1], value);
    }
  }

  lemma KeptNext<T>(a: seq<T>, c: seq<bool>, i: nat)
    requires i < |a| == |c|
    ensures Kept(a[..i + 1], c[..i + 1]) == Kept(a[..i], c[..i]) + if c[i] then [] else [a[i]]
  {
    assert a[..i + 1][..i] == a[..i] && c[..i + 1][..i] == c[..i];
  }

  lemma KeptPrevious<T>(a: seq<T>, c: seq<bool>, i: nat)
    requires i < |a| == |c|
    ensures Kept(a[i..], c[i..]) == (if c[i] then [] else [a[i]]) + Kept(a[i + 1..], c[i + 1..])
  {
    KeptConcat([a[i]], a[i + 1..], [c[i]], c[i + 1..]);
    assert [a[i]] + a[i + 1..] == a[i..] && [c[i]] + c[i + 1..] == c[i..];
    KeptAll([a[i]], [c[i]], c[i]);
  }

  lemma SubSlice<T>(s: seq<T>, lo: nat, hi: nat, i: nat, j: nat)
    requires lo <= hi <= |s| && i <= j <= hi - lo
    ensures s[lo..hi][i..j] == s[lo + i..lo + j]
  {
    var w := s[lo..hi];
    forall t | 0 <= t < j - i
      ensures w[i..j][t] == s[lo + i..lo + j][t]
    {
      assert w[i..j][t] == w[i + t];
    }
  }

  /** Every kept element comes from the original. */
  lemma {:induction false} KeptMember<T>(s: seq<T>, change: seq<bool>, i: nat)
    requires |s| == |change| && i < |s| && !change[i]
    ensures s[i] in Kept(s, change)
  {
    if i < |s| - 1 {
      KeptMember(s[..|s| - 1], change[..|s| - 1], i);
    }
  }

  lemma {:induction false} KeptSource<T>(s: seq<T>, change: seq<bool>, v: T)
    requires |s| == |change| && v in Kept(s, change)
    ensures v in s
  {
    var n := |s| - 1;
    if v in Kept(s[..n], change[..n]) {
      KeptSource(s[..n], change[..n], v);
    }
  }

  /** It does not matter where the marks are as long as they leave the same. */
  lemma LongestOfSameKept(a: seq<int>, b: seq<int>, before1: seq<bool>, before2: seq<bool>, after1: seq<bool>,
                          after2: seq<bool>)
    requires Longest(a, b, before1, before2)
    requires |after1| == |a| && Kept(a, after1) == Kept(a, before1)
    requires |after2| == |b| && Kept(b, after2) == Kept(b, before2)
    ensures Longest(a, b, after1, after2)
  {
  }
}
