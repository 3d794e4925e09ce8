/** Divide and conquer on the middle snake, and the marks it leaves. */
module Recursion {
  import opened Marks
  import opened Lcs
  import opened Furthest
  import opened Myers

  /** The marks describe a common subsequence of the greatest length. */
  ghost predicate Solved(a: seq<int>, b: seq<int>, change1: seq<bool>, change2: seq<bool>)
  {
    Common(a, b, change1, change2) && |Kept(a, change1)| == Length(a, b)
  }

  /** The same for marks that are part of larger arrays, from lo1 and lo2 on. */
  ghost predicate SolvedAt(a: seq<int>, b: seq<int>, c1: seq<bool>, lo1: nat, c2: seq<bool>, lo2: nat)
  {
    && lo1 + |a| <= |c1| && lo2 + |b| <= |c2|
    && Solved(a, b, c1[lo1..lo1 + |a|], c2[lo2..lo2 + |b|])
  }

  lemma KeptAround<T>(s: seq<T>, m: seq<bool>, i: nat, j: nat)
    requires |s| == |m| && i <= j <= |s| && All(m, i, j, false)
    ensures Kept(s, m) == Kept(s[..i], m[..i]) + s[i..j] + Kept(s[j..], m[j..])
  {
    KeptSplit(s, m, j);
    KeptSplit(s[..j], m[..j], i);
    assert s[..j][..i] == s[..i] && m[..j][..i] == m[..i];
    assert s[..j][i..] == s[i..j] && m[..j][i..] == m[i..j];
    KeptAll(s[i..j], m[i..j], false);
  }

  /** Solutions before and after an unmarked middle snake make a solution. */
  lemma Join(a: seq<int>, b: seq<int>, x0: int, y0: int, x1: int, y1: int, change1: seq<bool>, change2: seq<bool>)
    requires |change1| == |a| && |change2| == |b|
    requires MiddleSnake(a, b, x0, y0, x1, y1)
    requires All(change1, x0, x1, false) && All(change2, y0, y1, false)
    requires Solved(a[..x0], b[..y0], change1[..x0], change2[..y0])
    requires Solved(a[x1..], b[y1..], change1[x1..], change2[y1..])
    ensures Solved(a, b, change1, change2)
  {
    KeptAround(a, change1, x0, x1);
    KeptAround(b, change2, y0, y1);
  }

  lemma SolvedAllMarked(a: seq<int>, b: seq<int>, c1: seq<bool>, lo1: nat, c2: seq<bool>, lo2: nat)
    requires All(c1, lo1, lo1 + |a|, true) && All(c2, lo2, lo2 + |b|, true)
    requires Length(a, b) == 0
    ensures SolvedAt(a, b, c1, lo1, c2, lo2)
  {
    KeptAll(a, c1[lo1..lo1 + |a|], true);
    KeptAll(b, c2[lo2..lo2 + |b|], true);
  }

  /** A common prefix is a middle snake. */
  lemma {:induction false} PrefixSnake(a: seq<int>, b: seq<int>, n: nat)
    requires n <= |a| && n <= |b| && a[..n] == b[..n]
    ensures MiddleSnake(a, b, 0, 0, n, n)
    decreases n
  {
    var g := Grid(a, b, false);
    SliceLengths(a, b, 0, 0);
    assert a[0..] == a && b[0..] == b;
    SliceLengths(a, b, n, n);
    assert a[0..n] == a[..n] && b[0..n] == b[..n];
    if n > 0 {
      var m := n - 1;
      assert a[..m] == a[..n][..m] && b[..m] == b[..n][..m];
      assert a[m] == a[..n][m] && b[m] == b[..n][m];
      PrefixSnake(a, b, m);
      SliceLengths(a, b, m, m);
      SuffixStep(g, m, m);
    }
  }

  /** So is a common suffix. */
  lemma SuffixSnake(a: seq<int>, b: seq<int>, n: nat)
    requires n <= |a| && n <= |b| && a[|a| - n..] == b[|b| - n..]
    ensures MiddleSnake(a, b, |a| - n, |b| - n, |a|, |b|)
  {
    var g := Grid(a, b, false);
    var x, y, k := |a| - n, |b| - n, Corner(g);
    assert a[x..|a|] == a[x..] && b[y..|b|] == b[y..];
    forall i | x <= i < |a|
      ensures MatchOn(g, k, i)
    {
      assert a[x..][i - x] == b[y..][i - x];
    }
    SnakeIsFree(g, k, x, |a|);
    SliceLengths(a, b, x, y);
  }

  /** The position of the first occurrence, as a split point of the one-element side and the list. */
  method FindOneSms(value: int, list: seq<int>) returns (x: nat, y: nat)
    ensures if value in list then x == 0 && y < |list| && list[y] == value && value !in list[..y]
            else x == 1 && y == 0
  {
    for i := 0 to |list|
      invariant value !in list[..i]
    {
      if list[i] == value {
        return 0, i;
      }
    }
    return 1, 0;
  }

  lemma {:induction false} AbsentLength(v: int, list: seq<int>)
    requires v !in list
    ensures Length([v], list) == 0
  {
    var n := |list|;
    if n > 0 {
      AbsentLength(v, list[..n - 1]);
      LengthStep([], list[..n - 1], v, list[n - 1]);
      assert [] + [v] == [v] && list[..n - 1] + [list[n - 1]] == list;
    }
  }

  lemma OneElementSnake(v: int, list: seq<int>, x: nat, y: nat)
    requires if v in list then x == 0 && y < |list| && list[y] == v else x == 1 && y == 0
    ensures MiddleSnake([v], list, x, y, x, y)
  {
    var g := Grid([v], list, false);
    SliceLengths([v], list, x, y);
    if v in list {
      PrefixBound(g, 1, |list|);
      ThroughPoint(g, 0, y);
      SuffixStep(g, 0, y);
    } else {
      AbsentLength(v, list);
    }
  }

  lemma MiddleSnakeSymmetric(a: seq<int>, b: seq<int>, x: int, y: int)
    requires MiddleSnake(a, b, x, y, x, y)
    ensures MiddleSnake(b, a, y, x, y, x)
  {
    LengthSymmetric(a, b);
    LengthSymmetric(a[..x], b[..y]);
    LengthSymmetric(a[x..], b[y..]);
  }

  /** Splits the problem at a middle snake, or at the single match of a one-element side. */
  method Partition(data1: seq<int>, data2: seq<int>, v: array<int>) returns (x0: int, y0: int, x1: int, y1: int)
    requires data1 != [] && data2 != [] && |data1| + |data2| > 2
    requires data1[0] != data2[0] && data1[|data1| - 1] != data2[|data2| - 1]
    requires v.Length >= 4 * (|data1| + |data2| + 1) + 4
    modifies v
    ensures MiddleSnake(data1, data2, x0, y0, x1, y1)
    ensures 0 < x1 + y1 && x0 + y0 < |data1| + |data2|
  {
    if |data1| == 1 {
      x0, y0 := FindOneSms(data1[0], data2);
      x1, y1 := x0, y0;
      OneElementSnake(data1[0], data2, x0, y0);
      assert data1 == [data1[0]];
    } else if |data2| == 1 {
      y0, x0 := FindOneSms(data2[0], data1);
      x1, y1 := x0, y0;
      OneElementSnake(data2[0], data1, y0, x0);
      assert data2 == [data2[0]];
      MiddleSnakeSymmetric(data2, data1, y0, x0);
    } else {
      x0, y0, x1, y1 := AlgorithmSms(data1, data2, v);
    }
  }

  /** Marking inside x0 and then inside x1 to n leaves the part between alone. */
  lemma TwoCalls(c: seq<bool>, c': seq<bool>, c'': seq<bool>, lo: int, x0: int, x1: int, n: int)
    requires 0 <= x0 <= x1 <= n
    requires Within(c, c', lo, lo + x0) && Within(c', c'', lo + x1, lo + n)
    requires All(c, lo, lo + n, false)
    ensures Within(c, c'', lo, lo + n) && All(c', lo + x0, lo + x1, false)
  {
  }

  /** A solution of the middle extends over a common prefix and a common suffix. */
  lemma Untrim(a: seq<int>, b: seq<int>, start: nat, end1: nat, end2: nat, change1: seq<bool>, change2: seq<bool>)
    requires |change1| == |a| && |change2| == |b|
    requires start <= end1 <= |a| && start <= end2 <= |b| && |a| - end1 == |b| - end2
    requires a[..start] == b[..start] && a[end1..] == b[end2..]
    requires All(change1, 0, start, false) && All(change1, end1, |a|, false)
    requires All(change2, 0, start, false) && All(change2, end2, |b|, false)
    requires Solved(a[start..end1], b[start..end2], change1[start..end1], change2[start..end2])
    ensures Solved(a, b, change1, change2)
  {
    var a', b', c1, c2 := a[start..], b[start..], change1[start..], change2[start..];
    var n1, n2 := end1 - start, end2 - start;
    assert a'[..n1] == a[start..end1] && b'[..n2] == b[start..end2];
    assert c1[..n1] == change1[start..end1] && c2[..n2] == change2[start..end2];
    assert a'[n1..] == a[end1..] && b'[n2..] == b[end2..];
    SuffixSnake(a', b', |a| - end1);
    Join(a', b', n1, n2, |a'|, |b'|, c1, c2);
    PrefixSnake(a, b, start);
    Join(a, b, 0, 0, start, start, change1, change2);
  }

  /** The lists agree up to start, and from end1 and end2 on. */
  ghost predicate SameEnds(a: seq<int>, b: seq<int>, start: nat, end1: nat, end2: nat)
  {
    && start <= end1 <= |a| && start <= end2 <= |b| && |a| - end1 == |b| - end2
    && a[..start] == b[..start] && a[end1..] == b[end2..]
  }

  lemma UntrimAt(a: seq<int>, b: seq<int>, start: nat, end1: nat, end2: nat, mid1: seq<int>, mid2: seq<int>,
                 before1: seq<bool>, c1: seq<bool>, lo1: nat, at1: nat,
                 before2: seq<bool>, c2: seq<bool>, lo2: nat, at2: nat)
    requires Middle(a, b, start, end1, end2, mid1, mid2)
    requires at1 == lo1 + start && at2 == lo2 + start
    requires All(before1, lo1, lo1 + |a|, false) && Within(before1, c1, at1, at1 + |mid1|)
    requires All(before2, lo2, lo2 + |b|, false) && Within(before2, c2, at2, at2 + |mid2|)
    requires SolvedAt(mid1, mid2, c1, at1, c2, at2)
    ensures SolvedAt(a, b, c1, lo1, c2, lo2)
    ensures Within(before1, c1, lo1, lo1 + |a|) && Within(before2, c2, lo2, lo2 + |b|)
  {
    SubSlice(c1, lo1, lo1 + |a|, start, end1);
    SubSlice(c2, lo2, lo2 + |b|, start, end2);
    Untrim(a, b, start, end1, end2, c1[lo1..lo1 + |a|], c2[lo2..lo2 + |b|]);
  }

  lemma JoinAt(a: seq<int>, b: seq<int>, x0: int, y0: int, x1: int, y1: int,
               c1: seq<bool>, d1: seq<bool>, lo1: nat, c2: seq<bool>, d2: seq<bool>, lo2: nat)
    requires MiddleSnake(a, b, x0, y0, x1, y1)
    requires lo1 + |a| <= |c1| && lo2 + |b| <= |c2|
    requires Within(c1, d1, lo1 + x1, lo1 + |a|) && All(c1, lo1 + x0, lo1 + x1, false)
    requires Within(c2, d2, lo2 + y1, lo2 + |b|) && All(c2, lo2 + y0, lo2 + y1, false)
    requires SolvedAt(a[..x0], b[..y0], c1, lo1, c2, lo2)
    requires SolvedAt(a[x1..], b[y1..], d1, lo1 + x1, d2, lo2 + y1)
    ensures SolvedAt(a, b, d1, lo1, d2, lo2)
  {
    var w1, w2 := d1[lo1..lo1 + |a|], d2[lo2..lo2 + |b|];
    assert w1[..x0] == c1[lo1..lo1 + x0] && w1[x1..] == d1[lo1 + x1..lo1 + |a|];
    assert w2[..y0] == c2[lo2..lo2 + y0] && w2[y1..] == d2[lo2 + y1..lo2 + |b|];
    Join(a, b, x0, y0, x1, y1, w1, w2);
  }

  method MarkAll(change: array<bool>, start: nat, end: nat)
    requires start <= end <= change.Length
    modifies change
    ensures All(change[..], start, end, true)
    ensures Within(old(change[..]), change[..], start, end)
  {
    for i := start to end
      invariant All(change[..], start, i, true)
      invariant Within(old(change[..]), change[..], start, end)
    {
      change[i] := true;
    }
  }

  /** Neither the first nor the last elements are equal. */
  ghost predicate EndsDiffer(a: seq<int>, b: seq<int>)
  {
    a != [] && b != [] ==> a[0] != b[0] && a[|a| - 1] != b[|b| - 1]
  }

  /** What is left of the lists without equal elements at both ends. */
  ghost predicate Middle(a: seq<int>, b: seq<int>, start: nat, end1: nat, end2: nat, mid1: seq<int>, mid2: seq<int>)
  {
    && SameEnds(a, b, start, end1, end2)
    && mid1 == a[start..end1] && mid2 == b[start..end2] && EndsDiffer(mid1, mid2)
  }

  lemma MiddleIs(a: seq<int>, b: seq<int>, start: nat, end1: nat, end2: nat)
    requires SameEnds(a, b, start, end1, end2)
    requires start < end1 && start < end2 ==> a[start] != b[start] && a[end1 - 1] != b[end2 - 1]
    ensures Middle(a, b, start, end1, end2, a[start..end1], b[start..end2])
  {
  }

  /** Equal elements at both ends need no search. */
  method TrimEnds(data1: seq<int>, data2: seq<int>)
    returns (start: nat, ghost end1': nat, ghost end2': nat, mid1: seq<int>, mid2: seq<int>)
    ensures Middle(data1, data2, start, end1', end2', mid1, mid2)
  {
    var start1, start2 := 0, 0;
    var end1, end2 := |data1|, |data2|;
    while start1 < end1 && start2 < end2 && data1[start1] == data2[start2]
      invariant start1 == start2 <= end1 && start2 <= end2
      invariant data1[..start1] == data2[..start2]
    {
      start1, start2 := start1 + 1, start2 + 1;
    }
    while start1 < end1 && start2 < end2 && data1[end1 - 1] == data2[end2 - 1]
      invariant start1 <= end1 <= |data1| && start2 <= end2 <= |data2|
      invariant |data1| - end1 == |data2| - end2
      invariant data1[end1..] == data2[end2..]
    {
      end1, end2 := end1 - 1, end2 - 1;
    }
    start, end1', end2' := start1, end1, end2;
    MiddleIs(data1, data2, start, end1', end2');
    mid1, mid2 := data1[start1..end1], data2[start2..end2];
  }

  lemma MiddleFits(a: seq<int>, b: seq<int>, start: nat, end1: nat, end2: nat, mid1: seq<int>, mid2: seq<int>,
                   c1: seq<bool>, lo1: nat, c2: seq<bool>, lo2: nat)
    requires Middle(a, b, start, end1, end2, mid1, mid2)
    requires All(c1, lo1, lo1 + |a|, false) && All(c2, lo2, lo2 + |b|, false)
    ensures start + |mid1| <= |a| && start + |mid2| <= |b| && EndsDiffer(mid1, mid2)
    ensures All(c1, lo1 + start, lo1 + start + |mid1|, false) && All(c2, lo2 + start, lo2 + start + |mid2|, false)
  {
  }

  /** Marks the elements of data1 and data2 outside one longest common subsequence. The marks of data1
      start at change1[lo1], those of data2 at change2[lo2]. */
  method AlgorithmLcs(data1: seq<int>, data2: seq<int>, change1: array<bool>, lo1: nat,
                      change2: array<bool>, lo2: nat, v: array<int>)
    requires change1 != change2
    requires lo1 + |data1| <= change1.Length && lo2 + |data2| <= change2.Length
    requires All(change1[..], lo1, lo1 + |data1|, false) && All(change2[..], lo2, lo2 + |data2|, false)
    requires v.Length >= 4 * (|data1| + |data2| + 1) + 4
    modifies change1, change2, v
    ensures SolvedAt(data1, data2, change1[..], lo1, change2[..], lo2)
    ensures Within(old(change1[..]), change1[..], lo1, lo1 + |data1|)
    ensures Within(old(change2[..]), change2[..], lo2, lo2 + |data2|)
    decreases |data1| + |data2|, 2
  {
    ghost var c1, c2 := change1[..], change2[..];
    var start, end1, end2, mid1, mid2 := TrimEnds(data1, data2);
    MiddleFits(data1, data2, start, end1, end2, mid1, mid2, c1, lo1, c2, lo2);
    var at1, at2 := lo1 + start, lo2 + start;
    SolveMiddle(mid1, mid2, change1, at1, change2, at2, v);
    UntrimAt(data1, data2, start, end1, end2, mid1, mid2, c1, change1[..], lo1, at1, c2, change2[..], lo2, at2);
  }

  /** The switch of the algorithm, on what is left once equal ends are trimmed. */
  method SolveMiddle(data1: seq<int>, data2: seq<int>, change1: array<bool>, lo1: nat,
                     change2: array<bool>, lo2: nat, v: array<int>)
    requires change1 != change2
    requires lo1 + |data1| <= change1.Length && lo2 + |data2| <= change2.Length
    requires All(change1[..], lo1, lo1 + |data1|, false) && All(change2[..], lo2, lo2 + |data2|, false)
    requires EndsDiffer(data1, data2)
    requires v.Length >= 4 * (|data1| + |data2| + 1) + 4
    modifies change1, change2, v
    ensures SolvedAt(data1, data2, change1[..], lo1, change2[..], lo2)
    ensures Within(old(change1[..]), change1[..], lo1, lo1 + |data1|)
    ensures Within(old(change2[..]), change2[..], lo2, lo2 + |data2|)
    decreases |data1| + |data2|, 1
  {
    if |data1| == 0 {
      MarkAll(change2, lo2, lo2 + |data2|);
      SolvedAllMarked(data1, data2, change1[..], lo1, change2[..], lo2);
    } else if |data2| == 0 {
      MarkAll(change1, lo1, lo1 + |data1|);
      SolvedAllMarked(data1, data2, change1[..], lo1, change2[..], lo2);
    } else if |data1| == 1 && |data2| == 1 {
      change1[lo1] := true;
      change2[lo2] := true;
      SolvedAllMarked(data1, data2, change1[..], lo1, change2[..], lo2);
    } else {
      var x0, y0, x1, y1 := Partition(data1, data2, v);
      Conquer(data1, data2, x0, y0, x1, y1, change1, lo1, change2, lo2, v);
    }
  }

  /** The two recursive calls, either side of the middle snake. */
  method Conquer(data1: seq<int>, data2: seq<int>, x0: int, y0: int, x1: int, y1: int,
                 change1: array<bool>, lo1: nat, change2: array<bool>, lo2: nat, v: array<int>)
    requires MiddleSnake(data1, data2, x0, y0, x1, y1)
    requires 0 < x1 + y1 && x0 + y0 < |data1| + |data2|
    requires change1 != change2
    requires All(change1[..], lo1, lo1 + |data1|, false) && All(change2[..], lo2, lo2 + |data2|, false)
    requires v.Length >= 4 * (|data1| + |data2| + 1) + 4
    modifies change1, change2, v
    ensures SolvedAt(data1, data2, change1[..], lo1, change2[..], lo2)
    ensures Within(old(change1[..]), change1[..], lo1, lo1 + |data1|)
    ensures Within(old(change2[..]), change2[..], lo2, lo2 + |data2|)
    decreases |data1| + |data2|, 0
  {
    ghost var c1, c2 := change1[..], change2[..];
    AlgorithmLcs(data1[..x0], data2[..y0], change1, lo1, change2, lo2, v);
    ghost var c1', c2' := change1[..], change2[..];
    AlgorithmLcs(data1[x1..], data2[y1..], change1, lo1 + x1, change2, lo2 + y1, v);
    TwoCalls(c1, c1', change1[..], lo1, x0, x1, |data1|);
    TwoCalls(c2, c2', change2[..], lo2, y0, y1, |data2|);
    JoinAt(data1, data2, x0, y0, x1, y1, c1', change1[..], lo1, c2', change2[..], lo2);
  }

  /** The diff of two sequences: fresh marks that leave one of their longest common subsequences. */
  method DoDiff(data1: seq<int>, data2: seq<int>) returns (change1: array<bool>, change2: array<bool>)
    ensures fresh(change1) && fresh(change2) && change1 != change2
    ensures change1.Length == |data1| && change2.Length == |data2|
    ensures Longest(data1, data2, change1[..], change2[..])
    ensures |Kept(data1, change1[..])| == Length(data1, data2)
  {
    var len1, len2 := |data1|, |data2|;
    change1, change2 := new bool[len1](_ => false), new bool[len2](_ => false);
    var size := (len1 + len2 + 1) * 2 + 2;
    var v := new int[size * 2](_ => 0);
    AlgorithmLcs(data1, data2, change1, 0, change2, 0, v);
    assert change1[0..0 + |data1|] == change1[..] && change2[0..0 + |data2|] == change2[..];
    LengthIsLongest(data1, data2, change1[..], change2[..]);
  }
}
