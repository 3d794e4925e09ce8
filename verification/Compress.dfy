/** Shrinking the two id lists before the diff runs: equal ends are trimmed, lines the other file does not
    have are marked or merged; and expanding the diff's marks back to lines afterwards. */
module Compress {
  import opened Marks
  import opened Lcs
  import opened Recursion
  import opened Foreign

  /** What is known about the lines of one file. An empty zids means that no diff is needed. */
  class LinesData {
    const ids: array<nat>
    const change: array<bool>
    var zids: seq<int>
    var zcount: seq<nat>
    var zidsStart: nat
    var zidsEnd: nat

    constructor (ids: array<nat>)
      ensures this.ids == ids && change.Length == ids.Length && fresh(change)
      ensures All(change[..], 0, change.Length, false) && zids == [] && zcount == []
    {
      this.ids := ids;
      change := new bool[ids.Length](_ => false);
      zids, zcount := [], [];
      zidsStart, zidsEnd := 0, 0;
    }
  }

  /** has[v] tells whether v occurs among the ids. */
  ghost predicate Present(has: seq<bool>, ids: seq<nat>, maxId: nat)
  {
    |has| == maxId + 1 && forall v: nat :: (v <= maxId && has[v]) <==> v in ids
  }

  method MarkPresent(ids: array<nat>, maxId: nat) returns (has: array<bool>)
    requires forall i :: 0 <= i < ids.Length ==> ids[i] <= maxId
    ensures fresh(has) && Present(has[..], ids[..], maxId)
  {
    has := new bool[maxId + 1](_ => false);
    for i := 0 to ids.Length
      invariant forall v: nat :: (v <= maxId && has[v]) <==> v in ids[..i]
    {
      has[ids[i]] := true;
      assert ids[..i + 1] == ids[..i] + [ids[i]];
    }
    assert ids[..ids.Length] == ids[..];
  }

  /** Trims from the beginnings lines that match, and marks lines that the other file lacks. */
  method TrimFront(ids1: seq<nat>, ids2: seq<nat>, change1: array<bool>, change2: array<bool>,
                   has1: seq<bool>, has2: seq<bool>, maxId1: nat, maxId2: nat)
    returns (i1: nat, i2: nat)
    requires change1 != change2 && Present(has1, ids1, maxId1) && Present(has2, ids2, maxId2)
    requires All(change1[..], 0, change1.Length, false) && All(change2[..], 0, change2.Length, false)
    requires change1.Length == |ids1| && change2.Length == |ids2|
    modifies change1, change2
    ensures Trimmed(ids1, ids2, change1[..], change2[..], i1, |ids1|, i2, |ids2|)
  {
    var j1, j2 := |ids1|, |ids2|;
    i1, i2 := 0, 0;
    TrimNothing(ids1, ids2, change1[..], change2[..]);
    while i1 < j1 && i2 < j2
      invariant Trimmed(ids1, ids2, change1[..], change2[..], i1, j1, i2, j2)
    {
      ghost var c1, c2 := change1[..], change2[..];
      var v1, v2 := ids1[i1], ids2[i2];
      if v1 > maxId2 || !has2[v1] {
        TrimForeignFirst(ids1, ids2, c1, c2, i1, j1, i2, j2);
        change1[i1] := true;
        assert change1[..] == c1[i1 := true];
        i1 := i1 + 1;
      } else if v2 > maxId1 || !has1[v2] {
        TrimForeignFirst2(ids1, ids2, c1, c2, i1, j1, i2, j2);
        change2[i2] := true;
        assert change2[..] == c2[i2 := true];
        i2 := i2 + 1;
      } else if v1 == v2 {
        TrimMatchFirst(ids1, ids2, c1, c2, i1, j1, i2, j2);
        i1, i2 := i1 + 1, i2 + 1;
      } else {
        break;
      }
    }
  }

  /** The same from the ends. */
  method TrimBack(ids1: seq<nat>, ids2: seq<nat>, change1: array<bool>, change2: array<bool>,
                  has1: seq<bool>, has2: seq<bool>, maxId1: nat, maxId2: nat, i1: nat, i2: nat)
    returns (j1: nat, j2: nat)
    requires change1 != change2 && Present(has1, ids1, maxId1) && Present(has2, ids2, maxId2)
    requires Trimmed(ids1, ids2, change1[..], change2[..], i1, |ids1|, i2, |ids2|)
    modifies change1, change2
    ensures Trimmed(ids1, ids2, change1[..], change2[..], i1, j1, i2, j2)
  {
    j1, j2 := |ids1|, |ids2|;
    while i1 < j1 && i2 < j2
      invariant Trimmed(ids1, ids2, change1[..], change2[..], i1, j1, i2, j2)
    {
      ghost var c1, c2, e1, e2 := change1[..], change2[..], j1, j2;
      var v1, v2 := ids1[j1 - 1], ids2[j2 - 1];
      if v1 > maxId2 || !has2[v1] {
        j1 := j1 - 1;
        TrimForeignLast(ids1, ids2, c1, c2, i1, j1, i2, j2, e1);
        change1[j1] := true;
        assert change1[..] == c1[j1 := true];
      } else if v2 > maxId1 || !has1[v2] {
        j2 := j2 - 1;
        TrimForeignLast2(ids1, ids2, c1, c2, i1, j1, i2, j2, e2);
        change2[j2] := true;
        assert change2[..] == c2[j2 := true];
      } else if v1 == v2 {
        j1, j2 := j1 - 1, j2 - 1;
        TrimMatchLast(ids1, ids2, c1, c2, i1, j1, i2, j2, e1, e2);
      } else {
        break;
      }
    }
  }

  /** The first n cells of the two buffers represent the first k ids. */
  ghost predicate Merging(ids: seq<nat>, other: seq<nat>, k: nat, values: seq<int>, counts: seq<nat>, n: nat,
                          merged: seq<bool>,
                          lo: int, hi: int)
  {
    && n <= k <= |ids| == |values| == |counts| && lo <= hi
    && Represents(ids[..k], other, values[..n], counts[..n], merged)
    && Entries(values[..n], merged, ids, other, lo, hi)
    && forall i :: n <= i < |ids| ==> counts[i] == 0
  }

  lemma SliceNext<T>(s: seq<T>, n: nat)
    requires n < |s|
    ensures s[..n + 1] == s[..n] + [s[n]]
  {
  }

  lemma SliceWithNext<T>(s: seq<T>, n: nat, x: T)
    requires n < |s|
    ensures s[n := x][..n + 1] == s[..n] + [x]
  {
  }

  lemma MergingIs(ids: seq<nat>, other: seq<nat>, k: nat, values: seq<int>, counts: seq<nat>, n: nat,
                  merged: seq<bool>, lo: int, hi: int, w: seq<nat>, zids: seq<int>, zcount: seq<nat>)
    requires n <= k <= |ids| == |values| == |counts| && lo <= hi
    requires w == ids[..k] && zids == values[..n] && zcount == counts[..n]
    requires Represents(w, other, zids, zcount, merged) && Entries(zids, merged, ids, other, lo, hi)
    requires forall i :: n <= i < |ids| ==> counts[i] == 0
    ensures Merging(ids, other, k, values, counts, n, merged, lo, hi)
  {
  }

  lemma MergeAppend(ids: seq<nat>, other: seq<nat>, k: nat, values: seq<int>, counts: seq<nat>, n: nat,
                    merged: seq<bool>,
                    lo: int, hi: int, z: int, foreign: bool)
    requires Merging(ids, other, k, values, counts, n, merged, lo, hi) && k < |ids|
    requires foreign <==> ids[k] !in other
    requires if foreign then z + ids[k] == 0 else z == ids[k]
    ensures Merging(ids, other, k + 1, values[n := z], counts[n := 1], n + 1, merged + [foreign], lo, hi)
  {
    var zids, zcount, w := values[..n], counts[..n], ids[..k];
    AppendEntry(w, ids[k], other, zids, zcount, merged, z, foreign);
    EntriesAppend(zids, merged, ids, other, lo, hi, z, foreign);
    SliceWithNext(values, n, z);
    SliceWithNext(counts, n, 1);
    SliceNext(ids, k);
    MergingIs(ids, other, k + 1, values[n := z], counts[n := 1], n + 1, merged + [foreign], lo, hi,
              w + [ids[k]], zids + [z], zcount + [1]);
  }

  lemma MergeGrow(ids: seq<nat>, other: seq<nat>, k: nat, values: seq<int>, counts: seq<nat>, n: nat, merged: seq<bool>,
                  lo: int, hi: int)
    requires Merging(ids, other, k, values, counts, n, merged, lo, hi) && k < |ids|
    requires n > 0 && merged[n - 1] && ids[k] !in other
    ensures Merging(ids, other, k + 1, values[n - 1 := -hi], counts[n - 1 := counts[n - 1] + 1], n, merged, lo, hi + 1)
  {
    var values', counts' := values[n - 1 := -hi], counts[n - 1 := counts[n - 1] + 1];
    assert values'[..n] == values[..n][n - 1 := -hi];
    assert counts'[..n] == counts[..n][n - 1 := counts[n - 1] + 1];
    assert ids[..k + 1] == ids[..k] + [ids[k]];
    GrowEntry(ids[..k], ids[k], other, values[..n], counts[..n], merged, -hi);
  }

  /** One line: it joins the entry before it if both are foreign, and else begins a new entry. */
  method MergeNext(ids: seq<nat>, ghost other: seq<nat>, has: seq<bool>, maxId: nat, k: nat,
                   values: array<int>, counts: array<nat>, n: nat, lastExclude: bool, ghost lo: int, hi: int,
                   ghost merged: seq<bool>)
    returns (n': nat, hi': int, exclude: bool, ghost merged': seq<bool>)
    requires Merging(ids, other, k, values[..], counts[..], n, merged, lo, hi) && k < |ids|
    requires lastExclude == (n > 0 && merged[n - 1]) && Present(has, other, maxId)
    modifies values, counts
    ensures Merging(ids, other, k + 1, values[..], counts[..], n', merged', lo, hi')
    ensures exclude == (n' > 0 && merged'[n' - 1])
  {
    var v: int := ids[k];
    exclude := v > maxId || !has[v];
    if exclude && lastExclude {
      JoinEntry(ids, other, k, values, counts, n, lo, hi, merged);
      n', hi', merged' := n, hi + 1, merged;
    } else {
      NewEntry(ids, other, k, values, counts, n, lo, hi, merged, if exclude then -v else v, exclude);
      n', hi', merged' := n + 1, hi, merged + [exclude];
    }
  }

  method JoinEntry(ghost ids: seq<nat>, ghost other: seq<nat>, ghost k: nat, values: array<int>, counts: array<nat>,
                   n: nat, ghost lo: int, hi: int, ghost merged: seq<bool>)
    requires Merging(ids, other, k, values[..], counts[..], n, merged, lo, hi) && k < |ids|
    requires n > 0 && merged[n - 1] && ids[k] !in other
    modifies values, counts
    ensures Merging(ids, other, k + 1, values[..], counts[..], n, merged, lo, hi + 1)
  {
    ghost var values0, counts0 := values[..], counts[..];
    counts[n - 1] := counts[n - 1] + 1;
    values[n - 1] := -hi;
    assert values[..] == values0[n - 1 := -hi] && counts[..] == counts0[n - 1 := counts0[n - 1] + 1];
    MergeGrow(ids, other, k, values0, counts0, n, merged, lo, hi);
  }

  method NewEntry(ghost ids: seq<nat>, ghost other: seq<nat>, ghost k: nat, values: array<int>, counts: array<nat>,
                  n: nat, ghost lo: int, ghost hi: int, ghost merged: seq<bool>, z: int, ghost foreign: bool)
    requires Merging(ids, other, k, values[..], counts[..], n, merged, lo, hi) && k < |ids|
    requires foreign <==> ids[k] !in other
    requires if foreign then z + ids[k] == 0 else z == ids[k]
    modifies values, counts
    ensures Merging(ids, other, k + 1, values[..], counts[..], n + 1, merged + [foreign], lo, hi)
  {
    ghost var values0, counts0 := values[..], counts[..];
    counts[n] := counts[n] + 1;
    values[n] := z;
    assert values[..] == values0[n := z] && counts[..] == counts0[n := 1];
    MergeAppend(ids, other, k, values0, counts0, n, merged, lo, hi, z, foreign);
  }

  /** Merges each run of ids that the other file lacks into one entry with a negative value. */
  method MergeForeign(ids: seq<nat>, other: seq<nat>, has: seq<bool>, maxId: nat, nextId: int)
    returns (zids: seq<int>, zcount: seq<nat>, nextId': int, ghost merged: seq<bool>)
    requires Present(has, other, maxId)
    ensures Represents(ids, other, zids, zcount, merged)
    ensures nextId' >= nextId && Entries(zids, merged, ids, other, nextId, nextId')
  {
    var counts, values := new nat[|ids|](_ => 0), new int[|ids|](_ => 0);
    var lastExclude: bool, n: nat := false, 0;
    nextId', merged := nextId, [];
    for k := 0 to |ids|
      invariant Merging(ids, other, k, values[..], counts[..], n, merged, nextId, nextId')
      invariant lastExclude == (n > 0 && merged[n - 1])
    {
      n, nextId', lastExclude, merged :=
        MergeNext(ids, other, has, maxId, k, values, counts, n, lastExclude, nextId, nextId', merged);
    }
    assert ids[..|ids|] == ids;
    zids, zcount := values[..n], counts[..n];
  }

  /** The diff of the entries is all that is missing: the marks outside the two windows are settled, and
      the entries represent the windows. */
  ghost predicate Prepared(lines1: LinesData, lines2: LinesData, merged1: seq<bool>, merged2: seq<bool>)
    reads lines1, lines2, lines1.ids, lines2.ids, lines1.change, lines2.change
  {
    && Trimmed(lines1.ids[..], lines2.ids[..], lines1.change[..], lines2.change[..],
               lines1.zidsStart, lines1.zidsEnd, lines2.zidsStart, lines2.zidsEnd)
    && lines1.zids != [] && lines2.zids != []
    && Represents(lines1.ids[lines1.zidsStart..lines1.zidsEnd], lines2.ids[..], lines1.zids, lines1.zcount, merged1)
    && Represents(lines2.ids[lines2.zidsStart..lines2.zidsEnd], lines1.ids[..], lines2.zids, lines2.zcount, merged2)
    && EntriesDiffer(lines1.zids, merged1, lines2.zids, merged2)
  }

  /** Two files with an id each and no marks yet. */
  ghost predicate Fresh(lines1: LinesData, lines2: LinesData)
    reads lines1, lines2, lines1.change, lines2.change
  {
    && lines1 != lines2 && lines1.change != lines2.change
    && lines1.change.Length == lines1.ids.Length && lines2.change.Length == lines2.ids.Length
    && All(lines1.change[..], 0, lines1.change.Length, false) && All(lines2.change[..], 0, lines2.change.Length, false)
    && lines1.zids == [] && lines2.zids == []
  }

  /** With one window empty, the other file's window is marked as a whole. */
  lemma EmptyWindow(a: seq<int>, b: seq<int>, c1: seq<bool>, c2: seq<bool>, i1: int, j1: int, i2: int, j2: int,
                    d1: seq<bool>, d2: seq<bool>)
    requires Trimmed(a, b, c1, c2, i1, j1, i2, j2) && (i1 == j1 || i2 == j2)
    requires Within(c1, d1, i1, j1) && Within(c2, d2, i2, j2) && All(d1, i1, j1, true) && All(d2, i2, j2, true)
    ensures Solved(a, b, d1, d2)
  {
    KeptAll(a[i1..j1], d1[i1..j1], true);
    KeptAll(b[i2..j2], d2[i2..j2], true);
    TrimmedSolved(a, b, c1, c2, i1, j1, i2, j2, d1, d2);
  }

  method CompressEquivIds(lines1: LinesData, lines2: LinesData, maxId1: nat, maxId2: nat)
    returns (ghost merged1: seq<bool>, ghost merged2: seq<bool>)
    requires Fresh(lines1, lines2)
    requires forall i :: 0 <= i < lines1.ids.Length ==> lines1.ids[i] <= maxId1
    requires forall i :: 0 <= i < lines2.ids.Length ==> lines2.ids[i] <= maxId2
    modifies lines1, lines2, lines1.change, lines2.change
    ensures Prepared(lines1, lines2, merged1, merged2)
         || (lines1.zids == [] && lines2.zids == []
             && Solved(lines1.ids[..], lines2.ids[..], lines1.change[..], lines2.change[..]))
  {
    var ids1, ids2 := lines1.ids[..], lines2.ids[..];
    var present1 := MarkPresent(lines1.ids, maxId1);
    var present2 := MarkPresent(lines2.ids, maxId2);
    var has1, has2 := present1[..], present2[..];
    var i1, i2 := TrimFront(ids1, ids2, lines1.change, lines2.change, has1, has2, maxId1, maxId2);
    var j1, j2 := TrimBack(ids1, ids2, lines1.change, lines2.change, has1, has2, maxId1, maxId2, i1, i2);
    ghost var c1, c2 := lines1.change[..], lines2.change[..];
    merged1, merged2 := [], [];
    if i1 == j1 {
      MarkAll(lines2.change, i2, j2);
      EmptyWindow(ids1, ids2, c1, c2, i1, j1, i2, j2, lines1.change[..], lines2.change[..]);
      return;
    }
    if i2 == j2 {
      MarkAll(lines1.change, i1, j1);
      EmptyWindow(ids1, ids2, c1, c2, i1, j1, i2, j2, lines1.change[..], lines2.change[..]);
      return;
    }
    merged1, merged2 := MergeBoth(lines1, lines2, has1, has2, maxId1, maxId2, i1, j1, i2, j2);
  }

  method MergeWindows(ids1: seq<nat>, ids2: seq<nat>, has1: seq<bool>, has2: seq<bool>, maxId1: nat, maxId2: nat,
                      i1: nat, j1: nat, i2: nat, j2: nat)
    returns (zids1: seq<int>, zcount1: seq<nat>, zids2: seq<int>, zcount2: seq<nat>,
             ghost merged1: seq<bool>, ghost merged2: seq<bool>)
    requires i1 < j1 <= |ids1| && i2 < j2 <= |ids2|
    requires Present(has1, ids1, maxId1) && Present(has2, ids2, maxId2)
    ensures zids1 != [] && Represents(ids1[i1..j1], ids2, zids1, zcount1, merged1)
    ensures zids2 != [] && Represents(ids2[i2..j2], ids1, zids2, zcount2, merged2)
    ensures EntriesDiffer(zids1, merged1, zids2, merged2)
  {
    var w1, w2 := ids1[i1..j1], ids2[i2..j2];
    var nextId := (if maxId1 < maxId2 then maxId2 else maxId1) + 1;
    var mid, last;
    zids1, zcount1, mid, merged1 := MergeForeign(w1, ids2, has2, maxId2, nextId);
    zids2, zcount2, last, merged2 := MergeForeign(w2, ids1, has1, maxId1, mid);
    EntriesApart(zids1, merged1, w1, zids2, merged2, w2, ids1, ids2, nextId, mid, last);
  }

  /** Stores the merged entries of both windows. */
  method MergeBoth(lines1: LinesData, lines2: LinesData, has1: seq<bool>, has2: seq<bool>, maxId1: nat, maxId2: nat,
                   i1: nat, j1: nat, i2: nat, j2: nat) returns (ghost merged1: seq<bool>, ghost merged2: seq<bool>)
    requires lines1 != lines2 && i1 != j1 && i2 != j2
    requires Trimmed(lines1.ids[..], lines2.ids[..], lines1.change[..], lines2.change[..], i1, j1, i2, j2)
    requires Present(has1, lines1.ids[..], maxId1) && Present(has2, lines2.ids[..], maxId2)
    modifies lines1, lines2
    ensures Prepared(lines1, lines2, merged1, merged2)
  {
    var zids1, zcount1, zids2, zcount2;
    zids1, zcount1, zids2, zcount2, merged1, merged2 :=
      MergeWindows(lines1.ids[..], lines2.ids[..], has1, has2, maxId1, maxId2, i1, j1, i2, j2);
    lines1.zidsStart, lines1.zidsEnd, lines1.zids, lines1.zcount := i1, j1, zids1, zcount1;
    lines2.zidsStart, lines2.zidsEnd, lines2.zids, lines2.zcount := i2, j2, zids2, zcount2;
  }

  lemma ExpandLength(zcount: seq<nat>, zchange: seq<bool>, i: nat)
    requires |zcount| == |zchange| && i <= |zcount|
    ensures |Expand(zcount[..i], zchange[..i])| <= |Expand(zcount, zchange)|
    decreases |zcount|
  {
    if i < |zcount| {
      var n := |zcount| - 1;
      ExpandLength(zcount[..n], zchange[..n], i);
      assert zcount[..n][..i] == zcount[..i] && zchange[..n][..i] == zchange[..i];
    } else {
      assert zcount[..i] == zcount && zchange[..i] == zchange;
    }
  }

  /** The first n lines of the window have the marks of their entries, and the rest have none. */
  ghost predicate Expanding(change: seq<bool>, start: nat, end: nat, n: nat, done: seq<bool>)
  {
    && n == |done| && start + n <= end <= |change|
    && change[start..start + n] == done && All(change, start + n, end, false)
  }

  lemma ExpandingNext(change: seq<bool>, change': seq<bool>, start: nat, end: nat, n: nat, done: seq<bool>, m: nat,
                      mark: bool)
    requires Expanding(change, start, end, n, done) && start + n + m <= end
    requires Within(change, change', start + n, start + n + m) && All(change', start + n, start + n + m, mark)
    ensures Expanding(change', start, end, n + m, done + seq(m, _ => mark))
  {
    SameSlice(change, change', start, start + n, start + n, start + n + m);
    SliceConcat(change', start, start + n, start + n + m);
    ConstantSlice(change', start + n, start + n + m, m, mark);
  }

  lemma SameSlice(s: seq<bool>, t: seq<bool>, a: nat, b: nat, lo: nat, hi: nat)
    requires Within(s, t, lo, hi) && a <= b <= lo
    ensures s[a..b] == t[a..b]
  {
  }

  lemma SliceConcat(s: seq<bool>, a: nat, b: nat, c: nat)
    requires a <= b <= c <= |s|
    ensures s[a..c] == s[a..b] + s[b..c]
  {
  }

  lemma ConstantSlice(s: seq<bool>, a: nat, b: nat, m: nat, mark: bool)
    requires All(s, a, b, mark) && b == a + m
    ensures s[a..b] == seq(m, _ => mark)
  {
  }

  lemma ExpandMore(zcount: seq<nat>, zchange: seq<bool>, i: nat)
    requires i < |zcount| == |zchange|
    ensures Expand(zcount[..i + 1], zchange[..i + 1]) ==
            Expand(zcount[..i], zchange[..i]) + seq(zcount[i], _ => zchange[i])
    ensures |Expand(zcount[..i], zchange[..i])| + zcount[i] <= |Expand(zcount, zchange)|
  {
    assert zcount[..i + 1][..i] == zcount[..i] && zchange[..i + 1][..i] == zchange[..i];
    ExpandLength(zcount, zchange, i + 1);
  }

  /** Marks the lines from lo to hi. */
  method MarkLines(change: array<bool>, lo: nat, hi: nat)
    requires lo <= hi <= change.Length
    modifies change
    ensures All(change[..], lo, hi, true) && Within(old(change[..]), change[..], lo, hi)
  {
    var n := lo;
    while n < hi
      invariant lo <= n <= hi && All(change[..], lo, n, true)
      invariant Within(old(change[..]), change[..], lo, hi)
    {
      change[n] := true;
      n := n + 1;
    }
  }

  /** Writes the entries' marks to the lines that they stand for. */
  method ExpandChangeList(start: nat, end: nat, zcount: seq<nat>, zchange: seq<bool>, change: array<bool>)
    requires |zcount| == |zchange| && start <= end <= change.Length
    requires |Expand(zcount, zchange)| == end - start && All(change[..], start, end, false)
    modifies change
    ensures change[start..end] == Expand(zcount, zchange)
    ensures Within(old(change[..]), change[..], start, end)
  {
    var n := 0;
    for i := 0 to |zcount|
      invariant Expanding(change[..], start, end, n, Expand(zcount[..i], zchange[..i]))
      invariant Within(old(change[..]), change[..], start, end)
    {
      ghost var before := change[..];
      ExpandMore(zcount, zchange, i);
      if zchange[i] {
        MarkLines(change, start + n, start + n + zcount[i]);
      }
      ExpandingNext(before, change[..], start, end, n, Expand(zcount[..i], zchange[..i]), zcount[i], zchange[i]);
      n := n + zcount[i];
    }
    assert zcount[..|zcount|] == zcount && zchange[..|zchange|] == zchange;
  }

  /** Marks the lines outside one longest common subsequence of the two files' ids. */
  method DiffLines(lines1: LinesData, lines2: LinesData, maxId1: nat, maxId2: nat)
    requires Fresh(lines1, lines2)
    requires forall i :: 0 <= i < lines1.ids.Length ==> lines1.ids[i] <= maxId1
    requires forall i :: 0 <= i < lines2.ids.Length ==> lines2.ids[i] <= maxId2
    modifies lines1, lines2, lines1.change, lines2.change
    ensures Solved(lines1.ids[..], lines2.ids[..], lines1.change[..], lines2.change[..])
    ensures Longest(lines1.ids[..], lines2.ids[..], lines1.change[..], lines2.change[..])
  {
    var merged1, merged2 := CompressEquivIds(lines1, lines2, maxId1, maxId2);
    if lines1.zids != [] && lines2.zids != [] {
      var zchange1, zchange2 := DoDiff(lines1.zids, lines2.zids);
      ExpandPrepared(lines1, lines2, merged1, merged2, zchange1[..], zchange2[..]);
    }
    LengthIsLongest(lines1.ids[..], lines2.ids[..], lines1.change[..], lines2.change[..]);
  }

  method ExpandPrepared(lines1: LinesData, lines2: LinesData, ghost merged1: seq<bool>, ghost merged2: seq<bool>,
                        zchange1: seq<bool>, zchange2: seq<bool>)
    requires lines1.change != lines2.change && Prepared(lines1, lines2, merged1, merged2)
    requires Solved(lines1.zids, lines2.zids, zchange1, zchange2)
    modifies lines1.change, lines2.change
    ensures Solved(lines1.ids[..], lines2.ids[..], lines1.change[..], lines2.change[..])
  {
    ghost var ids1, ids2, c1, c2 := lines1.ids[..], lines2.ids[..], lines1.change[..], lines2.change[..];
    var s1, e1, s2, e2 := lines1.zidsStart, lines1.zidsEnd, lines2.zidsStart, lines2.zidsEnd;
    ghost var w1, w2 := ids1[s1..e1], ids2[s2..e2];
    ExpandSolution(w1, w2, ids2, ids1, lines1.zids, lines1.zcount, merged1, lines2.zids, lines2.zcount, merged2,
                   zchange1, zchange2);
    ExpandChangeList(s1, e1, lines1.zcount, zchange1, lines1.change);
    ExpandChangeList(s2, e2, lines2.zcount, zchange2, lines2.change);
    TrimmedSolved(ids1, ids2, c1, c2, s1, e1, s2, e2, lines1.change[..], lines2.change[..]);
  }
}
