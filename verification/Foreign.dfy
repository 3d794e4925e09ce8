/** Elements that the other sequence does not have can be left out, one by one or merged, without
    changing the longest common subsequence. */
module Foreign {
  import opened Marks
  import opened Lcs
  import opened Recursion

  lemma LengthMonotone(a: seq<int>, b: seq<int>, w: int)
    ensures Length(a, b) <= Length(a, b + [w])
  {
    SliceLengths(a, b + [w], |a|, |b|);
    assert a[..|a|] == a && (b + [w])[..|b|] == b;
    PrefixStep(Grid(a, b + [w], false), |a|, |b|);
  }

  lemma {:induction false} LastForeign(a: seq<int>, v: int, b: seq<int>)
    requires v !in b
    ensures Length(a + [v], b) == Length(a, b)
    decreases |b|
  {
    if b != [] {
      var m := |b| - 1;
      LastForeign(a, v, b[..m]);
      LengthStep(a, b[..m], v, b[m]);
      LengthMonotone(a, b[..m], b[m]);
      assert b[..m] + [b[m]] == b;
    }
  }

  /** Leaving out marked elements that b does not have keeps the length. */
  lemma {:induction false} DropForeign(a: seq<int>, foreign: seq<bool>, b: seq<int>)
    requires |a| == |foreign| && forall i :: 0 <= i < |a| && foreign[i] ==> a[i] !in b
    ensures Length(Kept(a, foreign), b) == Length(a, b)
    decreases |a| + |b|
  {
    if a != [] {
      var n := |a| - 1;
      assert a[..n] + [a[n]] == a;
      DropForeign(a[..n], foreign[..n], b);
      if foreign[n] {
        LastForeign(a[..n], a[n], b);
        assert Kept(a, foreign) == Kept(a[..n], foreign[..n]);
      } else if b != [] {
        var m := |b| - 1;
        assert b[..m] + [b[m]] == b;
        DropForeign(a, foreign, b[..m]);
        DropForeign(a[..n], foreign[..n], b[..m]);
        LengthStep(a[..n], b[..m], a[n], b[m]);
        LengthStep(Kept(a[..n], foreign[..n]), b[..m], a[n], b[m]);
      }
    }
  }

  /** Leaving out foreign elements on both sides. */
  lemma DropForeignBoth(a: seq<int>, foreign1: seq<bool>, b: seq<int>, foreign2: seq<bool>)
    requires |a| == |foreign1| && forall i :: 0 <= i < |a| && foreign1[i] ==> a[i] !in b
    requires |b| == |foreign2| && forall i :: 0 <= i < |b| && foreign2[i] ==> b[i] !in a
    ensures Length(Kept(a, foreign1), Kept(b, foreign2)) == Length(a, b)
  {
    var k := Kept(a, foreign1);
    DropForeign(a, foreign1, b);
    LengthSymmetric(k, b);
    forall i | 0 <= i < |b| && foreign2[i]
      ensures b[i] !in k
    {
      if b[i] in k {
        KeptSource(a, foreign1, b[i]);
      }
    }
    DropForeign(b, foreign2, k);
    LengthSymmetric(k, Kept(b, foreign2));
  }

  lemma FirstForeign(a: seq<int>, b: seq<int>)
    requires a != [] && a[0] !in b
    ensures Length(a, b) == Length(a[1..], b)
  {
    var m := seq(|a|, i => i == 0);
    KeptSplit(a, m, 1);
    KeptAll(a[..1], m[..1], true);
    KeptAll(a[1..], m[1..], false);
    assert Kept(a, m) == a[1..];
    DropForeign(a, m, b);
  }

  lemma FirstMatch(a: seq<int>, b: seq<int>)
    requires a != [] && b != [] && a[0] == b[0]
    ensures Length(a, b) == 1 + Length(a[1..], b[1..])
  {
    PrefixSnake(a, b, 1);
  }

  // ----- Runs of foreign elements, represented by one entry each -----

  /** zids and zcount represent w: entries flagged in `merged` stand for one or more elements that `other`
      does not have, and every other entry for one element that it has. */
  ghost predicate Represents(w: seq<int>, other: seq<int>, zids: seq<int>, zcount: seq<nat>, merged: seq<bool>)
    decreases |zids|
  {
    && |zids| == |zcount| == |merged|
    && if zids == [] then w == []
       else
         var n := |zids| - 1;
         && 1 <= zcount[n] <= |w|
         && (if merged[n] then forall i :: |w| - zcount[n] <= i < |w| ==> w[i] !in other
             else zcount[n] == 1 && zids[n] == w[|w| - 1] && zids[n] in other)
         && Represents(w[..|w| - zcount[n]], other, zids[..n], zcount[..n], merged[..n])
  }

  lemma AppendEntry(w: seq<int>, v: int, other: seq<int>, zids: seq<int>, zcount: seq<nat>, merged: seq<bool>,
                    z: int, foreign: bool)
    requires Represents(w, other, zids, zcount, merged)
    requires if foreign then v !in other else z == v && v in other
    ensures Represents(w + [v], other, zids + [z], zcount + [1], merged + [foreign])
  {
    var w', n := w + [v], |zids|;
    assert w'[..|w'| - 1] == w;
    assert (zids + [z])[..n] == zids && (zcount + [1])[..n] == zcount && (merged + [foreign])[..n] == merged;
  }

  lemma GrowEntry(w: seq<int>, v: int, other: seq<int>, zids: seq<int>, zcount: seq<nat>, merged: seq<bool>, z: int)
    requires Represents(w, other, zids, zcount, merged)
    requires zids != [] && merged[|merged| - 1] && v !in other
    ensures Represents(w + [v], other, zids[|zids| - 1 := z], zcount[|zids| - 1 := zcount[|zids| - 1] + 1], merged)
  {
    var w', n := w + [v], |zids| - 1;
    assert w'[..|w'| - (zcount[n] + 1)] == w[..|w| - zcount[n]];
    assert zids[n := z][..n] == zids[..n] && zcount[n := zcount[n] + 1][..n] == zcount[..n];
  }

  /** The values of the entries of w: an id that both files have, or the negative of an id that the other
      file lacks, or the negative of a number from lo to hi that is no id at all. */
  ghost predicate Entries(zids: seq<int>, merged: seq<bool>, w: seq<nat>, other: seq<nat>, lo: int, hi: int)
  {
    && |zids| == |merged|
    && forall i :: 0 <= i < |zids| ==>
         if merged[i] then (-zids[i] in w && -zids[i] !in other) || lo <= -zids[i] < hi
         else zids[i] in w && zids[i] in other
  }

  lemma EntriesAppend(zids: seq<int>, merged: seq<bool>, w: seq<nat>, other: seq<nat>, lo: int, hi: int, z: int,
                      foreign: bool)
    requires Entries(zids, merged, w, other, lo, hi)
    requires if foreign then -z in w && -z !in other else z in w && z in other
    ensures Entries(zids + [z], merged + [foreign], w, other, lo, hi)
  {
  }

  lemma EntriesApart(zids1: seq<int>, merged1: seq<bool>, w1: seq<nat>, zids2: seq<int>, merged2: seq<bool>,
                     w2: seq<nat>,
                     ids1: seq<nat>, ids2: seq<nat>, lo: int, mid: int, hi: int)
    requires Entries(zids1, merged1, w1, ids2, lo, mid) && Entries(zids2, merged2, w2, ids1, mid, hi)
    requires 0 < lo <= mid && (forall x :: x in ids1 || x in ids2 ==> x < lo)
    requires Subset(w1, ids1) && Subset(w2, ids2)
    ensures EntriesDiffer(zids1, merged1, zids2, merged2)
  {
    forall i, j | 0 <= i < |zids1| && 0 <= j < |zids2| && (merged1[i] || merged2[j])
      ensures zids1[i] != zids2[j]
    {
      InSubset(w1, ids1, zids1[i]);
      InSubset(w1, ids1, -zids1[i]);
      InSubset(w2, ids2, zids2[j]);
      InSubset(w2, ids2, -zids2[j]);
    }
  }

  lemma InSubset(w: seq<nat>, ids: seq<nat>, x: int)
    requires Subset(w, ids)
    ensures x in w ==> x >= 0 && x in ids
  {
  }

  /** Each entry's mark, as often as the entry stands for elements. */
  function Expand(zcount: seq<nat>, zchange: seq<bool>): (r: seq<bool>)
    requires |zcount| == |zchange|
  {
    if zcount == [] then []
    else
      var n := |zcount| - 1;
      Expand(zcount[..n], zchange[..n]) + seq(zcount[n], _ => zchange[n])
  }

  /** The last run of lines, all kept or all marked. */
  lemma KeptRun(w: seq<int>, i: nat, front: seq<bool>, m: nat, mark: bool)
    requires |w| == i + m && |front| == i
    ensures Kept(w, front + seq(m, _ => mark)) == Kept(w[..i], front) + if mark then [] else w[i..]
  {
    assert w == w[..i] + w[i..];
    KeptConcat(w[..i], w[i..], front, seq(m, _ => mark));
    KeptAll(w[i..], seq(m, _ => mark), mark);
  }

  /** Marks on the entries that cover every merged entry keep the same elements as their expansion. */
  lemma {:induction false} KeptExpand(w: seq<int>, other: seq<int>, zids: seq<int>, zcount: seq<nat>, merged: seq<bool>,
                                      zchange: seq<bool>)
    requires Represents(w, other, zids, zcount, merged)
    requires |zchange| == |zids| && forall i :: 0 <= i < |zids| && merged[i] ==> zchange[i]
    ensures |Expand(zcount, zchange)| == |w|
    ensures Kept(w, Expand(zcount, zchange)) == Kept(zids, zchange)
    decreases |zids|
  {
    if zids != [] {
      var n := |zids| - 1;
      var i := |w| - zcount[n];
      KeptExpand(w[..i], other, zids[..n], zcount[..n], merged[..n], zchange[..n]);
      KeptRun(w, i, Expand(zcount[..n], zchange[..n]), zcount[n], zchange[n]);
    }
  }

  lemma {:induction false} ExpandedAreForeign(w: seq<int>, other: seq<int>, zids: seq<int>, zcount: seq<nat>,
                                              merged: seq<bool>)
    requires Represents(w, other, zids, zcount, merged)
    ensures |Expand(zcount, merged)| == |w|
    ensures forall i :: 0 <= i < |w| && Expand(zcount, merged)[i] ==> w[i] !in other
    decreases |zids|
  {
    if zids != [] {
      var n := |zids| - 1;
      ExpandedAreForeign(w[..|w| - zcount[n]], other, zids[..n], zcount[..n], merged[..n]);
    }
  }

  /** Merged entries of one side occur nowhere among the entries of the other side. */
  ghost predicate EntriesDiffer(zids1: seq<int>, merged1: seq<bool>, zids2: seq<int>, merged2: seq<bool>)
  {
    && |zids1| == |merged1| && |zids2| == |merged2|
    && (forall i :: 0 <= i < |zids1| && merged1[i] ==> zids1[i] !in zids2)
    && (forall i :: 0 <= i < |zids2| && merged2[i] ==> zids2[i] !in zids1)
  }

  ghost predicate Subset(w: seq<int>, other: seq<int>)
  {
    forall i :: 0 <= i < |w| ==> w[i] in other
  }

  lemma NotInSubset(w: seq<int>, other: seq<int>, x: int)
    requires Subset(w, other) && x !in other
    ensures x !in w
  {
  }

  /** Merging keeps the length of the longest common subsequence. */
  lemma MergingKeepsLength(w1: seq<int>, w2: seq<int>, other1: seq<int>, other2: seq<int>,
                           zids1: seq<int>, zcount1: seq<nat>, merged1: seq<bool>,
                           zids2: seq<int>, zcount2: seq<nat>, merged2: seq<bool>)
    requires Represents(w1, other1, zids1, zcount1, merged1) && Subset(w2, other1)
    requires Represents(w2, other2, zids2, zcount2, merged2) && Subset(w1, other2)
    requires EntriesDiffer(zids1, merged1, zids2, merged2)
    ensures Length(zids1, zids2) == Length(w1, w2)
  {
    var e1, e2 := Expand(zcount1, merged1), Expand(zcount2, merged2);
    ExpandedAreForeign(w1, other1, zids1, zcount1, merged1);
    ExpandedAreForeign(w2, other2, zids2, zcount2, merged2);
    forall i | 0 <= i < |w1| && e1[i]
      ensures w1[i] !in w2
    {
      NotInSubset(w2, other1, w1[i]);
    }
    forall i | 0 <= i < |w2| && e2[i]
      ensures w2[i] !in w1
    {
      NotInSubset(w1, other2, w2[i]);
    }
    DropForeignBoth(w1, e1, w2, e2);
    KeptExpand(w1, other1, zids1, zcount1, merged1, merged1);
    KeptExpand(w2, other2, zids2, zcount2, merged2, merged2);
    DropForeignBoth(zids1, merged1, zids2, merged2);
  }

  lemma MergedAreMarked(zids1: seq<int>, merged1: seq<bool>, zids2: seq<int>, merged2: seq<bool>,
                        zchange1: seq<bool>, zchange2: seq<bool>)
    requires EntriesDiffer(zids1, merged1, zids2, merged2) && Common(zids1, zids2, zchange1, zchange2)
    ensures forall i :: 0 <= i < |zids1| && merged1[i] ==> zchange1[i]
    ensures forall i :: 0 <= i < |zids2| && merged2[i] ==> zchange2[i]
  {
    OnlySharedKept(zids1, zids2, zchange1, zchange2);
    OnlySharedKept(zids2, zids1, zchange2, zchange1);
  }

  /** What a common subsequence keeps occurs on both sides; so what the other side lacks is marked. */
  lemma OnlySharedKept(a: seq<int>, b: seq<int>, change1: seq<bool>, change2: seq<bool>)
    requires Common(a, b, change1, change2)
    ensures forall i :: 0 <= i < |a| && a[i] !in b ==> change1[i]
  {
    forall i | 0 <= i < |a| && a[i] !in b
      ensures change1[i]
    {
      if !change1[i] {
        KeptMember(a, change1, i);
        KeptSource(b, change2, a[i]);
      }
    }
  }

  /** A longest common subsequence of the entries expands to one of the represented elements. */
  lemma ExpandSolution(w1: seq<int>, w2: seq<int>, other1: seq<int>, other2: seq<int>,
                       zids1: seq<int>, zcount1: seq<nat>, merged1: seq<bool>,
                       zids2: seq<int>, zcount2: seq<nat>, merged2: seq<bool>,
                       zchange1: seq<bool>, zchange2: seq<bool>)
    requires Represents(w1, other1, zids1, zcount1, merged1) && Subset(w2, other1)
    requires Represents(w2, other2, zids2, zcount2, merged2) && Subset(w1, other2)
    requires EntriesDiffer(zids1, merged1, zids2, merged2)
    requires Solved(zids1, zids2, zchange1, zchange2)
    ensures Solved(w1, w2, Expand(zcount1, zchange1), Expand(zcount2, zchange2))
  {
    MergingKeepsLength(w1, w2, other1, other2, zids1, zcount1, merged1, zids2, zcount2, merged2);
    MergedAreMarked(zids1, merged1, zids2, merged2, zchange1, zchange2);
    KeptExpand(w1, other1, zids1, zcount1, merged1, zchange1);
    KeptExpand(w2, other2, zids2, zcount2, merged2, zchange2);
  }

  // ----- Trimming -----

  /** Left of i1, i2 and right of j1, j2 the marks already belong to a longest common subsequence. */
  ghost predicate Trimmed(a: seq<int>, b: seq<int>, c1: seq<bool>, c2: seq<bool>, i1: int, j1: int, i2: int, j2: int)
  {
    && 0 <= i1 <= j1 <= |a| == |c1| && 0 <= i2 <= j2 <= |b| == |c2|
    && All(c1, i1, j1, false) && All(c2, i2, j2, false)
    && Kept(a[..i1], c1[..i1]) == Kept(b[..i2], c2[..i2])
    && Kept(a[j1..], c1[j1..]) == Kept(b[j2..], c2[j2..])
    && |Kept(a[..i1], c1[..i1])| + Length(a[i1..j1], b[i2..j2]) + |Kept(a[j1..], c1[j1..])| == Length(a, b)
  }

  lemma TrimmedSwap(a: seq<int>, b: seq<int>, c1: seq<bool>, c2: seq<bool>, i1: int, j1: int, i2: int, j2: int)
    requires Trimmed(a, b, c1, c2, i1, j1, i2, j2)
    ensures Trimmed(b, a, c2, c1, i2, j2, i1, j1)
  {
    LengthSymmetric(a, b);
    LengthSymmetric(a[i1..j1], b[i2..j2]);
  }

  lemma TrimForeignFirst(a: seq<int>, b: seq<int>, c1: seq<bool>, c2: seq<bool>, i1: int, j1: int, i2: int, j2: int)
    requires Trimmed(a, b, c1, c2, i1, j1, i2, j2) && i1 < j1 && a[i1] !in b
    ensures Trimmed(a, b, c1[i1 := true], c2, i1 + 1, j1, i2, j2)
  {
    var c := c1[i1 := true];
    KeptNext(a, c, i1);
    assert c[..i1] == c1[..i1] && c[j1..] == c1[j1..];
    FirstForeign(a[i1..j1], b[i2..j2]);
    assert a[i1..j1][1..] == a[i1 + 1..j1];
  }

  lemma TrimMatchFirst(a: seq<int>, b: seq<int>, c1: seq<bool>, c2: seq<bool>, i1: int, j1: int, i2: int, j2: int)
    requires Trimmed(a, b, c1, c2, i1, j1, i2, j2) && i1 < j1 && i2 < j2 && a[i1] == b[i2]
    ensures Trimmed(a, b, c1, c2, i1 + 1, j1, i2 + 1, j2)
  {
    KeptNext(a, c1, i1);
    KeptNext(b, c2, i2);
    FirstMatch(a[i1..j1], b[i2..j2]);
    assert a[i1..j1][1..] == a[i1 + 1..j1] && b[i2..j2][1..] == b[i2 + 1..j2];
  }

  lemma TrimForeignLast(a: seq<int>, b: seq<int>, c1: seq<bool>, c2: seq<bool>, i1: int, j1: int, i2: int, j2: int,
                        e1: int)
    requires Trimmed(a, b, c1, c2, i1, e1, i2, j2) && e1 == j1 + 1 && i1 <= j1 && a[j1] !in b
    ensures Trimmed(a, b, c1[j1 := true], c2, i1, j1, i2, j2)
  {
    var c := c1[j1 := true];
    KeptPrevious(a, c, j1);
    assert c[..i1] == c1[..i1] && c[j1 + 1..] == c1[j1 + 1..];
    LastForeign(a[i1..j1], a[j1], b[i2..j2]);
    assert a[i1..j1] + [a[j1]] == a[i1..j1 + 1];
  }

  lemma LastMatch(a: seq<int>, b: seq<int>, i1: int, j1: int, i2: int, j2: int)
    requires 0 <= i1 <= j1 < |a| && 0 <= i2 <= j2 < |b| && a[j1] == b[j2]
    ensures Length(a[i1..j1 + 1], b[i2..j2 + 1]) == Length(a[i1..j1], b[i2..j2]) + 1
  {
    LengthStep(a[i1..j1], b[i2..j2], a[j1], b[j2]);
    assert a[i1..j1] + [a[j1]] == a[i1..j1 + 1] && b[i2..j2] + [b[j2]] == b[i2..j2 + 1];
  }

  lemma TrimMatchLast(a: seq<int>, b: seq<int>, c1: seq<bool>, c2: seq<bool>, i1: int, j1: int, i2: int, j2: int,
                      e1: int, e2: int)
    requires Trimmed(a, b, c1, c2, i1, e1, i2, e2) && e1 == j1 + 1 && e2 == j2 + 1
    requires i1 <= j1 && i2 <= j2 && a[j1] == b[j2]
    ensures Trimmed(a, b, c1, c2, i1, j1, i2, j2)
  {
    LastMatch(a, b, i1, j1, i2, j2);
    KeptPrevious(a, c1, j1);
    KeptPrevious(b, c2, j2);
  }

  /** The same steps on the second sequence. */
  lemma TrimForeignFirst2(a: seq<int>, b: seq<int>, c1: seq<bool>, c2: seq<bool>, i1: int, j1: int, i2: int, j2: int)
    requires Trimmed(a, b, c1, c2, i1, j1, i2, j2) && i2 < j2 && b[i2] !in a
    ensures Trimmed(a, b, c1, c2[i2 := true], i1, j1, i2 + 1, j2)
  {
    TrimmedSwap(a, b, c1, c2, i1, j1, i2, j2);
    TrimForeignFirst(b, a, c2, c1, i2, j2, i1, j1);
    TrimmedSwap(b, a, c2[i2 := true], c1, i2 + 1, j2, i1, j1);
  }

  lemma TrimForeignLast2(a: seq<int>, b: seq<int>, c1: seq<bool>, c2: seq<bool>, i1: int, j1: int, i2: int, j2: int,
                         e2: int)
    requires Trimmed(a, b, c1, c2, i1, j1, i2, e2) && e2 == j2 + 1 && i2 <= j2 && b[j2] !in a
    ensures Trimmed(a, b, c1, c2[j2 := true], i1, j1, i2, j2)
  {
    TrimmedSwap(a, b, c1, c2, i1, j1, i2, e2);
    TrimForeignLast(b, a, c2, c1, i2, j2, i1, j1, e2);
    TrimmedSwap(b, a, c2[j2 := true], c1, i2, j2, i1, j1);
  }

  lemma TrimNothing(a: seq<int>, b: seq<int>, c1: seq<bool>, c2: seq<bool>)
    requires |a| == |c1| && |b| == |c2| && All(c1, 0, |a|, false) && All(c2, 0, |b|, false)
    ensures Trimmed(a, b, c1, c2, 0, |a|, 0, |b|)
  {
    assert a[0..|a|] == a && b[0..|b|] == b;
  }

  /** A solution of the window completes the trimmed marks. */
  lemma TrimmedSolved(a: seq<int>, b: seq<int>, c1: seq<bool>, c2: seq<bool>, i1: int, j1: int, i2: int, j2: int,
                      d1: seq<bool>, d2: seq<bool>)
    requires Trimmed(a, b, c1, c2, i1, j1, i2, j2)
    requires Within(c1, d1, i1, j1) && Within(c2, d2, i2, j2)
    requires Solved(a[i1..j1], b[i2..j2], d1[i1..j1], d2[i2..j2])
    ensures Solved(a, b, d1, d2)
  {
    KeptInThree(a, d1, i1, j1);
    KeptInThree(b, d2, i2, j2);
    SameOutside(c1, d1, i1, j1);
    SameOutside(c2, d2, i2, j2);
  }
}
