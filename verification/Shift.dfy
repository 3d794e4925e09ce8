/** Sliding blocks of change marks so that a diff reads better, without changing what it keeps. */
module Shift {
  import opened Wrappers
  import opened Marks

  /** The marks from s to e are set and the block ends at e. It may start further left than s. */
  ghost predicate Chunk(c: seq<bool>, s: int, e: int)
  {
    s < e && All(c, s, e, true) && (e == |c| || !c[e])
  }

  /** A whole block, other than one at the very start. */
  ghost predicate Run(c: seq<bool>, s: int, e: int)
  {
    0 < s && Chunk(c, s, e) && !c[s - 1]
  }

  /** The block s to e can slide up by u over unmarked elements, exchanging equal elements. */
  ghost predicate SlidesUp(data: seq<int>, c: seq<bool>, s: int, e: int, u: int)
  {
    0 <= u <= s < e <= |c| == |data| && forall p :: s - u <= p < s ==> !c[p] && data[p] == data[p + (e - s)]
  }

  ghost predicate SlidesDown(data: seq<int>, c: seq<bool>, s: int, e: int, u: int)
  {
    && 0 <= s < e <= e + u <= |c| == |data| && 0 <= u
    && forall p :: e <= p < e + u ==> !c[p] && data[p] == data[p - (e - s)]
  }

  /** Sliding up by u takes the block to the start or up against another block. */
  ghost predicate MergesUp(data: seq<int>, c: seq<bool>, s: int, e: int, u: int)
  {
    0 < u && SlidesUp(data, c, s, e, u) && (s == u || c[s - u - 1])
  }

  ghost predicate MergesDown(data: seq<int>, c: seq<bool>, s: int, e: int, u: int)
  {
    0 < u && SlidesDown(data, c, s, e, u) && (e + u == |c| || c[e + u])
  }

  /** No block that starts below `limit` can slide into its neighbour or to an end of the sequence. */
  ghost predicate Settled(data: seq<int>, c: seq<bool>, limit: int)
  {
    forall s, e :: Run(c, s, e) && s < limit ==>
      forall u :: !MergesUp(data, c, s, e, u) && !MergesDown(data, c, s, e, u)
  }

  /** Of the positions lo to hi, exactly s to e are marked. */
  ghost predicate Block(c: seq<bool>, lo: int, hi: int, s: int, e: int)
  {
    && 0 <= lo <= s <= e <= hi <= |c|
    && All(c, lo, s, false) && All(c, s, e, true) && All(c, e, hi, false)
  }

  /** The block s to e, moved by i, is the only difference. */
  ghost predicate Moved(before: seq<bool>, after: seq<bool>, s: int, e: int, i: int)
  {
    if i < 0 then Block(after, s + i, e, s + i, e + i) && Within(before, after, s + i, e)
    else Block(after, s, e + i, s + i, e + i) && Within(before, after, s, e + i)
  }

  /** Moves the block start to end by the given offset, one position at a time. */
  method DoShiftBoundary(start: int, end: int, offset: int, change: array<bool>)
    requires start < end
    requires offset < 0 ==> Block(change[..], start + offset, end, start, end)
    requires offset >= 0 ==> Block(change[..], start, end + offset, start, end)
    modifies change
    ensures Moved(old(change[..]), change[..], start, end, offset)
  {
    var s, e, o := start, end, offset;
    if offset < 0 {
      while o != 0
        invariant offset <= o <= 0 && s == start + offset - o && e == end + offset - o
        invariant Block(change[..], start + offset, end, s, e)
        invariant Within(old(change[..]), change[..], start + offset, end)
        decreases -o
      {
        s, e, o := s - 1, e - 1, o + 1;
        change[s], change[e] := true, false;
      }
    } else {
      while o != 0
        invariant 0 <= o <= offset && s == start + offset - o && e == end + offset - o
        invariant Block(change[..], start, end + offset, s, e)
        invariant Within(old(change[..]), change[..], start, end + offset)
      {
        change[s], change[e] := false, true;
        s, e, o := s + 1, e + 1, o - 1;
      }
    }
  }

  /** The block s to e can slide up by `up`, down by `down`, and no further. */
  ghost predicate Reach(data: seq<int>, c: seq<bool>, s: int, e: int, up: int, down: int)
  {
    && Chunk(c, s, e) && SlidesUp(data, c, s, e, up) && SlidesDown(data, c, s, e, down)
    && (forall u :: SlidesUp(data, c, s, e, u) ==> u <= up)
    && (forall u :: SlidesDown(data, c, s, e, u) ==> u <= down)
  }

  /** Where the block at `start` ends and how far it can slide each way. */
  method FindShiftBoundary(start: nat, data: seq<int>, change: array<bool>)
    returns (end: int, up: int, down: int, upMerge: bool, downMerge: bool)
    requires start < change.Length == |data| && change[start]
    ensures Reach(data, change[..], start, end, up, down)
    ensures upMerge <==> start == up || change[start - up - 1]
    ensures downMerge <==> end + down == |data| || change[end + down]
    ensures forall u :: MergesUp(data, change[..], start, end, u) ==> upMerge && u == up
    ensures forall u :: MergesDown(data, change[..], start, end, u) ==> downMerge && u == down
  {
    var dlen := |data|;
    end, up, down := start + 1, 0, 0;
    while end < dlen && change[end]
      invariant start < end <= dlen && All(change[..], start, end, true)
    {
      end := end + 1;
    }
    while start - up - 1 >= 0 && !change[start - up - 1] && data[start - up - 1] == data[end - up - 1]
      invariant SlidesUp(data, change[..], start, end, up)
    {
      up := up + 1;
    }
    while end + down < dlen && !change[end + down] && data[end + down] == data[start + down]
      invariant SlidesDown(data, change[..], start, end, down)
    {
      down := down + 1;
    }
    upMerge := start - up == 0 || change[start - up - 1];
    downMerge := end + down == dlen || change[end + down];
  }

  // ----- Sliding keeps the unmarked sequence -----

  lemma BlockKept(data: seq<int>, c: seq<bool>, lo: int, hi: int, s: int, e: int)
    requires |data| == |c| && Block(c, lo, hi, s, e)
    ensures Kept(data[lo..hi], c[lo..hi]) == data[lo..s] + data[e..hi]
    ensures Marked(c[lo..hi]) == e - s
  {
    KeptAt(data, c, lo, s, hi);
    KeptAt(data, c, s, e, hi);
    AllKept(data, c, lo, s, false);
    AllKept(data, c, s, e, true);
    AllKept(data, c, e, hi, false);
    NothingBefore(data[e..hi]);
  }

  lemma AllKept(data: seq<int>, c: seq<bool>, lo: int, hi: int, mark: bool)
    requires |data| == |c| && All(c, lo, hi, mark)
    ensures Kept(data[lo..hi], c[lo..hi]) == if mark then [] else data[lo..hi]
    ensures Marked(c[lo..hi]) == if mark then hi - lo else 0
  {
    KeptAll(data[lo..hi], c[lo..hi], mark);
  }

  lemma EqualParts(data: seq<int>, s: int, e: int, u: int)
    requires 0 <= s <= e && 0 <= u && e + u <= |data| && forall p :: e <= p < e + u ==> data[p] == data[p - (e - s)]
    ensures data[e..e + u] == data[s..s + u]
  {
  }

  lemma FirstKept(data: seq<int>, c: seq<bool>, lo: int, hi: int, e: int)
    requires |data| == |c| && Block(c, lo, hi, lo, e)
    ensures Kept(data[lo..hi], c[lo..hi]) == data[e..hi] && Marked(c[lo..hi]) == e - lo
  {
    BlockKept(data, c, lo, hi, lo, e);
    NothingBefore(data[e..hi]);
  }

  lemma LastKept(data: seq<int>, c: seq<bool>, lo: int, hi: int, s: int)
    requires |data| == |c| && Block(c, lo, hi, s, hi)
    ensures Kept(data[lo..hi], c[lo..hi]) == data[lo..s] && Marked(c[lo..hi]) == hi - s
  {
    BlockKept(data, c, lo, hi, s, hi);
    NothingMore(data[lo..s]);
  }

  /** A block at the front of a window and one at its back leave the same if the values beside them are the same. */
  lemma SameKept(data: seq<int>, c: seq<bool>, d: seq<bool>, lo: int, hi: int, s: int, e: int)
    requires |data| == |c| && Block(c, lo, hi, lo, e) && Block(d, lo, hi, s, hi) && Within(c, d, lo, hi)
    requires data[e..hi] == data[lo..s]
    ensures Kept(data, c) == Kept(data, d) && Marked(c) == Marked(d)
  {
    FirstKept(data, c, lo, hi, e);
    LastKept(data, d, lo, hi, s);
    assert |data[e..hi]| == hi - e && |data[lo..s]| == s - lo;
    KeptInThree(data, c, lo, hi);
    KeptInThree(data, d, lo, hi);
    SameOutside(c, d, lo, hi);
  }

  /** Moving a block within its slide leaves the unmarked sequence and the number of marks as they were. */
  lemma SlideUpKept(data: seq<int>, c: seq<bool>, c': seq<bool>, s: int, e: int, u: int)
    requires SlidesUp(data, c, s, e, u)
    requires Block(c, s - u, e, s, e) && Block(c', s - u, e, s - u, e - u) && Within(c, c', s - u, e)
    ensures Kept(data, c) == Kept(data, c') && Marked(c) == Marked(c')
  {
    EqualParts(data, s - u, e - u, u);
    SameKept(data, c', c, s - u, e, s, e - u);
  }

  lemma SlideDownKept(data: seq<int>, c: seq<bool>, c': seq<bool>, s: int, e: int, u: int)
    requires SlidesDown(data, c, s, e, u)
    requires Block(c, s, e + u, s, e) && Block(c', s, e + u, s + u, e + u) && Within(c, c', s, e + u)
    ensures Kept(data, c) == Kept(data, c') && Marked(c) == Marked(c')
  {
    EqualParts(data, s, e, u);
    SameKept(data, c, c', s, e + u, s + u, e);
  }

  // ----- Termination: blocks are counted either side of the cursor, so that the one that straddles it
  // counts twice -----

  ghost function Runs(c: seq<bool>): nat
  {
    if c == [] then 0
    else
      var n := |c| - 1;
      Runs(c[..n]) + if c[n] && (n == 0 || !c[n - 1]) then 1 else 0
  }

  ghost function Weight(c: seq<bool>, cursor: int): nat
    requires 0 <= cursor <= |c|
  {
    Runs(c[..cursor]) + Runs(c[cursor..])
  }

  lemma {:induction false} RunsConcat(a: seq<bool>, b: seq<bool>)
    ensures Runs(a + b) == Runs(a) + Runs(b) - if a != [] && b != [] && a[|a| - 1] && b[0] then 1 else 0
  {
    if b == [] {
      assert a + b == a;
    } else {
      var n := |b| - 1;
      RunsConcat(a, b[..n]);
      assert (a + b)[..|a + b| - 1] == a + b[..n];
    }
  }

  lemma {:induction false} RunsAll(c: seq<bool>, value: bool)
    requires All(c, 0, |c|, value)
    ensures Runs(c) == if value && c != [] then 1 else 0
  {
    if c != [] {
      RunsAll(c[..|c| - 1], value);
    }
  }

  lemma RunsAt(c: seq<bool>, lo: int, i: int, hi: int)
    requires 0 <= lo <= i <= hi <= |c|
    ensures Runs(c[lo..hi]) == Runs(c[lo..i]) + Runs(c[i..hi]) - if lo < i < hi && c[i - 1] && c[i] then 1 else 0
  {
    RunsConcat(c[lo..i], c[i..hi]);
    assert c[lo..hi] == c[lo..i] + c[i..hi];
  }

  /** Where the cursor cuts no block in two, the weight is the number of blocks. */
  lemma WeightAt(c: seq<bool>, i: int)
    requires 0 <= i <= |c|
    ensures Weight(c, i) == Runs(c) + if 0 < i < |c| && c[i - 1] && c[i] then 1 else 0
  {
    RunsAt(c, 0, i, |c|);
    assert c[0..i] == c[..i] && c[i..|c|] == c[i..] && c[0..|c|] == c;
  }

  lemma RunsInBlock(c: seq<bool>, lo: int, hi: int, s: int, e: int)
    requires Block(c, lo, hi, s, e) && s < e
    ensures Runs(c[lo..hi]) == 1
  {
    RunsAt(c, lo, s, hi);
    RunsAt(c, s, e, hi);
    RunsAll(c[lo..s], false);
    RunsAll(c[s..e], true);
    RunsAll(c[e..hi], false);
  }

  /** Around a block the count splits into what is left of it, the block, and what is right of it. */
  lemma RunsAround(c: seq<bool>, lo: int, hi: int, s: int, e: int)
    requires Block(c, lo, hi, s, e) && s < e
    ensures Runs(c) == Runs(c[..lo]) + 1 + Runs(c[hi..])
                       - (if 0 < lo == s && c[lo - 1] then 1 else 0) - if e == hi < |c| && c[hi] then 1 else 0
  {
    RunsAt(c, 0, lo, |c|);
    RunsAt(c, lo, hi, |c|);
    RunsInBlock(c, lo, hi, s, e);
    assert c[0..lo] == c[..lo] && c[hi..|c|] == c[hi..] && c[0..|c|] == c;
    assert c[lo] == (lo == s) && c[hi - 1] == (e == hi);
  }

  lemma UpRuns(c: seq<bool>, c': seq<bool>, s: int, e: int, u: int)
    requires 0 < u <= s < e && Chunk(c, s, e)
    requires Block(c, s - u, e, s, e) && Block(c', s - u, e, s - u, e - u) && Within(c, c', s - u, e)
    ensures Weight(c, s) == Runs(c)
    ensures Runs(c') == Runs(c) - if s - u > 0 && c[s - u - 1] then 1 else 0
    ensures Weight(c', e) == Runs(c')
    ensures Weight(c', s) <= Runs(c') + 1
  {
    RunsAround(c, s - u, e, s, e);
    RunsAround(c', s - u, e, s - u, e - u);
    SameOutside(c, c', s - u, e);
    WeightAt(c, s);
    WeightAt(c', e);
    WeightAt(c', s);
  }

  /** Sliding up takes marks away from the cursor's side. */
  lemma UpMarked(c: seq<bool>, c': seq<bool>, s: int, e: int, u: int)
    requires 0 < u <= s < e <= |c| && All(c, s, e, true)
    requires Block(c', s - u, e, s - u, e - u) && Within(c, c', s - u, e)
    ensures Marked(c'[s..]) < Marked(c[s..])
  {
    assert c[s..] == c[s..e] + c[e..];
    assert c'[s..] == c'[s..e] + c[e..];
    MarkedConcat(c[s..e], c[e..]);
    MarkedConcat(c'[s..e], c[e..]);
    KeptAll(c[s..e], c[s..e], true);
    NotAllMarked(c'[s..e]);
  }

  lemma NotAllMarked(m: seq<bool>)
    requires m != [] && !m[|m| - 1]
    ensures Marked(m) < |m|
  {
    KeptLength(m[..|m| - 1], m[..|m| - 1]);
  }

  lemma DownRuns(c: seq<bool>, c': seq<bool>, s: int, e: int, u: int)
    requires 0 < u && 0 <= s < e && Chunk(c, s, e)
    requires Block(c, s, e + u, s, e) && Block(c', s, e + u, s + u, e + u) && Within(c, c', s, e + u)
    ensures Runs(c') + (if e + u < |c| && c[e + u] then 1 else 0) == Weight(c, s)
  {
    RunsAround(c, s, e + u, s, e);
    RunsAround(c', s, e + u, s + u, e + u);
    SameOutside(c, c', s, e + u);
    WeightAt(c, s);
  }

  lemma DownWeights(c: seq<bool>, c': seq<bool>, s: int, e: int, u: int)
    requires 0 < u && 0 <= s < e && Chunk(c, s, e)
    requires Block(c, s, e + u, s, e) && Block(c', s, e + u, s + u, e + u) && Within(c, c', s, e + u)
    ensures Weight(c', s + u) + (if e + u < |c| && c[e + u] then 1 else 0) == Weight(c, s)
    ensures Weight(c', e + u) == Weight(c, s)
  {
    DownRuns(c, c', s, e, u);
    assert !c'[s + u - 1] && c'[e + u - 1];
    WeightAt(c', s + u);
    WeightAt(c', e + u);
  }

  /** Moving the cursor over a block, or over unmarked positions, does not add weight. */
  lemma WeightOn(c: seq<bool>, s: int, i: int)
    requires 0 <= s <= i <= |c| && (i == |c| || !c[i] || i == s || !c[i - 1])
    ensures Weight(c, i) <= Weight(c, s)
  {
    WeightAt(c, s);
    WeightAt(c, i);
  }

  // ----- Settling -----

  /** The block at the cursor neither merges up nor down, so the blocks up to its end are settled. */
  lemma SettledStay(data: seq<int>, c: seq<bool>, s: int, e: int)
    requires |data| == |c| && Settled(data, c, s) && 0 <= s && Chunk(c, s, e)
    requires Run(c, s, e) ==> forall u :: !MergesUp(data, c, s, e, u) && !MergesDown(data, c, s, e, u)
    ensures Settled(data, c, e)
  {
    forall s', e' | Run(c, s', e') && s' < e
      ensures forall u :: !MergesUp(data, c, s', e', u) && !MergesDown(data, c, s', e', u)
    {
      if s' == s {
        SameEnd(c, s, e, e');
      }
    }
  }

  lemma SameEnd(c: seq<bool>, s: int, e: int, e': int)
    requires Chunk(c, s, e) && Chunk(c, s, e')
    ensures e == e'
  {
  }

  /** Below a marked position n that follows an unmarked one, settling depends on the marks up to n only. */
  lemma SettledBelow(data: seq<int>, c: seq<bool>, c': seq<bool>, n: int)
    requires |data| == |c| == |c'| && 0 < n < |c| && c[..n + 1] == c'[..n + 1]
    requires c[n] && !c[n - 1]
    requires Settled(data, c, n)
    ensures Settled(data, c', n)
  {
    assert forall i :: 0 <= i <= n ==> c'[i] == c[..n + 1][i];
    forall s, e | Run(c', s, e) && s < n
      ensures forall u :: !MergesUp(data, c', s, e, u) && !MergesDown(data, c', s, e, u)
    {
      assert e < n;
      assert Run(c, s, e);
      forall u
        ensures !MergesUp(data, c', s, e, u) && !MergesDown(data, c', s, e, u)
      {
        if MergesUp(data, c', s, e, u) {
          assert MergesUp(data, c, s, e, u);
        }
        if MergesDown(data, c', s, e, u) {
          assert e + u <= n;
          assert MergesDown(data, c, s, e, u);
        }
      }
    }
  }

  /** Moving the block at the cursor down against its neighbour unsettles nothing before it. */
  lemma SettledDown(data: seq<int>, c: seq<bool>, c': seq<bool>, s: int, e: int, d: int)
    requires |data| == |c| && 0 < s < e && 0 < d && Settled(data, c, s) && Chunk(c, s, e)
    requires c[s - 1] ==> All(c, 0, s, true)
    requires Block(c', s, e + d, s + d, e + d) && Within(c, c', s, e + d)
    ensures Settled(data, c', s + d)
  {
    forall s', e' | Run(c', s', e') && s' < s + d
      ensures forall u :: !MergesUp(data, c', s', e', u) && !MergesDown(data, c', s', e', u)
    {
      assert c'[s'] && !c'[s];
      assert s' < s && e' <= s;
      assert c'[s' - 1] == c[s' - 1] && c'[s - 1] == c[s - 1];
      assert e' < s;
      assert Run(c, s', e');
      forall u
        ensures !MergesUp(data, c', s', e', u) && !MergesDown(data, c', s', e', u)
      {
        if MergesUp(data, c', s', e', u) {
          assert MergesUp(data, c, s', e', u);
        }
        if MergesDown(data, c', s', e', u) {
          assert c'[s + d] && e' + u <= s + d;
          assert MergesDown(data, c, s', e', if e' + u < s then u else s - e');
        }
      }
    }
  }

  /** A block that has reached the start leaves no other block that starts before its old end. */
  lemma SettledAtStart(data: seq<int>, c: seq<bool>, n: int, e: int)
    requires |data| == |c| && Block(c, 0, e, 0, n)
    ensures Settled(data, c, e)
  {
    forall s', e' | Run(c, s', e')
      ensures e <= s'
    {
      assert c[s'] && !c[s' - 1];
    }
  }

  // ----- The pass over all blocks -----

  datatype Scoring = NoScore | Score(f: (int, int) -> int)

  /** The score of the block s to e after a move by i: that of its first and last values. */
  ghost function BoundaryScore(score: Scoring, data: seq<int>, s: int, e: int, i: int): int
    requires score.Score? && 0 <= s + i < |data| && 0 < e + i <= |data|
  {
    score.f(data[s + i], data[e + i - 1])
  }

  /** The move scores best within reach, and better than smaller ones and than staying, unless it is none. */
  ghost predicate IsBest(score: Scoring, data: seq<int>, s: int, e: int, up: int, down: int, offset: int)
    requires score.Score? && 0 <= up <= s < e && 0 <= down && e + down <= |data|
  {
    && -up <= offset <= down
    && (forall i :: -up <= i <= down ==>
          BoundaryScore(score, data, s, e, i) <= score.f(data[s + offset], data[e + offset - 1]))
    && (offset != 0 ==> forall i :: -up <= i <= down && (i < offset || i == 0) ==>
          BoundaryScore(score, data, s, e, i) < score.f(data[s + offset], data[e + offset - 1]))
  }

  /** The best move within the slide, the smallest of them on a tie, and none if staying is as good. */
  method BestOffset(data: seq<int>, start: int, end: int, up: int, down: int, score: Scoring) returns (offset: int)
    requires score.Score? && 0 <= up <= start < end && 0 <= down && end + down <= |data|
    ensures IsBest(score, data, start, end, up, down, offset)
  {
    var best := score.f(data[start], data[end - 1]);
    offset := 0;
    for i := -up to down + 1
      invariant -up <= offset <= down && (offset < i || offset == 0)
      invariant best == score.f(data[start + offset], data[end + offset - 1])
      invariant forall j :: -up <= j <= down && (j < i || j == 0) ==>
                  BoundaryScore(score, data, start, end, j) <= best
      invariant offset != 0 ==> forall j :: -up <= j <= down && (j < offset || j == 0) ==>
                  BoundaryScore(score, data, start, end, j) < best
    {
      if i != 0 {
        var s := score.f(data[start + i], data[end + i - 1]);
        if s > best {
          offset, best := i, s;
        }
      }
    }
  }

  /** What every step of the pass keeps. `c0` are the marks before the pass. */
  ghost predicate Progress(data: seq<int>, c0: seq<bool>, c: seq<bool>, start: int, scored: bool)
  {
    && 0 <= start <= |c| == |c0| == |data|
    && Kept(data, c) == Kept(data, c0) && Marked(c) == Marked(c0)
    && (0 < start < |c| && c[start - 1] && c[start] ==> All(c, 0, start, true))
    && (!scored ==> Settled(data, c, start))
    && (!scored && Settled(data, c0, |data|) ==> c == c0 && (0 < start < |c| ==> !c[start - 1] || !c[start]))
  }

  /** The lexicographic measure of the pass: a mark at the very start, the weight, what lies ahead of the
      cursor, and the marks there. */
  ghost predicate Smaller(c': seq<bool>, start': int, c: seq<bool>, start: int)
    requires 0 <= start <= |c| == |c'| && 0 <= start' <= |c'| && c != []
  {
    || (c'[0] && !c[0])
    || (c'[0] == c[0] && Weight(c', start') < Weight(c, start))
    || (c'[0] == c[0] && Weight(c', start') == Weight(c, start) && start' > start)
    || (c'[0] == c[0] && Weight(c', start') == Weight(c, start) && start' == start
        && Marked(c'[start'..]) < Marked(c[start..]))
  }

  lemma SkipStep(data: seq<int>, c0: seq<bool>, c: seq<bool>, start0: int, start: int, scored: bool)
    requires Progress(data, c0, c, start0, scored) && start0 <= start <= |c| && All(c, start0, start, false)
    ensures Progress(data, c0, c, start, scored)
    ensures start > start0 ==> Weight(c, start) <= Weight(c, start0)
  {
    if start > start0 {
      WeightOn(c, start0, start);
    }
    if !scored {
      forall s, e | Run(c, s, e) && s < start
        ensures s < start0
      {
        assert c[s];
      }
    }
  }

  lemma StayStep(data: seq<int>, c0: seq<bool>, c: seq<bool>, s: int, e: int, scored: bool)
    requires Progress(data, c0, c, s, scored) && Chunk(c, s, e)
    requires !scored && Run(c, s, e) ==> forall u :: !MergesUp(data, c, s, e, u) && !MergesDown(data, c, s, e, u)
    ensures Progress(data, c0, c, e, scored)
    ensures Smaller(c, e, c, s)
  {
    WeightOn(c, s, e);
    if !scored {
      SettledStay(data, c, s, e);
    }
  }

  /** A merge is never possible in marks that were settled before the pass. */
  lemma NotSettledBefore(data: seq<int>, c0: seq<bool>, c: seq<bool>, s: int, e: int, u: int)
    requires Progress(data, c0, c, s, false) && 0 < s && Chunk(c, s, e)
    requires MergesUp(data, c, s, e, u) || MergesDown(data, c, s, e, u)
    ensures !Settled(data, c0, |data|)
  {
    if Settled(data, c0, |data|) {
      assert Run(c0, s, e);
    }
  }

  lemma UpStep(data: seq<int>, c0: seq<bool>, c: seq<bool>, c': seq<bool>, s: int, e: int, u: int, n: int, scored: bool)
    requires Progress(data, c0, c, s, scored) && Chunk(c, s, e) && MergesUp(data, c, s, e, u)
    requires Block(c', s - u, e, s - u, e - u) && Within(c, c', s - u, e)
    requires 0 <= n <= s - u && All(c', n, s - u, true) && (n > 0 ==> !c'[n - 1])
    ensures Progress(data, c0, c', if n > 0 then n else s, scored)
    ensures Smaller(c', if n > 0 then n else s, c, s)
  {
    assert Block(c, s - u, e, s, e);
    SlideUpKept(data, c, c', s, e, u);
    UpRuns(c, c', s, e, u);
    UpMarked(c, c', s, e, u);
    WeightAt(c', n);
    if n > 0 {
      assert n < s - u;
      assert c[n] && !c[n - 1];
      if !scored {
        SettledShorter(data, c, n, s);
        SettledBelow(data, c, c', n);
        NotSettledBefore(data, c0, c, s, e, u);
      }
    } else {
      if !scored {
        SettledAtStart(data, c', e - u, e);
        SettledShorter(data, c', s, e);
        NotSettledBefore(data, c0, c, s, e, u);
      }
    }
  }

  lemma SettledShorter(data: seq<int>, c: seq<bool>, n: int, m: int)
    requires Settled(data, c, m) && n <= m
    ensures Settled(data, c, n)
  {
  }

  lemma DownStep(data: seq<int>, c0: seq<bool>, c: seq<bool>, c': seq<bool>, s: int, e: int, d: int, scored: bool)
    requires Progress(data, c0, c, s, scored) && Chunk(c, s, e) && 0 < s && MergesDown(data, c, s, e, d)
    requires Block(c', s, e + d, s + d, e + d) && Within(c, c', s, e + d)
    ensures Progress(data, c0, c', s + d, scored)
    ensures Smaller(c', s + d, c, s)
  {
    assert Block(c, s, e + d, s, e);
    SlideDownKept(data, c, c', s, e, d);
    DownWeights(c, c', s, e, d);
    if !scored {
      SettledDown(data, c, c', s, e, d);
      NotSettledBefore(data, c0, c, s, e, d);
    }
  }

  /** A move within the slide, chosen by score. */
  lemma MoveUpStep(data: seq<int>, c0: seq<bool>, c: seq<bool>, c': seq<bool>, s: int, e: int, up: int, u: int)
    requires Progress(data, c0, c, s, true) && Chunk(c, s, e) && SlidesUp(data, c, s, e, up) && 0 < u <= up
    requires s != up && !c[s - up - 1]
    requires Block(c', s - u, e, s - u, e - u) && Within(c, c', s - u, e)
    ensures Progress(data, c0, c', e, true)
    ensures Smaller(c', e, c, s)
  {
    assert SlidesUp(data, c, s, e, u) && Block(c, s - u, e, s, e);
    assert !c[s - u - 1];
    SlideUpKept(data, c, c', s, e, u);
    UpRuns(c, c', s, e, u);
  }

  lemma MoveDownStep(data: seq<int>, c0: seq<bool>, c: seq<bool>, c': seq<bool>, s: int, e: int, down: int, u: int)
    requires Progress(data, c0, c, s, true) && Chunk(c, s, e) && SlidesDown(data, c, s, e, down) && 0 < u <= down
    requires 0 < s && e + down != |data| && !c[e + down]
    requires Block(c', s, e + u, s + u, e + u) && Within(c, c', s, e + u)
    ensures Progress(data, c0, c', e + u, true)
    ensures Smaller(c', e + u, c, s)
  {
    assert SlidesDown(data, c, s, e, u) && Block(c, s, e + u, s, e);
    assert !c[e + u];
    SlideDownKept(data, c, c', s, e, u);
    DownWeights(c, c', s, e, u);
  }

  /** Where a block goes: up into another block or to the start, else down into one or to the end, else to
      the best score if there is one. The block at the very start stays. */
  ghost predicate Chosen(data: seq<int>, c: seq<bool>, s: int, e: int, up: int, down: int, score: Scoring, offset: int)
    requires SlidesUp(data, c, s, e, up) && SlidesDown(data, c, s, e, down)
  {
    if s == 0 then offset == 0
    else if MergesUp(data, c, s, e, up) then offset == -up
    else if MergesDown(data, c, s, e, down) then offset == down
    else if score.Score? then IsBest(score, data, s, e, up, down, offset)
    else offset == 0
  }

  /** Where the pass goes on: where the merged block begins, or where the block was if that is the very start;
      with a merge downwards, where the block is now; and otherwise behind the block. */
  ghost predicate GoesOn(data: seq<int>, c: seq<bool>, c': seq<bool>, s: int, e: int, up: int, down: int, offset: int,
                         next: int)
    requires SlidesUp(data, c, s, e, up) && SlidesDown(data, c, s, e, down) && |c'| == |c|
  {
    if 0 < s && MergesUp(data, c, s, e, up) then RestartsAt(c', s, s - up, next)
    else if 0 < s && MergesDown(data, c, s, e, down) then next == s + down
    else next == e + Max(offset, 0)
  }

  ghost predicate RestartsAt(c: seq<bool>, s: int, s': int, next: int)
    requires 0 <= s' <= |c|
  {
    if All(c, 0, s', true) then next == s else 0 < next <= s' && All(c, next, s', true) && !c[next - 1]
  }

  /** The block s to e and the cursor go where they should. */
  ghost predicate OneRound(data: seq<int>, score: Scoring, c: seq<bool>, s: int, e: int, up: int, down: int,
                           offset: int, c': seq<bool>, next: int)
  {
    && Reach(data, c, s, e, up, down) && Chosen(data, c, s, e, up, down, score, offset)
    && Moved(c, c', s, e, offset) && GoesOn(data, c, c', s, e, up, down, offset, next)
  }

  /** A round of the pass: the marks and the cursor before it and after it, and the block and its move. */
  datatype Round = Round(before: seq<bool>, from: int, start: int, end: int, up: int, down: int, offset: int,
                         after: seq<bool>, next: int)

  /** The block is the first one from the cursor on. */
  ghost predicate IsRound(data: seq<int>, score: Scoring, r: Round)
  {
    && 0 <= r.from <= r.start && All(r.before, r.from, r.start, false)
    && OneRound(data, score, r.before, r.start, r.end, r.up, r.down, r.offset, r.after, r.next)
  }

  /** The rounds lead from the marks c0, with the cursor at the start, to the marks c and this cursor. */
  ghost predicate Leads(data: seq<int>, score: Scoring, c0: seq<bool>, rounds: seq<Round>, c: seq<bool>, cursor: int)
  {
    if rounds == [] then c == c0 && cursor == 0
    else
      var n := |rounds| - 1;
      var r := rounds[n];
      && IsRound(data, score, r) && r.after == c && r.next == cursor
      && Leads(data, score, c0, rounds[..n], r.before, r.from)
  }

  /** Rounds lead from c0 to c, and nothing is marked from the cursor on. */
  ghost predicate Shifted(data: seq<int>, score: Scoring, c0: seq<bool>, c: seq<bool>)
  {
    exists rounds, cursor :: Leads(data, score, c0, rounds, c, cursor) && All(c, cursor, |c|, false)
  }

  lemma LeadsNext(data: seq<int>, score: Scoring, c0: seq<bool>, rounds: seq<Round>, r: Round)
    requires Leads(data, score, c0, rounds, r.before, r.from) && IsRound(data, score, r)
    ensures Leads(data, score, c0, rounds + [r], r.after, r.next)
  {
    assert (rounds + [r])[..|rounds|] == rounds;
  }

  /** Shifts the block up against the one before it, or to the start, and finds where the merged block begins. */
  method ShiftUp(data: seq<int>, change: array<bool>, start: int, end: int, up: int, ghost c0: seq<bool>,
                 ghost scored: bool)
    returns (next: int)
    requires Progress(data, c0, change[..], start, scored)
    requires Chunk(change[..], start, end) && MergesUp(data, change[..], start, end, up)
    modifies change
    ensures Moved(old(change[..]), change[..], start, end, -up) && RestartsAt(change[..], start, start - up, next)
    ensures Progress(data, c0, change[..], next, scored)
    ensures Smaller(change[..], next, old(change[..]), start)
  {
    ghost var before := change[..];
    assert Block(before, start - up, end, start, end);
    DoShiftBoundary(start, end, -up, change);
    var nstart := start - up;
    while nstart - 1 >= 0 && change[nstart - 1]
      invariant 0 <= nstart <= start - up && All(change[..], nstart, start - up, true)
    {
      nstart := nstart - 1;
    }
    UpStep(data, c0, before, change[..], start, end, up, nstart, scored);
    next := if nstart > 0 then nstart else start;
  }

  /** Shifts the block down against the next one, or to the end. */
  method ShiftDown(data: seq<int>, change: array<bool>, start: int, end: int, down: int, ghost c0: seq<bool>,
                   ghost scored: bool)
    returns (next: int)
    requires Progress(data, c0, change[..], start, scored) && 0 < start
    requires Chunk(change[..], start, end) && MergesDown(data, change[..], start, end, down)
    modifies change
    ensures Moved(old(change[..]), change[..], start, end, down) && next == start + down
    ensures Progress(data, c0, change[..], next, scored)
    ensures Smaller(change[..], next, old(change[..]), start)
  {
    ghost var before := change[..];
    assert Block(before, start, end + down, start, end);
    DoShiftBoundary(start, end, down, change);
    DownStep(data, c0, before, change[..], start, end, down, scored);
    next := start + down;
  }

  lemma OffsetFits(data: seq<int>, c: seq<bool>, s: int, e: int, up: int, down: int, i: int)
    requires Chunk(c, s, e) && SlidesUp(data, c, s, e, up) && SlidesDown(data, c, s, e, down) && -up <= i <= down
    ensures i < 0 ==> Block(c, s + i, e, s, e)
    ensures i >= 0 ==> Block(c, s, e + i, s, e)
  {
  }

  /** A slide by any offset within reach that merges with no other block is a step. */
  lemma OffsetStep(data: seq<int>, c0: seq<bool>, c: seq<bool>, c': seq<bool>, s: int, e: int, up: int, down: int,
                   i: int)
    requires Progress(data, c0, c, s, true) && Chunk(c, s, e)
    requires SlidesUp(data, c, s, e, up) && SlidesDown(data, c, s, e, down) && -up <= i <= down
    requires up > 0 ==> s != up && !c[s - up - 1]
    requires down > 0 ==> 0 < s && e + down != |data| && !c[e + down]
    requires if i == 0 then c' == c else Moved(c, c', s, e, i)
    ensures Progress(data, c0, c', e + Max(i, 0), true)
    ensures Smaller(c', e + Max(i, 0), c, s)
  {
    if i < 0 {
      MoveUpStep(data, c0, c, c', s, e, up, -i);
    } else if i > 0 {
      MoveDownStep(data, c0, c, c', s, e, down, i);
    } else {
      StayStep(data, c0, c, s, e, true);
    }
  }

  method ShiftUnlessZero(change: array<bool>, start: int, end: int, offset: int)
    requires start < end
    requires offset < 0 ==> Block(change[..], start + offset, end, start, end)
    requires offset >= 0 ==> Block(change[..], start, end + offset, start, end)
    modifies change
    ensures Moved(old(change[..]), change[..], start, end, offset)
    ensures offset == 0 ==> change[..] == old(change[..])
  {
    if offset != 0 {
      DoShiftBoundary(start, end, offset, change);
    }
  }

  /** Moves the block to its best scoring position. */
  method ShiftToBest(data: seq<int>, change: array<bool>, start: int, end: int, up: int, down: int,
                     score: Scoring, ghost c0: seq<bool>) returns (next: int, ghost offset': int)
    requires score.Score? && Progress(data, c0, change[..], start, true) && Chunk(change[..], start, end)
    requires SlidesUp(data, change[..], start, end, up) && SlidesDown(data, change[..], start, end, down)
    requires up > 0 ==> start != up && !change[start - up - 1]
    requires down > 0 ==> 0 < start && end + down != |data| && !change[end + down]
    modifies change
    ensures IsBest(score, data, start, end, up, down, offset')
    ensures Moved(old(change[..]), change[..], start, end, offset') && next == end + Max(offset', 0)
    ensures Progress(data, c0, change[..], next, true)
    ensures Smaller(change[..], next, old(change[..]), start)
  {
    ghost var before := change[..];
    var offset := BestOffset(data, start, end, up, down, score);
    offset' := offset;
    OffsetFits(data, before, start, end, up, down, offset);
    ShiftUnlessZero(change, start, end, offset);
    OffsetStep(data, c0, before, change[..], start, end, up, down, offset);
    next := end;
    if offset > 0 {
      next := next + offset;
    }
  }

  ghost predicate CanMergeUp(c: seq<bool>, s: int, up: int)
    requires 0 <= up <= s <= |c|
  {
    0 < s && 0 < up && (s == up || c[s - up - 1])
  }

  ghost predicate CanMergeDown(c: seq<bool>, s: int, e: int, down: int)
    requires 0 <= e <= e + down <= |c|
  {
    0 < s && 0 < down && (e + down == |c| || c[e + down])
  }

  lemma RoundUp(data: seq<int>, score: Scoring, c: seq<bool>, s: int, e: int, up: int, down: int, c': seq<bool>,
                next: int)
    requires Reach(data, c, s, e, up, down) && CanMergeUp(c, s, up)
    requires Moved(c, c', s, e, -up) && RestartsAt(c', s, s - up, next)
    ensures OneRound(data, score, c, s, e, up, down, -up, c', next)
  {
  }

  lemma RoundDown(data: seq<int>, score: Scoring, c: seq<bool>, s: int, e: int, up: int, down: int, c': seq<bool>,
                  next: int)
    requires Reach(data, c, s, e, up, down) && !CanMergeUp(c, s, up) && CanMergeDown(c, s, e, down)
    requires Moved(c, c', s, e, down) && next == s + down
    ensures OneRound(data, score, c, s, e, up, down, down, c', next)
  {
  }

  lemma RoundBest(data: seq<int>, score: Scoring, c: seq<bool>, s: int, e: int, up: int, down: int, offset: int,
                  c': seq<bool>, next: int)
    requires Reach(data, c, s, e, up, down) && !CanMergeUp(c, s, up) && !CanMergeDown(c, s, e, down)
    requires 0 < s && score.Score? && IsBest(score, data, s, e, up, down, offset)
    requires Moved(c, c', s, e, offset) && next == e + Max(offset, 0)
    ensures OneRound(data, score, c, s, e, up, down, offset, c', next)
  {
  }

  lemma RoundStay(data: seq<int>, score: Scoring, c: seq<bool>, s: int, e: int, up: int, down: int)
    requires Reach(data, c, s, e, up, down) && !CanMergeUp(c, s, up) && !CanMergeDown(c, s, e, down)
    requires 0 < s ==> score.NoScore? || (up == 0 && down == 0)
    requires Moved(c, c, s, e, 0)
    ensures OneRound(data, score, c, s, e, up, down, 0, c, e)
  {
  }

  /** The block where it is: nowhere to go, or nothing to gain. */
  method StayHere(data: seq<int>, change: array<bool>, start: int, end: int, score: Scoring, ghost c0: seq<bool>)
    returns (next: int)
    requires Progress(data, c0, change[..], start, score.Score?) && Chunk(change[..], start, end)
    requires score.NoScore? && 0 < start ==>
               forall u :: !MergesUp(data, change[..], start, end, u) && !MergesDown(data, change[..], start, end, u)
    ensures Moved(change[..], change[..], start, end, 0) && next == end
    ensures Progress(data, c0, change[..], next, score.Score?)
    ensures Smaller(change[..], next, change[..], start)
  {
    StayStep(data, c0, change[..], start, end, score.Score?);
    next := end;
  }

  /** One block: merge it upwards if it can, else downwards if it can, else move it where the boundary
      scores best if a score is given. */
  method ShiftBlock(data: seq<int>, change: array<bool>, start: int, score: Scoring, ghost c0: seq<bool>)
    returns (next: int, ghost end': int, ghost up': int, ghost down': int, ghost offset: int)
    requires 0 <= start < change.Length && change[start]
    requires Progress(data, c0, change[..], start, score.Score?)
    modifies change
    ensures OneRound(data, score, old(change[..]), start, end', up', down', offset, change[..], next)
    ensures Progress(data, c0, change[..], next, score.Score?)
    ensures Smaller(change[..], next, old(change[..]), start)
  {
    ghost var c := change[..];
    var end, up, down, upMerge, downMerge := FindShiftBoundary(start, data, change);
    end', up', down' := end, up, down;
    if start == 0 {
      up, down := 0, 0;
    }
    if up > 0 && upMerge {
      offset := -up;
      next := ShiftUp(data, change, start, end, up, c0, score.Score?);
      RoundUp(data, score, c, start, end, up, down, change[..], next);
    } else if down > 0 && downMerge {
      offset := down;
      next := ShiftDown(data, change, start, end, down, c0, score.Score?);
      RoundDown(data, score, c, start, end, up, down, change[..], next);
    } else if (up > 0 || down > 0) && score.Score? {
      next, offset := ShiftToBest(data, change, start, end, up, down, score, c0);
      RoundBest(data, score, c, start, end, up, down, offset, change[..], next);
    } else {
      offset := 0;
      next := StayHere(data, change, start, end, score, c0);
      RoundStay(data, score, c, start, end, up', down');
    }
  }

  lemma SmallerBySkip(c': seq<bool>, start': int, c: seq<bool>, start: int, start0: int)
    requires 0 <= start0 <= start <= |c| == |c'| && 0 <= start' <= |c'| && c != []
    requires Smaller(c', start', c, start)
    requires start > start0 ==> Weight(c, start) <= Weight(c, start0)
    ensures Smaller(c', start', c, start0)
  {
  }

  /** The first marked position from `from` on, or the end. */
  method SkipUnmarked(change: array<bool>, from: int) returns (start: int)
    requires 0 <= from <= change.Length
    ensures from <= start <= change.Length && All(change[..], from, start, false)
    ensures start < change.Length ==> change[start]
  {
    start := from;
    while start < change.Length && !change[start]
      invariant from <= start <= change.Length && All(change[..], from, start, false)
    {
      start := start + 1;
    }
  }

  /** One round of the pass, for the first marked position from `from` on. */
  method ShiftNext(data: seq<int>, change: array<bool>, start: int, score: Scoring, ghost from: int,
                   ghost c0: seq<bool>, ghost rounds: seq<Round>)
    returns (next: int, ghost rounds': seq<Round>)
    requires 0 <= from <= start < change.Length && change[start] && All(change[..], from, start, false)
    requires Progress(data, c0, change[..], from, score.Score?)
    requires Leads(data, score, c0, rounds, change[..], from)
    modifies change
    ensures Progress(data, c0, change[..], next, score.Score?)
    ensures Leads(data, score, c0, rounds', change[..], next)
    ensures Smaller(change[..], next, old(change[..]), from)
  {
    ghost var c := change[..];
    ghost var end, up, down, offset;
    SkipStep(data, c0, c, from, start, score.Score?);
    next, end, up, down, offset := ShiftBlock(data, change, start, score, c0);
    SmallerBySkip(change[..], next, c, start, from);
    ghost var round := Round(c, from, start, end, up, down, offset, change[..], next);
    rounds' := rounds + [round];
    LeadsNext(data, score, c0, rounds, round);
  }

  lemma ShiftedEnd(data: seq<int>, score: Scoring, c0: seq<bool>, rounds: seq<Round>, c: seq<bool>, cursor: int)
    requires Leads(data, score, c0, rounds, c, cursor) && Progress(data, c0, c, cursor, score.Score?)
    requires All(c, cursor, |c|, false)
    ensures Shifted(data, score, c0, c)
    ensures score.NoScore? ==> Settled(data, c, |data|) && (c == c0 <==> Settled(data, c0, |data|))
  {
    SkipStep(data, c0, c, cursor, |c|, score.Score?);
  }

  /** Shifts the blocks of changes of one side of a diff. */
  method ShiftBoundaries(data: seq<int>, change: array<bool>, score: Scoring)
    requires change.Length == |data|
    modifies change
    ensures Kept(data, change[..]) == Kept(data, old(change[..]))
    ensures Marked(change[..]) == Marked(old(change[..]))
    ensures Shifted(data, score, old(change[..]), change[..])
    ensures score.NoScore? ==> Settled(data, change[..], |data|)
    ensures score.NoScore? ==> (change[..] == old(change[..]) <==> Settled(data, old(change[..]), |data|))
  {
    ghost var c0 := change[..];
    ghost var rounds: seq<Round>, cursor := [], 0;
    var start, clen := 0, change.Length;
    while start < clen
      invariant Progress(data, c0, change[..], start, score.Score?)
      invariant Leads(data, score, c0, rounds, change[..], start) && cursor == start
      decreases clen > 0 && !change[0], Weight(change[..], start), clen - start, Marked(change[start..])
    {
      start := SkipUnmarked(change, start);
      if start >= clen {
        break;
      }
      start, rounds := ShiftNext(data, change, start, score, cursor, c0, rounds);
      cursor := start;
    }
    ShiftedEnd(data, score, c0, rounds, change[..], cursor);
  }
}
