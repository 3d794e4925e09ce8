/** The length of a longest common subsequence, as a recurrence over the edit graph. */
module Lcs {
  import opened Wrappers
  import opened Marks

  /** The edit graph of two sequences, read from its origin or, when `back` is set, from its far corner.
      Coordinates may lie outside the rectangle |a| by |b|; no diagonal edge leaves such a point. */
  datatype Grid = Grid(a: seq<int>, b: seq<int>, back: bool)
  {
    function Flip(): Grid { Grid(a, b, !back) }

    /** A diagonal edge leaves (x, y). */
    predicate Match(x: int, y: int)
    {
      && 0 <= x < |a| && 0 <= y < |b|
      && if back then a[|a| - 1 - x] == b[|b| - 1 - y] else a[x] == b[y]
    }

    /** Most diagonal edges on a path from the origin to (x, y). */
    function Prefix(x: int, y: int): (n: nat)
      decreases x + y
    {
      if x <= 0 || y <= 0 then 0
      else if Match(x - 1, y - 1) then Prefix(x - 1, y - 1) + 1
      else Max(Prefix(x - 1, y), Prefix(x, y - 1))
    }

    /** Most diagonal edges on a path from (x, y) to the far corner. */
    function Suffix(x: int, y: int): (n: nat)
    {
      Flip().Prefix(|a| - x, |b| - y)
    }

    /** Fewest horizontal and vertical edges on a path from the origin to (x, y). */
    function Edits(x: int, y: int): int
    {
      x + y - 2 * Prefix(x, y)
    }

    function EditsAfter(x: int, y: int): int
    {
      Flip().Edits(|a| - x, |b| - y)
    }

    function Total(): nat
    {
      Prefix(|a|, |b|)
    }

    function Distance(): int
    {
      Edits(|a|, |b|)
    }
  }

  function Length(a: seq<int>, b: seq<int>): (n: nat)
  {
    Grid(a, b, false).Total()
  }

  /** One step right or down gains at most one match and never loses one. */
  lemma {:induction false} PrefixStep(g: Grid, x: int, y: int)
    ensures g.Prefix(x, y) <= g.Prefix(x + 1, y) <= g.Prefix(x, y) + 1
    ensures g.Prefix(x, y) <= g.Prefix(x, y + 1) <= g.Prefix(x, y) + 1
    decreases x + y
  {
    if x >= 0 && y > 0 {
      PrefixStep(g, x, y - 1);
    }
    if x > 0 && y >= 0 {
      PrefixStep(g, x - 1, y);
    }
  }

  lemma PrefixDiagonal(g: Grid, x: int, y: int)
    ensures g.Prefix(x, y) <= g.Prefix(x + 1, y + 1) <= g.Prefix(x, y) + 1
  {
    PrefixStep(g, x, y);
    PrefixStep(g, x + 1, y);
    PrefixStep(g, x, y + 1);
  }

  lemma {:induction false} PrefixBound(g: Grid, x: int, y: int)
    requires x >= 0 && y >= 0
    ensures g.Prefix(x, y) <= x && g.Prefix(x, y) <= y
    decreases x + y
  {
    if x > 0 && y > 0 {
      PrefixBound(g, x - 1, y - 1);
      PrefixStep(g, x - 1, y - 1);
      PrefixDiagonal(g, x - 1, y - 1);
    }
  }

  lemma {:induction false} PrefixMonotone(g: Grid, x: int, y: int, x': int, y': int)
    requires x <= x' && y <= y'
    ensures g.Prefix(x, y) <= g.Prefix(x', y')
    decreases x' - x + y' - y
  {
    PrefixStep(g, x, y);
    if x < x' {
      PrefixMonotone(g, x + 1, y, x', y');
    } else if y < y' {
      PrefixMonotone(g, x, y + 1, x', y');
    }
  }

  /** Leaving the rectangle gains nothing. */
  lemma {:induction false} PrefixAtMostTotal(g: Grid, x: int, y: int)
    ensures g.Prefix(x, y) <= g.Total()
    decreases x + y
  {
    if x <= |g.a| && y <= |g.b| {
      PrefixMonotone(g, x, y, |g.a|, |g.b|);
    } else if x > 0 && y > 0 {
      PrefixAtMostTotal(g, x - 1, y);
      PrefixAtMostTotal(g, x, y - 1);
    }
  }

  /** The suffix lengths satisfy the mirrored recurrence. */
  lemma SuffixStep(g: Grid, x: int, y: int)
    ensures x >= |g.a| || y >= |g.b| ==> g.Suffix(x, y) == 0
    ensures g.Match(x, y) ==> g.Suffix(x, y) == g.Suffix(x + 1, y + 1) + 1
    ensures x < |g.a| && y < |g.b| && !g.Match(x, y) ==>
              g.Suffix(x, y) == Max(g.Suffix(x + 1, y), g.Suffix(x, y + 1))
  {
    var n, m := |g.a| - x, |g.b| - y;
    assert g.Match(x, y) <==> g.Flip().Match(n - 1, m - 1);
    assert |g.a| - (x + 1) == n - 1 && |g.b| - (y + 1) == m - 1;
  }

  /** No way through (x, y) keeps more than the longest common subsequence. */
  lemma {:induction false} ThroughPoint(g: Grid, x: int, y: int)
    ensures g.Prefix(x, y) + g.Suffix(x, y) <= g.Total()
    decreases if x < |g.a| && y < |g.b| then |g.a| - x + |g.b| - y else 0
  {
    SuffixStep(g, x, y);
    if x >= |g.a| || y >= |g.b| {
      PrefixAtMostTotal(g, x, y);
    } else if g.Match(x, y) {
      ThroughPoint(g, x + 1, y + 1);
    } else {
      PrefixStep(g, x, y);
      ThroughPoint(g, x + 1, y);
      ThroughPoint(g, x, y + 1);
    }
  }

  /** Reading both sequences backwards does not change the length. */
  lemma TotalFlip(g: Grid)
    ensures g.Flip().Total() == g.Total()
  {
    ThroughPoint(g, 0, 0);
    ThroughPoint(g.Flip(), 0, 0);
    assert g.Flip().Flip() == g;
  }

  lemma SuffixFlip(g: Grid, x: int, y: int)
    ensures g.Flip().Suffix(|g.a| - x, |g.b| - y) == g.Prefix(x, y)
  {
    assert g.Flip().Flip() == g;
    assert |g.a| - (|g.a| - x) == x && |g.b| - (|g.b| - y) == y;
  }

  /** One step along a best path that passes through (x, y): a free diagonal edge, or one more edit. */
  lemma BestStep(g: Grid, x: int, y: int) returns (x': int, y': int)
    requires 0 <= x <= |g.a| && 0 <= y <= |g.b| && x + y < |g.a| + |g.b|
    requires g.Edits(x, y) + g.EditsAfter(x, y) == g.Distance()
    ensures x <= x' <= |g.a| && y <= y' <= |g.b| && x + y < x' + y'
    ensures g.Edits(x, y) <= g.Edits(x', y') <= g.Edits(x, y) + 1
    ensures g.Edits(x', y') + g.EditsAfter(x', y') == g.Distance()
  {
    SuffixStep(g, x, y);
    PrefixStep(g, x, y);
    if g.Match(x, y) {
      x', y' := x + 1, y + 1;
    } else if x < |g.a| && (y == |g.b| || g.Suffix(x, y) == g.Suffix(x + 1, y)) {
      x', y' := x + 1, y;
      SuffixStep(g, x', y');
    } else {
      x', y' := x, y + 1;
      SuffixStep(g, x', y');
    }
    ThroughPoint(g, x', y');
  }

  /** A best path passes through a point with exactly e edits behind it, for every e up to the total. */
  lemma {:induction false} PointAfter(g: Grid, e: nat, x: int, y: int) returns (x': int, y': int)
    requires 0 <= x <= |g.a| && 0 <= y <= |g.b|
    requires g.Edits(x, y) <= e <= g.Distance()
    requires g.Edits(x, y) + g.EditsAfter(x, y) == g.Distance()
    ensures x <= x' <= |g.a| && y <= y' <= |g.b|
    ensures g.Edits(x', y') == e
    ensures g.EditsAfter(x', y') == g.Distance() - e
    decreases |g.a| - x + |g.b| - y
  {
    x', y' := x, y;
    if g.Edits(x, y) < e {
      x', y' := BestStep(g, x, y);
      x', y' := PointAfter(g, e, x', y');
    }
  }

  /** Two graphs with the same diagonal edges near the origin have the same prefix lengths there. */
  lemma {:induction false} PrefixCongruent(g: Grid, h: Grid, n: int, m: int, x: int, y: int)
    requires forall i, j :: 0 <= i < n && 0 <= j < m ==> g.Match(i, j) == h.Match(i, j)
    requires x <= n && y <= m
    ensures g.Prefix(x, y) == h.Prefix(x, y)
    decreases x + y
  {
    if x > 0 && y > 0 {
      assert g.Match(x - 1, y - 1) == h.Match(x - 1, y - 1);
      PrefixCongruent(g, h, n, m, x - 1, y - 1);
      PrefixCongruent(g, h, n, m, x - 1, y);
      PrefixCongruent(g, h, n, m, x, y - 1);
    }
  }

  /** Inside the rectangle, Prefix and Suffix are the lengths for the slices either side of the point. */
  lemma SlicePrefix(a: seq<int>, b: seq<int>, x: int, y: int)
    requires 0 <= x <= |a| && 0 <= y <= |b|
    ensures Grid(a, b, false).Prefix(x, y) == Length(a[..x], b[..y])
  {
    PrefixCongruent(Grid(a, b, false), Grid(a[..x], b[..y], false), x, y, x, y);
  }

  /** Read from the far corner, the grid and the rest of the lists match alike. */
  lemma SuffixMatches(a: seq<int>, b: seq<int>, a': seq<int>, b': seq<int>, x: int, y: int)
    requires 0 <= x <= |a| && 0 <= y <= |b| && a' == a[x..] && b' == b[y..]
    ensures forall i, j :: 0 <= i < |a'| && 0 <= j < |b'| ==>
              Grid(a, b, true).Match(i, j) == Grid(a', b', true).Match(i, j)
  {
    forall i, j | 0 <= i < |a'| && 0 <= j < |b'|
      ensures Grid(a, b, true).Match(i, j) == Grid(a', b', true).Match(i, j)
    {
      assert a'[|a'| - 1 - i] == a[|a| - 1 - i] && b'[|b'| - 1 - j] == b[|b| - 1 - j];
    }
  }

  lemma SliceSuffix(a: seq<int>, b: seq<int>, x: int, y: int)
    requires 0 <= x <= |a| && 0 <= y <= |b|
    ensures Grid(a, b, false).Suffix(x, y) == Length(a[x..], b[y..])
  {
    var a', b' := a[x..], b[y..];
    SuffixMatches(a, b, a', b', x, y);
    PrefixCongruent(Grid(a, b, true), Grid(a', b', true), |a'|, |b'|, |a'|, |b'|);
    TotalFlip(Grid(a', b', false));
  }

  lemma SliceLengths(a: seq<int>, b: seq<int>, x: int, y: int)
    requires 0 <= x <= |a| && 0 <= y <= |b|
    ensures Grid(a, b, false).Prefix(x, y) == Length(a[..x], b[..y])
    ensures Grid(a, b, false).Suffix(x, y) == Length(a[x..], b[y..])
  {
    SlicePrefix(a, b, x, y);
    SliceSuffix(a, b, x, y);
  }

  lemma {:induction false} PrefixSymmetric(a: seq<int>, b: seq<int>, x: int, y: int)
    ensures Grid(a, b, false).Prefix(x, y) == Grid(b, a, false).Prefix(y, x)
    decreases x + y
  {
    if x > 0 && y > 0 {
      PrefixSymmetric(a, b, x - 1, y - 1);
      PrefixSymmetric(a, b, x - 1, y);
      PrefixSymmetric(a, b, x, y - 1);
    }
  }

  lemma LengthSymmetric(a: seq<int>, b: seq<int>)
    ensures Length(a, b) == Length(b, a)
  {
    PrefixSymmetric(a, b, |a|, |b|);
  }

  /** Length by its last elements. */
  lemma LengthStep(a: seq<int>, b: seq<int>, v: int, w: int)
    ensures Length(a + [v], b + [w]) ==
            if v == w then Length(a, b) + 1 else Max(Length(a, b + [w]), Length(a + [v], b))
  {
    var a', b' := a + [v], b + [w];
    SliceLengths(a', b', |a|, |b|);
    SliceLengths(a', b', |a|, |b'|);
    SliceLengths(a', b', |a'|, |b|);
    assert a'[..|a|] == a && b'[..|b|] == b && a'[..|a'|] == a' && b'[..|b'|] == b';
  }

  /** The reference meaning of Length, first half: no common subsequence is longer. */
  lemma {:induction false} LengthIsUpperBound(a: seq<int>, b: seq<int>, change1: seq<bool>, change2: seq<bool>)
    requires Common(a, b, change1, change2)
    ensures |Kept(a, change1)| <= Length(a, b)
    decreases |a| + |b|
  {
    if a != [] && b != [] {
      var n, m := |a| - 1, |b| - 1;
      LengthStep(a[..n], b[..m], a[n], b[m]);
      assert a == a[..n] + [a[n]] && b == b[..m] + [b[m]];
      if change1[n] {
        LengthIsUpperBound(a[..n], b, change1[..n], change2);
        PrefixStep(Grid(a, b, false), n, |b|);
        SliceLengths(a, b, n, |b|);
        assert b[..|b|] == b;
      } else if change2[m] {
        LengthIsUpperBound(a, b[..m], change1, change2[..m]);
        PrefixStep(Grid(a, b, false), |a|, m);
        SliceLengths(a, b, |a|, m);
        assert a[..|a|] == a;
      } else {
        var k1, k2 := Kept(a[..n], change1[..n]), Kept(b[..m], change2[..m]);
        assert k1 == (k1 + [a[n]])[..|k1|] && k2 == (k2 + [b[m]])[..|k2|];
        assert (k1 + [a[n]])[|k1|] == (k2 + [b[m]])[|k2|];
        LengthIsUpperBound(a[..n], b[..m], change1[..n], change2[..m]);
      }
    }
  }

  /** Second half: a common subsequence of that length is a longest one. */
  lemma LengthIsLongest(a: seq<int>, b: seq<int>, change1: seq<bool>, change2: seq<bool>)
    requires Common(a, b, change1, change2)
    requires |Kept(a, change1)| == Length(a, b)
    ensures Longest(a, b, change1, change2)
  {
    forall other1, other2 | Common(a, b, other1, other2)
      ensures |Kept(a, other1)| <= |Kept(a, change1)|
    {
      LengthIsUpperBound(a, b, other1, other2);
    }
  }
}
