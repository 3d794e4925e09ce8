/** Furthest-reaching points of the edit graph: Myers (1986), Lemma 3, on a graph that extends beyond
    the rectangle. A point of diagonal k is given by its abscissa x and stands for (x, x - k). */
module Furthest {
  import opened Wrappers
  import opened Lcs

  /** The diagonal of the far corner. */
  function Corner(g: Grid): int { |g.a| - |g.b| }

  /** Fewest edits from the origin to the point x of diagonal k. */
  function Cost(g: Grid, k: int, x: int): int { g.Edits(x, x - k) }

  /** x is the furthest point of diagonal k that d edits reach from the origin. */
  ghost predicate IsFurthest(g: Grid, d: int, k: int, x: int)
  {
    0 <= x && k <= x && Cost(g, k, x) <= d < Cost(g, k, x + 1)
  }

  /** The same seen from the far corner: from x on diagonal k, and from no point before it, d edits
      reach the corner. */
  ghost predicate IsFurthestBack(g: Grid, d: int, k: int, x: int)
  {
    IsFurthest(g.Flip(), d, Corner(g) - k, |g.a| - x)
  }

  /** A diagonal edge leaves point x of diagonal k. */
  predicate MatchOn(g: Grid, k: int, x: int) { g.Match(x, x - k) }

  lemma FurthestFlip(g: Grid, d: int, k: int, x: int)
    requires IsFurthest(g, d, k, x)
    ensures IsFurthestBack(g.Flip(), d, Corner(g) - k, |g.a| - x)
  {
    assert g.Flip().Flip() == g;
    assert Corner(g) - (Corner(g) - k) == k && |g.a| - (|g.a| - x) == x;
  }

  /** Diagonal edges lead from u to x on diagonal k. */
  ghost predicate Snake(g: Grid, k: int, u: int, x: int)
  {
    u <= x && forall i :: u <= i < x ==> MatchOn(g, k, i)
  }

  lemma {:induction false} CostMonotone(g: Grid, k: int, x: int, x': int)
    requires x <= x'
    ensures Cost(g, k, x) <= Cost(g, k, x')
    decreases x' - x
  {
    if x < x' {
      CostMonotone(g, k, x, x' - 1);
      PrefixDiagonal(g, x' - 1, x' - 1 - k);
    }
  }

  lemma CostBound(g: Grid, k: int, x: int)
    requires 0 <= x && k <= x
    ensures Cost(g, k, x) >= k && Cost(g, k, x) >= -k
  {
    PrefixBound(g, x, x - k);
  }

  lemma {:induction false} SnakeIsFree(g: Grid, k: int, u: int, x: int)
    requires Snake(g, k, u, x)
    requires 0 <= u && k <= u
    ensures g.Prefix(x, x - k) == g.Prefix(u, u - k) + x - u
    ensures Cost(g, k, x) == Cost(g, k, u)
    decreases x - u
  {
    if u < x {
      assert MatchOn(g, k, x - 1);
      SnakeIsFree(g, k, u, x - 1);
    }
  }

  /** Nothing that d edits reach on the diagonal lies beyond its furthest point. */
  lemma FurthestBound(g: Grid, d: int, k: int, x: int, p: int)
    requires IsFurthest(g, d, k, x) && Cost(g, k, p) <= d
    ensures p <= x
  {
    if p > x {
      CostMonotone(g, k, x + 1, p);
    }
  }

  /** Where the d-th move lands on diagonal k, given the furthest points of pass d - 1 either side. */
  function Landing(d: int, k: int, left: int, right: int): int
  {
    if k > -d && (k == d || left >= right) then left + 1 else right
  }

  lemma LandingReached(g: Grid, d: int, k: int, left: int, right: int)
    requires d > 0 && -d <= k <= d
    requires k > -d ==> IsFurthest(g, d - 1, k - 1, left)
    requires k < d ==> IsFurthest(g, d - 1, k + 1, right)
    ensures var u := Landing(d, k, left, right); 0 <= u && k <= u && Cost(g, k, u) <= d
  {
    if k > -d && (k == d || left >= right) {
      PrefixStep(g, left, left - (k - 1));
    } else {
      PrefixStep(g, right, right - (k + 1));
    }
  }

  /** A point that no diagonal edge leaves is one edit before the cheaper of the two points that lead
      to its successor. */
  lemma CostAfterMismatch(g: Grid, k: int, x: int)
    requires 0 <= x && k <= x && !MatchOn(g, k, x)
    ensures Cost(g, k, x + 1) > Cost(g, k - 1, x) || Cost(g, k, x + 1) > Cost(g, k + 1, x + 1)
  {
    var n, m := x + 1, x + 1 - k;
    assert g.Prefix(n, m) == Max(g.Prefix(n - 1, m), g.Prefix(n, m - 1));
    assert x - (k - 1) == m && x + 1 - (k + 1) == m - 1;
  }

  /** Myers's Lemma 3: landing as far as possible and following the snake gives the furthest point of
      pass d. */
  lemma FurthestStep(g: Grid, d: int, k: int, left: int, right: int, x: int)
    requires d > 0 && -d <= k <= d
    requires k > -d ==> IsFurthest(g, d - 1, k - 1, left)
    requires k < d ==> IsFurthest(g, d - 1, k + 1, right)
    requires Snake(g, k, Landing(d, k, left, right), x) && !MatchOn(g, k, x)
    ensures IsFurthest(g, d, k, x)
  {
    LandingReached(g, d, k, left, right);
    SnakeIsFree(g, k, Landing(d, k, left, right), x);
    CostBeyond(g, d, k, left, right, x);
    CostAfterMismatch(g, k, x);
  }

  /** Beyond the landing point, both neighbours already cost d edits. */
  lemma CostBeyond(g: Grid, d: int, k: int, left: int, right: int, x: int)
    requires d > 0 && -d <= k <= d && 0 <= x && k <= x
    requires k > -d ==> IsFurthest(g, d - 1, k - 1, left)
    requires k < d ==> IsFurthest(g, d - 1, k + 1, right)
    requires Landing(d, k, left, right) <= x
    ensures Cost(g, k - 1, x) >= d && Cost(g, k + 1, x + 1) >= d
  {
    if k > -d {
      CostMonotone(g, k - 1, left + 1, x);
    } else {
      CostBound(g, k - 1, x);
    }
    if k < d {
      CostMonotone(g, k + 1, right + 1, x + 1);
    } else {
      CostBound(g, k + 1, x + 1);
    }
  }

  /** With nothing to match at the origin, the origin is the furthest point of pass 0. */
  lemma FurthestStart(g: Grid)
    requires !g.Match(0, 0)
    ensures IsFurthest(g, 0, 0, 0)
  {
    assert g.Prefix(1, 1) == 0;
  }

  lemma MatchOnFlip(g: Grid, k: int, x: int)
    ensures MatchOn(g.Flip(), Corner(g) - k, |g.a| - x) == MatchOn(g, k, x - 1)
  {
  }

  lemma SnakeFlip(g: Grid, k: int, x: int, u: int)
    requires Snake(g, k, x, u)
    ensures Snake(g.Flip(), Corner(g) - k, |g.a| - u, |g.a| - x)
  {
    var h, k' := g.Flip(), Corner(g) - k;
    forall i | |g.a| - u <= i < |g.a| - x
      ensures MatchOn(h, k', i)
    {
      assert MatchOn(g, k, |g.a| - i - 1);
      MatchOnFlip(g, k, |g.a| - i);
    }
  }

  /** Where the d-th backward move lands on diagonal k. */
  function LandingBack(d: int, corner: int, k: int, left: int, right: int): int
  {
    if k < corner + d && (k == corner - d || right <= left) then right - 1 else left
  }

  lemma FurthestBackStep(g: Grid, d: int, k: int, left: int, right: int, x: int)
    requires d > 0 && Corner(g) - d <= k <= Corner(g) + d
    requires k > Corner(g) - d ==> IsFurthestBack(g, d - 1, k - 1, left)
    requires k < Corner(g) + d ==> IsFurthestBack(g, d - 1, k + 1, right)
    requires Snake(g, k, x, LandingBack(d, Corner(g), k, left, right)) && !MatchOn(g, k, x - 1)
    ensures IsFurthestBack(g, d, k, x)
  {
    var u := LandingBack(d, Corner(g), k, left, right);
    var k' := Corner(g) - k;
    assert |g.a| - u == Landing(d, k', |g.a| - right, |g.a| - left);
    assert Corner(g) - (k - 1) == k' + 1 && Corner(g) - (k + 1) == k' - 1;
    SnakeFlip(g, k, x, u);
    MatchOnFlip(g, k, x);
    FurthestStep(g.Flip(), d, k', |g.a| - right, |g.a| - left, |g.a| - x);
  }

  /** A box on one diagonal whose two ends split an optimal alignment. */
  ghost predicate MiddleSnake(a: seq<int>, b: seq<int>, x0: int, y0: int, x1: int, y1: int)
  {
    && 0 <= x0 <= x1 <= |a|
    && 0 <= y0 <= y1 <= |b|
    && x1 - x0 == y1 - y0
    && a[x0..x1] == b[y0..y1]
    && Length(a[..x0], b[..y0]) + (x1 - x0) + Length(a[x1..], b[y1..]) == Length(a, b)
  }

  /** The same as a statement about the graph, so that it can be flipped; u and x lie on diagonal k. */
  ghost predicate OptimalSnake(g: Grid, k: int, u: int, x: int)
  {
    && 0 <= u && k <= u && x <= |g.a| && x - k <= |g.b|
    && Snake(g, k, u, x)
    && g.Prefix(u, u - k) + (x - u) + g.Suffix(x, x - k) == g.Total()
    && 0 < u + (u - k) && x + (x - k) < |g.a| + |g.b|
  }

  lemma OptimalSnakeFlip(g: Grid, k: int, u: int, x: int, h: Grid, k': int, u': int, x': int)
    requires h == g.Flip() && k' == Corner(g) - k && u' == |g.a| - x && x' == |g.a| - u
    requires OptimalSnake(h, k', u', x')
    ensures OptimalSnake(g, k, u, x)
  {
    assert h.Flip() == g;
    SnakeFlip(h, k', u', x');
    SuffixFlip(g, u, u - k);
    TotalFlip(g);
  }

  lemma OptimalSnakeIsMiddle(a: seq<int>, b: seq<int>, x0: int, y0: int, x1: int, y1: int)
    requires x0 - y0 == x1 - y1 && OptimalSnake(Grid(a, b, false), x0 - y0, x0, x1)
    ensures MiddleSnake(a, b, x0, y0, x1, y1)
    ensures 0 < x0 + y0 && x1 + y1 < |a| + |b|
  {
    SliceLengths(a, b, x0, y0);
    SliceLengths(a, b, x1, y1);
    forall j | 0 <= j < x1 - x0
      ensures a[x0..x1][j] == b[y0..y1][j]
    {
      assert MatchOn(Grid(a, b, false), x0 - y0, x0 + j);
    }
  }

  lemma {:induction false} SuffixAlongDiagonal(g: Grid, x: int, y: int, s: nat)
    ensures g.Suffix(x, y) <= g.Suffix(x + s, y + s) + s
    decreases s
  {
    if s > 0 {
      SuffixAlongDiagonal(g, x, y, s - 1);
      PrefixDiagonal(g.Flip(), |g.a| - (x + s), |g.b| - (y + s));
    }
  }

  /** A forward point at or beyond a backward point r of its diagonal lies inside the rectangle and on
      an optimal path, unless the sequences are fewer than e + f edits apart. */
  lemma MeetingPoint(g: Grid, e: int, f: int, k: int, x: int, r: int)
    requires 0 <= x && k <= x && Cost(g, k, x) <= e
    requires r <= |g.a| && r - k <= |g.b| && g.EditsAfter(r, r - k) <= f
    requires r <= x && e + f <= g.Distance()
    ensures x <= |g.a| && x - k <= |g.b|
    ensures Cost(g, k, x) == e && g.EditsAfter(x, x - k) == f
    ensures g.Prefix(x, x - k) + g.Suffix(x, x - k) == g.Total()
  {
    SuffixAlongDiagonal(g, r, r - k, x - r);
    ThroughPoint(g, x, x - k);
    if x > |g.a| || x - k > |g.b| {
      SuffixAlongDiagonal(g, r, r - k, x - 1 - r);
      SuffixStep(g, x - 1, x - k - 1);
      PrefixAtMostTotal(g, x, x - k);
    }
  }

  /** When forward pass e first meets backward pass f, the last forward snake, from u to x, is optimal. */
  lemma ForwardMeets(g: Grid, e: int, f: int, k: int, u: int, x: int, r: int)
    requires 0 <= u && k <= u && Cost(g, k, u) <= e && Snake(g, k, u, x)
    requires IsFurthestBack(g, f, k, r) && r <= x
    requires f <= e <= f + 1 && e + f <= g.Distance() && 2 <= g.Distance()
    ensures OptimalSnake(g, k, u, x)
  {
    SnakeIsFree(g, k, u, x);
    assert |g.a| - r - (Corner(g) - k) == |g.b| - (r - k);
    MeetingPoint(g, e, f, k, x, r);
  }

  lemma LandingBackReached(g: Grid, d: int, k: int, left: int, right: int)
    requires d > 0 && Corner(g) - d <= k <= Corner(g) + d
    requires k > Corner(g) - d ==> IsFurthestBack(g, d - 1, k - 1, left)
    requires k < Corner(g) + d ==> IsFurthestBack(g, d - 1, k + 1, right)
    ensures var u := LandingBack(d, Corner(g), k, left, right);
            u <= |g.a| && u - k <= |g.b| && Cost(g.Flip(), Corner(g) - k, |g.a| - u) <= d
  {
    var k' := Corner(g) - k;
    assert |g.a| - LandingBack(d, Corner(g), k, left, right) == Landing(d, k', |g.a| - right, |g.a| - left);
    assert Corner(g) - (k - 1) == k' + 1 && Corner(g) - (k + 1) == k' - 1;
    LandingReached(g.Flip(), d, k', |g.a| - right, |g.a| - left);
  }

  /** When backward pass d first meets forward pass d, the last backward snake is optimal. */
  lemma BackwardMeets(g: Grid, d: int, k: int, u: int, x: int, r: int)
    requires u <= |g.a| && u - k <= |g.b| && Cost(g.Flip(), Corner(g) - k, |g.a| - u) <= d
    requires Snake(g, k, x, u)
    requires IsFurthest(g, d, k, r) && x <= r
    requires 2 * d <= g.Distance() && 2 <= g.Distance()
    ensures OptimalSnake(g, k, x, u)
  {
    var h, k', u', x' := g.Flip(), Corner(g) - k, |g.a| - u, |g.a| - x;
    SnakeFlip(g, k, x, u);
    TotalFlip(g);
    FurthestFlip(g, d, k, r);
    ForwardMeets(h, d, d, k', u', x', |g.a| - r);
    OptimalSnakeFlip(g, k, x, u, h, k', u', x');
  }

  /** A point of the rectangle with e edits before it and f after it. */
  ghost predicate Between(g: Grid, e: int, f: int, x: int, y: int)
  {
    0 <= x <= |g.a| && 0 <= y <= |g.b| && g.Edits(x, y) == e && g.EditsAfter(x, y) == f
  }

  /** No such point lies on a diagonal below `limit`. */
  ghost predicate Apart(g: Grid, e: int, f: int, limit: int)
  {
    forall x, y :: Between(g, e, f, x, y) ==> limit <= x - y
  }

  /** Such a point lies on a diagonal that both passes search. */
  lemma BetweenInRange(g: Grid, e: int, f: int, x: int, y: int)
    requires Between(g, e, f, x, y)
    ensures -e <= x - y <= e && Corner(g) - f <= x - y <= Corner(g) + f
  {
    PrefixBound(g, x, y);
    PrefixBound(g.Flip(), |g.a| - x, |g.b| - y);
  }

  lemma BetweenParity(g: Grid, e: int, f: int, x: int, y: int, k: int, i: int)
    requires Between(g, e, f, x, y) && (k == 2 * i - e || k == Corner(g) + 2 * i - f)
    ensures x - y != k + 1
  {
    assert g.Edits(x, y) == x + y - 2 * g.Prefix(x, y);
    assert g.EditsAfter(x, y) == |g.a| - x + |g.b| - y - 2 * g.Suffix(x, y);
  }

  lemma ApartBelow(g: Grid, e: int, f: int, limit: int)
    requires limit <= -e || limit <= Corner(g) - f
    ensures Apart(g, e, f, limit)
  {
    forall x, y | Between(g, e, f, x, y)
      ensures limit <= x - y
    {
      BetweenInRange(g, e, f, x, y);
    }
  }

  /** If the furthest points p and r of the two passes do not meet on diagonal k, no optimal path changes
      over there. */
  lemma NotBetween(g: Grid, e: int, f: int, k: int, p: int, r: int, x: int, y: int)
    requires IsFurthest(g, e, k, p) && IsFurthestBack(g, f, k, r) && p < r
    requires x - y == k
    ensures !Between(g, e, f, x, y)
  {
    if Between(g, e, f, x, y) {
      assert y == x - k;
      FurthestBound(g, e, k, p, x);
      assert |g.a| - x - (Corner(g) - k) == |g.b| - y;
      FurthestBound(g.Flip(), f, Corner(g) - k, |g.a| - r, |g.a| - x);
    }
  }

  /** The searched diagonals have the parity of the pass, so the next one is k + 2. `both` tells whether
      both passes search diagonal k. */
  lemma ApartNext(g: Grid, e: int, f: int, k: int, i: int, both: bool, p: int, r: int)
    requires Apart(g, e, f, k) && (k == 2 * i - e || k == Corner(g) + 2 * i - f)
    requires -e <= k <= e && Corner(g) - f <= k <= Corner(g) + f ==> both
    requires both ==> IsFurthest(g, e, k, p) && IsFurthestBack(g, f, k, r) && p < r
    ensures Apart(g, e, f, k + 2)
  {
    forall x, y | Between(g, e, f, x, y)
      ensures k + 2 <= x - y
    {
      BetweenInRange(g, e, f, x, y);
      BetweenParity(g, e, f, x, y, k, i);
      if x - y == k {
        NotBetween(g, e, f, k, p, r, x, y);
      }
    }
  }

  lemma ApartMeans(g: Grid, e: nat, f: nat, limit: int)
    requires Apart(g, e, f, limit) && (e < limit || Corner(g) + f < limit)
    ensures g.Distance() != e + f
  {
    if g.Distance() == e + f {
      TotalFlip(g);
      var x, y := PointAfter(g, e, 0, 0);
      assert Between(g, e, f, x, y);
      BetweenInRange(g, e, f, x, y);
    }
  }

  /** With different elements at both ends, at least two edits are needed. */
  lemma AtLeastTwoEdits(g: Grid)
    requires g.a != [] && g.b != []
    requires !g.Match(0, 0) && !g.Match(|g.a| - 1, |g.b| - 1)
    ensures g.Distance() >= 2
  {
    var n, m := |g.a|, |g.b|;
    PrefixBound(g, n, m);
    PrefixBound(g, n - 1, m);
    PrefixBound(g, n, m - 1);
    FirstMismatch(g, if n <= m then n else m);
  }

  lemma {:induction false} FirstMismatch(g: Grid, n: nat)
    requires 0 < n && !g.Match(0, 0)
    ensures g.Prefix(n, n) < n
    decreases n
  {
    PrefixBound(g, n - 1, n);
    PrefixBound(g, n, n - 1);
    if n > 1 {
      FirstMismatch(g, n - 1);
    }
  }
}
