/** The linear-space O(ND) diff: middle snake search, divide and conquer, and the marks it leaves. */
module Myers {
  import opened Lcs
  import opened Furthest

  /** Pass d ends on the d + 1 diagonals 2i - d. The row around v[off] holds the furthest point of the
      first n of them. */
  ghost predicate DownRow(v: seq<int>, off: int, g: Grid, d: int, n: int)
  {
    forall i :: 0 <= i < n ==> DownCell(v, off, g, d, i)
  }

  ghost predicate DownCell(v: seq<int>, off: int, g: Grid, d: int, i: int)
  {
    0 <= off + 2 * i - d < |v| && IsFurthest(g, d, 2 * i - d, v[off + 2 * i - d])
  }

  /** The backward passes fan out from the far corner's diagonal, and `off` is that diagonal's cell. */
  ghost predicate UpRow(v: seq<int>, off: int, g: Grid, d: int, n: int)
  {
    forall i :: 0 <= i < n ==> UpCell(v, off, g, d, i)
  }

  ghost predicate UpCell(v: seq<int>, off: int, g: Grid, d: int, i: int)
  {
    0 <= off + 2 * i - d < |v| && IsFurthestBack(g, d, Corner(g) + 2 * i - d, v[off + 2 * i - d])
  }

  /** Both rows of pass d fit in v, apart from each other. */
  predicate Windows(v: seq<int>, down: int, up: int, d: int)
  {
    0 <= down - d - 1 && down + d + 1 < up - d - 1 && up + d + 1 < |v|
  }

  lemma DownAt(v: seq<int>, off: int, g: Grid, d: int, n: int, i: int, k: int)
    requires DownRow(v, off, g, d, n) && 0 <= i < n && k == 2 * i - d
    ensures 0 <= off + k < |v| && IsFurthest(g, d, k, v[off + k])
  {
    assert DownCell(v, off, g, d, i);
  }

  lemma UpAt(v: seq<int>, off: int, g: Grid, d: int, n: int, i: int, k: int)
    requires UpRow(v, off + Corner(g), g, d, n) && 0 <= i < n && k == Corner(g) + 2 * i - d
    ensures 0 <= off + k < |v| && IsFurthestBack(g, d, k, v[off + k])
  {
    assert UpCell(v, off + Corner(g), g, d, i);
  }

  /** Storing the next cell of row d leaves row d - 1 and the other search's row alone. */
  lemma StoreDown(v: seq<int>, down: int, up: int, g: Grid, d: int, i: int, k: int, x: int)
    requires Windows(v, down, up, d) && 0 <= i <= d && k == 2 * i - d
    requires DownRow(v, down, g, d - 1, d) && DownRow(v, down, g, d, i) && UpRow(v, up, g, d - 1, d)
    requires IsFurthest(g, d, k, x)
    ensures var w := v[down + k := x];
            DownRow(w, down, g, d - 1, d) && DownRow(w, down, g, d, i + 1) && UpRow(w, up, g, d - 1, d)
  {
    var w := v[down + k := x];
    var d' := d - 1;
    forall j | 0 <= j < d
      ensures DownCell(w, down, g, d', j)
    {
      assert DownCell(v, down, g, d', j);
    }
    forall j | 0 <= j < d
      ensures UpCell(w, up, g, d', j)
    {
      assert UpCell(v, up, g, d', j);
    }
    forall j | 0 <= j < i + 1
      ensures DownCell(w, down, g, d, j)
    {
      assert j < i ==> DownCell(v, down, g, d, j);
    }
  }

  lemma StoreUp(v: seq<int>, down: int, up: int, g: Grid, d: int, i: int, k: int, x: int)
    requires Windows(v, down, up, d) && 0 <= i <= d && k == 2 * i - d
    requires UpRow(v, up, g, d - 1, d) && UpRow(v, up, g, d, i) && DownRow(v, down, g, d, d + 1)
    requires IsFurthestBack(g, d, Corner(g) + k, x)
    ensures var w := v[up + k := x];
            UpRow(w, up, g, d - 1, d) && UpRow(w, up, g, d, i + 1) && DownRow(w, down, g, d, d + 1)
  {
    var w := v[up + k := x];
    var d' := d - 1;
    forall j | 0 <= j < d
      ensures UpCell(w, up, g, d', j)
    {
      assert UpCell(v, up, g, d', j);
    }
    forall j | 0 <= j < i + 1
      ensures UpCell(w, up, g, d, j)
    {
      assert j < i ==> UpCell(v, up, g, d, j);
    }
    forall j | 0 <= j < d + 1
      ensures DownCell(w, down, g, d, j)
    {
      assert DownCell(v, down, g, d, j);
    }
  }

  /** What the row of pass d - 1 says about pass d on diagonal k. */
  lemma DownLanding(v: seq<int>, down: int, g: Grid, d: int, i: int, k: int, left: int)
    requires d > 0 && 0 <= i <= d && k == 2 * i - d && 0 < down - d && down + d + 1 < |v|
    requires DownRow(v, down, g, d - 1, d)
    requires i > 0 ==> left == v[down + k - 1]
    ensures var u := Landing(d, k, left, v[down + k + 1]); 0 <= u && k <= u && Cost(g, k, u) <= d
  {
    if i > 0 {
      DownAt(v, down, g, d - 1, d, i - 1, k - 1);
    }
    if i < d {
      DownAt(v, down, g, d - 1, d, i, k + 1);
    }
    LandingReached(g, d, k, left, v[down + k + 1]);
  }

  lemma DownFurthest(v: seq<int>, down: int, g: Grid, d: int, i: int, k: int, left: int, x: int)
    requires d > 0 && 0 <= i <= d && k == 2 * i - d && 0 < down - d && down + d + 1 < |v|
    requires DownRow(v, down, g, d - 1, d)
    requires i > 0 ==> left == v[down + k - 1]
    requires Snake(g, k, Landing(d, k, left, v[down + k + 1]), x) && !MatchOn(g, k, x)
    ensures IsFurthest(g, d, k, x)
  {
    if i > 0 {
      DownAt(v, down, g, d - 1, d, i - 1, k - 1);
    }
    if i < d {
      DownAt(v, down, g, d - 1, d, i, k + 1);
    }
    FurthestStep(g, d, k, left, v[down + k + 1], x);
  }

  /** What the overlap test of pass d proves on diagonal k, whichever way it goes. */
  lemma ForwardVerdict(v: seq<int>, upOff: int, g: Grid, d: int, i: int, k: int, u: int, x: int)
    requires d > 0 && k == 2 * i - d && Corner(g) % 2 != 0
    requires UpRow(v, upOff + Corner(g), g, d - 1, d)
    requires 2 * d - 1 <= g.Distance() && 2 <= g.Distance()
    requires 0 <= u && k <= u && Cost(g, k, u) <= d && Snake(g, k, u, x)
    requires IsFurthest(g, d, k, x)
    requires Apart(g, d, d - 1, k)
    ensures Corner(g) - d < k < Corner(g) + d ==> 0 <= upOff + k < |v|
    ensures if Corner(g) - d < k < Corner(g) + d && v[upOff + k] <= x then OptimalSnake(g, k, u, x)
            else Apart(g, d, d - 1, k + 2)
  {
    if Corner(g) - d < k < Corner(g) + d {
      UpAt(v, upOff, g, d - 1, d, i - Corner(g) / 2 - 1, k);
      if v[upOff + k] <= x {
        ForwardMeets(g, d, d - 1, k, u, x, v[upOff + k]);
      } else {
        ApartNext(g, d, d - 1, k, i, true, x, v[upOff + k]);
      }
    } else {
      ApartNext(g, d, d - 1, k, i, false, 0, 0);
    }
  }

  /** Everything that holds halfway through forward pass d, before its i-th diagonal. */
  ghost predicate ForwardState(v: seq<int>, down: int, upOff: int, g: Grid, d: int, i: int)
  {
    && d > 0 && 0 <= i <= d + 1 && Windows(v, down, upOff + Corner(g), d)
    && 2 * d - 1 <= g.Distance() && 2 <= g.Distance()
    && DownRow(v, down, g, d - 1, d)
    && DownRow(v, down, g, d, i)
    && UpRow(v, upOff + Corner(g), g, d - 1, d)
    && (Corner(g) % 2 != 0 ==> Apart(g, d, d - 1, 2 * i - d))
  }

  /** One diagonal of forward pass d: the overlap test finds an optimal snake or the pass goes on. */
  lemma ForwardCell(v: seq<int>, down: int, upOff: int, g: Grid, d: int, i: int, k: int, left: int, u: int, x: int)
    requires ForwardState(v, down, upOff, g, d, i) && i <= d && k == 2 * i - d
    requires i > 0 ==> left == v[down + k - 1]
    requires u == Landing(d, k, left, v[down + k + 1])
    requires Snake(g, k, u, x) && !MatchOn(g, k, x)
    ensures if Corner(g) % 2 != 0 && Corner(g) - d < k < Corner(g) + d && v[upOff + k] <= x then
              OptimalSnake(g, k, u, x)
            else
              ForwardState(v[down + k := x], down, upOff, g, d, i + 1)
  {
    DownLanding(v, down, g, d, i, k, left);
    DownFurthest(v, down, g, d, i, k, left, x);
    if Corner(g) % 2 != 0 {
      ForwardVerdict(v, upOff, g, d, i, k, u, x);
    }
    StoreDown(v, down, upOff + Corner(g), g, d, i, k, x);
    assert 2 * (i + 1) - d == k + 2;
  }

  /** Follows the diagonal edges that leave u on diagonal k. */
  method FollowSnake(data1: seq<int>, data2: seq<int>, k: int, u: int) returns (x: int)
    requires 0 <= u && k <= u
    ensures Snake(Grid(data1, data2, false), k, u, x) && !MatchOn(Grid(data1, data2, false), k, x)
  {
    x := u;
    while x < |data1| && x - k < |data2| && data1[x] == data2[x - k]
      invariant Snake(Grid(data1, data2, false), k, u, x)
    {
      x := x + 1;
    }
  }

  /** Pass d of the search from the origin. Reports the overlapping snake if it meets row d - 1 of the
      search from the far corner; otherwise row d is stored. */
  method ForwardPass(data1: seq<int>, data2: seq<int>, v: array<int>, downOff: int, upOff: int, d: int, ghost g: Grid)
    returns (found: bool, k: int, u: int, x: int)
    requires g == Grid(data1, data2, false)
    requires ForwardState(v[..], downOff, upOff, g, d, 0)
    modifies v
    ensures if found then OptimalSnake(g, k, u, x)
            else ForwardState(v[..], downOff, upOff, g, d, d + 1)
  {
    var upK := |data1| - |data2|;
    var odd := upK % 2 != 0;
    var upKPlusD, upKMinusD := upK + d, upK - d;
    ghost var i := 0;
    var z := 0;
    k, u, x := -d, 0, 0;
    while k <= d
      invariant k == 2 * i - d
      invariant 0 < i <= d ==> z == v[downOff + k - 1]
      invariant ForwardState(v[..], downOff, upOff, g, d, i)
    {
      ghost var left := z;
      DownLanding(v[..], downOff, g, d, i, k, left);
      x := v[downOff + k + 1];
      if k > -d && (k == d || z >= x) {
        x, z := z + 1, x;
      } else {
        z := x;
      }
      u := x;
      x := FollowSnake(data1, data2, k, u);
      ghost var row := v[..];
      ForwardCell(row, downOff, upOff, g, d, i, k, left, u, x);
      if odd && upKMinusD < k && k < upKPlusD && v[upOff + k] <= x {
        return true, k, u, x;
      }
      v[downOff + k] := x;
      assert v[..] == row[downOff + k := x];
      k := k + 2;
      i := i + 1;
    }
    found := false;
  }

  lemma UpNeighbours(v: seq<int>, upOff: int, g: Grid, d: int, i: int, k: int, left: int, right: int)
    requires d > 0 && 0 <= i <= d && k == Corner(g) + 2 * i - d
    requires UpRow(v, upOff + Corner(g), g, d - 1, d)
    requires i > 0 ==> 0 <= upOff + k - 1 < |v| && left == v[upOff + k - 1]
    requires i < d ==> 0 <= upOff + k + 1 < |v| && right == v[upOff + k + 1]
    ensures i > 0 ==> IsFurthestBack(g, d - 1, k - 1, left)
    ensures i < d ==> IsFurthestBack(g, d - 1, k + 1, right)
  {
    if i > 0 {
      UpAt(v, upOff, g, d - 1, d, i - 1, k - 1);
    }
    if i < d {
      UpAt(v, upOff, g, d - 1, d, i, k + 1);
    }
  }

  lemma UpLanding(v: seq<int>, upOff: int, g: Grid, d: int, i: int, k: int, left: int, right: int)
    requires d > 0 && 0 <= i <= d && k == Corner(g) + 2 * i - d
    requires UpRow(v, upOff + Corner(g), g, d - 1, d)
    requires i > 0 ==> 0 <= upOff + k - 1 < |v| && left == v[upOff + k - 1]
    requires i < d ==> 0 <= upOff + k + 1 < |v| && right == v[upOff + k + 1]
    ensures var u := LandingBack(d, Corner(g), k, left, right); u <= |g.a| && u - k <= |g.b|
  {
    UpNeighbours(v, upOff, g, d, i, k, left, right);
    LandingBackReached(g, d, k, left, right);
  }

  lemma UpFurthest(v: seq<int>, upOff: int, g: Grid, d: int, i: int, k: int, left: int, right: int, x: int)
    requires d > 0 && 0 <= i <= d && k == Corner(g) + 2 * i - d
    requires UpRow(v, upOff + Corner(g), g, d - 1, d)
    requires i > 0 ==> 0 <= upOff + k - 1 < |v| && left == v[upOff + k - 1]
    requires i < d ==> 0 <= upOff + k + 1 < |v| && right == v[upOff + k + 1]
    requires Snake(g, k, x, LandingBack(d, Corner(g), k, left, right)) && !MatchOn(g, k, x - 1)
    ensures IsFurthestBack(g, d, k, x)
    ensures Cost(g.Flip(), Corner(g) - k, |g.a| - LandingBack(d, Corner(g), k, left, right)) <= d
  {
    UpNeighbours(v, upOff, g, d, i, k, left, right);
    FurthestBackStep(g, d, k, left, right, x);
    LandingBackReached(g, d, k, left, right);
  }

  lemma BackwardVerdict(v: seq<int>, down: int, g: Grid, d: int, i: int, k: int, u: int, x: int)
    requires d > 0 && k == Corner(g) + 2 * i - d && Corner(g) % 2 == 0
    requires DownRow(v, down, g, d, d + 1)
    requires 2 * d <= g.Distance()
    requires u <= |g.a| && u - k <= |g.b| && Cost(g.Flip(), Corner(g) - k, |g.a| - u) <= d && Snake(g, k, x, u)
    requires IsFurthestBack(g, d, k, x)
    requires Apart(g, d, d, k)
    ensures -d <= k <= d ==> 0 <= down + k < |v|
    ensures if -d <= k <= d && x <= v[down + k] then OptimalSnake(g, k, x, u) else Apart(g, d, d, k + 2)
  {
    if -d <= k <= d {
      DownAt(v, down, g, d, d + 1, i + Corner(g) / 2, k);
      if x <= v[down + k] {
        BackwardMeets(g, d, k, u, x, v[down + k]);
      } else {
        ApartNext(g, d, d, k, i, true, v[down + k], x);
      }
    } else {
      ApartNext(g, d, d, k, i, false, 0, 0);
    }
  }

  /** Everything that holds halfway through backward pass d, before its i-th diagonal. */
  ghost predicate BackwardState(v: seq<int>, down: int, upOff: int, g: Grid, d: int, i: int)
  {
    && d > 0 && 0 <= i <= d + 1 && Windows(v, down, upOff + Corner(g), d)
    && 2 * d <= g.Distance()
    && UpRow(v, upOff + Corner(g), g, d - 1, d)
    && UpRow(v, upOff + Corner(g), g, d, i)
    && DownRow(v, down, g, d, d + 1)
    && (Corner(g) % 2 == 0 ==> Apart(g, d, d, Corner(g) + 2 * i - d))
  }

  /** One diagonal of backward pass d. */
  lemma BackwardCell(v: seq<int>, down: int, upOff: int, g: Grid, d: int, i: int, k: int,
                     left: int, right: int, u: int, x: int)
    requires BackwardState(v, down, upOff, g, d, i) && i <= d && k == Corner(g) + 2 * i - d
    requires i > 0 ==> left == v[upOff + k - 1]
    requires i < d ==> right == v[upOff + k + 1]
    requires u == LandingBack(d, Corner(g), k, left, right)
    requires Snake(g, k, x, u) && !MatchOn(g, k, x - 1)
    ensures if Corner(g) % 2 == 0 && -d <= k <= d && x <= v[down + k] then
              OptimalSnake(g, k, x, u)
            else
              BackwardState(v[upOff + k := x], down, upOff, g, d, i + 1)
  {
    UpLanding(v, upOff, g, d, i, k, left, right);
    UpFurthest(v, upOff, g, d, i, k, left, right, x);
    if Corner(g) % 2 == 0 {
      BackwardVerdict(v, down, g, d, i, k, u, x);
    }
    StoreUp(v, down, upOff + Corner(g), g, d, i, 2 * i - d, x);
    assert Corner(g) + 2 * (i + 1) - d == k + 2;
  }

  /** Follows the diagonal edges that enter u on diagonal k. */
  method FollowSnakeBack(data1: seq<int>, data2: seq<int>, k: int, u: int) returns (x: int)
    requires u <= |data1| && u - k <= |data2|
    ensures Snake(Grid(data1, data2, false), k, x, u) && !MatchOn(Grid(data1, data2, false), k, x - 1)
  {
    x := u;
    while x > 0 && x > k && data1[x - 1] == data2[x - k - 1]
      invariant x <= u
      invariant Snake(Grid(data1, data2, false), k, x, u)
    {
      x := x - 1;
    }
  }

  /** Pass d of the search from the far corner, against row d of the search from the origin. */
  method BackwardPass(data1: seq<int>, data2: seq<int>, v: array<int>, downOff: int, upOff: int, d: int, ghost g: Grid)
    returns (found: bool, k: int, x: int, u: int)
    requires g == Grid(data1, data2, false)
    requires BackwardState(v[..], downOff, upOff, g, d, 0)
    modifies v
    ensures if found then OptimalSnake(g, k, x, u)
            else BackwardState(v[..], downOff, upOff, g, d, d + 1)
  {
    var upK := |data1| - |data2|;
    var odd := upK % 2 != 0;
    var upKPlusD, upKMinusD := upK + d, upK - d;
    ghost var i := 0;
    var z := v[upOff + upKMinusD - 1];
    k, u, x := upKMinusD, 0, 0;
    while k <= upKPlusD
      invariant k == upK + 2 * i - d
      invariant 0 < i <= d ==> z == v[upOff + k - 1]
      invariant BackwardState(v[..], downOff, upOff, g, d, i)
    {
      ghost var left, right := z, if i < d then v[upOff + k + 1] else 0;
      UpLanding(v[..], upOff, g, d, i, k, left, right);
      x := z;
      if k < upKPlusD {
        z := v[upOff + k + 1];
        if k == upKMinusD || z <= x {
          x := z - 1;
        }
      }
      u := x;
      x := FollowSnakeBack(data1, data2, k, u);
      ghost var row := v[..];
      BackwardCell(row, downOff, upOff, g, d, i, k, left, right, u, x);
      if !odd && -d <= k && k <= d && x <= v[downOff + k] {
        return true, k, x, u;
      }
      v[upOff + k] := x;
      assert v[..] == row[upOff + k := x];
      k := k + 2;
      i := i + 1;
    }
    found := false;
  }

  lemma BeginSearch(v: seq<int>, down: int, upOff: int, g: Grid)
    requires g.a != [] && g.b != []
    requires !g.Match(0, 0) && !g.Match(|g.a| - 1, |g.b| - 1)
    requires Windows(v, down, upOff + Corner(g), 1)
    requires v[down] == 0 && v[upOff + Corner(g)] == |g.a|
    ensures ForwardState(v, down, upOff, g, 1, 0)
  {
    AtLeastTwoEdits(g);
    FurthestStart(g);
    FurthestStart(g.Flip());
    assert DownCell(v, down, g, 0, 0);
    assert UpCell(v, upOff + Corner(g), g, 0, 0);
    ApartBelow(g, 1, 0, -1);
  }

  /** A forward pass without overlap rules out the distance 2d - 1. */
  lemma TurnBackward(v: seq<int>, down: int, upOff: int, g: Grid, d: int)
    requires ForwardState(v, down, upOff, g, d, d + 1)
    ensures BackwardState(v, down, upOff, g, d, 0)
  {
    if Corner(g) % 2 != 0 {
      ApartMeans(g, d, d - 1, d + 2);
    }
    DistanceParity(g);
    ApartBelow(g, d, d, Corner(g) - d);
  }

  /** A backward pass without overlap rules out the distance 2d, so there is room for pass d + 1. */
  lemma TurnForward(v: seq<int>, down: int, upOff: int, g: Grid, d: int)
    requires BackwardState(v, down, upOff, g, d, d + 1)
    requires down == |g.a| + |g.b| + 1 && upOff + Corner(g) == 3 * down + 2 && 4 * down + 2 <= |v|
    ensures ForwardState(v, down, upOff, g, d + 1, 0)
    ensures 2 * (d + 1) - 1 <= |g.a| + |g.b|
  {
    if Corner(g) % 2 == 0 {
      ApartMeans(g, d, d, Corner(g) + d + 2);
    }
    DistanceParity(g);
    ApartBelow(g, d + 1, d, -(d + 1));
  }

  lemma DistanceParity(g: Grid)
    ensures g.Distance() % 2 == Corner(g) % 2
    ensures g.Distance() <= |g.a| + |g.b|
  {
    assert g.Distance() == Corner(g) + 2 * (|g.b| - g.Total());
  }

  /** Finds a middle snake. The rows that earlier calls left in v are overwritten before they are read. */
  method AlgorithmSms(data1: seq<int>, data2: seq<int>, v: array<int>)
    returns (x0: int, y0: int, x1: int, y1: int)
    requires data1 != [] && data2 != []
    requires data1[0] != data2[0] && data1[|data1| - 1] != data2[|data2| - 1]
    requires v.Length >= 4 * (|data1| + |data2| + 1) + 4
    modifies v
    ensures MiddleSnake(data1, data2, x0, y0, x1, y1)
    ensures 0 < x0 + y0 && x1 + y1 < |data1| + |data2|
  {
    var end1, end2 := |data1|, |data2|;
    var max := end1 + end2 + 1;
    var upK := end1 - end2;
    var downOff, upOff := max, max - upK + max + max + 2;

    v[downOff + 1] := 0;
    v[downOff] := 0;
    v[upOff + upK - 1] := end1;
    v[upOff + upK] := end1;

    ghost var g := Grid(data1, data2, false);
    BeginSearch(v[..], downOff, upOff, g);
    var d := 1;
    while true
      invariant ForwardState(v[..], downOff, upOff, g, d, 0)
      invariant d == 1 || 2 * d - 1 <= end1 + end2
      decreases end1 + end2 - d
    {
      var found, k, u, x := ForwardPass(data1, data2, v, downOff, upOff, d, g);
      if found {
        x0, y0, x1, y1 := u, u - k, x, x - k;
        OptimalSnakeIsMiddle(data1, data2, x0, y0, x1, y1);
        return;
      }
      TurnBackward(v[..], downOff, upOff, g, d);
      found, k, x, u := BackwardPass(data1, data2, v, downOff, upOff, d, g);
      if found {
        x0, y0, x1, y1 := x, x - k, u, u - k;
        OptimalSnakeIsMiddle(data1, data2, x0, y0, x1, y1);
        return;
      }
      TurnForward(v[..], downOff, upOff, g, d);
      d := d + 1;
    }
  }
}
