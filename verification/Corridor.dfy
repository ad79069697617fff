/** One bot move seen on the grid of tile edges: centring and advancing keep a wall-clear bot clear. */
module Corridor {
  import opened Wrappers
  import opened Grid
  import opened World
  import opened Steering
  import opened MovementSafety

  function ColEdge(m: MapData, k: int): real {
    Left(m) + k as real * m.tileSize
  }

  function RowEdge(m: MapData, k: int): real {
    Top(m) - k as real * m.tileSize
  }

  lemma EdgeStep(m: MapData, k: int)
    ensures ColEdge(m, k + 1) == ColEdge(m, k) + m.tileSize
    ensures RowEdge(m, k + 1) == RowEdge(m, k) - m.tileSize
  {
  }

  lemma EdgeOrder(m: MapData, j: int, k: int)
    requires m.tileSize > 0.0 && j <= k
    ensures ColEdge(m, j) <= ColEdge(m, k) && RowEdge(m, k) <= RowEdge(m, j)
  {
    if j < k {
      MulPositive((k - j) as real, m.tileSize);
      assert (k - j) as real * m.tileSize == k as real * m.tileSize - j as real * m.tileSize;
    }
  }

  /** The distance from a coordinate to an interval. */
  function Gap(u: real, lo: real, hi: real): real {
    AbsReal(u - Clamp(u, lo, hi))
  }

  predicate BoxHit(m: MapData, p: Vector2, r: real, x: int, y: int) {
    var dx := Gap(p.x, ColEdge(m, x), ColEdge(m, x + 1));
    var dy := Gap(p.y, RowEdge(m, y + 1), RowEdge(m, y));
    dx * dx + dy * dy <= r * r
  }

  predicate Inside(m: MapData, p: Vector2, r: real) {
    && ColEdge(m, 0) <= p.x - r && p.x + r <= ColEdge(m, m.width)
    && RowEdge(m, m.height) <= p.y - r && p.y + r <= RowEdge(m, 0)
  }

  lemma TileHitIsBoxHit(m: MapData, p: Vector2, r: real, x: int, y: int)
    requires m.tileSize > 0.0
    ensures CircleIntersectsTile(m, p, r, x, y) <==> BoxHit(m, p, r, x, y)
  {
    TileOnEdges(m, x, y);
    hide WorldPos, ColEdge, RowEdge, Clamp, Gap;
    GapSquared(p.x, ColEdge(m, x), ColEdge(m, x + 1));
    GapSquared(p.y, RowEdge(m, y + 1), RowEdge(m, y));
  }

  lemma TileOnEdges(m: MapData, x: int, y: int)
    requires m.tileSize > 0.0
    ensures WorldPos(m, x, y).x - m.tileSize * 0.5 == ColEdge(m, x) && WorldPos(m, x, y).x + m.tileSize * 0.5 == ColEdge(m, x + 1)
    ensures WorldPos(m, x, y).y - m.tileSize * 0.5 == RowEdge(m, y + 1) && WorldPos(m, x, y).y + m.tileSize * 0.5 == RowEdge(m, y)
  {
    TileBox(m, x, y);
    hide WorldPos;
  }

  lemma GapSquared(u: real, lo: real, hi: real)
    ensures Gap(u, lo, hi) * Gap(u, lo, hi) == (u - Clamp(u, lo, hi)) * (u - Clamp(u, lo, hi))
  {
  }

  lemma InsideIsNotOutside(m: MapData, p: Vector2, r: real)
    requires Rectangular(m)
    ensures OutsideMap(m, p, r) <==> !Inside(m, p, r)
  {
    TileBox(m, 0, 0);
    TileBox(m, m.width - 1, 0);
    TileBox(m, 0, m.height - 1);
    hide WorldPos;
    assert ColEdge(m, m.width) == Left(m) + (m.width - 1 + 1) as real * m.tileSize;
    assert RowEdge(m, m.height) == Top(m) - (m.height - 1 + 1) as real * m.tileSize;
  }

  lemma ClearOnEdges(m: MapData, p: Vector2, radius: real)
    requires Rectangular(m)
    ensures var r := Max(radius, 0.0);
            Clear(m, p, radius) <==>
            Inside(m, p, r) && forall x, y :: Blocking(m, BlocksPlayer, x, y) ==> !BoxHit(m, p, r, x, y)
  {
    var r := Max(radius, 0.0);
    hide CircleIntersectsTile, OutsideMap, BoxHit, Inside;
    InsideIsNotOutside(m, p, r);
    forall x, y
      ensures CircleIntersectsTile(m, p, r, x, y) <==> BoxHit(m, p, r, x, y)
    {
      TileHitIsBoxHit(m, p, r, x, y);
    }
  }

  // ---------- Moving along one coordinate, against one blocking interval ----------

  /** Moving from u to u' along one axis gets no closer to the interval, or stays out of its reach. */
  predicate Harmless(u: real, u': real, lo: real, hi: real, r: real) {
    Gap(u', lo, hi) >= Gap(u, lo, hi) || Gap(u', lo, hi) > r
  }

  lemma CenteringIsHarmless(u: real, u': real, c0: real, c1: real, lo: real, hi: real, r: real)
    requires c0 <= u <= c1 && lo <= hi && r < (c1 - c0) / 2.0
    requires u <= u' <= (c0 + c1) / 2.0 || (c0 + c1) / 2.0 <= u' <= u
    requires hi <= c0 || c1 <= lo || (lo == c0 && hi == c1)
    ensures Harmless(u, u', lo, hi, r)
  {
  }

  lemma AdvancingIsHarmless(u: real, u': real, c0: real, c1: real, step: real, lo: real, hi: real, r: real)
    requires c0 <= u <= c1 && lo <= hi && 0.0 < step && step + r < c1 - c0
    requires (u' == u + step && (hi <= c0 || lo >= c1 + (c1 - c0))) || (u' == u - step && (lo >= c1 || hi <= c0 - (c1 - c0)))
    ensures Harmless(u, u', lo, hi, r)
  {
  }

  lemma HarmlessKeepsMiss(m: MapData, p: Vector2, p': Vector2, r: real, x: int, y: int)
    requires r >= 0.0 && !BoxHit(m, p, r, x, y)
    requires || (p'.y == p.y && Harmless(p.x, p'.x, ColEdge(m, x), ColEdge(m, x + 1), r))
             || (p'.x == p.x && Harmless(p.y, p'.y, RowEdge(m, y + 1), RowEdge(m, y), r))
    ensures !BoxHit(m, p', r, x, y)
  {
    hide ColEdge, RowEdge;
    var dx := Gap(p.x, ColEdge(m, x), ColEdge(m, x + 1));
    var dy := Gap(p.y, RowEdge(m, y + 1), RowEdge(m, y));
    var dx' := Gap(p'.x, ColEdge(m, x), ColEdge(m, x + 1));
    var dy' := Gap(p'.y, RowEdge(m, y + 1), RowEdge(m, y));
    assert dx >= 0.0 && dy >= 0.0;
    hide Gap;
    MissByGaps(dx, dy, dx', dy', r);
  }

  lemma MissByGaps(dx: real, dy: real, dx': real, dy': real, r: real)
    requires r >= 0.0 && dx * dx + dy * dy > r * r
    requires dx >= 0.0 && dy >= 0.0
    requires (dy' == dy && (dx' >= dx || dx' > r)) || (dx' == dx && (dy' >= dy || dy' > r))
    ensures dx' * dx' + dy' * dy' > r * r
  {
    assert dx' * dx' >= 0.0 && dy' * dy' >= 0.0;
    if dx' > r {
      SquareLess(r, dx');
    } else if dy' > r {
      SquareLess(r, dy');
    } else {
      SquareOrder(dx, dx');
      SquareOrder(dy, dy');
    }
  }

  // ---------- Where a position is on the grid ----------

  ghost predicate InTile(m: MapData, p: Vector2, t: Tile) {
    && 0 <= t.x < m.width && 0 <= t.y < m.height
    && ColEdge(m, t.x) <= p.x < ColEdge(m, t.x + 1)
    && RowEdge(m, t.y + 1) < p.y <= RowEdge(m, t.y)
  }

  lemma TileIffBetweenEdges(m: MapData, p: Vector2, t: Tile)
    requires Rectangular(m)
    ensures WorldToBotTile(m, p) == Some(t) <==> InTile(m, p, t)
  {
    hide Left, Top;
    assert Geometry(m) == Some(m);
    CellInRange(p.x - Left(m), m.tileSize, m.width, t.x);
    CellInRange(Top(m) - p.y, m.tileSize, m.height, t.y);
  }

  lemma CellInRange(a: real, size: real, n: int, k: int)
    requires size > 0.0
    ensures (0.0 <= a / size < n as real && (a / size).Floor == k)
       <==> (0 <= k < n && k as real * size <= a < (k + 1) as real * size)
  {
    FloorQuotient(a, size, k);
    FloorQuotient(a, size, k + 1);
    FloorBounds(a / size, n);
  }

  lemma FloorBounds(q: real, n: int)
    ensures q < 0.0 <==> q.Floor < 0
    ensures q >= n as real <==> q.Floor >= n
  {
  }

  lemma CellsAreOrdered(m: MapData, j: int, k: int)
    requires m.tileSize > 0.0 && j != k
    ensures ColEdge(m, j + 1) <= ColEdge(m, k) || ColEdge(m, k + 1) <= ColEdge(m, j)
    ensures RowEdge(m, j) <= RowEdge(m, k + 1) || RowEdge(m, k) <= RowEdge(m, j + 1)
    ensures j < k ==> ColEdge(m, j + 1) <= ColEdge(m, k) && RowEdge(m, k) <= RowEdge(m, j + 1)
    ensures k < j ==> ColEdge(m, k + 1) <= ColEdge(m, j) && RowEdge(m, j) <= RowEdge(m, k + 1)
  {
    if j < k {
      EdgeOrder(m, j + 1, k);
    } else {
      EdgeOrder(m, k + 1, j);
    }
  }

  function CenterX(m: MapData, t: Tile): real {
    (ColEdge(m, t.x) + ColEdge(m, t.x + 1)) / 2.0
  }

  function CenterY(m: MapData, t: Tile): real {
    (RowEdge(m, t.y) + RowEdge(m, t.y + 1)) / 2.0
  }

  lemma CenterIsWorldPos(m: MapData, t: Tile)
    requires m.tileSize > 0.0
    ensures WorldPos(m, t.x, t.y) == Vector2(CenterX(m, t), CenterY(m, t))
  {
    TileBox(m, t.x, t.y);
  }

  // ---------- The two kinds of move ----------

  lemma CenteringXKeepsClear(m: MapData, p: Vector2, p': Vector2, t: Tile, radius: real)
    requires Rectangular(m) && InTile(m, p, t) && Clear(m, p, radius)
    requires Max(radius, 0.0) < m.tileSize / 2.0 && p'.y == p.y
    requires var c := CenterX(m, t); p.x <= p'.x <= c || c <= p'.x <= p.x
    ensures Clear(m, p', radius) && InTile(m, p', t)
  {
    var r := Max(radius, 0.0);
    hide ColEdge, RowEdge, BoxHit, Clear, Gap;
    EdgeStep(m, t.x);
    ClearOnEdges(m, p, radius);
    ClearOnEdges(m, p', radius);
    EdgeOrder(m, 0, t.x);
    EdgeOrder(m, t.x + 1, m.width);
    forall x, y | Blocking(m, BlocksPlayer, x, y)
      ensures !BoxHit(m, p', r, x, y)
    {
      EdgeStep(m, x);
      if x != t.x {
        CellsAreOrdered(m, x, t.x);
      }
      CenteringIsHarmless(p.x, p'.x, ColEdge(m, t.x), ColEdge(m, t.x + 1), ColEdge(m, x), ColEdge(m, x + 1), r);
      HarmlessKeepsMiss(m, p, p', r, x, y);
    }
  }

  lemma CenteringYKeepsClear(m: MapData, p: Vector2, p': Vector2, t: Tile, radius: real)
    requires Rectangular(m) && InTile(m, p, t) && Clear(m, p, radius)
    requires Max(radius, 0.0) < m.tileSize / 2.0 && p'.x == p.x
    requires var c := CenterY(m, t); p.y <= p'.y <= c || c <= p'.y <= p.y
    ensures Clear(m, p', radius) && InTile(m, p', t)
  {
    var r := Max(radius, 0.0);
    hide ColEdge, RowEdge, BoxHit, Clear, Gap;
    EdgeStep(m, t.y);
    ClearOnEdges(m, p, radius);
    ClearOnEdges(m, p', radius);
    EdgeOrder(m, 0, t.y);
    EdgeOrder(m, t.y + 1, m.height);
    forall x, y | Blocking(m, BlocksPlayer, x, y)
      ensures !BoxHit(m, p', r, x, y)
    {
      EdgeStep(m, y);
      if y != t.y {
        CellsAreOrdered(m, y, t.y);
      }
      CenteringIsHarmless(p.y, p'.y, RowEdge(m, t.y + 1), RowEdge(m, t.y), RowEdge(m, y + 1), RowEdge(m, y), r);
      HarmlessKeepsMiss(m, p, p', r, x, y);
    }
  }

  /** A full step along the column into or towards the next passable tile. */
  lemma AdvancingYKeepsClear(m: MapData, p: Vector2, p': Vector2, t: Tile, next: Tile, step: real, radius: real)
    requires Rectangular(m) && InTile(m, p, t) && Clear(m, p, radius)
    requires Passable(m, t) && Passable(m, next) && next.x == t.x && (next.y == t.y + 1 || next.y == t.y - 1)
    requires var r := Max(radius, 0.0); r < m.tileSize / 2.0 - COMPARE_EPS && 0.0 < step && step + r < m.tileSize
    requires AbsReal(CenterX(m, t) - p.x) <= COMPARE_EPS
    requires p'.x == p.x && p'.y == (if next.y > t.y then p.y - step else p.y + step)
    ensures Clear(m, p', radius) && (InTile(m, p', t) || InTile(m, p', next))
  {
    var r := Max(radius, 0.0);
    hide ColEdge, RowEdge, BoxHit, Clear, Gap;
    EdgeStep(m, t.x);
    EdgeStep(m, t.y);
    EdgeStep(m, next.y);
    ClearOnEdges(m, p, radius);
    ClearOnEdges(m, p', radius);
    EdgeOrder(m, 0, next.y);
    EdgeOrder(m, next.y + 1, m.height);
    forall x, y | Blocking(m, BlocksPlayer, x, y)
      ensures !BoxHit(m, p', r, x, y)
    {
      EdgeStep(m, x);
      EdgeStep(m, y);
      if x != t.x {
        CellsAreOrdered(m, x, t.x);
        AwayFromColumn(p'.x, ColEdge(m, t.x), ColEdge(m, t.x + 1), ColEdge(m, x), ColEdge(m, x + 1), r);
        OtherColumnMisses(m, p', r, x, y);
      } else {
        assert y != t.y && y != next.y;
        CellsAreOrdered(m, y, t.y);
        CellsAreOrdered(m, y, next.y);
        AdvancingIsHarmless(p.y, p'.y, RowEdge(m, t.y + 1), RowEdge(m, t.y), step, RowEdge(m, y + 1), RowEdge(m, y), r);
        HarmlessKeepsMiss(m, p, p', r, x, y);
      }
    }
  }

  lemma AwayFromColumn(u: real, c0: real, c1: real, lo: real, hi: real, r: real)
    requires AbsReal((c0 + c1) / 2.0 - u) <= COMPARE_EPS && r < (c1 - c0) / 2.0 - COMPARE_EPS
    requires lo <= hi && (hi <= c0 || c1 <= lo)
    ensures Gap(u, lo, hi) > r
  {
  }

  lemma OtherColumnMisses(m: MapData, p: Vector2, r: real, x: int, y: int)
    requires r >= 0.0 && Gap(p.x, ColEdge(m, x), ColEdge(m, x + 1)) > r
    ensures !BoxHit(m, p, r, x, y)
  {
    hide ColEdge, RowEdge;
    var dx := Gap(p.x, ColEdge(m, x), ColEdge(m, x + 1));
    var dy := Gap(p.y, RowEdge(m, y + 1), RowEdge(m, y));
    hide Gap;
    SquareLess(r, dx);
    assert dy * dy >= 0.0;
  }

  lemma OtherRowMisses(m: MapData, p: Vector2, r: real, x: int, y: int)
    requires r >= 0.0 && Gap(p.y, RowEdge(m, y + 1), RowEdge(m, y)) > r
    ensures !BoxHit(m, p, r, x, y)
  {
    hide ColEdge, RowEdge;
    var dx := Gap(p.x, ColEdge(m, x), ColEdge(m, x + 1));
    var dy := Gap(p.y, RowEdge(m, y + 1), RowEdge(m, y));
    hide Gap;
    SquareLess(r, dy);
    assert dx * dx >= 0.0;
  }

  /** A full step along the row into or towards the next passable tile. */
  lemma AdvancingXKeepsClear(m: MapData, p: Vector2, p': Vector2, t: Tile, next: Tile, step: real, radius: real)
    requires Rectangular(m) && InTile(m, p, t) && Clear(m, p, radius)
    requires Passable(m, t) && Passable(m, next) && next.y == t.y && (next.x == t.x + 1 || next.x == t.x - 1)
    requires var r := Max(radius, 0.0); r < m.tileSize / 2.0 - COMPARE_EPS && 0.0 < step && step + r < m.tileSize
    requires AbsReal(CenterY(m, t) - p.y) <= COMPARE_EPS
    requires p'.y == p.y && p'.x == (if next.x > t.x then p.x + step else p.x - step)
    ensures Clear(m, p', radius) && (InTile(m, p', t) || InTile(m, p', next))
  {
    var r := Max(radius, 0.0);
    hide ColEdge, RowEdge, BoxHit, Clear, Gap;
    EdgeStep(m, t.y);
    EdgeStep(m, t.x);
    EdgeStep(m, next.x);
    ClearOnEdges(m, p, radius);
    ClearOnEdges(m, p', radius);
    EdgeOrder(m, 0, next.x);
    EdgeOrder(m, next.x + 1, m.width);
    forall x, y | Blocking(m, BlocksPlayer, x, y)
      ensures !BoxHit(m, p', r, x, y)
    {
      EdgeStep(m, x);
      EdgeStep(m, y);
      if y != t.y {
        CellsAreOrdered(m, y, t.y);
        AwayFromColumn(p'.y, RowEdge(m, t.y + 1), RowEdge(m, t.y), RowEdge(m, y + 1), RowEdge(m, y), r);
        OtherRowMisses(m, p', r, x, y);
      } else {
        assert x != t.x && x != next.x;
        CellsAreOrdered(m, x, t.x);
        CellsAreOrdered(m, x, next.x);
        AdvancingIsHarmless(p.x, p'.x, ColEdge(m, t.x), ColEdge(m, t.x + 1), step, ColEdge(m, x), ColEdge(m, x + 1), r);
        HarmlessKeepsMiss(m, p, p', r, x, y);
      }
    }
  }
}
