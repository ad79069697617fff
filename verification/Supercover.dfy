/** The grid traversal that lists every tile a straight segment passes through. */
module Supercover {
  import opened Grid
  import opened World
  import opened Steering

  const TIE_EPS: real := 0.000000000001

  /** One coordinate of the segment, in tiles: it starts at `start` and moves by `delta` as time goes from 0 to 1. */
  datatype Axis = Axis(start: real, delta: real)

  function Step(a: Axis): int {
    if a.delta > 0.0 then 1 else if a.delta < 0.0 then -1 else 0
  }

  function CellAt(a: Axis, t: real): int {
    (a.start + t * a.delta).Floor
  }

  /** The cell after `n` boundaries have been crossed. */
  function CellAfter(a: Axis, n: nat): int {
    a.start.Floor + Step(a) * n
  }

  function NextBoundary(a: Axis): real {
    if Step(a) > 0 then (a.start.Floor + 1) as real else a.start.Floor as real
  }

  function TDelta(a: Axis): real
    requires a.delta != 0.0
  {
    1.0 / AbsReal(a.delta)
  }

  /** The time of the crossing that follows `n` crossings. */
  function Crossing(a: Axis, n: nat): real
    requires a.delta != 0.0
  {
    (NextBoundary(a) - a.start) / a.delta + n as real * TDelta(a)
  }

  function TileAt(x: Axis, y: Axis, t: real): Tile {
    Tile(CellAt(x, t), CellAt(y, t))
  }

  function TileAfter(x: Axis, y: Axis, i: nat, j: nat): Tile {
    Tile(CellAfter(x, i), CellAfter(y, j))
  }

  /** A displacement for which crossings of one axis lie further apart than the tie tolerance. */
  predicate Small(a: Axis) {
    AbsReal(a.delta) < 1000000000000.0
  }

  function AbsInt(n: int): nat {
    if n < 0 then -n else n
  }

  // ---------- One axis ----------

  lemma CrossingOnLine(a: Axis, n: nat)
    requires a.delta != 0.0
    ensures a.start + Crossing(a, n) * a.delta == NextBoundary(a) + (Step(a) * n) as real
  {
    var u := (NextBoundary(a) - a.start) / a.delta;
    assert u * a.delta == NextBoundary(a) - a.start;
    var v := TDelta(a);
    assert v * AbsReal(a.delta) == 1.0;
    assert v * a.delta == Step(a) as real;
    var k := n as real;
    assert (u + k * v) * a.delta == u * a.delta + k * (v * a.delta);
  }

  lemma Scaled(s: real, t: real, d: real)
    requires s < t
    ensures d > 0.0 ==> s * d < t * d
    ensures d < 0.0 ==> s * d > t * d
  {
    var e := t - s;
    assert t * d - s * d == e * d;
    if d > 0.0 { MulPositive(e, d); }
    if d < 0.0 { MulPositive(e, -d); }
  }

  /** How many boundaries lie behind the point at time `t`, between two bounds on the crossing times. */
  lemma CellBounds(a: Axis, t: real, n: nat)
    requires a.delta != 0.0
    ensures t < Crossing(a, n) ==> Step(a) * (CellAt(a, t) - a.start.Floor) <= n
    ensures t > Crossing(a, n) ==> Step(a) * (CellAt(a, t) - a.start.Floor) >= n + 1
    ensures t == Crossing(a, n) ==> n <= Step(a) * (CellAt(a, t) - a.start.Floor) <= n + 1
  {
    CrossingOnLine(a, n);
    var c := Crossing(a, n);
    if t < c { Scaled(t, c, a.delta); }
    if t > c { Scaled(c, t, a.delta); }
    hide Crossing, NextBoundary;
    CellsBehind(a, a.start + t * a.delta, a.start + c * a.delta, n);
  }

  /** The same for a coordinate `x` and the place `b` of the crossing. */
  lemma CellsBehind(a: Axis, x: real, b: real, n: nat)
    requires a.delta != 0.0 && b == NextBoundary(a) + (Step(a) * n) as real
    ensures var behind := Step(a) * (x.Floor - a.start.Floor);
      && ((if a.delta > 0.0 then x < b else x > b) ==> behind <= n)
      && ((if a.delta > 0.0 then x > b else x < b) ==> behind >= n + 1)
      && (x == b ==> n <= behind <= n + 1)
  {
  }

  /** Time only moves the cell one way. */
  lemma CellMonotone(a: Axis, s: real, t: real)
    requires s <= t
    ensures Step(a) * CellAt(a, s) <= Step(a) * CellAt(a, t)
    ensures Step(a) == 0 ==> CellAt(a, s) == CellAt(a, t) == a.start.Floor
  {
    if s < t { Scaled(s, t, a.delta); }
    if a.delta == 0.0 {
      assert a.start + s * a.delta == a.start && a.start + t * a.delta == a.start;
    }
  }

  lemma Reciprocal(d: real, bound: real)
    requires 0.0 < d
    ensures 1.0 / d > 0.0
    ensures d < bound ==> 1.0 / bound < 1.0 / d
  {
    var v := 1.0 / d;
    assert v * d == 1.0;
    if d < bound {
      var w := 1.0 / bound;
      assert w * bound == 1.0;
      MulPositive(bound, bound - d);
      assert (v - w) * (d * bound) == bound - d;
      MulPositive(d, bound);
      PositiveFactor(v - w, d * bound);
    }
  }

  lemma PositiveFactor(a: real, b: real)
    requires b > 0.0 && a * b > 0.0
    ensures a > 0.0
  {
  }

  lemma CrossingsAdvance(a: Axis, n: nat)
    requires a.delta != 0.0
    ensures Crossing(a, n + 1) == Crossing(a, n) + TDelta(a) && TDelta(a) > 0.0
    ensures Small(a) ==> TDelta(a) > TIE_EPS
  {
    Reciprocal(AbsReal(a.delta), 1000000000000.0);
    var v := TDelta(a);
    assert (n + 1) as real * v == n as real * v + v;
  }

  /** Up to time 1 an axis crosses no more boundaries than its end lies away, and one more at the end itself. */
  lemma CrossingsInTime(a: Axis, n: nat)
    requires a.delta != 0.0 && Crossing(a, n) <= 1.0
    ensures n <= AbsInt(CellAt(a, 1.0) - a.start.Floor)
  {
    CellBounds(a, 1.0, n);
  }

  /** Between the last crossing it has made and the next but one, an axis is in one of two cells. */
  lemma AxisBetween(a: Axis, n: nat, next: nat, t: real)
    requires 0.0 <= t && n <= next <= n + 1
    requires a.delta == 0.0 ==> next == 0
    requires a.delta != 0.0 ==> (n > 0 ==> Crossing(a, n - 1) < t) && t < Crossing(a, next)
    ensures CellAt(a, t) == CellAfter(a, n) || CellAt(a, t) == CellAfter(a, next)
  {
    CellMonotone(a, 0.0, t);
    assert a.start + 0.0 * a.delta == a.start;
    if a.delta != 0.0 {
      CellBounds(a, t, next);
      if n > 0 { CellBounds(a, t, n - 1); }
    }
  }

  /** Once an axis is in its last cell it stays there. */
  lemma AxisAtEnd(a: Axis, n: nat, t: real)
    requires 0.0 <= t <= 1.0 && CellAt(a, 1.0) == CellAfter(a, n)
    requires a.delta == 0.0 ==> n == 0
    requires a.delta != 0.0 && n > 0 ==> Crossing(a, n - 1) < t
    ensures CellAt(a, t) == CellAfter(a, n)
  {
    CellMonotone(a, 0.0, t);
    CellMonotone(a, t, 1.0);
    assert a.start + 0.0 * a.delta == a.start;
    if a.delta != 0.0 && n > 0 {
      CellBounds(a, t, n - 1);
    }
  }

  // ---------- The traversal's state ----------

  ghost predicate Before(x: Axis, y: Axis, nx: nat, ny: nat, t: real) {
    (x.delta != 0.0 ==> t < Crossing(x, nx)) && (y.delta != 0.0 ==> t < Crossing(y, ny))
  }

  /** Column `i` is entered, within the tolerance, before row `j` is left, and the other way round. */
  ghost predicate Meets(x: Axis, y: Axis, i: nat, j: nat) {
    && (x.delta == 0.0 ==> i == 0) && (y.delta == 0.0 ==> j == 0)
    && (x.delta != 0.0 && i > 0 ==>
          Crossing(x, i - 1) <= 1.0 + TIE_EPS && (y.delta != 0.0 ==> Crossing(x, i - 1) <= Crossing(y, j) + TIE_EPS))
    && (y.delta != 0.0 && j > 0 ==>
          Crossing(y, j - 1) <= 1.0 + TIE_EPS && (x.delta != 0.0 ==> Crossing(y, j - 1) <= Crossing(x, i) + TIE_EPS))
  }

  /** The crossings made so far all come before the next ones. */
  ghost predicate Frontier(x: Axis, y: Axis, nx: nat, ny: nat) {
    && Meets(x, y, nx, ny)
    && (x.delta != 0.0 && y.delta != 0.0 ==>
          && (nx > 0 ==> Crossing(x, nx - 1) < Crossing(y, ny))
          && (ny > 0 ==> Crossing(y, ny - 1) < Crossing(x, nx)))
  }

  ghost predicate Covered(tiles: seq<Tile>, x: Axis, y: Axis, nx: nat, ny: nat) {
    forall t :: 0.0 <= t <= 1.0 && Before(x, y, nx, ny, t) ==> TileAt(x, y, t) in tiles
  }

  /** The listed tile lies on the segment, give or take the tolerance. */
  ghost predicate OnSegment(x: Axis, y: Axis, tile: Tile) {
    exists i: nat, j: nat :: Meets(x, y, i, j) && tile == TileAfter(x, y, i, j)
  }

  /** The next crossing of both axes lies past the segment's end. */
  predicate PastEnd(x: Axis, y: Axis, nx: nat, ny: nat) {
    (x.delta != 0.0 ==> Crossing(x, nx) > 1.0) && (y.delta != 0.0 ==> Crossing(y, ny) > 1.0)
  }

  predicate StepsY(x: Axis, y: Axis, nx: nat, ny: nat) {
    x.delta == 0.0 || (y.delta != 0.0 && Crossing(y, ny) < Crossing(x, nx) - TIE_EPS)
  }

  predicate StepsX(x: Axis, y: Axis, nx: nat, ny: nat) {
    y.delta == 0.0 || (x.delta != 0.0 && Crossing(x, nx) < Crossing(y, ny) - TIE_EPS)
  }

  lemma FrontierStart(x: Axis, y: Axis)
    ensures Frontier(x, y, 0, 0)
    ensures Covered([TileAfter(x, y, 0, 0)], x, y, 0, 0)
  {
    forall t | 0.0 <= t <= 1.0 && Before(x, y, 0, 0, t)
      ensures TileAt(x, y, t) == TileAfter(x, y, 0, 0)
    {
      AxisBetween(x, 0, 0, t);
      AxisBetween(y, 0, 0, t);
    }
  }

  /** What one step of the loop does to the frontier: one axis, or both within a tie. */
  lemma FrontierAdvances(x: Axis, y: Axis, nx: nat, ny: nat, mx: nat, my: nat)
    requires Small(x) && Small(y) && (x.delta != 0.0 || y.delta != 0.0)
    requires Frontier(x, y, nx, ny) && !PastEnd(x, y, nx, ny)
    requires mx == nx + if StepsY(x, y, nx, ny) then 0 else 1
    requires my == ny + if !StepsY(x, y, nx, ny) && StepsX(x, y, nx, ny) then 0 else 1
    ensures Frontier(x, y, mx, my)
    ensures Meets(x, y, mx, ny) && Meets(x, y, nx, my)
  {
    if x.delta != 0.0 { CrossingsAdvance(x, nx); }
    if y.delta != 0.0 { CrossingsAdvance(y, ny); }
    hide Crossing, TDelta;
  }

  /** The part of the segment between two frontiers lies in the tiles around the step. */
  lemma StepCovers(tiles: seq<Tile>, more: seq<Tile>, x: Axis, y: Axis, nx: nat, ny: nat, mx: nat, my: nat)
    requires Frontier(x, y, nx, ny) && Covered(tiles, x, y, nx, ny)
    requires nx <= mx <= nx + 1 && ny <= my <= ny + 1 && (x.delta == 0.0 ==> mx == 0) && (y.delta == 0.0 ==> my == 0)
    requires forall q :: q in tiles ==> q in more
    requires forall i: nat, j: nat :: i in {nx, mx} && j in {ny, my} ==> TileAfter(x, y, i, j) in more
    ensures Covered(more, x, y, mx, my)
  {
    hide Crossing, NextBoundary;
    forall t | 0.0 <= t <= 1.0 && Before(x, y, mx, my, t)
      ensures TileAt(x, y, t) in more
    {
      if !Before(x, y, nx, ny, t) {
        if x.delta != 0.0 && nx > 0 { CrossingsOrdered(x, nx); }
        if y.delta != 0.0 && ny > 0 { CrossingsOrdered(y, ny); }
        AxisBetween(x, nx, mx, t);
        AxisBetween(y, ny, my, t);
        var i := if CellAt(x, t) == CellAfter(x, nx) then nx else mx;
        var j := if CellAt(y, t) == CellAfter(y, ny) then ny else my;
        assert TileAt(x, y, t) == TileAfter(x, y, i, j);
      }
    }
  }

  lemma CrossingsOrdered(a: Axis, n: nat)
    requires a.delta != 0.0 && n > 0
    ensures Crossing(a, n - 1) < Crossing(a, n)
  {
    CrossingsAdvance(a, n - 1);
  }

  /** When the traversal stands on the last tile, the rest of the segment is in that tile. */
  lemma EndCovers(tiles: seq<Tile>, x: Axis, y: Axis, nx: nat, ny: nat)
    requires Frontier(x, y, nx, ny) && Covered(tiles, x, y, nx, ny)
    requires TileAfter(x, y, nx, ny) == TileAt(x, y, 1.0) && TileAfter(x, y, nx, ny) in tiles
    ensures forall t :: 0.0 <= t <= 1.0 ==> TileAt(x, y, t) in tiles
  {
    hide Crossing, NextBoundary;
    forall t | 0.0 <= t <= 1.0
      ensures TileAt(x, y, t) in tiles
    {
      if !Before(x, y, nx, ny, t) {
        if x.delta != 0.0 && nx > 0 { CrossingsOrdered(x, nx); }
        if y.delta != 0.0 && ny > 0 { CrossingsOrdered(y, ny); }
        AxisAtEnd(x, nx, t);
        AxisAtEnd(y, ny, t);
      }
    }
  }

  /** The step bound is never what ends the loop: while a crossing is due, few have been made. */
  lemma StepsSuffice(x: Axis, y: Axis, nx: nat, ny: nat)
    requires Frontier(x, y, nx, ny) && !PastEnd(x, y, nx, ny)
    ensures nx + ny <= AbsInt(CellAt(x, 1.0) - x.start.Floor) + AbsInt(CellAt(y, 1.0) - y.start.Floor) + 1
  {
    hide Crossing, NextBoundary;
    if x.delta != 0.0 && Crossing(x, nx) <= 1.0 {
      CrossingsInTime(x, nx);
      if y.delta != 0.0 && ny > 0 { CrossingsInTime(y, ny - 1); }
    } else {
      CrossingsInTime(y, ny);
      if x.delta != 0.0 && nx > 0 { CrossingsInTime(x, nx - 1); }
    }
  }

  // ---------- Corners ----------

  /** After `i` and `j` crossings the segment passes through a corner of the grid. */
  predicate Corner(x: Axis, y: Axis, i: nat, j: nat) {
    x.delta != 0.0 && y.delta != 0.0 && Crossing(x, i) == Crossing(y, j) <= 1.0
  }

  /** The segment ends in the corner, and its last tile is the one that it comes from. */
  predicate StopsShort(x: Axis, y: Axis, i: nat, j: nat) {
    Corner(x, y, i, j) && Crossing(x, i) == 1.0 && x.delta < 0.0 && y.delta < 0.0
  }

  ghost predicate SidesListed(tiles: seq<Tile>, x: Axis, y: Axis, i: nat, j: nat) {
    TileAfter(x, y, i + 1, j) in tiles && TileAfter(x, y, i, j + 1) in tiles
  }

  /** Of every corner passed so far both side cells are listed, and no corner is passed in which the segment stops short. */
  ghost predicate CornersListed(tiles: seq<Tile>, x: Axis, y: Axis, nx: nat, ny: nat) {
    forall i: nat, j: nat :: Corner(x, y, i, j) ==>
      && (i < nx <==> j < ny)
      && (i < nx ==> SidesListed(tiles, x, y, i, j))
      && (StopsShort(x, y, i, j) ==> nx <= i && ny <= j)
  }

  /** No listed tile lies beyond the crossings made. */
  ghost predicate Behind(tiles: seq<Tile>, x: Axis, y: Axis, nx: nat, ny: nat) {
    forall q :: q in tiles ==> Step(x) * (q.x - x.start.Floor) <= nx && Step(y) * (q.y - y.start.Floor) <= ny
  }

  lemma {:induction false} CrossingsIncrease(a: Axis, m: nat, n: nat)
    requires a.delta != 0.0
    ensures Crossing(a, m) < Crossing(a, n) <==> m < n
    decreases if m < n then n - m else m - n
  {
    hide Crossing, NextBoundary;
    if m < n {
      CrossingsOrdered(a, n);
      if m + 1 < n { CrossingsIncrease(a, m, n - 1); }
    } else if n < m {
      CrossingsOrdered(a, m);
      if n + 1 < m { CrossingsIncrease(a, m - 1, n); }
    }
  }

  /** A corner is passed on both axes or on none. */
  lemma PassedTogether(x: Axis, y: Axis, nx: nat, ny: nat, i: nat, j: nat)
    requires Frontier(x, y, nx, ny) && Corner(x, y, i, j)
    ensures i < nx <==> j < ny
  {
    hide Crossing, NextBoundary;
    if nx > 0 { CrossingsIncrease(x, nx - 1, i); }
    if ny > 0 { CrossingsIncrease(y, ny - 1, j); }
    CrossingsIncrease(x, i, nx);
    CrossingsIncrease(y, j, ny);
  }

  /** The end of the segment in a corner lies in the tile ahead on an axis that grows, and in the tile before on one that falls. */
  lemma EndInCorner(a: Axis, i: nat)
    requires a.delta != 0.0 && Crossing(a, i) == 1.0
    ensures CellAt(a, 1.0) == CellAfter(a, if a.delta > 0.0 then i + 1 else i)
  {
    CrossingOnLine(a, i);
  }

  /** The corner in which the segment stops short is not passed by one more step. */
  lemma StaysShort(x: Axis, y: Axis, nx: nat, ny: nat, mx: nat, my: nat, i: nat, j: nat)
    requires Small(x) && Small(y) && StopsShort(x, y, i, j) && nx <= i && ny <= j
    requires TileAfter(x, y, nx, ny) != TileAt(x, y, 1.0)
    requires mx == nx + if StepsY(x, y, nx, ny) then 0 else 1
    requires my == ny + if !StepsY(x, y, nx, ny) && StepsX(x, y, nx, ny) then 0 else 1
    ensures mx <= i && my <= j
  {
    EndInCorner(x, i);
    EndInCorner(y, j);
    hide Crossing, NextBoundary;
    assert nx < i || ny < j;
    if nx == i {
      CrossingsAdvance(y, ny);
      if ny + 1 < j { CrossingsIncrease(y, ny + 1, j); }
    } else if ny == j {
      CrossingsAdvance(x, nx);
      if nx + 1 < i { CrossingsIncrease(x, nx + 1, i); }
    }
  }

  lemma PassListsCorners(tiles: seq<Tile>, more: seq<Tile>, x: Axis, y: Axis, nx: nat, ny: nat, mx: nat, my: nat)
    requires Small(x) && Small(y) && Frontier(x, y, nx, ny) && Frontier(x, y, mx, my)
    requires CornersListed(tiles, x, y, nx, ny) && TileAfter(x, y, nx, ny) != TileAt(x, y, 1.0)
    requires mx == nx + if StepsY(x, y, nx, ny) then 0 else 1
    requires my == ny + if !StepsY(x, y, nx, ny) && StepsX(x, y, nx, ny) then 0 else 1
    requires forall q :: q in tiles ==> q in more
    requires TileAfter(x, y, mx, ny) in more && TileAfter(x, y, nx, my) in more
    ensures CornersListed(more, x, y, mx, my)
  {
    hide Crossing, Frontier, StepsX, StepsY, TileAt, TileAfter, StopsShort;
    forall i: nat, j: nat | Corner(x, y, i, j)
      ensures i < mx <==> j < my
      ensures i < mx ==> SidesListed(more, x, y, i, j)
      ensures StopsShort(x, y, i, j) ==> mx <= i && my <= j
    {
      PassedTogether(x, y, nx, ny, i, j);
      PassedTogether(x, y, mx, my, i, j);
      if StopsShort(x, y, i, j) { StaysShort(x, y, nx, ny, mx, my, i, j); }
      if nx <= i < mx { assert i == nx && j == ny && mx == nx + 1 && my == ny + 1; }
    }
  }

  /** The claim about corners in a finished list: both side cells, unless the segment stops short there; then neither. */
  ghost predicate AllCorners(tiles: seq<Tile>, x: Axis, y: Axis) {
    forall i: nat, j: nat :: Corner(x, y, i, j) ==>
      if StopsShort(x, y, i, j)
      then TileAfter(x, y, i + 1, j) !in tiles && TileAfter(x, y, i, j + 1) !in tiles
      else SidesListed(tiles, x, y, i, j)
  }

  lemma BehindCorner(tiles: seq<Tile>, x: Axis, y: Axis, nx: nat, ny: nat, i: nat, j: nat)
    requires Behind(tiles, x, y, nx, ny) && nx <= i && ny <= j && x.delta != 0.0 && y.delta != 0.0
    ensures TileAfter(x, y, i + 1, j) !in tiles && TileAfter(x, y, i, j + 1) !in tiles
  {
  }

  lemma CornersAtBreak(tiles: seq<Tile>, x: Axis, y: Axis, nx: nat, ny: nat)
    requires CornersListed(tiles, x, y, nx, ny) && Behind(tiles, x, y, nx, ny) && PastEnd(x, y, nx, ny)
    ensures AllCorners(tiles, x, y)
  {
    hide Crossing, Behind, SidesListed, TileAfter;
    forall i: nat, j: nat | Corner(x, y, i, j)
      ensures i < nx
    {
      CrossingsIncrease(x, i, nx);
    }
  }

  lemma CornersAtEnd(tiles: seq<Tile>, x: Axis, y: Axis, nx: nat, ny: nat)
    requires CornersListed(tiles, x, y, nx, ny) && Behind(tiles, x, y, nx, ny)
    requires TileAfter(x, y, nx, ny) == TileAt(x, y, 1.0)
    ensures AllCorners(tiles, x, y)
  {
    hide Crossing, Behind, SidesListed;
    forall i: nat, j: nat | Corner(x, y, i, j)
      ensures i < nx || StopsShort(x, y, i, j)
      ensures StopsShort(x, y, i, j) ==> TileAfter(x, y, i + 1, j) !in tiles && TileAfter(x, y, i, j + 1) !in tiles
    {
      CellBounds(x, 1.0, i);
      CellBounds(y, 1.0, j);
      if Crossing(x, i) == 1.0 {
        EndInCorner(x, i);
        EndInCorner(y, j);
      }
      if StopsShort(x, y, i, j) { BehindCorner(tiles, x, y, nx, ny, i, j); }
    }
  }

  // ---------- The loop ----------

  predicate Distinct(tiles: seq<Tile>) {
    forall i, j :: 0 <= i < j < |tiles| ==> tiles[i] != tiles[j]
  }

  function AppendUnique(tiles: seq<Tile>, tile: Tile): (more: seq<Tile>)
    ensures Distinct(tiles) ==> Distinct(more)
    ensures tiles <= more && forall q :: q in more <==> q in tiles || q == tile
  {
    if tile in tiles then tiles else tiles + [tile]
  }

  function GridX(g: MapData, p: Vector2): real
    requires g.tileSize > 0.0
  {
    (p.x - Left(g)) / g.tileSize
  }

  function GridY(g: MapData, p: Vector2): real
    requires g.tileSize > 0.0
  {
    (Top(g) - p.y) / g.tileSize
  }

  /**
   Every tile that a point of the segment lies in, once each, in the order in which the traversal meets
   them, and no tile further than the tie tolerance from the segment.
   */
  method SupercoverTiles(m: MapData, start: Vector2, end: Vector2) returns (tiles: seq<Tile>)
    ensures WorldToBotTile(m, start).None? ==> tiles == []
    ensures WorldToBotTile(m, start).Some? ==>
              var g := Geometry(m).value;
              var x := Axis(GridX(g, start), GridX(g, end) - GridX(g, start));
              var y := Axis(GridY(g, start), GridY(g, end) - GridY(g, start));
              && tiles != [] && tiles[0] == WorldToBotTile(m, start).value && Distinct(tiles)
              && (Small(x) && Small(y) ==>
                    && (forall t :: 0.0 <= t <= 1.0 ==> TileAt(x, y, t) in tiles)
                    && (forall q :: q in tiles ==> OnSegment(x, y, q))
                    && AllCorners(tiles, x, y))
  {
    var startTile := WorldToBotTile(m, start);
    if startTile.None? {
      return [];
    }
    var g := Geometry(m).value;
    var x := Axis(GridX(g, start), GridX(g, end) - GridX(g, start));
    var y := Axis(GridY(g, start), GridY(g, end) - GridY(g, start));
    tiles := Traverse(x, y, Tile(GridX(g, end).Floor, GridY(g, end).Floor));
  }

  lemma StandStill(x: Axis, y: Axis)
    requires Step(x) == 0 && Step(y) == 0
    ensures forall t :: TileAt(x, y, t) == TileAfter(x, y, 0, 0)
  {
    forall t
      ensures TileAt(x, y, t) == TileAfter(x, y, 0, 0)
    {
      CellMonotone(x, t, t);
      CellMonotone(y, t, t);
    }
  }

  lemma EndCells(x: Axis, y: Axis)
    ensures TileAt(x, y, 1.0) == Tile(CellAt(x, 1.0), CellAt(y, 1.0))
  {
  }

  lemma ListedOnSegment(x: Axis, y: Axis, i: nat, j: nat)
    requires Meets(x, y, i, j)
    ensures OnSegment(x, y, TileAfter(x, y, i, j))
  {
  }

  lemma FrontierMeets(x: Axis, y: Axis, nx: nat, ny: nat)
    requires Frontier(x, y, nx, ny)
    ensures Meets(x, y, nx, ny)
  {
  }

  lemma AllBefore(tiles: seq<Tile>, x: Axis, y: Axis, nx: nat, ny: nat)
    requires Covered(tiles, x, y, nx, ny) && PastEnd(x, y, nx, ny)
    ensures forall t :: 0.0 <= t <= 1.0 ==> TileAt(x, y, t) in tiles
  {
    assert forall t :: 0.0 <= t <= 1.0 ==> Before(x, y, nx, ny, t);
  }

  /** What the loop has established after `nx` and `ny` crossings. */
  ghost predicate Traversed(tiles: seq<Tile>, x: Axis, y: Axis, nx: nat, ny: nat) {
    Small(x) && Small(y) ==>
      && Frontier(x, y, nx, ny) && Covered(tiles, x, y, nx, ny)
      && (forall q :: q in tiles ==> OnSegment(x, y, q))
      && CornersListed(tiles, x, y, nx, ny) && Behind(tiles, x, y, nx, ny)
  }

  /** One pass of the loop, whichever branch it takes; `more` is the list with the new tiles. */
  lemma PassTraverses(tiles: seq<Tile>, more: seq<Tile>, x: Axis, y: Axis, nx: nat, ny: nat, mx: nat, my: nat)
    requires Traversed(tiles, x, y, nx, ny) && (x.delta != 0.0 || y.delta != 0.0) && !PastEnd(x, y, nx, ny)
    requires TileAfter(x, y, nx, ny) in tiles && TileAfter(x, y, nx, ny) != TileAt(x, y, 1.0)
    requires mx == nx + if StepsY(x, y, nx, ny) then 0 else 1
    requires my == ny + if !StepsY(x, y, nx, ny) && StepsX(x, y, nx, ny) then 0 else 1
    requires forall q :: q in more <==>
               q in tiles || q == TileAfter(x, y, mx, ny) || q == TileAfter(x, y, nx, my) || q == TileAfter(x, y, mx, my)
    ensures Traversed(more, x, y, mx, my)
  {
    hide Crossing, Meets, Covered, TileAfter, TileAt, Frontier, PastEnd, CornersListed, Behind;
    if Small(x) && Small(y) {
      FrontierAdvances(x, y, nx, ny, mx, my);
      FrontierMeets(x, y, mx, my);
      StandsWhere(x, y, mx, my);
      StepCovers(tiles, more, x, y, nx, ny, mx, my);
      ListedOnSegment(x, y, mx, ny);
      ListedOnSegment(x, y, nx, my);
      ListedOnSegment(x, y, mx, my);
      PassListsCorners(tiles, more, x, y, nx, ny, mx, my);
      PassStaysBehind(tiles, more, x, y, nx, ny, mx, my);
    }
  }

  lemma PassStaysBehind(tiles: seq<Tile>, more: seq<Tile>, x: Axis, y: Axis, nx: nat, ny: nat, mx: nat, my: nat)
    requires Behind(tiles, x, y, nx, ny) && nx <= mx && ny <= my
    requires forall q :: q in more ==>
               q in tiles || q == TileAfter(x, y, mx, ny) || q == TileAfter(x, y, nx, my) || q == TileAfter(x, y, mx, my)
    ensures Behind(more, x, y, mx, my)
  {
    StepForward(x, nx);
    StepForward(x, mx);
    StepForward(y, ny);
    StepForward(y, my);
    hide CellAfter;
  }

  lemma StepForward(a: Axis, n: nat)
    ensures Step(a) * (CellAfter(a, n) - a.start.Floor) <= n
  {
  }

  lemma TraversalStart(x: Axis, y: Axis)
    ensures Traversed([TileAfter(x, y, 0, 0)], x, y, 0, 0) && Distinct([TileAfter(x, y, 0, 0)])
    ensures OnSegment(x, y, TileAfter(x, y, 0, 0))
  {
    FrontierStart(x, y);
    FrontierMeets(x, y, 0, 0);
    ListedOnSegment(x, y, 0, 0);
    StepForward(x, 0);
    StepForward(y, 0);
  }

  /** The claim about a finished list. */
  ghost predicate Supercovers(tiles: seq<Tile>, x: Axis, y: Axis) {
    Small(x) && Small(y) ==>
      && (forall t :: 0.0 <= t <= 1.0 ==> TileAt(x, y, t) in tiles)
      && (forall q :: q in tiles ==> OnSegment(x, y, q))
      && AllCorners(tiles, x, y)
  }

  lemma AllTraversed(tiles: seq<Tile>, x: Axis, y: Axis, nx: nat, ny: nat)
    requires Traversed(tiles, x, y, nx, ny) && PastEnd(x, y, nx, ny)
    ensures Supercovers(tiles, x, y)
  {
    hide Crossing, Frontier, OnSegment, CornersListed, Behind, PastEnd, AllCorners;
    if Small(x) && Small(y) {
      AllBefore(tiles, x, y, nx, ny);
      CornersAtBreak(tiles, x, y, nx, ny);
    }
  }

  lemma EndTraversed(tiles: seq<Tile>, x: Axis, y: Axis, nx: nat, ny: nat)
    requires Traversed(tiles, x, y, nx, ny)
    requires TileAfter(x, y, nx, ny) == TileAt(x, y, 1.0) && TileAfter(x, y, nx, ny) in tiles
    ensures Supercovers(tiles, x, y)
  {
    hide Crossing, Frontier, OnSegment, CornersListed, Behind, AllCorners, TileAt, TileAfter;
    if Small(x) && Small(y) {
      EndCovers(tiles, x, y, nx, ny);
      CornersAtEnd(tiles, x, y, nx, ny);
    }
  }

  lemma FewSteps(tiles: seq<Tile>, x: Axis, y: Axis, nx: nat, ny: nat)
    requires Traversed(tiles, x, y, nx, ny) && !PastEnd(x, y, nx, ny)
    ensures Small(x) && Small(y) ==>
              nx + ny <= AbsInt(CellAt(x, 1.0) - x.start.Floor) + AbsInt(CellAt(y, 1.0) - y.start.Floor) + 1
  {
    if Small(x) && Small(y) { StepsSuffice(x, y, nx, ny); }
  }

  lemma StandsWhere(x: Axis, y: Axis, mx: nat, my: nat)
    requires Frontier(x, y, mx, my)
    ensures (x.delta == 0.0 ==> mx == 0) && (y.delta == 0.0 ==> my == 0)
  {
  }

  method Traverse(x: Axis, y: Axis, endTile: Tile) returns (tiles: seq<Tile>)
    requires endTile == TileAt(x, y, 1.0)
    ensures tiles != [] && tiles[0] == Tile(x.start.Floor, y.start.Floor) && Distinct(tiles)
    ensures Supercovers(tiles, x, y)
  {
    hide Crossing, Meets, Frontier, Covered, TileAt, TDelta, NextBoundary, Small, OnSegment, Distinct, AppendUnique, CellAt,
         AbsInt, Traversed;
    var current := Tile(x.start.Floor, y.start.Floor);
    tiles := [current];
    ghost var nx: nat, ny: nat := 0, 0;
    TraversalStart(x, y);
    assert current == TileAfter(x, y, 0, 0);
    if current == endTile {
      EndTraversed(tiles, x, y, 0, 0);
      return;
    }
    if Step(x) == 0 && Step(y) == 0 {
      StandStill(x, y);
      return;
    }
    EndCells(x, y);
    var maxSteps := AbsInt(endTile.x - current.x) + AbsInt(endTile.y - current.y) + 4;
    var tMaxX, tDeltaX := GridTraversal(x);
    var tMaxY, tDeltaY := GridTraversal(y);
    var step := 0;
    while step < maxSteps
      invariant tiles != [] && tiles[0] == Tile(x.start.Floor, y.start.Floor) && Distinct(tiles)
      invariant current == TileAfter(x, y, nx, ny) && current in tiles
      invariant x.delta != 0.0 ==> tMaxX == Crossing(x, nx)
      invariant y.delta != 0.0 ==> tMaxY == Crossing(y, ny)
      invariant Traversed(tiles, x, y, nx, ny) && current != endTile
      invariant step <= nx + ny
      invariant Small(x) && Small(y) ==> step < maxSteps
    {
      if (Step(x) == 0 || tMaxX > 1.0) && (Step(y) == 0 || tMaxY > 1.0) {
        AllTraversed(tiles, x, y, nx, ny);
        break;
      }
      FewSteps(tiles, x, y, nx, ny);
      if x.delta != 0.0 { CrossingsAdvance(x, nx); }
      if y.delta != 0.0 { CrossingsAdvance(y, ny); }
      ghost var before, ox, oy := tiles, nx, ny;
      if Step(x) == 0 || (Step(y) != 0 && tMaxY < tMaxX - TIE_EPS) {
        current := current.(y := current.y + Step(y));
        tMaxY := tMaxY + tDeltaY;
        ny := ny + 1;
        tiles := AppendUnique(tiles, current);
      } else if Step(y) == 0 || tMaxX < tMaxY - TIE_EPS {
        current := current.(x := current.x + Step(x));
        tMaxX := tMaxX + tDeltaX;
        nx := nx + 1;
        tiles := AppendUnique(tiles, current);
      } else {
        tiles := AppendUnique(tiles, Tile(current.x + Step(x), current.y));
        tiles := AppendUnique(tiles, Tile(current.x, current.y + Step(y)));
        current := Tile(current.x + Step(x), current.y + Step(y));
        tMaxX := tMaxX + tDeltaX;
        tMaxY := tMaxY + tDeltaY;
        nx := nx + 1;
        ny := ny + 1;
        tiles := AppendUnique(tiles, current);
      }
      PassTraverses(before, tiles, x, y, ox, oy, nx, ny);
      if current == endTile {
        EndTraversed(tiles, x, y, nx, ny);
        return;
      }
      step := step + 1;
    }
  }

  method GridTraversal(a: Axis) returns (tMax: real, tDelta: real)
    ensures a.delta != 0.0 ==> tMax == Crossing(a, 0) && tDelta == TDelta(a)
  {
    if Step(a) == 0 {
      return 0.0, 0.0;
    }
    return (NextBoundary(a) - a.start) / a.delta, 1.0 / AbsReal(a.delta);
  }

  function PointAt(start: Vector2, end: Vector2, t: real): Vector2 {
    Vector2(start.x + t * (end.x - start.x), start.y + t * (end.y - start.y))
  }

  /** The tiles by time are the tiles of the segment's points: what the bot would take each of them for. */
  lemma SegmentTiles(m: MapData, start: Vector2, end: Vector2, t: real)
    requires Geometry(m).Some?
    requires WorldToBotTile(m, PointAt(start, end, t)).Some?
    ensures var g := Geometry(m).value;
      TileAt(Axis(GridX(g, start), GridX(g, end) - GridX(g, start)), Axis(GridY(g, start), GridY(g, end) - GridY(g, start)), t)
        == WorldToBotTile(m, PointAt(start, end, t)).value
  {
    hide PointAt;
    var g := Geometry(m).value;
    hide Geometry;
    GridXAt(g, start, end, t);
    GridYAt(g, start, end, t);
  }

  lemma GridXAt(g: MapData, start: Vector2, end: Vector2, t: real)
    requires g.tileSize > 0.0
    ensures GridX(g, PointAt(start, end, t)) == GridX(g, start) + t * (GridX(g, end) - GridX(g, start))
  {
    GridInterpolates(start.x - Left(g), end.x - Left(g), g.tileSize, t);
  }

  lemma GridYAt(g: MapData, start: Vector2, end: Vector2, t: real)
    requires g.tileSize > 0.0
    ensures GridY(g, PointAt(start, end, t)) == GridY(g, start) + t * (GridY(g, end) - GridY(g, start))
  {
    GridInterpolates(Top(g) - start.y, Top(g) - end.y, g.tileSize, t);
  }

  lemma GridInterpolates(a: real, b: real, size: real, t: real)
    requires size > 0.0
    ensures (a + t * (b - a)) / size == a / size + t * (b / size - a / size)
  {
    var u, v := a / size, b / size;
    assert a == u * size && b == v * size;
    assert a + t * (b - a) == (u + t * (v - u)) * size;
    Quotient(u + t * (v - u), size);
  }

  lemma Quotient(q: real, size: real)
    requires size > 0.0
    ensures q * size / size == q
  {
  }
}
