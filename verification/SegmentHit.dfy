/** Line of sight: where a segment enters a box, and the first instant at which a wall or the map's edge blocks it. */
module SegmentHit {
  import opened Wrappers
  import opened Grid
  import opened World
  import opened MapCollision

  function Along(origin: real, direction: real, t: real): real {
    origin + t * direction
  }

  /** The point of the segment at instant `t`. */
  function PointAt(start: Vector2, end: Vector2, t: real): Vector2 {
    Vector2(Along(start.x, end.x - start.x, t), Along(start.y, end.y - start.y, t))
  }

  predicate InBox(p: Vector2, lo: Vector2, hi: Vector2) {
    lo.x <= p.x <= hi.x && lo.y <= p.y <= hi.y
  }

  /** Clips [enter, exit] to the instants at which one coordinate is between `lo` and `hi`. */
  function SegmentSlab(origin: real, direction: real, lo: real, hi: real, enter: real, exit: real): (real, real, bool) {
    if direction == 0.0 then (enter, exit, lo <= origin <= hi)
    else
      var a := (lo - origin) / direction;
      var b := (hi - origin) / direction;
      var near := Min(a, b);
      var far := Max(a, b);
      var enter' := if near > enter then near else enter;
      var exit' := if far < exit then far else exit;
      (enter', exit', enter' <= exit')
  }

  function SegmentAABBHit(start: Vector2, end: Vector2, lo: Vector2, hi: Vector2): Option<real> {
    var (enter, exit, ok) := SegmentSlab(start.x, end.x - start.x, lo.x, hi.x, 0.0, 1.0);
    if !ok then None
    else
      var (enter', _, ok') := SegmentSlab(start.y, end.y - start.y, lo.y, hi.y, enter, exit);
      if !ok' then None else Some(enter')
  }

  lemma QuotientOrder(v: real, direction: real, t: real)
    requires direction != 0.0
    ensures direction > 0.0 ==> (v / direction <= t <==> v <= t * direction)
    ensures direction > 0.0 ==> (t <= v / direction <==> t * direction <= v)
    ensures direction < 0.0 ==> (v / direction <= t <==> t * direction <= v)
    ensures direction < 0.0 ==> (t <= v / direction <==> v <= t * direction)
  {
    var q := v / direction;
    assert q * direction == v;
    var d := if direction > 0.0 then direction else -direction;
    if q < t {
      MulPositive(t - q, d);
      assert (t - q) * d == t * d - q * d;
    } else if q > t {
      MulPositive(q - t, d);
      assert (q - t) * d == q * d - t * d;
    }
  }

  /** The slab keeps exactly the instants at which the coordinate is inside. */
  lemma SlabIsExact(origin: real, direction: real, lo: real, hi: real, enter: real, exit: real, t: real)
    requires lo <= hi && enter <= exit
    ensures var (enter', exit', ok) := SegmentSlab(origin, direction, lo, hi, enter, exit);
            && (enter <= t <= exit && lo <= Along(origin, direction, t) <= hi <==> ok && enter' <= t <= exit')
            && (ok ==> enter <= enter' <= exit' <= exit)
  {
    if direction != 0.0 {
      QuotientOrder(lo - origin, direction, t);
      QuotientOrder(hi - origin, direction, t);
      QuotientOrder(lo - origin, direction, (hi - origin) / direction);
      assert (hi - origin) / direction * direction == hi - origin;
    }
  }

  /** Clipping by both slabs leaves the instants of the segment at which it is inside the box. */
  lemma ClipIsExact(start: Vector2, end: Vector2, lo: Vector2, hi: Vector2, t: real)
    requires lo.x <= hi.x && lo.y <= hi.y
    ensures var (enter, exit, ok) := SegmentSlab(start.x, end.x - start.x, lo.x, hi.x, 0.0, 1.0);
            var (enter', exit', ok') := SegmentSlab(start.y, end.y - start.y, lo.y, hi.y, enter, exit);
            && (0.0 <= t <= 1.0 && InBox(PointAt(start, end, t), lo, hi) <==> ok && ok' && enter' <= t <= exit')
            && (ok && ok' ==> 0.0 <= enter' <= exit' <= 1.0)
  {
    hide SegmentSlab, Along;
    var (enter, exit, ok) := SegmentSlab(start.x, end.x - start.x, lo.x, hi.x, 0.0, 1.0);
    SlabIsExact(start.x, end.x - start.x, lo.x, hi.x, 0.0, 1.0, t);
    if ok {
      SlabIsExact(start.y, end.y - start.y, lo.y, hi.y, enter, exit, t);
    }
  }

  /** The hit is the least instant in [0, 1] at which the segment is inside the box, if there is one. */
  lemma HitIsFirstInside(start: Vector2, end: Vector2, lo: Vector2, hi: Vector2)
    requires lo.x <= hi.x && lo.y <= hi.y
    ensures var hit := SegmentAABBHit(start, end, lo, hi);
            && (hit.None? ==> forall t :: 0.0 <= t <= 1.0 ==> !InBox(PointAt(start, end, t), lo, hi))
            && (hit.Some? ==> 0.0 <= hit.value <= 1.0 && InBox(PointAt(start, end, hit.value), lo, hi)
                              && forall t :: 0.0 <= t < hit.value ==> !InBox(PointAt(start, end, t), lo, hi))
  {
    hide SegmentSlab, InBox, PointAt;
    var hit := SegmentAABBHit(start, end, lo, hi);
    if hit.Some? {
      ClipIsExact(start, end, lo, hi, hit.value);
    }
    forall t: real | 0.0 <= t <= 1.0 && (hit.None? || t < hit.value)
      ensures !InBox(PointAt(start, end, t), lo, hi)
    {
      ClipIsExact(start, end, lo, hi, t);
    }
  }

  // ---------- The whole map ----------

  function TileMin(m: MapData, x: int, y: int): Vector2 {
    var c := WorldPos(m, x, y);
    Vector2(c.x - m.tileSize * 0.5, c.y - m.tileSize * 0.5)
  }

  function TileMax(m: MapData, x: int, y: int): Vector2 {
    var c := WorldPos(m, x, y);
    Vector2(c.x + m.tileSize * 0.5, c.y + m.tileSize * 0.5)
  }

  function MapMinCorner(m: MapData): Vector2 {
    Vector2(TileMin(m, 0, 0).x, TileMin(m, 0, m.height - 1).y)
  }

  function MapMaxCorner(m: MapData): Vector2 {
    Vector2(TileMax(m, m.width - 1, 0).x, TileMax(m, 0, 0).y)
  }

  predicate BlocksSight(code: nat) {
    code == WALL
  }

  function Earlier(a: Option<real>, b: Option<real>): Option<real> {
    if b.None? then a else if a.None? || b.value < a.value then b else a
  }

  /** When the ray crosses the map's edge on one axis. */
  function EdgeTime(start: real, direction: real, lo: real, hi: real): Option<real> {
    if direction > 0.0 then Some((hi - start) / direction)
    else if direction < 0.0 then Some((lo - start) / direction)
    else None
  }

  /** `t` is the least of the edge crossings and of the hits of every wall tile of the map. */
  ghost predicate IsFirstBlocking(m: MapData, start: Vector2, end: Vector2, r: Option<real>) {
    var lo, hi := MapMinCorner(m), MapMaxCorner(m);
    var edgeX := EdgeTime(start.x, end.x - start.x, lo.x, hi.x);
    var edgeY := EdgeTime(start.y, end.y - start.y, lo.y, hi.y);
    && (edgeX.Some? ==> r.Some? && r.value <= edgeX.value)
    && (edgeY.Some? ==> r.Some? && r.value <= edgeY.value)
    && (forall x, y :: Blocking(m, BlocksSight, x, y) && TileHit(m, start, end, x, y).Some?
          ==> r.Some? && r.value <= TileHit(m, start, end, x, y).value)
    && (r.Some? ==> r == edgeX || r == edgeY
                    || exists x, y :: Blocking(m, BlocksSight, x, y) && r == TileHit(m, start, end, x, y))
  }

  function TileHit(m: MapData, start: Vector2, end: Vector2, x: int, y: int): Option<real> {
    SegmentAABBHit(start, end, TileMin(m, x, y), TileMax(m, x, y))
  }

  lemma Between(a: real, b: real, t: real)
    requires 0.0 <= t <= 1.0
    ensures Min(a, b) <= Along(a, b - a, t) <= Max(a, b)
  {
    var d := AbsReal(b - a);
    MulNonNegative(t, d);
    MulNonNegative(1.0 - t, d);
    assert (1.0 - t) * d == d - t * d;
    if b < a {
      assert t * (b - a) == -(t * d);
    }
  }

  /** A tile that the segment hits is among the candidates. */
  lemma HitTileIsCandidate(m: MapData, start: Vector2, end: Vector2, x: int, y: int)
    requires m.tileSize > 0.0 && 0 <= x < m.width && 0 <= y < m.height && TileHit(m, start, end, x, y).Some?
    ensures SegmentCandidateRange(m, start, end).Has(x, y)
  {
    hide WorldPos, SegmentAABBHit, CandidateRangeForAABB, Along;
    HitIsFirstInside(start, end, TileMin(m, x, y), TileMax(m, x, y));
    var t := TileHit(m, start, end, x, y).value;
    Between(start.x, end.x, t);
    Between(start.y, end.y, t);
    CandidatesCover(m, Min(start.x, end.x), Max(start.x, end.x), Min(start.y, end.y), Max(start.y, end.y), x, y);
  }

  /** The inner loop: the wall tiles among the candidates of one row. */
  method FirstBlockingInRow(m: MapData, start: Vector2, end: Vector2, range: IndexRange, y: int, before: Option<real>)
    returns (r: Option<real>)
    requires 0 <= y < m.height && 0 <= range.minX && range.maxX < m.width
    ensures NoLaterThan(r, before)
    ensures forall x :: range.minX <= x <= range.maxX && Blocking(m, BlocksSight, x, y)
                        ==> NoLaterThan(r, TileHit(m, start, end, x, y))
    ensures r == before || exists x :: Blocking(m, BlocksSight, x, y) && r == TileHit(m, start, end, x, y)
  {
    hide TileHit;
    r := before;
    var x := range.minX;
    while x <= range.maxX
      invariant range.minX <= x && NoLaterThan(r, before)
      invariant forall a :: range.minX <= a < x && a <= range.maxX && Blocking(m, BlocksSight, a, y)
                            ==> NoLaterThan(r, TileHit(m, start, end, a, y))
      invariant r == before || exists a :: Blocking(m, BlocksSight, a, y) && r == TileHit(m, start, end, a, y)
      decreases range.maxX - x
    {
      if 0 <= y < |m.rows| && 0 <= x < |m.rows[y]| && m.rows[y][x] == WALL {
        assert Blocking(m, BlocksSight, x, y);
        r := Earlier(r, TileHit(m, start, end, x, y));
      }
      x := x + 1;
    }
  }

  method FirstBlockingSegmentT(m: MapData, start: Vector2, end: Vector2) returns (r: Option<real>)
    requires m.tileSize > 0.0
    ensures m.width == 0 || m.height == 0 ==> r == None
    ensures m.width != 0 && m.height != 0 ==>
              if !InBox(start, MapMinCorner(m), MapMaxCorner(m)) then r == Some(0.0) else IsFirstBlocking(m, start, end, r)
  {
    if m.width == 0 || m.height == 0 {
      return None;
    }
    hide WorldPos, TileHit, CandidateRangeForAABB, EdgeTime;
    var lo, hi := MapMinCorner(m), MapMaxCorner(m);
    if start.x < lo.x || start.x > hi.x || start.y < lo.y || start.y > hi.y {
      return Some(0.0);
    }
    var edgeX := EdgeTime(start.x, end.x - start.x, lo.x, hi.x);
    var edgeY := EdgeTime(start.y, end.y - start.y, lo.y, hi.y);
    r := Earlier(edgeX, edgeY);
    var range := SegmentCandidateRange(m, start, end);
    if range.valid {
      var y := range.minY;
      while y <= range.maxY
        invariant range.minY <= y
        invariant Covers(m, start, end, r, edgeX, edgeY)
        invariant forall b, a :: range.minY <= b < y && range.minX <= a <= range.maxX && b <= range.maxY
                                 && Blocking(m, BlocksSight, a, b)
                                 ==> NoLaterThan(r, TileHit(m, start, end, a, b))
        decreases range.maxY - y
      {
        r := FirstBlockingInRow(m, start, end, range, y, r);
        y := y + 1;
      }
    }
    forall x, y | Blocking(m, BlocksSight, x, y)
      ensures NoLaterThan(r, TileHit(m, start, end, x, y))
    {
      if TileHit(m, start, end, x, y).Some? {
        HitTileIsCandidate(m, start, end, x, y);
      }
    }
  }

  predicate NoLaterThan(r: Option<real>, other: Option<real>) {
    other.Some? ==> r.Some? && r.value <= other.value
  }

  ghost predicate Covers(m: MapData, start: Vector2, end: Vector2, r: Option<real>, edgeX: Option<real>, edgeY: Option<real>) {
    && NoLaterThan(r, edgeX) && NoLaterThan(r, edgeY)
    && (r.Some? ==> r == edgeX || r == edgeY
                    || exists x, y :: Blocking(m, BlocksSight, x, y) && r == TileHit(m, start, end, x, y))
  }

  /** Before it crosses an edge the coordinate is inside; afterwards it is not. */
  lemma EdgeTimeIsExit(start: real, end: real, lo: real, hi: real, t: real)
    requires lo <= start <= hi && t >= 0.0
    ensures var e := EdgeTime(start, end - start, lo, hi);
            lo <= start + t * (end - start) <= hi <==> e.None? || t <= e.value
  {
    var d := end - start;
    if d != 0.0 {
      QuotientOrder(hi - start, d, t);
      QuotientOrder(lo - start, d, t);
      if d > 0.0 {
        assert t * d >= 0.0;
      } else {
        assert t * -d >= 0.0;
      }
    }
  }

  /** On both axes, the point has not reached the edge of the map that the segment heads for. */
  predicate BeforeEdges(m: MapData, start: Vector2, end: Vector2, p: Vector2) {
    && (end.x > start.x ==> 2.0 * p.x < m.width as real * m.tileSize)
    && (end.x < start.x ==> 2.0 * p.x > -(m.width as real * m.tileSize))
    && (end.y > start.y ==> 2.0 * p.y < m.height as real * m.tileSize)
    && (end.y < start.y ==> 2.0 * p.y > -(m.height as real * m.tileSize))
  }

  ghost predicate BeforeEdgeTimes(m: MapData, start: Vector2, end: Vector2, t: real) {
    var lo, hi := MapMinCorner(m), MapMaxCorner(m);
    var edgeX := EdgeTime(start.x, end.x - start.x, lo.x, hi.x);
    var edgeY := EdgeTime(start.y, end.y - start.y, lo.y, hi.y);
    (edgeX.None? || t < edgeX.value) && (edgeY.None? || t < edgeY.value)
  }

  lemma EdgeTimesAreAtEdges(m: MapData, start: Vector2, end: Vector2, t: real)
    requires m.tileSize > 0.0
    ensures BeforeEdgeTimes(m, start, end, t) <==> BeforeEdges(m, start, end, PointAt(start, end, t))
  {
    hide EdgeTime, MapMinCorner, MapMaxCorner;
    MapCorners(m);
    var lo, hi := MapMinCorner(m), MapMaxCorner(m);
    BeforeEdgeTime(start.x, end.x, lo.x, hi.x, t);
    BeforeEdgeTime(start.y, end.y, lo.y, hi.y, t);
  }

  lemma MapCorners(m: MapData)
    requires m.tileSize > 0.0
    ensures MapMinCorner(m) == Vector2(-(m.width as real * m.tileSize) * 0.5, -(m.height as real * m.tileSize) * 0.5)
    ensures MapMaxCorner(m) == Vector2(m.width as real * m.tileSize * 0.5, m.height as real * m.tileSize * 0.5)
  {
    hide WorldPos;
    TileBox(m, 0, 0);
    TileBox(m, m.width - 1, 0);
    TileBox(m, 0, m.height - 1);
  }

  lemma BeforeEdgeTime(start: real, end: real, lo: real, hi: real, t: real)
    ensures var e := EdgeTime(start, end - start, lo, hi);
      (e.None? || t < e.value) <==>
        && (end > start ==> Along(start, end - start, t) < hi)
        && (end < start ==> Along(start, end - start, t) > lo)
  {
    var d := end - start;
    if d != 0.0 {
      QuotientOrder(hi - start, d, t);
      QuotientOrder(lo - start, d, t);
    }
  }

  predicate InWall(m: MapData, p: Vector2, x: int, y: int) {
    0 <= x < m.width && 0 <= y < m.height && HasCode(m, Tile(x, y)) && m.rows[y][x] == WALL && InTileBox(m, p, x, y)
  }

  lemma WallIsBox(m: MapData, p: Vector2, x: int, y: int)
    requires m.tileSize > 0.0
    ensures InWall(m, p, x, y) <==> Blocking(m, BlocksSight, x, y) && InBox(p, TileMin(m, x, y), TileMax(m, x, y))
  {
    hide WorldPos, Left, Top;
    TileBox(m, x, y);
  }

  /** Up to instant `t` the segment meets no wall tile. */
  ghost predicate MeetsNoWall(m: MapData, start: Vector2, end: Vector2, t: real) {
    forall u: real, x, y :: 0.0 <= u <= t ==> !InWall(m, PointAt(start, end, u), x, y)
  }

  /**
   What the first blocking instant means: an instant of the segment comes before it exactly when up to then
   the segment has met no wall and has not yet reached the edge it is heading for.
   */
  lemma SightIsClearBefore(m: MapData, start: Vector2, end: Vector2, r: Option<real>, t: real)
    requires m.tileSize > 0.0 && IsFirstBlocking(m, start, end, r) && 0.0 <= t <= 1.0
    ensures (r.None? || t < r.value) <==>
              MeetsNoWall(m, start, end, t) && BeforeEdges(m, start, end, PointAt(start, end, t))
  {
    hide WorldPos, SegmentAABBHit, Blocking, EdgeTime, BeforeEdges, InWall, InBox, PointAt, MapMinCorner, MapMaxCorner;
    EdgeTimesAreAtEdges(m, start, end, t);
    if r.None? || t < r.value {
      forall u: real, x, y | 0.0 <= u <= t
        ensures !InWall(m, PointAt(start, end, u), x, y)
      {
        WallIsBox(m, PointAt(start, end, u), x, y);
        HitIsFirstInside(start, end, TileMin(m, x, y), TileMax(m, x, y));
      }
    } else if BeforeEdgeTimes(m, start, end, t) {
      var x, y :| Blocking(m, BlocksSight, x, y) && r == TileHit(m, start, end, x, y);
      HitIsFirstInside(start, end, TileMin(m, x, y), TileMax(m, x, y));
      WallIsBox(m, PointAt(start, end, r.value), x, y);
    }
  }
}
