/** The server's pruned map collision and the bots' full scan, both proved to be the same test. */
module MapCollision {
  import opened Grid
  import opened World

  datatype IndexRange = IndexRange(minX: int, maxX: int, minY: int, maxY: int, valid: bool) {
    predicate Has(x: int, y: int) {
      valid && minX <= x <= maxX && minY <= y <= maxY
    }
  }

  function ClampMapIndex(index: int, size: int): int {
    if index < 0 then 0 else if index >= size then size - 1 else index
  }

  function ConservativeTileIndex(value: real, mapMin: real, tileSize: real): int
    requires tileSize > 0.0
  {
    ((value - mapMin) / tileSize).Floor
  }

  /** The least world coordinate of a map of `n` cells. */
  function MapMin(size: real, n: int): real {
    -size * (n as real) * 0.5
  }

  function CandidateRangeForAABB(m: MapData, minX0: real, maxX0: real, minY0: real, maxY0: real): (r: IndexRange)
    ensures r.valid <==> m.width > 0 && m.height > 0
    ensures r.valid ==> 0 <= r.minX < m.width && 0 <= r.maxX < m.width && 0 <= r.minY < m.height && 0 <= r.maxY < m.height
  {
    if m.width <= 0 || m.height <= 0 then IndexRange(0, 0, 0, 0, false)
    else
      var minX := Min(minX0, maxX0);
      var maxX := Max(minX0, maxX0);
      var minY := Min(minY0, maxY0);
      var maxY := Max(minY0, maxY0);
      var size := if m.tileSize <= 0.0 then DEFAULT_TILE_SIZE else m.tileSize;
      var mapMinX := MapMin(size, m.width);
      var mapMinY := MapMin(size, m.height);
      var minBottomY := ConservativeTileIndex(minY, mapMinY, size) - 1;
      var maxBottomY := ConservativeTileIndex(maxY, mapMinY, size) + 1;
      IndexRange(
        ClampMapIndex(ConservativeTileIndex(minX, mapMinX, size) - 1, m.width),
        ClampMapIndex(ConservativeTileIndex(maxX, mapMinX, size) + 1, m.width),
        ClampMapIndex(m.height - 1 - maxBottomY, m.height),
        ClampMapIndex(m.height - 1 - minBottomY, m.height),
        true)
  }

  function CircleCandidateRange(m: MapData, p: Vector2, radius: real): IndexRange {
    var r := Max(radius, 0.0);
    CandidateRangeForAABB(m, p.x - r, p.x + r, p.y - r, p.y + r)
  }

  function SegmentCandidateRange(m: MapData, start: Vector2, end: Vector2): IndexRange {
    CandidateRangeForAABB(m, Min(start.x, end.x), Max(start.x, end.x), Min(start.y, end.y), Max(start.y, end.y))
  }

  /** Along one axis: cell `k` of `n` meets the interval, so its index lies within the widened bounds. */
  lemma IndexCovered(lo: real, hi: real, origin: real, size: real, k: int, n: int)
    requires size > 0.0 && 0 <= k < n
    requires lo <= origin + (k + 1) as real * size && origin + k as real * size <= hi
    ensures ConservativeTileIndex(lo, origin, size) - 1 <= k <= ConservativeTileIndex(hi, origin, size) + 1
  {
    FloorQuotient(hi - origin, size, k);
    FloorQuotient(lo - origin, size, k + 2);
    assert (k + 2) as real * size == (k + 1) as real * size + size;
  }

  /** The edges of a tile counted from the map's lower left corner. */
  lemma TileEdges(m: MapData, x: int, y: int)
    requires m.tileSize > 0.0
    ensures var c := WorldPos(m, x, y); var half := m.tileSize * 0.5;
            var mapMinX := MapMin(m.tileSize, m.width);
            var mapMinY := MapMin(m.tileSize, m.height);
            var bottom := m.height - 1 - y;
            && c.x - half == mapMinX + x as real * m.tileSize
            && c.x + half == mapMinX + (x + 1) as real * m.tileSize
            && c.y - half == mapMinY + bottom as real * m.tileSize
            && c.y + half == mapMinY + (bottom + 1) as real * m.tileSize
  {
  }

  /** Pruning is safe: a tile whose box meets the rectangle is among its candidates. */
  lemma CandidatesCover(m: MapData, minX: real, maxX: real, minY: real, maxY: real, x: int, y: int)
    requires m.tileSize > 0.0 && minX <= maxX && minY <= maxY
    requires 0 <= x < m.width && 0 <= y < m.height
    requires var c := WorldPos(m, x, y); var half := m.tileSize * 0.5;
             minX <= c.x + half && c.x - half <= maxX && minY <= c.y + half && c.y - half <= maxY
    ensures CandidateRangeForAABB(m, minX, maxX, minY, maxY).Has(x, y)
  {
    hide WorldPos, ConservativeTileIndex, MapMin;
    TileEdges(m, x, y);
    IndexCovered(minX, maxX, MapMin(m.tileSize, m.width), m.tileSize, x, m.width);
    IndexCovered(minY, maxY, MapMin(m.tileSize, m.height), m.tileSize, m.height - 1 - y, m.height);
  }

  lemma CircleCandidatesCover(m: MapData, p: Vector2, radius: real, x: int, y: int)
    requires m.tileSize > 0.0 && radius >= 0.0
    requires 0 <= x < m.width && 0 <= y < m.height && CircleIntersectsTile(m, p, radius, x, y)
    ensures CircleCandidateRange(m, p, radius).Has(x, y)
  {
    CircleReaches(m, p, radius, x, y);
    hide CircleIntersectsTile, WorldPos, CandidateRangeForAABB;
    CandidatesCover(m, p.x - radius, p.x + radius, p.y - radius, p.y + radius, x, y);
  }

  /** A circle that meets a tile's box comes within its radius of the box on both axes. */
  lemma CircleReaches(m: MapData, p: Vector2, radius: real, x: int, y: int)
    requires m.tileSize > 0.0 && radius >= 0.0 && CircleIntersectsTile(m, p, radius, x, y)
    ensures var c := WorldPos(m, x, y); var half := m.tileSize * 0.5;
            p.x - radius <= c.x + half && c.x - half <= p.x + radius && p.y - radius <= c.y + half && c.y - half <= p.y + radius
  {
    hide WorldPos;
    var c := WorldPos(m, x, y);
    var half := m.tileSize * 0.5;
    var dx := p.x - Clamp(p.x, c.x - half, c.x + half);
    var dy := p.y - Clamp(p.y, c.y - half, c.y + half);
    SquareBound(dx, dy, radius);
    SquareBound(dy, dx, radius);
  }

  /** The server's test, which looks only at the candidate tiles. */
  method CollidesWithMap(m: MapData, p: Vector2, radius0: real, blocks: nat -> bool) returns (hit: bool)
    requires m.tileSize > 0.0
    ensures hit <==> Collides(m, p, radius0, blocks)
  {
    hide CircleIntersectsTile, OutsideMap, CandidateRangeForAABB;
    if m.width == 0 || m.height == 0 {
      return false;
    }
    var radius := if radius0 < 0.0 then 0.0 else radius0;
    if OutsideMap(m, p, radius) {
      return true;
    }
    var range := CircleCandidateRange(m, p, radius);
    if !range.valid {
      return false;
    }
    var y := range.minY;
    while y <= range.maxY
      invariant 0 <= range.minY <= y
      invariant forall b, a :: range.minY <= b < y && range.minX <= a <= range.maxX && Blocking(m, blocks, a, b)
                               ==> !CircleIntersectsTile(m, p, radius, a, b)
      decreases range.maxY - y
    {
      if y < 0 || y >= |m.rows| {
        y := y + 1;
        continue;
      }
      var row := m.rows[y];
      var x := range.minX;
      while x <= range.maxX
        invariant range.minX <= x
        invariant forall a :: range.minX <= a < x && a <= range.maxX && Blocking(m, blocks, a, y)
                              ==> !CircleIntersectsTile(m, p, radius, a, y)
        decreases range.maxX - x
      {
        if x < 0 || x >= |row| || !blocks(row[x]) {
          x := x + 1;
          continue;
        }
        if CircleIntersectsTile(m, p, radius, x, y) {
          assert Blocking(m, blocks, x, y);
          return true;
        }
        x := x + 1;
      }
      y := y + 1;
    }
    forall a, b | Blocking(m, blocks, a, b)
      ensures !CircleIntersectsTile(m, p, radius, a, b)
    {
      if CircleIntersectsTile(m, p, radius, a, b) {
        CircleCandidatesCover(m, p, radius, a, b);
      }
    }
    return false;
  }

  /** The bots' test, which looks at every tile of the map. */
  method BotMapCollidesWithPlayer(m: MapData, p: Vector2, radius0: real) returns (hit: bool)
    requires Rectangular(m)
    ensures hit <==> Collides(m, p, radius0, BlocksPlayer)
  {
    hide CircleIntersectsTile, WorldPos;
    var radius := if radius0 < 0.0 then 0.0 else radius0;
    var right := Left(m) + m.width as real * m.tileSize;
    var bottom := Top(m) - m.height as real * m.tileSize;
    TileBox(m, 0, 0);
    TileBox(m, m.width - 1, 0);
    TileBox(m, 0, m.height - 1);
    if p.x - radius < Left(m) || p.x + radius > right || p.y - radius < bottom || p.y + radius > Top(m) {
      return true;
    }
    for y := 0 to |m.rows|
      invariant forall b, a :: 0 <= b < y && Blocking(m, BlocksPlayer, a, b) ==> !CircleIntersectsTile(m, p, radius, a, b)
    {
      var row := m.rows[y];
      for x := 0 to |row|
        invariant forall a :: 0 <= a < x && Blocking(m, BlocksPlayer, a, y) ==> !CircleIntersectsTile(m, p, radius, a, y)
      {
        if row[x] != WALL && row[x] != WATER {
          continue;
        }
        if CircleIntersectsTile(m, p, radius, x, y) {
          assert Blocking(m, BlocksPlayer, x, y);
          return true;
        }
      }
    }
    return false;
  }

  // ---------- What the test means ----------

  predicate InDisc(q: Vector2, p: Vector2, radius: real) {
    (q.x - p.x) * (q.x - p.x) + (q.y - p.y) * (q.y - p.y) <= radius * radius
  }

  /** The map is centred on the origin. */
  predicate OffMap(m: MapData, q: Vector2) {
    || 2.0 * q.x < -(m.width as real * m.tileSize) || 2.0 * q.x > m.width as real * m.tileSize
    || 2.0 * q.y < -(m.height as real * m.tileSize) || 2.0 * q.y > m.height as real * m.tileSize
  }

  /** Columns run to the right from the map's left edge, rows down from its top edge. */
  predicate InTileBox(m: MapData, q: Vector2, x: int, y: int) {
    && x as real * m.tileSize <= q.x - Left(m) <= (x + 1) as real * m.tileSize
    && y as real * m.tileSize <= Top(m) - q.y <= (y + 1) as real * m.tileSize
  }

  lemma NearestInTile(m: MapData, p: Vector2, x: int, y: int) returns (q: Vector2)
    requires m.tileSize > 0.0
    ensures IsNearest(m, p, x, y, q) && InTileBox(m, q, x, y)
  {
    hide WorldPos;
    var c := WorldPos(m, x, y);
    var half := m.tileSize * 0.5;
    q := Vector2(Clamp(p.x, c.x - half, c.x + half), Clamp(p.y, c.y - half, c.y + half));
    TileBox(m, x, y);
  }

  /** The circle meets the tile exactly if it shares a point with the tile's box. */
  lemma TouchesAtPoint(m: MapData, p: Vector2, radius: real, x: int, y: int)
    requires m.tileSize > 0.0
    ensures CircleIntersectsTile(m, p, radius, x, y) <==> exists q :: InDisc(q, p, radius) && InTileBox(m, q, x, y)
  {
    var n := NearestInTile(m, p, x, y);
    hide WorldPos, InTileBox, InDisc, CircleIntersectsTile;
    TouchesAtNearest(m, p, radius, x, y, n);
    if q :| InDisc(q, p, radius) && InTileBox(m, q, x, y) {
      Nearest(m, p, radius, x, y, n, q);
    }
  }

  predicate IsNearest(m: MapData, p: Vector2, x: int, y: int, n: Vector2) {
    var c := WorldPos(m, x, y);
    var half := m.tileSize * 0.5;
    n == Vector2(Clamp(p.x, c.x - half, c.x + half), Clamp(p.y, c.y - half, c.y + half))
  }

  lemma TouchesAtNearest(m: MapData, p: Vector2, radius: real, x: int, y: int, n: Vector2)
    requires IsNearest(m, p, x, y, n)
    ensures CircleIntersectsTile(m, p, radius, x, y) <==> InDisc(n, p, radius)
  {
    hide WorldPos;
    SquareTurned(p.x, n.x);
    SquareTurned(p.y, n.y);
  }

  lemma SquareTurned(a: real, b: real)
    ensures (a - b) * (a - b) == (b - a) * (b - a)
  {
  }

  /** No point of the box is nearer. */
  lemma Nearest(m: MapData, p: Vector2, radius: real, x: int, y: int, n: Vector2, q: Vector2)
    requires m.tileSize > 0.0 && InTileBox(m, q, x, y) && IsNearest(m, p, x, y, n) && InDisc(q, p, radius)
    ensures InDisc(n, p, radius)
  {
    hide WorldPos;
    TileBox(m, x, y);
    var c := WorldPos(m, x, y);
    var half := m.tileSize * 0.5;
    Closest(p.x, q.x, c.x - half, c.x + half);
    Closest(p.y, q.y, c.y - half, c.y + half);
  }

  lemma Closest(v: real, q: real, lo: real, hi: real)
    requires lo <= q <= hi
    ensures (Clamp(v, lo, hi) - v) * (Clamp(v, lo, hi) - v) <= (q - v) * (q - v)
  {
    var n := Clamp(v, lo, hi);
    if n != v && n != q {
      if v < lo {
        SquareLess(n - v, q - v);
      } else {
        SquareLess(v - n, v - q);
        assert (v - q) * (v - q) == (q - v) * (q - v) && (v - n) * (v - n) == (n - v) * (n - v);
      }
    }
  }

  /** The circle is outside exactly if one of its points is off the map. */
  lemma OutsideAtPoint(m: MapData, p: Vector2, radius: real)
    requires m.tileSize > 0.0 && radius >= 0.0
    ensures OutsideMap(m, p, radius) <==> exists q :: InDisc(q, p, radius) && OffMap(m, q)
  {
    hide InDisc, OffMap, OutsideMap;
    Extremes(p, radius);
    OutsideAtExtremes(m, p, radius);
    if q :| InDisc(q, p, radius) && OffMap(m, q) {
      BetweenExtremes(m, p, radius, q);
    }
  }

  lemma OutsideAtExtremes(m: MapData, p: Vector2, radius: real)
    requires m.tileSize > 0.0 && radius >= 0.0
    ensures OutsideMap(m, p, radius) <==>
              || OffMap(m, Vector2(p.x - radius, p.y)) || OffMap(m, Vector2(p.x + radius, p.y))
              || OffMap(m, Vector2(p.x, p.y - radius)) || OffMap(m, Vector2(p.x, p.y + radius))
  {
    hide WorldPos;
    TileBox(m, 0, 0);
    TileBox(m, m.width - 1, 0);
    TileBox(m, 0, m.height - 1);
  }

  lemma BetweenExtremes(m: MapData, p: Vector2, radius: real, q: Vector2)
    requires radius >= 0.0 && InDisc(q, p, radius) && OffMap(m, q)
    ensures || OffMap(m, Vector2(p.x - radius, p.y)) || OffMap(m, Vector2(p.x + radius, p.y))
            || OffMap(m, Vector2(p.x, p.y - radius)) || OffMap(m, Vector2(p.x, p.y + radius))
  {
    hide InDisc;
    DiscBounds(q, p, radius);
  }

  lemma DiscBounds(q: Vector2, p: Vector2, radius: real)
    requires radius >= 0.0 && InDisc(q, p, radius)
    ensures p.x - radius <= q.x <= p.x + radius && p.y - radius <= q.y <= p.y + radius
  {
    SquareBound(q.x - p.x, q.y - p.y, radius);
    SquareBound(q.y - p.y, q.x - p.x, radius);
  }

  lemma Extremes(p: Vector2, radius: real)
    ensures InDisc(Vector2(p.x - radius, p.y), p, radius) && InDisc(Vector2(p.x + radius, p.y), p, radius)
    ensures InDisc(Vector2(p.x, p.y - radius), p, radius) && InDisc(Vector2(p.x, p.y + radius), p, radius)
  {
    assert (-radius) * (-radius) == radius * radius;
  }

  /** A circle collides with a map that has tiles exactly if one of its points is off the map or in a blocking tile. */
  lemma CollidesAtPoint(m: MapData, p: Vector2, radius: real, blocks: nat -> bool)
    requires m.tileSize > 0.0 && radius >= 0.0
    ensures Collides(m, p, radius, blocks) <==>
              && m.width != 0 && m.height != 0
              && exists q :: InDisc(q, p, radius)
                             && (OffMap(m, q) || exists x, y :: Blocking(m, blocks, x, y) && InTileBox(m, q, x, y))
  {
    hide OutsideMap, CircleIntersectsTile, InDisc, OffMap, InTileBox, Blocking;
    OutsideAtPoint(m, p, radius);
    forall x, y | Blocking(m, blocks, x, y)
      ensures CircleIntersectsTile(m, p, radius, x, y) <==> exists q :: InDisc(q, p, radius) && InTileBox(m, q, x, y)
    {
      TouchesAtPoint(m, p, radius, x, y);
    }
  }
}
