/** World coordinates: vectors, tile boxes and the circle-against-map test over every tile. */
module World {
  import opened Grid

  datatype Vector2 = Vector2(x: real, y: real)

  const ZERO: Vector2 := Vector2(0.0, 0.0)

  /** The tile size used for maps that give none. */
  const DEFAULT_TILE_SIZE: real := 1.2

  /** What the library square root promises; the root is a parameter of every function that takes one. */
  ghost predicate IsSqrt(sqrt: real -> real) {
    forall v :: v >= 0.0 ==> sqrt(v) >= 0.0 && sqrt(v) * sqrt(v) == v
  }

  function LengthSquared(v: Vector2): real {
    v.x * v.x + v.y * v.y
  }

  function AbsReal(a: real): real {
    if a < 0.0 then -a else a
  }

  function Max(a: real, b: real): real {
    if a < b then b else a
  }

  function Min(a: real, b: real): real {
    if b < a then b else a
  }

  function Clamp(v: real, lo: real, hi: real): real {
    if v < lo then lo else if v > hi then hi else v
  }

  /** The centre of a tile; rows run downwards, world y upwards. */
  function WorldPos(m: MapData, x: int, y: int): Vector2 {
    var size := if m.tileSize <= 0.0 then DEFAULT_TILE_SIZE else m.tileSize;
    Vector2(-size * 0.5 * ((m.width - 1) as real) + x as real * size,
            size * 0.5 * ((m.height - 1) as real) - y as real * size)
  }

  function Left(m: MapData): real {
    -m.tileSize * (m.width as real) * 0.5
  }

  function Top(m: MapData): real {
    m.tileSize * (m.height as real) * 0.5
  }

  /** The edges of tile column `x` and of tile row `y`, counted from the map's corner. */
  lemma TileBox(m: MapData, x: int, y: int)
    requires m.tileSize > 0.0
    ensures WorldPos(m, x, y).x - m.tileSize * 0.5 == Left(m) + x as real * m.tileSize
    ensures WorldPos(m, x, y).x + m.tileSize * 0.5 == Left(m) + (x + 1) as real * m.tileSize
    ensures WorldPos(m, x, y).y + m.tileSize * 0.5 == Top(m) - y as real * m.tileSize
    ensures WorldPos(m, x, y).y - m.tileSize * 0.5 == Top(m) - (y + 1) as real * m.tileSize
  {
  }

  predicate CircleIntersectsTile(m: MapData, p: Vector2, radius: real, x: int, y: int) {
    var center := WorldPos(m, x, y);
    var half := m.tileSize * 0.5;
    var dx := p.x - Clamp(p.x, center.x - half, center.x + half);
    var dy := p.y - Clamp(p.y, center.y - half, center.y + half);
    dx * dx + dy * dy <= radius * radius
  }

  predicate OutsideMap(m: MapData, p: Vector2, radius: real) {
    var half := m.tileSize * 0.5;
    || p.x - radius < WorldPos(m, 0, 0).x - half
    || p.x + radius > WorldPos(m, m.width - 1, 0).x + half
    || p.y - radius < WorldPos(m, 0, m.height - 1).y - half
    || p.y + radius > WorldPos(m, 0, 0).y + half
  }

  predicate Blocking(m: MapData, blocks: nat -> bool, x: int, y: int) {
    0 <= x < m.width && 0 <= y < m.height && HasCode(m, Tile(x, y)) && blocks(m.rows[y][x])
  }

  ghost predicate TouchesBlock(m: MapData, p: Vector2, radius: real, blocks: nat -> bool) {
    exists x, y :: Blocking(m, blocks, x, y) && CircleIntersectsTile(m, p, radius, x, y)
  }

  /** The circle leaves the map or touches a blocking tile anywhere on it. */
  ghost predicate Collides(m: MapData, p: Vector2, radius: real, blocks: nat -> bool) {
    && m.width != 0 && m.height != 0
    && (OutsideMap(m, p, Max(radius, 0.0)) || TouchesBlock(m, p, Max(radius, 0.0), blocks))
  }

  lemma MulPositive(a: real, b: real)
    requires a > 0.0 && b > 0.0
    ensures a * b > 0.0
  {
  }

  lemma MulNonNegative(a: real, b: real)
    requires a >= 0.0 && b >= 0.0
    ensures a * b >= 0.0
  {
    if a > 0.0 && b > 0.0 {
      MulPositive(a, b);
    }
  }

  lemma SquareLess(a: real, b: real)
    requires 0.0 <= a < b
    ensures a * a < b * b
  {
    MulPositive(b - a, b + a);
  }

  /** A square no larger than another has a root no larger in magnitude. */
  lemma SquareBound(d: real, e: real, r: real)
    requires r >= 0.0 && d * d + e * e <= r * r
    ensures -r <= d <= r
  {
    assert e * e >= 0.0;
    if d > r {
      SquareLess(r, d);
    } else if d < -r {
      SquareLess(r, -d);
    }
  }

  lemma FloorQuotient(a: real, size: real, k: int)
    requires size > 0.0
    ensures a >= k as real * size <==> (a / size).Floor >= k
  {
    var q := a / size;
    assert q * size == a;
    if q >= k as real {
      assert q * size >= k as real * size;
    } else {
      assert q * size < k as real * size;
    }
  }
}
