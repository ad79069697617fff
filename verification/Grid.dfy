/** The tile map: tile codes, passability, the four-neighbour relation and walks on it. */
module Grid {

  datatype Tile = Tile(x: int, y: int)

  /** Tile codes are the source's unsigned bytes; codes above WATER are unknown tiles. */
  const GROUND: nat := 0
  const WALL: nat := 1
  const SPAWN_POINT: nat := 2
  const BUSH: nat := 3
  const WATER: nat := 4

  datatype MapData = MapData(width: int, height: int, tileSize: real, rows: seq<seq<nat>>)

  predicate HasCode(m: MapData, t: Tile) {
    0 <= t.y < |m.rows| && 0 <= t.x < |m.rows[t.y]|
  }

  predicate Passable(m: MapData, t: Tile) {
    && 0 <= t.x < m.width && 0 <= t.y < m.height
    && HasCode(m, t)
    && m.rows[t.y][t.x] in {GROUND, SPAWN_POINT, BUSH}
  }

  predicate BlocksPlayer(code: nat) {
    code == WALL || code == WATER
  }

  ghost function PassableTiles(m: MapData): set<Tile> {
    set x, y | 0 <= x < m.width && 0 <= y < m.height && Passable(m, Tile(x, y)) :: Tile(x, y)
  }

  /** The map shape for which the bots' geometry is defined: a non-empty rectangle of positive tile size. */
  predicate Rectangular(m: MapData) {
    && m.width > 0 && m.height > 0 && m.tileSize > 0.0
    && |m.rows| == m.height
    && forall y :: 0 <= y < |m.rows| ==> |m.rows[y]| == m.width
  }

  function Abs(a: int): nat {
    if a < 0 then -a else a
  }

  function Manhattan(a: Tile, b: Tile): nat {
    Abs(a.x - b.x) + Abs(a.y - b.y)
  }

  predicate Adjacent(a: Tile, b: Tile) {
    Manhattan(a, b) == 1
  }

  /** A walk steps between neighbours; every tile after the first is passable. */
  ghost predicate Walk(m: MapData, p: seq<Tile>) {
    && |p| > 0
    && (forall i :: 0 < i < |p| ==> Adjacent(p[i - 1], p[i]))
    && (forall i :: 0 < i < |p| ==> Passable(m, p[i]))
  }

  ghost predicate WalkOf(m: MapData, a: Tile, b: Tile, n: nat, p: seq<Tile>) {
    Walk(m, p) && |p| == n + 1 && p[0] == a && p[n] == b
  }

  ghost predicate WalkOfLength(m: MapData, a: Tile, b: Tile, n: nat) {
    exists p :: WalkOf(m, a, b, n, p)
  }

  ghost predicate Reachable(m: MapData, a: Tile, b: Tile) {
    exists n: nat :: WalkOfLength(m, a, b, n)
  }

  ghost predicate IsDistance(m: MapData, a: Tile, b: Tile, n: nat) {
    WalkOfLength(m, a, b, n) && forall k: nat :: WalkOfLength(m, a, b, k) ==> n <= k
  }

  lemma {:induction false} SomeDistance(m: MapData, a: Tile, b: Tile, n: nat) returns (d: nat)
    requires WalkOfLength(m, a, b, n)
    ensures IsDistance(m, a, b, d)
  {
    if k: nat :| k < n && WalkOfLength(m, a, b, k) {
      d := SomeDistance(m, a, b, k);
    } else {
      d := n;
    }
  }

  /** The length of a shortest walk. */
  ghost function Distance(m: MapData, a: Tile, b: Tile): (d: nat)
    requires Reachable(m, a, b)
    ensures IsDistance(m, a, b, d)
  {
    assert exists d: nat :: IsDistance(m, a, b, d) by {
      var n: nat :| WalkOfLength(m, a, b, n);
      var d := SomeDistance(m, a, b, n);
    }
    var d: nat :| IsDistance(m, a, b, d);
    d
  }

  /** `t` is where some shortest walk from `a` to `b` goes first. */
  ghost predicate FirstOfShortest(m: MapData, a: Tile, b: Tile, t: Tile) {
    exists n: nat, p :: n > 0 && IsDistance(m, a, b, n) && WalkOf(m, a, b, n, p) && p[1] == t
  }

  /** The Manhattan distance never exceeds the number of steps left on a walk. */
  lemma {:induction false} ManhattanAdmissible(m: MapData, p: seq<Tile>, i: nat)
    requires Walk(m, p) && i < |p|
    ensures Manhattan(p[i], p[|p| - 1]) <= |p| - 1 - i
    decreases |p| - i
  {
    if i + 1 < |p| {
      ManhattanAdmissible(m, p, i + 1);
      assert Adjacent(p[i + 1 - 1], p[i + 1]);
    }
  }

  /** One step along a shortest walk shortens the distance by exactly one. */
  lemma FirstOfShortestApproaches(m: MapData, a: Tile, b: Tile, t: Tile)
    requires FirstOfShortest(m, a, b, t)
    ensures Adjacent(a, t) && Passable(m, t)
    ensures Reachable(m, a, b) && Reachable(m, t, b)
    ensures Distance(m, a, b) == Distance(m, t, b) + 1
  {
    var n: nat, p :| n > 0 && IsDistance(m, a, b, n) && WalkOf(m, a, b, n, p) && p[1] == t;
    assert Adjacent(p[1 - 1], p[1]);
    assert WalkOf(m, t, b, n - 1, p[1..]);
    assert WalkOfLength(m, t, b, n - 1);
    forall k: nat | WalkOfLength(m, t, b, k)
      ensures n - 1 <= k
    {
      var q :| WalkOf(m, t, b, k, q);
      assert WalkOf(m, a, b, k + 1, [a] + q);
      assert WalkOfLength(m, a, b, k + 1);
    }
  }
}
