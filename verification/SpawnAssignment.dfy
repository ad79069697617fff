/** Where players start: the map's spawn points first, then fallback tiles that no spawn point occupies. */
module SpawnAssignment {
  import opened Grid
  import opened World

  predicate Distinct(tiles: seq<Tile>) {
    forall i, j :: 0 <= i < j < |tiles| ==> tiles[i] != tiles[j]
  }

  // ---------- Spawn points ----------

  function RowSpawns(row: seq<nat>, y: nat, upTo: nat): seq<Tile>
    requires upTo <= |row|
  {
    if upTo == 0 then []
    else RowSpawns(row, y, upTo - 1) + if row[upTo - 1] == SPAWN_POINT then [Tile(upTo - 1, y)] else []
  }

  function SpawnTiles(m: MapData, upTo: nat): seq<Tile>
    requires upTo <= |m.rows|
  {
    if upTo == 0 then [] else SpawnTiles(m, upTo - 1) + RowSpawns(m.rows[upTo - 1], upTo - 1, |m.rows[upTo - 1]|)
  }

  function Positions(m: MapData, tiles: seq<Tile>): seq<Vector2> {
    seq(|tiles|, i requires 0 <= i < |tiles| => WorldPos(m, tiles[i].x, tiles[i].y))
  }

  method MapSpawnPoints(m: MapData) returns (spawns: seq<Vector2>)
    ensures spawns == Positions(m, SpawnTiles(m, |m.rows|))
  {
    spawns := [];
    var y := 0;
    while y < |m.rows|
      invariant 0 <= y <= |m.rows| && spawns == Positions(m, SpawnTiles(m, y))
    {
      var row := m.rows[y];
      var x := 0;
      while x < |row|
        invariant 0 <= x <= |row| && spawns == Positions(m, SpawnTiles(m, y) + RowSpawns(row, y, x))
      {
        if row[x] == SPAWN_POINT {
          var before := SpawnTiles(m, y) + RowSpawns(row, y, x);
          assert SpawnTiles(m, y) + RowSpawns(row, y, x + 1) == before + [Tile(x, y)];
          spawns := spawns + [WorldPos(m, x, y)];
        }
        x := x + 1;
      }
      y := y + 1;
    }
  }

  // ---------- Fallback tiles ----------

  function MinX(m: MapData): int { if m.width > 2 then 1 else 0 }

  function MaxX(m: MapData): int { if m.width > 2 then m.width - 2 else m.width - 1 }

  function MinY(m: MapData): int { if m.height > 2 then 1 else 0 }

  function MaxY(m: MapData): int { if m.height > 2 then m.height - 2 else m.height - 1 }

  function Preferred(m: MapData): seq<Tile> {
    [Tile(MinX(m), MinY(m)), Tile(MaxX(m), MaxY(m)), Tile(MaxX(m), MinY(m)), Tile(MinX(m), MaxY(m)),
     Tile((MinX(m) + MaxX(m)) / 2, (MinY(m) + MaxY(m)) / 2)]
  }

  predicate Usable(m: MapData, t: Tile) {
    HasCode(m, t) && !BlocksPlayer(m.rows[t.y][t.x])
  }

  function AppendUnique(m: MapData, tiles: seq<Tile>, t: Tile): (more: seq<Tile>)
    ensures Distinct(tiles) ==> Distinct(more)
    ensures (forall q :: q in tiles ==> Usable(m, q)) ==> (forall q :: q in more ==> Usable(m, q))
  {
    if t in tiles || !Usable(m, t) then tiles else tiles + [t]
  }

  function AppendAll(m: MapData, tiles: seq<Tile>, candidates: seq<Tile>): (more: seq<Tile>)
    ensures Distinct(tiles) ==> Distinct(more)
    ensures (forall q :: q in tiles ==> Usable(m, q)) ==> (forall q :: q in more ==> Usable(m, q))
    decreases |candidates|
  {
    if candidates == [] then tiles
    else AppendUnique(m, AppendAll(m, tiles, candidates[..|candidates| - 1]), candidates[|candidates| - 1])
  }

  /** The tiles of a row, or of all rows, up to a bound, row by row. */
  function RowScan(y: int, lo: int, hi: int): seq<Tile>
    decreases hi - lo
  {
    if hi <= lo then [] else RowScan(y, lo, hi - 1) + [Tile(hi - 1, y)]
  }

  function Scan(m: MapData, lo: int, hi: int): seq<Tile>
    decreases hi - lo
  {
    if hi <= lo then [] else Scan(m, lo, hi - 1) + RowScan(hi - 1, MinX(m), MaxX(m) + 1)
  }

  function FallbackTiles(m: MapData): (tiles: seq<Tile>)
    ensures Distinct(tiles) && forall t :: t in tiles ==> Usable(m, t)
  {
    if m.width <= 0 || m.height <= 0 then []
    else AppendAll(m, [], Preferred(m) + Scan(m, MinY(m), MaxY(m) + 1))
  }

  lemma {:induction false} AppendAllConcat(m: MapData, tiles: seq<Tile>, a: seq<Tile>, b: seq<Tile>)
    ensures AppendAll(m, tiles, a + b) == AppendAll(m, AppendAll(m, tiles, a), b)
    decreases |b|
  {
    if b == [] {
      assert a + b == a;
    } else {
      assert (a + b)[..|a + b| - 1] == a + b[..|b| - 1];
      AppendAllConcat(m, tiles, a, b[..|b| - 1]);
    }
  }

  method FallbackSpawnTiles(m: MapData) returns (tiles: seq<Tile>)
    ensures tiles == FallbackTiles(m)
  {
    hide AppendUnique, Usable, AppendAll, Scan, RowScan, Preferred;
    tiles := [];
    if m.width <= 0 || m.height <= 0 {
      return;
    }
    tiles := AppendPreferred(m);
    ghost var first := tiles;
    var y := MinY(m);
    ScanStep(m, y);
    AppendNone(m, first);
    while y <= MaxY(m)
      invariant MinY(m) <= y <= MaxY(m) + 1
      invariant tiles == AppendAll(m, first, Scan(m, MinY(m), y))
    {
      AppendAllConcat(m, first, Scan(m, MinY(m), y), RowScan(y, MinX(m), MaxX(m) + 1));
      ScanStep(m, y);
      tiles := AppendRow(m, tiles, y);
      y := y + 1;
    }
    AppendAllConcat(m, [], Preferred(m), Scan(m, MinY(m), MaxY(m) + 1));
  }

  lemma ScanStep(m: MapData, y: int)
    ensures Scan(m, MinY(m), MinY(m)) == []
    ensures y >= MinY(m) ==> Scan(m, MinY(m), y + 1) == Scan(m, MinY(m), y) + RowScan(y, MinX(m), MaxX(m) + 1)
  {
  }

  lemma AppendNone(m: MapData, tiles: seq<Tile>)
    ensures AppendAll(m, tiles, []) == tiles
  {
  }

  method AppendPreferred(m: MapData) returns (tiles: seq<Tile>)
    ensures tiles == AppendAll(m, [], Preferred(m))
  {
    hide AppendUnique, Preferred;
    tiles := [];
    var candidates := Preferred(m);
    var k := 0;
    while k < |candidates|
      invariant 0 <= k <= |candidates| && tiles == AppendAll(m, [], candidates[..k])
    {
      assert candidates[..k + 1][..k] == candidates[..k];
      tiles := AppendUnique(m, tiles, candidates[k]);
      k := k + 1;
    }
    assert candidates[..k] == candidates;
  }

  method AppendRow(m: MapData, before: seq<Tile>, y: int) returns (tiles: seq<Tile>)
    requires m.width > 0
    ensures tiles == AppendAll(m, before, RowScan(y, MinX(m), MaxX(m) + 1))
  {
    hide AppendUnique;
    tiles := before;
    var x := MinX(m);
    while x <= MaxX(m)
      invariant MinX(m) <= x <= MaxX(m) + 1
      invariant tiles == AppendAll(m, before, RowScan(y, MinX(m), x))
    {
      var row := RowScan(y, MinX(m), x);
      assert (row + [Tile(x, y)])[..|row|] == row;
      tiles := AppendUnique(m, tiles, Tile(x, y));
      x := x + 1;
    }
  }

  /** The fallback tiles that no spawn point occupies. */
  function Available(m: MapData, tiles: seq<Tile>, occupied: seq<Vector2>): seq<Tile> {
    if tiles == [] then []
    else
      var t := tiles[|tiles| - 1];
      Available(m, tiles[..|tiles| - 1], occupied) + if WorldPos(m, t.x, t.y) in occupied then [] else [t]
  }

  method FallbackSpawnPosition(m: MapData, occupied: seq<Vector2>, index: int) returns (p: Vector2)
    ensures p == FallbackPosition(m, occupied, index)
  {
    var tiles := FallbackSpawnTiles(m);
    if |tiles| == 0 {
      return ZERO;
    }
    var available := [];
    var k := 0;
    while k < |tiles|
      invariant 0 <= k <= |tiles| && available == Available(m, tiles[..k], occupied)
    {
      assert tiles[..k + 1][..k] == tiles[..k];
      if WorldPos(m, tiles[k].x, tiles[k].y) !in occupied {
        available := available + [tiles[k]];
      }
      k := k + 1;
    }
    assert tiles[..k] == tiles;
    var from := if |available| > 0 then available else tiles;
    var tile := from[(if index < 0 then 0 else index) % |from|];
    p := WorldPos(m, tile.x, tile.y);
  }

  /** Indices go round a list; a negative one counts as the first. */
  function Turn(index: int, n: nat): (k: nat)
    requires n > 0
    ensures k < n
  {
    (if index < 0 then 0 else index) % n
  }

  function FallbackPosition(m: MapData, occupied: seq<Vector2>, index: int): Vector2 {
    var tiles := FallbackTiles(m);
    var available := Available(m, tiles, occupied);
    if tiles == [] then ZERO
    else
      var from := if available != [] then available else tiles;
      var tile := from[Turn(index, |from|)];
      WorldPos(m, tile.x, tile.y)
  }

  function SpawnPosition(m: MapData, index: int): Vector2 {
    var spawns := Positions(m, SpawnTiles(m, |m.rows|));
    if 0 <= index < |spawns| then spawns[index] else FallbackPosition(m, spawns, index - |spawns|)
  }

  method SpawnPositionForIndex(m: MapData, index: int) returns (p: Vector2)
    ensures p == SpawnPosition(m, index)
  {
    var spawns := MapSpawnPoints(m);
    if 0 <= index < |spawns| {
      return spawns[index];
    }
    p := FallbackSpawnPosition(m, spawns, index - |spawns|);
  }

  // ---------- The promise ----------

  function TileSet(tiles: seq<Tile>): set<Tile> {
    set t | t in tiles
  }

  /** How many different tiles there are to start on. */
  function UniqueSpawnCapacity(m: MapData): nat {
    |TileSet(SpawnTiles(m, |m.rows|)) + TileSet(FallbackTiles(m))|
  }

  lemma {:induction false} RowSpawnsExact(row: seq<nat>, y: nat, upTo: nat)
    requires upTo <= |row|
    ensures Distinct(RowSpawns(row, y, upTo))
    ensures forall t :: t in RowSpawns(row, y, upTo) <==> t.y == y && 0 <= t.x < upTo && row[t.x] == SPAWN_POINT
  {
    if upTo > 0 {
      RowSpawnsExact(row, y, upTo - 1);
      var init := RowSpawns(row, y, upTo - 1);
      assert forall i :: 0 <= i < |init| ==> init[i] in init;
    }
  }

  /** The spawn tiles are exactly the tiles with the spawn code, once each. */
  lemma {:induction false} SpawnTilesExact(m: MapData, upTo: nat)
    requires upTo <= |m.rows|
    ensures Distinct(SpawnTiles(m, upTo))
    ensures forall t :: t in SpawnTiles(m, upTo) <==> HasCode(m, t) && t.y < upTo && m.rows[t.y][t.x] == SPAWN_POINT
  {
    if upTo > 0 {
      SpawnTilesExact(m, upTo - 1);
      var y := upTo - 1;
      RowSpawnsExact(m.rows[y], y, |m.rows[y]|);
      var init := SpawnTiles(m, y);
      var row := RowSpawns(m.rows[y], y, |m.rows[y]|);
      assert forall i :: 0 <= i < |init| ==> init[i] in init;
      assert forall i :: 0 <= i < |row| ==> row[i] in row;
    }
  }

  /** Different tiles have different centres. */
  lemma CentresDiffer(m: MapData, a: Tile, b: Tile)
    requires WorldPos(m, a.x, a.y) == WorldPos(m, b.x, b.y)
    ensures a == b
  {
    var size := if m.tileSize <= 0.0 then DEFAULT_TILE_SIZE else m.tileSize;
    assert (a.x - b.x) as real * size == 0.0;
    assert (a.y - b.y) as real * size == 0.0;
  }

  lemma {:induction false} AvailableExact(m: MapData, tiles: seq<Tile>, spawns: seq<Tile>)
    requires Distinct(tiles)
    ensures var a := Available(m, tiles, Positions(m, spawns));
      Distinct(a) && forall t :: t in a <==> t in tiles && t !in spawns
  {
    if tiles != [] {
      var init := tiles[..|tiles| - 1];
      var last := tiles[|tiles| - 1];
      AvailableExact(m, init, spawns);
      OccupiedExactly(m, spawns, last);
      assert forall t :: t in tiles <==> t in init || t == last;
      assert last !in init;
      var a := Available(m, init, Positions(m, spawns));
      assert forall i :: 0 <= i < |a| ==> a[i] in a;
    }
  }

  lemma OccupiedExactly(m: MapData, spawns: seq<Tile>, t: Tile)
    ensures WorldPos(m, t.x, t.y) in Positions(m, spawns) <==> t in spawns
  {
    var ps := Positions(m, spawns);
    if WorldPos(m, t.x, t.y) in ps {
      var i :| 0 <= i < |ps| && ps[i] == WorldPos(m, t.x, t.y);
      CentresDiffer(m, t, spawns[i]);
    }
    if t in spawns {
      var i :| 0 <= i < |spawns| && spawns[i] == t;
      assert ps[i] == WorldPos(m, t.x, t.y);
    }
  }

  lemma {:induction false} DistinctSize(tiles: seq<Tile>)
    requires Distinct(tiles)
    ensures |TileSet(tiles)| == |tiles|
  {
    if tiles == [] {
      assert TileSet(tiles) == {};
    } else {
      var init := tiles[..|tiles| - 1];
      DistinctSize(init);
      assert TileSet(tiles) == TileSet(init) + {tiles[|tiles| - 1]};
      assert tiles[|tiles| - 1] !in init;
    }
  }

  /** The tile that an index below the capacity starts on. */
  function SpawnTile(m: MapData, index: nat): Tile {
    var spawns := SpawnTiles(m, |m.rows|);
    var available := Available(m, FallbackTiles(m), Positions(m, spawns));
    if index < |spawns| then spawns[index]
    else if index - |spawns| < |available| then available[index - |spawns|]
    else Tile(0, 0)
  }

  lemma CapacityCounts(m: MapData)
    ensures var spawns := SpawnTiles(m, |m.rows|);
      UniqueSpawnCapacity(m) == |spawns| + |Available(m, FallbackTiles(m), Positions(m, spawns))|
  {
    var spawns := SpawnTiles(m, |m.rows|);
    var fallback := FallbackTiles(m);
    var available := Available(m, fallback, Positions(m, spawns));
    SpawnTilesExact(m, |m.rows|);
    AvailableExact(m, fallback, spawns);
    DistinctSize(spawns);
    DistinctSize(available);
    hide SpawnTiles, Available, FallbackTiles;
    assert TileSet(spawns) + TileSet(fallback) == TileSet(spawns) + TileSet(available);
    assert TileSet(spawns) !! TileSet(available);
  }

  /** Below the capacity every index starts at the centre of a tile of its own, and no such tile blocks players. */
  lemma SpawnsAreUnique(m: MapData, i: nat, j: nat)
    requires i < UniqueSpawnCapacity(m) && j < UniqueSpawnCapacity(m)
    ensures var t := SpawnTile(m, i); SpawnPosition(m, i) == WorldPos(m, t.x, t.y) && Usable(m, t)
    ensures SpawnPosition(m, i) == SpawnPosition(m, j) ==> i == j
  {
    CapacityCounts(m);
    SpawnAt(m, i);
    SpawnAt(m, j);
    var spawns := SpawnTiles(m, |m.rows|);
    var available := Available(m, FallbackTiles(m), Positions(m, spawns));
    SpawnTilesExact(m, |m.rows|);
    AvailableExact(m, FallbackTiles(m), spawns);
    var t, u := SpawnTile(m, i), SpawnTile(m, j);
    if SpawnPosition(m, i) == SpawnPosition(m, j) {
      CentresDiffer(m, t, u);
    }
    hide SpawnTiles, Available, FallbackTiles, WorldPos, SpawnPosition;
    assert forall k :: 0 <= k < |spawns| ==> spawns[k] in spawns;
    assert forall k :: 0 <= k < |available| ==> available[k] in available;
  }

  lemma FallbackAt(m: MapData, occupied: seq<Vector2>, k: nat)
    requires k < |Available(m, FallbackTiles(m), occupied)|
    ensures var t := Available(m, FallbackTiles(m), occupied)[k]; FallbackPosition(m, occupied, k) == WorldPos(m, t.x, t.y)
  {
    hide FallbackTiles, WorldPos, Turn;
    var available := Available(m, FallbackTiles(m), occupied);
    assert FallbackTiles(m) != [];
    TurnRound(k, |available|);
  }

  lemma SmallModulo(k: nat, n: nat)
    requires k < n
    ensures k % n == k
  {
  }

  lemma SpawnAt(m: MapData, i: nat)
    requires i < UniqueSpawnCapacity(m)
    ensures var t := SpawnTile(m, i); SpawnPosition(m, i) == WorldPos(m, t.x, t.y) && Usable(m, t)
  {
    hide SpawnTiles, Available, FallbackTiles, WorldPos, FallbackPosition;
    CapacityCounts(m);
    var spawns := SpawnTiles(m, |m.rows|);
    var available := Available(m, FallbackTiles(m), Positions(m, spawns));
    SpawnTilesExact(m, |m.rows|);
    AvailableExact(m, FallbackTiles(m), spawns);
    if i < |spawns| {
      assert spawns[i] in spawns;
    } else {
      assert available[i - |spawns|] in available;
      FallbackAt(m, Positions(m, spawns), i - |spawns|);
    }
  }

  // ---------- Which tiles, and in which order ----------

  predicate Before(a: Tile, b: Tile) {
    a.y < b.y || (a.y == b.y && a.x < b.x)
  }

  /** Row by row, and in each row from left to right. */
  predicate ReadingOrder(tiles: seq<Tile>) {
    forall i, j :: 0 <= i < j < |tiles| ==> Before(tiles[i], tiles[j])
  }

  lemma {:induction false} RowSpawnsInOrder(row: seq<nat>, y: nat, upTo: nat)
    requires upTo <= |row|
    ensures ReadingOrder(RowSpawns(row, y, upTo))
  {
    if upTo > 0 {
      RowSpawnsInOrder(row, y, upTo - 1);
      RowSpawnsExact(row, y, upTo - 1);
      var init := RowSpawns(row, y, upTo - 1);
      assert forall i :: 0 <= i < |init| ==> init[i] in init;
    }
  }

  /** The spawn points are used row by row from the top, and in each row from the left. */
  lemma {:induction false} SpawnTilesInOrder(m: MapData, upTo: nat)
    requires upTo <= |m.rows|
    ensures ReadingOrder(SpawnTiles(m, upTo))
  {
    if upTo > 0 {
      var y := upTo - 1;
      SpawnTilesInOrder(m, y);
      SpawnTilesExact(m, y);
      RowSpawnsExact(m.rows[y], y, |m.rows[y]|);
      RowSpawnsInOrder(m.rows[y], y, |m.rows[y]|);
      var init := SpawnTiles(m, y);
      var row := RowSpawns(m.rows[y], y, |m.rows[y]|);
      assert forall i :: 0 <= i < |init| ==> init[i] in init;
      assert forall i :: 0 <= i < |row| ==> row[i] in row;
    }
  }

  /** The map without its outermost columns and rows, where it has any others. */
  predicate Inner(m: MapData, t: Tile) {
    && (if m.width > 2 then 1 <= t.x <= m.width - 2 else 0 <= t.x <= m.width - 1)
    && (if m.height > 2 then 1 <= t.y <= m.height - 2 else 0 <= t.y <= m.height - 1)
  }

  lemma {:induction false} AppendAllExact(m: MapData, tiles: seq<Tile>, candidates: seq<Tile>)
    ensures var more := AppendAll(m, tiles, candidates);
      && |tiles| <= |more| && more[..|tiles|] == tiles
      && forall t :: t in more <==> t in tiles || (t in candidates && Usable(m, t))
    decreases |candidates|
  {
    hide Usable;
    if candidates != [] {
      var init := candidates[..|candidates| - 1];
      AppendAllExact(m, tiles, init);
      assert forall t :: t in candidates <==> t in init || t == candidates[|candidates| - 1];
    }
  }

  lemma {:induction false} RowScanExact(y: int, lo: int, hi: int)
    ensures ReadingOrder(RowScan(y, lo, hi)) && forall t :: t in RowScan(y, lo, hi) <==> t.y == y && lo <= t.x < hi
    decreases hi - lo
  {
    if lo < hi {
      RowScanExact(y, lo, hi - 1);
      var init := RowScan(y, lo, hi - 1);
      assert forall i :: 0 <= i < |init| ==> init[i] in init;
    }
  }

  lemma {:induction false} ScanExact(m: MapData, lo: int, hi: int)
    ensures ReadingOrder(Scan(m, lo, hi))
    ensures forall t :: t in Scan(m, lo, hi) <==> lo <= t.y < hi && MinX(m) <= t.x <= MaxX(m)
    decreases hi - lo
  {
    hide MinX, MaxX, RowScan;
    if lo < hi {
      ScanExact(m, lo, hi - 1);
      RowScanExact(hi - 1, MinX(m), MaxX(m) + 1);
      var init := Scan(m, lo, hi - 1);
      var row := RowScan(hi - 1, MinX(m), MaxX(m) + 1);
      assert forall i :: 0 <= i < |init| ==> init[i] in init;
      assert forall i :: 0 <= i < |row| ==> row[i] in row;
    }
  }

  /** The four corners of the inner map and its middle. */
  lemma PreferredAre(m: MapData)
    requires m.width > 2 && m.height > 2
    ensures Preferred(m) == [Tile(1, 1), Tile(m.width - 2, m.height - 2), Tile(m.width - 2, 1), Tile(1, m.height - 2),
                             Tile((m.width - 1) / 2, (m.height - 1) / 2)]
  {
  }

  /** Fallback tiles are exactly the unblocked tiles of the inner map. */
  lemma FallbackTilesExact(m: MapData, t: Tile)
    ensures t in FallbackTiles(m) <==> m.width > 0 && m.height > 0 && Inner(m, t) && Usable(m, t)
  {
    hide Usable, AppendAll, Scan;
    if m.width > 0 && m.height > 0 {
      var candidates := Preferred(m) + Scan(m, MinY(m), MaxY(m) + 1);
      AppendAllExact(m, [], candidates);
      ScanExact(m, MinY(m), MaxY(m) + 1);
      assert t in candidates <==> t in Preferred(m) || t in Scan(m, MinY(m), MaxY(m) + 1);
    }
  }

  /** `t` is met among the candidates before `u` is. */
  predicate FirstMet(candidates: seq<Tile>, t: Tile, u: Tile) {
    exists k :: 0 <= k < |candidates| && candidates[k] == t && u !in candidates[..k]
  }

  /** The order in which the candidates are first met is kept. */
  predicate Follows(tiles: seq<Tile>, candidates: seq<Tile>) {
    forall i, j :: 0 <= i < j < |tiles| ==> FirstMet(candidates, tiles[i], tiles[j])
  }

  lemma {:induction false} AppendAllFollows(m: MapData, candidates: seq<Tile>)
    ensures Follows(AppendAll(m, [], candidates), candidates)
    decreases |candidates|
  {
    hide Usable, FirstMet;
    if candidates != [] {
      var n := |candidates| - 1;
      var init := candidates[..n];
      var tiles := AppendAll(m, [], init);
      var more := AppendAll(m, [], candidates);
      AppendAllFollows(m, init);
      AppendAllExact(m, [], init);
      forall i, j | 0 <= i < j < |more|
        ensures FirstMet(candidates, more[i], more[j])
      {
        if j < |tiles| {
          assert FirstMet(init, tiles[i], tiles[j]);
          MetBefore(candidates, n, tiles[i], tiles[j]);
        } else {
          assert tiles[i] in tiles && tiles[i] in init;
          NotUsedBefore(m, init, more[j]);
          MetLast(candidates, n, more[i], more[j]);
        }
      }
    }
  }

  lemma MetBefore(candidates: seq<Tile>, n: nat, t: Tile, u: Tile)
    requires n <= |candidates| && FirstMet(candidates[..n], t, u)
    ensures FirstMet(candidates, t, u)
  {
    var k :| 0 <= k < n && candidates[..n][k] == t && u !in candidates[..n][..k];
    assert candidates[k] == t && candidates[..k] == candidates[..n][..k];
  }

  lemma MetLast(candidates: seq<Tile>, n: nat, t: Tile, u: Tile)
    requires n < |candidates| && t in candidates[..n] && u !in candidates[..n]
    ensures FirstMet(candidates, t, u)
  {
    var k :| 0 <= k < n && candidates[..n][k] == t;
    assert candidates[k] == t && forall q :: q in candidates[..k] ==> q in candidates[..n];
  }

  lemma NotUsedBefore(m: MapData, candidates: seq<Tile>, t: Tile)
    requires t !in AppendAll(m, [], candidates) && Usable(m, t)
    ensures t !in candidates
  {
    AppendAllExact(m, [], candidates);
  }

  /** The preferred tiles come first, in their order, and then the others of the inner map, row by row. */
  lemma FallbackTilesInOrder(m: MapData)
    requires m.width > 0 && m.height > 0
    ensures Follows(FallbackTiles(m), Preferred(m) + Scan(m, MinY(m), MaxY(m) + 1))
    ensures ReadingOrder(Scan(m, MinY(m), MaxY(m) + 1))
    ensures forall t :: t in Scan(m, MinY(m), MaxY(m) + 1) <==> Inner(m, t)
  {
    AppendAllFollows(m, Preferred(m) + Scan(m, MinY(m), MaxY(m) + 1));
    ScanExact(m, MinY(m), MaxY(m) + 1);
  }

  /** Past the last free fallback tile the positions start again; a negative index counts as the first. */
  lemma FallbackGoesRound(m: MapData, occupied: seq<Vector2>, k: nat)
    ensures var tiles := FallbackTiles(m);
      var free := Available(m, tiles, occupied);
      && (tiles == [] ==> FallbackPosition(m, occupied, k) == ZERO)
      && (free != [] ==> FallbackPosition(m, occupied, k + |free|) == FallbackPosition(m, occupied, k))
      && (free == [] ==> forall i :: 0 <= i < |tiles| ==> FallbackPosition(m, occupied, i) == WorldPos(m, tiles[i].x, tiles[i].y))
      && (free == [] && tiles != [] ==> FallbackPosition(m, occupied, k + |tiles|) == FallbackPosition(m, occupied, k))
    ensures forall i :: i < 0 ==> FallbackPosition(m, occupied, i) == FallbackPosition(m, occupied, 0)
  {
    hide FallbackTiles, Available, WorldPos, Turn;
    var tiles := FallbackTiles(m);
    var free := Available(m, tiles, occupied);
    NoneAvailable(m, occupied);
    if free != [] {
      TurnRound(k, |free|);
    } else if tiles != [] {
      TurnRound(k, |tiles|);
      forall i | 0 <= i < |tiles|
        ensures FallbackPosition(m, occupied, i) == WorldPos(m, tiles[i].x, tiles[i].y)
      {
        TurnRound(i, |tiles|);
      }
    }
  }

  lemma NoneAvailable(m: MapData, occupied: seq<Vector2>)
    ensures Available(m, [], occupied) == []
  {
  }

  lemma TurnRound(k: nat, n: nat)
    requires n > 0
    ensures Turn(k + n, n) == Turn(k, n)
    ensures k < n ==> Turn(k, n) == k
    ensures forall i :: i < 0 ==> Turn(i, n) == Turn(0, n)
  {
    var q, r := k / n, k % n;
    assert k + n == (q + 1) * n + r;
    OneRemainder(k + n, n, q + 1, r);
    if k < n {
      SmallModulo(k, n);
    }
  }

  lemma OneRemainder(a: nat, n: nat, q: nat, r: nat)
    requires n > 0 && a == q * n + r && r < n
    ensures a % n == r
  {
    var q', r' := a / n, a % n;
    assert a == q' * n + r';
    if q' < q {
      Multiples(q - q', n);
    } else if q < q' {
      Multiples(q' - q, n);
    }
  }

  lemma Multiples(d: nat, n: nat)
    requires d >= 1
    ensures d * n >= n
  {
  }

  /** Indices outside the spawn points start on the fallback positions; a negative one on the first of them. */
  lemma SpawnsThenFallback(m: MapData, index: int)
    ensures var spawns := SpawnTiles(m, |m.rows|);
      var occupied := Positions(m, spawns);
      && (0 <= index < |spawns| ==> SpawnPosition(m, index) == WorldPos(m, spawns[index].x, spawns[index].y))
      && (index >= |spawns| ==> SpawnPosition(m, index) == FallbackPosition(m, occupied, index - |spawns|))
      && (index < 0 ==> SpawnPosition(m, index) == FallbackPosition(m, occupied, 0))
  {
    hide FallbackPosition, SpawnTiles;
    if index < 0 {
      FallbackGoesRound(m, Positions(m, SpawnTiles(m, |m.rows|)), 0);
    }
  }
}
