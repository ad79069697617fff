/** The bots' steering: world to tile, axis centring and the direction towards the next tile. */
module Steering {
  import opened Wrappers
  import opened Grid
  import opened World
  import opened PathSearch

  const DEFAULT_PLAYER_SPEED: real := 2.0
  const TICK_RATE: int := 30
  const COMPARE_EPS: real := 0.000000000001

  /** The map with its tile size filled in, if it is a non-empty rectangle. */
  function Geometry(m: MapData): Option<MapData> {
    var resolved := m.(tileSize := if m.tileSize <= 0.0 then DEFAULT_TILE_SIZE else m.tileSize);
    if Rectangular(resolved) then Some(resolved) else None
  }

  /** Bots steer exactly on maps that are non-empty rectangles; a missing tile size is the default one. */
  lemma GeometryIs(m: MapData)
    ensures Geometry(m).Some? <==>
              m.width > 0 && m.height > 0 && |m.rows| == m.height && forall row :: row in m.rows ==> |row| == m.width
    ensures Geometry(m).Some? ==>
              Geometry(m).value == m.(tileSize := if m.tileSize > 0.0 then m.tileSize else DEFAULT_TILE_SIZE)
  {
    assert forall y :: 0 <= y < |m.rows| ==> m.rows[y] in m.rows;
  }

  function WorldToBotTile(m: MapData, p: Vector2): Option<Tile> {
    var geometry := Geometry(m);
    if geometry.None? then None
    else
      var g := geometry.value;
      var gridX := (p.x - Left(g)) / g.tileSize;
      var gridY := (Top(g) - p.y) / g.tileSize;
      if gridX < 0.0 || gridX >= g.width as real || gridY < 0.0 || gridY >= g.height as real then None
      else Some(Tile(gridX.Floor, gridY.Floor))
  }

  function AxisCenteringDirection(current: real, center: real, xAxis: bool, maxMovement: real): Vector2
    requires maxMovement > 0.0
  {
    var delta := center - current;
    if AbsReal(delta) <= COMPARE_EPS then ZERO
    else
      var component := Clamp(delta / maxMovement, -1.0, 1.0);
      if xAxis then Vector2(component, 0.0) else Vector2(0.0, component)
  }

  function PathStepDirection(g: MapData, p: Vector2, start: Tile, next: Tile, maxMovement0: real): Vector2 {
    var maxMovement := if maxMovement0 <= 0.0 then DEFAULT_PLAYER_SPEED / (TICK_RATE as real) else maxMovement0;
    var center := WorldPos(g, start.x, start.y);
    var centering :=
      if next.y != start.y then AxisCenteringDirection(p.x, center.x, true, maxMovement)
      else if next.x != start.x then AxisCenteringDirection(p.y, center.y, false, maxMovement)
      else ZERO;
    if centering != ZERO then centering
    else Vector2((next.x - start.x) as real, (start.y - next.y) as real)
  }

  function UnitDirection(from: Vector2, to: Vector2, sqrt: real -> real): Vector2 {
    var dx := to.x - from.x;
    var dy := to.y - from.y;
    var length := sqrt(LengthSquared(Vector2(dx, dy)));
    if length == 0.0 then Vector2(1.0, 0.0) else Vector2(dx / length, dy / length)
  }

  /** The direction computed without a cache. */
  ghost function NextBotPathDirection(m: MapData, p: Vector2, goal: Vector2, maxMovement: real, sqrt: real -> real): Option<Vector2> {
    var geometry := Geometry(m);
    var start := WorldToBotTile(m, p);
    var end := WorldToBotTile(m, goal);
    if geometry.None? || start.None? || !Passable(m, start.value) || end.None? || !Passable(m, end.value) then None
    else if start == end then Some(UnitDirection(p, goal, sqrt))
    else
      var next := NextTile(m, start.value, end.value);
      if next.None? then None
      else Some(PathStepDirection(geometry.value, p, start.value, next.value, maxMovement))
  }

  /** How far a bot moves in a tick, as the bots compute it. */
  function BotMovementStep(speed: real, tickRate0: int): real {
    var tickRate := if tickRate0 <= 0 then TICK_RATE else tickRate0;
    (if speed <= 0.0 then DEFAULT_PLAYER_SPEED else speed) / (tickRate as real)
  }

  /** The server's length of a tick. */
  function TickDuration(tickRate: int): real {
    if tickRate <= 0 then 1.0 / (TICK_RATE as real) else 1.0 / (tickRate as real)
  }

  /** Whatever the configuration, bots plan with a positive step, the default speed and tick rate standing in. */
  lemma StepIsPlanned(speed: real, tickRate: int)
    ensures BotMovementStep(speed, tickRate) > 0.0
    ensures speed > 0.0 && tickRate > 0 ==> BotMovementStep(speed, tickRate) * (tickRate as real) == speed
    ensures speed <= 0.0 ==> BotMovementStep(speed, tickRate) == BotMovementStep(DEFAULT_PLAYER_SPEED, tickRate)
    ensures tickRate <= 0 ==> BotMovementStep(speed, tickRate) == BotMovementStep(speed, TICK_RATE)
  {
    var s := if speed <= 0.0 then DEFAULT_PLAYER_SPEED else speed;
    var r := (if tickRate <= 0 then TICK_RATE else tickRate) as real;
    assert s / r * r == s;
    if s / r <= 0.0 { MulNonNegative(-(s / r), r); }
  }

  lemma SelfQuotient(a: real, size: real)
    requires size > 0.0
    ensures a == size ==> a / size == 1.0
    ensures a == -size ==> a / size == -1.0
  {
    var q := a / size;
    assert q * size == a;
  }

  lemma MagnitudeNonzero(x: real, y: real, magnitude: real)
    requires x == 1.0 || x == -1.0 || y == 1.0 || y == -1.0
    requires magnitude * magnitude == x * x + y * y
    ensures magnitude != 0.0
  {
    assert x * x >= 0.0 && y * y >= 0.0;
  }

  function NormalizeDirection(d: Vector2, sqrt: real -> real): Vector2
    requires IsSqrt(sqrt)
  {
    var largest := Max(AbsReal(d.x), AbsReal(d.y));
    if largest == 0.0 then d
    else
      var x := d.x / largest;
      var y := d.y / largest;
      var magnitude := sqrt(LengthSquared(Vector2(x, y)));
      SelfQuotient(d.x, largest);
      SelfQuotient(d.y, largest);
      MagnitudeNonzero(x, y, magnitude);
      Vector2(x / magnitude, y / magnitude)
  }

  /** The server accepts directions inside the unit circle and scales others onto it. */
  function ClampDirection(d: Vector2, sqrt: real -> real): Vector2
    requires IsSqrt(sqrt)
  {
    if Max(AbsReal(d.x), AbsReal(d.y)) <= 1.0 && sqrt(LengthSquared(d)) <= 1.0 then d
    else NormalizeDirection(d, sqrt)
  }

  /** The displacement the server prepares for an input direction. */
  function PreparedMovement(d: Vector2, speed: real, tickRate: int, sqrt: real -> real): Vector2
    requires IsSqrt(sqrt)
  {
    var dir := ClampDirection(d, sqrt);
    Vector2(speed * TickDuration(tickRate) * dir.x, speed * TickDuration(tickRate) * dir.y)
  }
}
