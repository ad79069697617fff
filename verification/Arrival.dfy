/**
 A lone live bot, steered each tick by the path direction and moved by the server, reaches its goal
 tile within a bounded number of ticks and never touches a wall on the way.
 */
module Arrival {
  import opened Wrappers
  import opened Grid
  import opened World
  import opened PathSearch
  import opened Steering
  import opened Movement
  import opened MovementSafety
  import opened Corridor

  /** The fixed facts of a run: the map, the bot's size and speed, and the position it heads for. */
  datatype Trip = Trip(m: MapData, radius: real, speed: real, tickRate: int, goal: Vector2)

  function Step(trip: Trip): real {
    BotMovementStep(trip.speed, trip.tickRate)
  }

  /** The bot fits in a corridor one tile wide and cannot jump over a tile. */
  ghost predicate Feasible(trip: Trip) {
    && Rectangular(trip.m) && trip.speed > 0.0
    && var r := Max(trip.radius, 0.0);
       r < trip.m.tileSize / 2.0 - COMPARE_EPS && Step(trip) + r < trip.m.tileSize
  }

  /** One tick for a bot whom nobody else can block: its direction, the server's reading of it, and the wall tests. */
  ghost function Tick(trip: Trip, p: Vector2, sqrt: real -> real): Vector2
    requires IsSqrt(sqrt)
  {
    var direction := NextBotPathDirection(trip.m, p, trip.goal, Step(trip), sqrt);
    var dir := if direction.None? then ZERO else direction.value;
    LoneStep(trip.m, p, trip.radius, PreparedMovement(dir, trip.speed, trip.tickRate, sqrt))
  }

  ghost function After(trip: Trip, p: Vector2, sqrt: real -> real, n: nat): Vector2
    requires IsSqrt(sqrt)
    decreases n
  {
    if n == 0 then p else After(trip, Tick(trip, p, sqrt), sqrt, n - 1)
  }

  // ---------- How many ticks are left ----------

  /** Ticks to close an offset, and whole steps that fit into a distance. */
  function CenterTicks(offset: real, step: real): nat
    requires step > 0.0
  {
    if AbsReal(offset) <= COMPARE_EPS then 0 else Steps(AbsReal(offset), step)
  }

  function Steps(distance: real, step: real): (n: nat)
    requires step > 0.0 && distance >= 0.0
    ensures n > 0
  {
    FloorQuotient(distance, step, 0);
    (distance / step).Floor + 1
  }

  lemma StepShortens(distance: real, step: real)
    requires step > 0.0 && distance >= step
    ensures Steps(distance - step, step) == Steps(distance, step) - 1
  {
    var n := Steps(distance - step, step);
    FloorQuotient(distance - step, step, n - 1);
    FloorQuotient(distance - step, step, n);
    FloorQuotient(distance, step, n);
    FloorQuotient(distance, step, n + 1);
    assert n as real * step == (n - 1) as real * step + step;
    assert (n + 1) as real * step == n as real * step + step;
  }

  lemma MoreDistanceMoreSteps(a: real, b: real, step: real)
    requires step > 0.0 && 0.0 <= a <= b
    ensures Steps(a, step) <= Steps(b, step)
  {
    var n := Steps(a, step);
    FloorQuotient(a, step, n - 1);
    FloorQuotient(b, step, n - 1);
  }

  /** How far the bot is from the line it must follow to enter `next`. */
  function Offset(m: MapData, p: Vector2, t: Tile, next: Tile): real {
    if next.y != t.y then CenterX(m, t) - p.x else CenterY(m, t) - p.y
  }

  /** How far the bot is from the edge it must cross to enter `next`. */
  function Crossing(m: MapData, p: Vector2, t: Tile, next: Tile): real {
    if next.y > t.y then p.y - RowEdge(m, t.y + 1)
    else if next.y < t.y then RowEdge(m, t.y) - p.y
    else if next.x > t.x then ColEdge(m, t.x + 1) - p.x
    else p.x - ColEdge(m, t.x)
  }

  /** Ticks left inside the current tile. */
  ghost function TileTicks(trip: Trip, p: Vector2, t: Tile, next: Tile): (n: nat)
    requires Step(trip) > 0.0
    requires InTile(trip.m, p, t) && Adjacent(t, next)
    ensures n > 0
  {
    CenterTicks(Offset(trip.m, p, t, next), Step(trip)) + Steps(Crossing(trip.m, p, t, next), Step(trip))
  }

  /** The most ticks a tile can cost: half its size to centre and its size to cross. */
  function TicksPerTile(trip: Trip): nat
    requires Step(trip) > 0.0 && trip.m.tileSize > 0.0
  {
    Steps(trip.m.tileSize / 2.0, Step(trip)) + Steps(trip.m.tileSize, Step(trip))
  }

  lemma TileTicksBounded(trip: Trip, p: Vector2, t: Tile, next: Tile)
    requires Rectangular(trip.m) && Step(trip) > 0.0
    requires InTile(trip.m, p, t) && Adjacent(t, next)
    ensures TileTicks(trip, p, t, next) <= TicksPerTile(trip)
  {
    EdgeStep(trip.m, t.x);
    EdgeStep(trip.m, t.y);
    hide ColEdge, RowEdge, Steps;
    var offset := Offset(trip.m, p, t, next);
    MoreDistanceMoreSteps(AbsReal(offset), trip.m.tileSize / 2.0, Step(trip));
    MoreDistanceMoreSteps(Crossing(trip.m, p, t, next), trip.m.tileSize, Step(trip));
  }

  // ---------- The direction and the displacement of one tick ----------

  predicate SingleAxis(dir: Vector2) {
    (dir.x == 0.0 && -1.0 <= dir.y <= 1.0) || (dir.y == 0.0 && -1.0 <= dir.x <= 1.0)
  }

  lemma SingleAxisIsKept(dir: Vector2, sqrt: real -> real)
    requires IsSqrt(sqrt) && SingleAxis(dir)
    ensures ClampDirection(dir, sqrt) == dir
  {
    hide LengthSquared;
    var c := if dir.x == 0.0 then AbsReal(dir.y) else AbsReal(dir.x);
    AxisLength(dir, c);
    var root := sqrt(LengthSquared(dir));
    assert root >= 0.0 && root * root == c * c;
    SquareOrder(c, root);
    SquareOrder(root, c);
    assert root == c && Max(AbsReal(dir.x), AbsReal(dir.y)) == c;
  }

  lemma AxisLength(dir: Vector2, c: real)
    requires (dir.x == 0.0 && c == AbsReal(dir.y)) || (dir.y == 0.0 && c == AbsReal(dir.x))
    ensures LengthSquared(dir) == c * c && c * c >= 0.0
  {
    MulNonNegative(c, c);
  }

  lemma StepIsSpeedTimesTick(trip: Trip)
    requires trip.speed > 0.0
    ensures trip.speed * TickDuration(trip.tickRate) == Step(trip)
  {
    var rate := if trip.tickRate <= 0 then TICK_RATE as real else trip.tickRate as real;
    var inverse := 1.0 / rate;
    assert inverse * rate == 1.0;
    var step := trip.speed / rate;
    assert step * rate == trip.speed;
    assert trip.speed * inverse == step * (rate * inverse);
  }

  /** The server's step is the bot's step, and a direction along one axis is taken as it is. */
  lemma AxisMovement(trip: Trip, dir: Vector2, sqrt: real -> real)
    requires IsSqrt(sqrt) && trip.speed > 0.0 && SingleAxis(dir)
    ensures PreparedMovement(dir, trip.speed, trip.tickRate, sqrt) == Vector2(Step(trip) * dir.x, Step(trip) * dir.y)
  {
    hide TickDuration, BotMovementStep, ClampDirection;
    SingleAxisIsKept(dir, sqrt);
    StepIsSpeedTimesTick(trip);
  }

  /** A centring component closes the offset by a step, or closes it entirely. */
  lemma CenteringDisplacement(offset: real, step: real)
    requires step > 0.0
    ensures var moved := step * Clamp(offset / step, -1.0, 1.0);
            if offset > step then moved == step else if offset < -step then moved == -step else moved == offset
  {
    var q := offset / step;
    assert q * step == offset && step * q == offset;
    if q > 1.0 {
      MulPositive(q - 1.0, step);
    } else if q < -1.0 {
      MulPositive(-1.0 - q, step);
    } else {
      FractionOfStep(q, step);
    }
  }

  lemma FractionOfStep(q: real, step: real)
    requires step > 0.0 && -1.0 <= q <= 1.0
    ensures -step <= q * step <= step
  {
    assert (1.0 - q) * step >= 0.0 && (q + 1.0) * step >= 0.0;
    assert (1.0 - q) * step == step - q * step;
  }

  lemma CenterTicksFall(offset: real, moved: real, step: real)
    requires step > 0.0 && AbsReal(offset) > COMPARE_EPS
    requires if offset > step then moved == step else if offset < -step then moved == -step else moved == offset
    ensures CenterTicks(offset - moved, step) < CenterTicks(offset, step)
  {
    hide Steps;
    if AbsReal(offset) > step {
      StepShortens(AbsReal(offset), step);
    }
  }

  lemma LoneStepX(m: MapData, p: Vector2, radius: real, dx: real)
    requires Clear(m, Vector2(p.x + dx, p.y), radius)
    ensures LoneStep(m, p, radius, Vector2(dx, 0.0)) == Vector2(p.x + dx, p.y)
  {
    hide Collides;
  }

  lemma LoneStepY(m: MapData, p: Vector2, radius: real, dy: real)
    requires Clear(m, p, radius) && Clear(m, Vector2(p.x, p.y + dy), radius)
    ensures LoneStep(m, p, radius, Vector2(0.0, dy)) == Vector2(p.x, p.y + dy)
  {
    hide Collides;
    assert Vector2(p.x + 0.0, p.y) == p;
  }

  // ---------- One tick inside a tile ----------

  /** The bot is in a passable tile, clear of the walls, and the search sends it to `next`. */
  ghost predicate OnTheWay(trip: Trip, p: Vector2, t: Tile, next: Tile) {
    && InTile(trip.m, p, t) && Clear(trip.m, p, trip.radius)
    && Passable(trip.m, t) && Passable(trip.m, next) && Adjacent(t, next)
  }

  /** The tick stays in the tile and uses up one of its ticks, or it enters the next tile. */
  ghost predicate Progress(trip: Trip, p: Vector2, p': Vector2, t: Tile, next: Tile)
    requires Step(trip) > 0.0 && OnTheWay(trip, p, t, next)
  {
    && Clear(trip.m, p', trip.radius)
    && (InTile(trip.m, p', next)
        || (InTile(trip.m, p', t) && TileTicks(trip, p', t, next) < TileTicks(trip, p, t, next)))
  }

  ghost function StepTick(trip: Trip, p: Vector2, t: Tile, next: Tile, sqrt: real -> real): Vector2
    requires IsSqrt(sqrt)
  {
    var dir := PathStepDirection(trip.m, p, t, next, Step(trip));
    LoneStep(trip.m, p, trip.radius, PreparedMovement(dir, trip.speed, trip.tickRate, sqrt))
  }

  lemma StepIsPositive(trip: Trip)
    requires trip.speed > 0.0
    ensures Step(trip) > 0.0
  {
  }

  /** The direction while off the line: towards it, a step at most. */
  lemma CenteringDirection(trip: Trip, p: Vector2, t: Tile, next: Tile)
    requires Rectangular(trip.m) && Step(trip) > 0.0 && Adjacent(t, next)
    requires AbsReal(Offset(trip.m, p, t, next)) > COMPARE_EPS
    ensures var c := Clamp(Offset(trip.m, p, t, next) / Step(trip), -1.0, 1.0);
            PathStepDirection(trip.m, p, t, next, Step(trip)) == if next.y != t.y then Vector2(c, 0.0) else Vector2(0.0, c)
  {
    CenterIsWorldPos(trip.m, t);
    hide WorldPos, CenterX, CenterY, BotMovementStep;
    var q := Offset(trip.m, p, t, next) / Step(trip);
    assert q * Step(trip) == Offset(trip.m, p, t, next);
    assert q != 0.0;
  }

  /** The direction on the line: the whole step towards the next tile. */
  lemma AdvancingDirection(trip: Trip, p: Vector2, t: Tile, next: Tile)
    requires Rectangular(trip.m) && Step(trip) > 0.0 && Adjacent(t, next)
    requires AbsReal(Offset(trip.m, p, t, next)) <= COMPARE_EPS
    ensures PathStepDirection(trip.m, p, t, next, Step(trip))
            == Vector2((next.x - t.x) as real, (t.y - next.y) as real)
  {
    CenterIsWorldPos(trip.m, t);
    hide WorldPos, CenterX, CenterY, BotMovementStep;
  }

  /** A displacement on the axis that centring uses when heading for `next`. */
  function AcrossAxis(t: Tile, next: Tile, v: real): Vector2 {
    if next.y != t.y then Vector2(v, 0.0) else Vector2(0.0, v)
  }

  lemma CenteringMove(trip: Trip, p: Vector2, t: Tile, next: Tile, sqrt: real -> real) returns (moved: real)
    requires Rectangular(trip.m) && trip.speed > 0.0 && IsSqrt(sqrt) && Step(trip) > 0.0 && Adjacent(t, next)
    requires AbsReal(Offset(trip.m, p, t, next)) > COMPARE_EPS
    ensures var offset := Offset(trip.m, p, t, next); var step := Step(trip);
            if offset > step then moved == step else if offset < -step then moved == -step else moved == offset
    ensures StepTick(trip, p, t, next, sqrt) == LoneStep(trip.m, p, trip.radius, AcrossAxis(t, next, moved))
  {
    hide CenterX, CenterY, BotMovementStep, LoneStep, PreparedMovement;
    CenteringDirection(trip, p, t, next);
    hide PathStepDirection;
    var c := Clamp(Offset(trip.m, p, t, next) / Step(trip), -1.0, 1.0);
    CenteringDisplacement(Offset(trip.m, p, t, next), Step(trip));
    AxisMovement(trip, AcrossAxis(t, next, c), sqrt);
    moved := Step(trip) * c;
    assert PreparedMovement(AcrossAxis(t, next, c), trip.speed, trip.tickRate, sqrt) == AcrossAxis(t, next, moved);
  }

  /** A full step towards `next`; rows run downwards. */
  function Forward(t: Tile, next: Tile, step: real): Vector2 {
    if next.y > t.y then Vector2(0.0, -step)
    else if next.y < t.y then Vector2(0.0, step)
    else if next.x > t.x then Vector2(step, 0.0)
    else Vector2(-step, 0.0)
  }

  lemma AdvancingMove(trip: Trip, p: Vector2, t: Tile, next: Tile, sqrt: real -> real)
    requires Rectangular(trip.m) && trip.speed > 0.0 && IsSqrt(sqrt) && Step(trip) > 0.0 && Adjacent(t, next)
    requires AbsReal(Offset(trip.m, p, t, next)) <= COMPARE_EPS
    ensures StepTick(trip, p, t, next, sqrt) == LoneStep(trip.m, p, trip.radius, Forward(t, next, Step(trip)))
  {
    hide CenterX, CenterY, BotMovementStep, LoneStep, PreparedMovement;
    AdvancingDirection(trip, p, t, next);
    hide PathStepDirection;
    var dir := Vector2((next.x - t.x) as real, (t.y - next.y) as real);
    AxisMovement(trip, dir, sqrt);
    assert PreparedMovement(dir, trip.speed, trip.tickRate, sqrt) == Forward(t, next, Step(trip));
  }

  lemma CenterTick(trip: Trip, p: Vector2, t: Tile, next: Tile, sqrt: real -> real)
    requires Feasible(trip) && IsSqrt(sqrt) && Step(trip) > 0.0 && OnTheWay(trip, p, t, next)
    requires AbsReal(Offset(trip.m, p, t, next)) > COMPARE_EPS
    ensures Progress(trip, p, StepTick(trip, p, t, next, sqrt), t, next)
  {
    hide StepTick, ColEdge, RowEdge, Steps, Clear, LoneStep, Step, Passable;
    var moved := CenteringMove(trip, p, t, next, sqrt);
    CenterTicksFall(Offset(trip.m, p, t, next), moved, Step(trip));
    if next.y != t.y {
      CenteringXKeepsClear(trip.m, p, Vector2(p.x + moved, p.y), t, trip.radius);
      LoneStepX(trip.m, p, trip.radius, moved);
    } else {
      CenteringYKeepsClear(trip.m, p, Vector2(p.x, p.y + moved), t, trip.radius);
      LoneStepY(trip.m, p, trip.radius, moved);
    }
  }

  lemma AdvanceTick(trip: Trip, p: Vector2, t: Tile, next: Tile, sqrt: real -> real)
    requires Feasible(trip) && IsSqrt(sqrt) && Step(trip) > 0.0 && OnTheWay(trip, p, t, next)
    requires AbsReal(Offset(trip.m, p, t, next)) <= COMPARE_EPS
    ensures Progress(trip, p, StepTick(trip, p, t, next, sqrt), t, next)
  {
    hide StepTick, ColEdge, RowEdge, Steps, Clear, LoneStep, Step, Passable;
    AdvancingMove(trip, p, t, next, sqrt);
    var forward := Forward(t, next, Step(trip));
    var p' := Vector2(p.x + forward.x, p.y + forward.y);
    if next.y != t.y {
      AdvancingYKeepsClear(trip.m, p, p', t, next, Step(trip), trip.radius);
      LoneStepY(trip.m, p, trip.radius, forward.y);
    } else {
      AdvancingXKeepsClear(trip.m, p, p', t, next, Step(trip), trip.radius);
      LoneStepX(trip.m, p, trip.radius, forward.x);
    }
    if !InTile(trip.m, p', next) {
      StepShortens(Crossing(trip.m, p, t, next), Step(trip));
    }
  }

  // ---------- The whole run ----------

  /** A bot's position from which its goal can be reached: in tile `t`, with the goal in tile `g`. */
  ghost predicate Underway(trip: Trip, p: Vector2, t: Tile, g: Tile) {
    && Feasible(trip) && InTile(trip.m, p, t) && Passable(trip.m, t) && Clear(trip.m, p, trip.radius)
    && WorldToBotTile(trip.m, trip.goal) == Some(g) && Passable(trip.m, g) && Reachable(trip.m, t, g)
  }

  lemma ChosenNext(trip: Trip, p: Vector2, t: Tile, g: Tile, sqrt: real -> real) returns (next: Tile)
    requires IsSqrt(sqrt) && Underway(trip, p, t, g) && t != g
    ensures Some(next) == NextTile(trip.m, t, g) && OnTheWay(trip, p, t, next)
    ensures Tick(trip, p, sqrt) == StepTick(trip, p, t, next, sqrt)
    ensures Reachable(trip.m, next, g) && Distance(trip.m, t, g) == Distance(trip.m, next, g) + 1
  {
    hide InTile, Clear, LoneStep, PreparedMovement, PathStepDirection, Reachable, UnitDirection;
    NextTileCorrect(trip.m, t, g);
    next := NextTile(trip.m, t, g).value;
    FirstOfShortestApproaches(trip.m, t, g, next);
    TileIffBetweenEdges(trip.m, p, t);
    assert Geometry(trip.m) == Some(trip.m);
  }

  lemma TickProgresses(trip: Trip, p: Vector2, t: Tile, next: Tile, sqrt: real -> real)
    requires Feasible(trip) && IsSqrt(sqrt) && Step(trip) > 0.0 && OnTheWay(trip, p, t, next)
    ensures Progress(trip, p, StepTick(trip, p, t, next, sqrt), t, next)
  {
    hide *;
    if AbsReal(Offset(trip.m, p, t, next)) > COMPARE_EPS {
      CenterTick(trip, p, t, next, sqrt);
    } else {
      AdvanceTick(trip, p, t, next, sqrt);
    }
  }

  lemma ZeroDistance(m: MapData, t: Tile, g: Tile)
    requires Reachable(m, t, g)
    ensures Distance(m, t, g) == 0 <==> t == g
  {
    if t == g {
      assert WalkOf(m, t, g, 0, [t]);
      assert WalkOfLength(m, t, g, 0);
    }
  }

  lemma NextIsCloser(trip: Trip, p: Vector2, t: Tile, g: Tile)
    requires Underway(trip, p, t, g) && t != g
    ensures NextTile(trip.m, t, g).Some? && trip.m.tileSize > 0.0 && InTile(trip.m, p, t)
    ensures var next := NextTile(trip.m, t, g).value;
      Adjacent(t, next) && Reachable(trip.m, next, g)
  {
    hide InTile, Clear, Reachable, NextTile, WorldToBotTile, Passable, Distance;
    NextTileCorrect(trip.m, t, g);
    FirstOfShortestApproaches(trip.m, t, g, NextTile(trip.m, t, g).value);
  }

  /** The ticks left: the current tile's, and a full tile's for every further tile before the goal. */
  ghost function Budget(trip: Trip, p: Vector2, t: Tile, g: Tile): nat
    requires Underway(trip, p, t, g) && Step(trip) > 0.0
  {
    if t == g then 0
    else
      NextIsCloser(trip, p, t, g);
      var next := NextTile(trip.m, t, g).value;
      Distance(trip.m, next, g) * TicksPerTile(trip) + TileTicks(trip, p, t, next)
  }

  /** Every tick away from the goal tile uses up budget and keeps the bot clear and able to arrive. */
  lemma TickSpendsBudget(trip: Trip, p: Vector2, t: Tile, g: Tile, sqrt: real -> real) returns (t': Tile)
    requires IsSqrt(sqrt) && Step(trip) > 0.0 && Underway(trip, p, t, g) && t != g
    ensures Underway(trip, Tick(trip, p, sqrt), t', g)
    ensures Budget(trip, Tick(trip, p, sqrt), t', g) < Budget(trip, p, t, g)
  {
    hide InTile, Clear, LoneStep, PreparedMovement, PathStepDirection, Tick, TicksPerTile, TileTicks, Step, Distance;
    hide NextTile, Passable, Reachable;
    var next := ChosenNext(trip, p, t, g, sqrt);
    TickProgresses(trip, p, t, next, sqrt);
    var p' := Tick(trip, p, sqrt);
    if InTile(trip.m, p', next) {
      t' := next;
      if next != g {
        var next' := ChosenNext(trip, p', next, g, sqrt);
        TileTicksBounded(trip, p', next, next');
        var d := Distance(trip.m, next', g);
        assert (d + 1) * TicksPerTile(trip) == d * TicksPerTile(trip) + TicksPerTile(trip);
      }
    } else {
      t' := t;
    }
  }

  /** The bot arrives within its budget and is clear of the walls at every tick until then. */
  lemma {:induction false} ArrivesWithinBudget(trip: Trip, p: Vector2, t: Tile, g: Tile, sqrt: real -> real) returns (n: nat)
    requires IsSqrt(sqrt) && Step(trip) > 0.0 && Underway(trip, p, t, g)
    ensures InTile(trip.m, After(trip, p, sqrt, n), g) && n <= Budget(trip, p, t, g)
    ensures forall k: nat :: k <= n ==> Clear(trip.m, After(trip, p, sqrt, k), trip.radius)
    decreases Budget(trip, p, t, g)
  {
    hide InTile, Clear, Tick, Budget;
    if t == g {
      n := 0;
    } else {
      var t' := TickSpendsBudget(trip, p, t, g, sqrt);
      var p' := Tick(trip, p, sqrt);
      var n' := ArrivesWithinBudget(trip, p', t', g, sqrt);
      n := n' + 1;
      forall k: nat | k <= n
        ensures Clear(trip.m, After(trip, p, sqrt, k), trip.radius)
      {
        assert k > 0 ==> After(trip, p, sqrt, k) == After(trip, p', sqrt, k - 1);
      }
    }
  }

  /**
   The arrival theorem for the wall tests alone. A bot that fits the corridors and starts clear of the walls in
   a tile connected to its goal's tile is in the goal's tile after at most (tiles to go) x (ticks per tile)
   ticks, and touches no wall at any tick before that.
   */
  lemma PathArrives(trip: Trip, p: Vector2, t: Tile, g: Tile, sqrt: real -> real) returns (n: nat)
    requires IsSqrt(sqrt) && Feasible(trip)
    requires WorldToBotTile(trip.m, p) == Some(t) && Passable(trip.m, t) && Clear(trip.m, p, trip.radius)
    requires WorldToBotTile(trip.m, trip.goal) == Some(g) && Passable(trip.m, g) && Reachable(trip.m, t, g)
    ensures Step(trip) > 0.0 && n <= Distance(trip.m, t, g) * TicksPerTile(trip)
    ensures WorldToBotTile(trip.m, After(trip, p, sqrt, n)) == Some(g)
    ensures forall k: nat :: k <= n ==> Clear(trip.m, After(trip, p, sqrt, k), trip.radius)
  {
    hide InTile, Clear, Tick, TicksPerTile, Passable, Reachable, NextTile, WorldToBotTile, After, Distance;
    StepIsPositive(trip);
    hide Step;
    TileIffBetweenEdges(trip.m, p, t);
    n := ArrivesWithinBudget(trip, p, t, g, sqrt);
    TileIffBetweenEdges(trip.m, After(trip, p, sqrt, n), g);
    if t == g {
      ZeroDistance(trip.m, t, g);
    } else {
      var next := ChosenNext(trip, p, t, g, sqrt);
      TileTicksBounded(trip, p, t, next);
      var d := Distance(trip.m, next, g);
      assert (d + 1) * TicksPerTile(trip) == d * TicksPerTile(trip) + TicksPerTile(trip);
    }
  }
}
