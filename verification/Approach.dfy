/** The end of a chase: inside the goal's tile the bot heads straight for the goal and closes in by a step a tick. */
module Approach {
  import opened Wrappers
  import opened Grid
  import opened World
  import opened PathSearch
  import opened Steering
  import opened Movement
  import opened MovementSafety
  import opened Corridor
  import opened Arrival
  import opened BotRun

  /** `d` is a unit vector from `p` to `goal`, which lies `length` away. */
  predicate Heads(p: Vector2, goal: Vector2, d: Vector2, length: real) {
    length > 0.0 && LengthSquared(d) == 1.0 && goal == Vector2(p.x + d.x * length, p.y + d.y * length)
  }

  /** Scaling by a length scales the squared length by its square. */
  lemma ScaledSquares(x: real, y: real, length: real, square: real)
    requires square == length * length
    ensures LengthSquared(Vector2(x * length, y * length)) == LengthSquared(Vector2(x, y)) * square
  {
    assert (x * length) * (x * length) == (x * x) * (length * length);
    assert (y * length) * (y * length) == (y * y) * (length * length);
  }

  lemma UnitFactor(a: real, b: real, product: real)
    requires b > 0.0 && product == b && product == a * b
    ensures a == 1.0
  {
    assert (a - 1.0) * b == 0.0;
    if a > 1.0 { MulPositive(a - 1.0, b); }
    if a < 1.0 { MulPositive(1.0 - a, b); }
  }

  /** Dividing a vector by its length. */
  lemma DividedByLength(x: real, y: real, sqrt: real -> real)
    requires IsSqrt(sqrt) && (x != 0.0 || y != 0.0)
    ensures var length := sqrt(LengthSquared(Vector2(x, y)));
      && length > 0.0 && LengthSquared(Vector2(x / length, y / length)) == 1.0
      && (x / length) * length == x && (y / length) * length == y
  {
    var whole := LengthSquared(Vector2(x, y));
    PositiveSquares(x, y);
    hide LengthSquared;
    var length := sqrt(whole);
    RootIsPositive(length, whole);
    QuotientTimes(x, length);
    QuotientTimes(y, length);
    var u, v := x / length, y / length;
    ScaledSquares(u, v, length, whole);
    var part := LengthSquared(Vector2(u, v));
    var again := Vector2(u * length, v * length);
    assert LengthSquared(again) == part * whole;
    assert again == Vector2(x, y);
    UnitFactor(part, whole, LengthSquared(again));
  }

  function Times(a: real, b: real): real {
    a * b
  }

  function Square(x: real): real {
    Times(x, x)
  }

  lemma TimesPositive(a: real, b: real)
    requires a > 0.0 && b > 0.0
    ensures Times(a, b) > 0.0
  {
  }

  lemma PositiveSquares(x: real, y: real)
    requires x != 0.0 || y != 0.0
    ensures LengthSquared(Vector2(x, y)) > 0.0
  {
    SquareSign(x);
    SquareSign(y);
    InSquares(Vector2(x, y));
    hide Square, LengthSquared;
  }

  lemma InSquares(v: Vector2)
    ensures LengthSquared(v) == Square(v.x) + Square(v.y)
  {
  }

  lemma SquareSign(x: real)
    ensures Square(x) >= 0.0 && (x == 0.0 <==> Square(x) == 0.0)
  {
    if x > 0.0 { PositiveSquare(x); }
    if x < 0.0 { PositiveSquare(-x); SameSquare(x); }
    if x == 0.0 { ZeroSquare(x); }
    hide Square;
  }

  lemma PositiveSquare(x: real)
    requires x > 0.0
    ensures Square(x) > 0.0
  {
    TimesPositive(x, x);
    hide Times;
  }

  lemma SameSquare(x: real)
    ensures Square(-x) == Square(x)
  {
  }

  lemma RootIsPositive(root: real, whole: real)
    requires root >= 0.0 && whole > 0.0 && root * root == whole
    ensures root > 0.0
  {
    if root == 0.0 { ZeroSquare(root); }
  }

  lemma ZeroRoot(root: real)
    requires root >= 0.0 && root * root == 0.0
    ensures root == 0.0
  {
    SquareSign(root);
  }

  lemma ZeroSquare(x: real)
    requires x == 0.0
    ensures x * x == 0.0 && Square(x) == 0.0
  {
  }

  lemma QuotientTimes(a: real, b: real)
    requires b != 0.0
    ensures (a / b) * b == a
  {
  }

  lemma UnitDirectionHeads(p: Vector2, goal: Vector2, sqrt: real -> real) returns (length: real)
    requires IsSqrt(sqrt)
    ensures p == goal ==> UnitDirection(p, goal, sqrt) == Vector2(1.0, 0.0)
    ensures p != goal ==> Heads(p, goal, UnitDirection(p, goal, sqrt), length)
  {
    var dx, dy := goal.x - p.x, goal.y - p.y;
    length := sqrt(LengthSquared(Vector2(dx, dy)));
    if p == goal {
      ZeroSquare(dx);
      ZeroSquare(dy);
      assert LengthSquared(Vector2(dx, dy)) == 0.0;
      hide LengthSquared;
      ZeroRoot(length);
    } else {
      hide LengthSquared;
      DividedByLength(dx, dy, sqrt);
    }
  }

  /** A direction is answered exactly if both tiles are passable and connected. */
  lemma DirectionExists(m: MapData, p: Vector2, goal: Vector2, maxMovement: real, sqrt: real -> real)
    requires Rectangular(m)
    ensures NextBotPathDirection(m, p, goal, maxMovement, sqrt).Some? <==>
              && WorldToBotTile(m, p).Some? && Passable(m, WorldToBotTile(m, p).value)
              && WorldToBotTile(m, goal).Some? && Passable(m, WorldToBotTile(m, goal).value)
              && Reachable(m, WorldToBotTile(m, p).value, WorldToBotTile(m, goal).value)
  {
    hide WorldToBotTile, PathStepDirection, UnitDirection, Passable, Reachable;
    assert Geometry(m) == Some(m);
    var start, end := WorldToBotTile(m, p), WorldToBotTile(m, goal);
    if start.Some? && end.Some? && Passable(m, start.value) && Passable(m, end.value) {
      if start != end {
        NextTileCorrect(m, start.value, end.value);
      } else {
        StaysReachable(m, start.value);
      }
    }
  }

  lemma StaysReachable(m: MapData, t: Tile)
    requires Passable(m, t)
    ensures Reachable(m, t, t)
  {
    assert WalkOf(m, t, t, 0, [t]);
    assert WalkOfLength(m, t, t, 0);
  }

  /** Inside the goal's tile the answer is the unit vector to the goal, and to the right when the bot stands on it. */
  lemma DirectionInGoalTile(m: MapData, p: Vector2, goal: Vector2, t: Tile, maxMovement: real, sqrt: real -> real)
    returns (d: Vector2, length: real)
    requires Rectangular(m) && IsSqrt(sqrt) && Passable(m, t)
    requires WorldToBotTile(m, p) == Some(t) == WorldToBotTile(m, goal)
    ensures NextBotPathDirection(m, p, goal, maxMovement, sqrt) == Some(d)
    ensures if p == goal then d == Vector2(1.0, 0.0) else Heads(p, goal, d, length)
  {
    hide WorldToBotTile, UnitDirection;
    assert Geometry(m) == Some(m);
    d := UnitDirection(p, goal, sqrt);
    length := UnitDirectionHeads(p, goal, sqrt);
  }

  /** The server takes a direction inside the unit circle as it is, and shortens a longer one to a unit vector. */
  lemma ClampedDirection(d: Vector2, sqrt: real -> real)
    requires IsSqrt(sqrt)
    ensures LengthSquared(d) <= 1.0 ==> ClampDirection(d, sqrt) == d
    ensures LengthSquared(d) > 1.0 ==>
              LengthSquared(ClampDirection(d, sqrt)) == 1.0
              && exists length: real :: length > 1.0 && d == Scaled(ClampDirection(d, sqrt), length)
  {
    var whole := LengthSquared(d);
    var root := sqrt(whole);
    assert whole >= 0.0 && root >= 0.0 && root * root == whole;
    SquareOrder(root, 1.0);
    if whole <= 1.0 {
      WithinUnit(d);
    } else {
      NormalizedLong(d, sqrt);
      var length := LengthOf(d, ClampDirection(d, sqrt));
      assert length > 1.0 && d == Scaled(ClampDirection(d, sqrt), length);
    }
  }

  function Scaled(d: Vector2, length: real): Vector2 {
    Vector2(d.x * length, d.y * length)
  }

  lemma WithinUnit(d: Vector2)
    requires LengthSquared(d) <= 1.0
    ensures Max(AbsReal(d.x), AbsReal(d.y)) <= 1.0
  {
    SquareBound(d.x, d.y, 1.0);
    SquareBound(d.y, d.x, 1.0);
  }

  /** The code divides by the larger coordinate first and by the rest of the length then. */
  lemma NormalizedLong(d: Vector2, sqrt: real -> real)
    requires IsSqrt(sqrt) && LengthSquared(d) > 1.0
    ensures var u := NormalizeDirection(d, sqrt);
      LengthSquared(u) == 1.0 && exists factor: real :: factor > 0.0 && d == Scaled(u, factor)
  {
    var largest := Max(AbsReal(d.x), AbsReal(d.y));
    LargestIsPositive(d);
    hide LengthSquared;
    var x, y := d.x / largest, d.y / largest;
    QuotientTimes(d.x, largest);
    QuotientTimes(d.y, largest);
    assert x != 0.0 || y != 0.0;
    DividedByLength(x, y, sqrt);
    var magnitude := sqrt(LengthSquared(Vector2(x, y)));
    NormalizedIs(d, sqrt, largest, magnitude);
    var u := Vector2(x / magnitude, y / magnitude);
    hide NormalizeDirection, Max, AbsReal;
    MulPositive(magnitude, largest);
    ScaledTwice(u, magnitude, largest);
    assert Scaled(u, magnitude) == Vector2(x, y);
    assert d == Scaled(u, magnitude * largest);
  }

  lemma NormalizedIs(d: Vector2, sqrt: real -> real, largest: real, magnitude: real)
    requires IsSqrt(sqrt) && largest == Max(AbsReal(d.x), AbsReal(d.y)) != 0.0
    requires magnitude == sqrt(LengthSquared(Vector2(d.x / largest, d.y / largest))) != 0.0
    ensures NormalizeDirection(d, sqrt) == Vector2(d.x / largest / magnitude, d.y / largest / magnitude)
  {
    hide LengthSquared, Max, AbsReal;
  }

  lemma LargestIsPositive(d: Vector2)
    requires LengthSquared(d) > 1.0
    ensures Max(AbsReal(d.x), AbsReal(d.y)) > 0.0
  {
    if d.x == 0.0 && d.y == 0.0 {
      ZeroSquare(d.x);
      ZeroSquare(d.y);
    }
  }

  lemma ScaledTwice(u: Vector2, a: real, b: real)
    ensures Scaled(u, a * b) == Scaled(Scaled(u, a), b)
  {
    assert u.x * (a * b) == (u.x * a) * b && u.y * (a * b) == (u.y * a) * b;
  }

  lemma LengthOf(d: Vector2, u: Vector2) returns (length: real)
    requires LengthSquared(d) > 1.0 && LengthSquared(u) == 1.0 && exists factor: real :: factor > 0.0 && d == Scaled(u, factor)
    ensures length > 1.0 && d == Scaled(u, length)
  {
    length :| length > 0.0 && d == Scaled(u, length);
    ScaledSquares(u.x, u.y, length, length * length);
    SquareOrder(length, 1.0);
  }

  // ---------- The last steps ----------

  /** The way from `p` along `d`. */
  function Ahead(p: Vector2, d: Vector2, length: real): Vector2 {
    Vector2(p.x + d.x * length, p.y + d.y * length)
  }

  predicate BetweenReals(u: real, a: real, b: real) {
    Min(a, b) <= u <= Max(a, b)
  }

  /** No wall reaches into the rectangle between `p` and the goal. */
  ghost predicate OpenBetween(trip: Trip, p: Vector2) {
    forall q: Vector2 :: BetweenReals(q.x, p.x, trip.goal.x) && BetweenReals(q.y, p.y, trip.goal.y) ==> Clear(trip.m, q, trip.radius)
  }

  lemma PartWay(u: real, v: real, w: real, d: real, length: real, step: real)
    requires 0.0 <= step <= length && v == u + d * step && w == u + d * length
    ensures BetweenReals(v, u, w) && BetweenReals(u, u, w)
    ensures forall a: real {:trigger BetweenReals(a, v, w)} :: BetweenReals(a, v, w) ==> BetweenReals(a, u, w)
  {
    if d >= 0.0 {
      MulNonNegative(d, step);
      MulNonNegative(d, length - step);
    } else {
      MulNonNegative(-d, step);
      MulNonNegative(-d, length - step);
    }
    assert d * length == d * step + d * (length - step);
  }

  lemma UnitMovement(trip: Trip, d: Vector2, sqrt: real -> real)
    requires IsSqrt(sqrt) && trip.speed > 0.0 && LengthSquared(d) == 1.0
    ensures PreparedMovement(d, trip.speed, trip.tickRate, sqrt) == Vector2(d.x * Step(trip), d.y * Step(trip))
  {
    hide ClampDirection, TickDuration, BotMovementStep;
    ClampedDirection(d, sqrt);
    StepIsSpeedTimesTick(trip);
  }

  /** A tick in the goal's tile: a step no longer than the distance left shortens it by exactly that step. */
  lemma TickCloses(trip: Trip, p: Vector2, t: Tile, d: Vector2, length: real, sqrt: real -> real)
    requires Feasible(trip) && IsSqrt(sqrt) && Passable(trip.m, t) && 0.0 < Step(trip) <= length && Heads(p, trip.goal, d, length)
    requires WorldToBotTile(trip.m, p) == Some(t) == WorldToBotTile(trip.m, trip.goal) && OpenBetween(trip, p)
    ensures var p' := Tick(trip, p, sqrt);
      && p' == Ahead(p, d, Step(trip)) && trip.goal == Ahead(p', d, length - Step(trip))
      && WorldToBotTile(trip.m, p') == Some(t) && OpenBetween(trip, p')
  {
    hide WorldToBotTile, NextBotPathDirection, PreparedMovement, Clear, Passable, BotMovementStep, LengthSquared, BetweenReals;
    var step := Step(trip);
    var e, l := DirectionInGoalTile(trip.m, p, trip.goal, t, step, sqrt);
    NotThere(p, trip.goal, d, length);
    SameHeading(p, trip.goal, d, length, e, l);
    UnitMovement(trip, d, sqrt);
    var p' := Ahead(p, d, step);
    PartWay(p.x, p'.x, trip.goal.x, d.x, length, step);
    PartWay(p.y, p'.y, trip.goal.y, d.y, length, step);
    AheadTwice(p, d, step, length - step);
    TileIsConvex(trip.m, p, trip.goal, p', t);
    OpenMoves(trip, p, p', d);
  }

  /** With the rectangle ahead open both wall tests of a step towards the goal pass. */
  lemma OpenMoves(trip: Trip, p: Vector2, p': Vector2, d: Vector2)
    requires OpenBetween(trip, p) && p' == Ahead(p, d, Step(trip))
    requires BetweenReals(p.y, p.y, trip.goal.y) && BetweenReals(p'.x, p.x, trip.goal.x) && BetweenReals(p'.y, p.y, trip.goal.y)
    ensures LoneStep(trip.m, p, trip.radius, Vector2(d.x * Step(trip), d.y * Step(trip))) == p'
  {
    hide Collides, BetweenReals, BotMovementStep;
    assert Clear(trip.m, Vector2(p'.x, p.y), trip.radius) && Clear(trip.m, p', trip.radius);
  }

  lemma NotThere(p: Vector2, goal: Vector2, d: Vector2, length: real)
    requires Heads(p, goal, d, length)
    ensures p != goal
  {
    if p == goal {
      if d.x > 0.0 { MulPositive(d.x, length); } else if d.x < 0.0 { MulPositive(-d.x, length); }
      if d.y > 0.0 { MulPositive(d.y, length); } else if d.y < 0.0 { MulPositive(-d.y, length); }
    }
  }

  lemma SameHeading(p: Vector2, goal: Vector2, d: Vector2, length: real, e: Vector2, l: real)
    requires Heads(p, goal, d, length) && Heads(p, goal, e, l)
    ensures e == d && l == length
  {
    ScaledSquares(d.x, d.y, length, length * length);
    ScaledSquares(e.x, e.y, l, l * l);
    assert Vector2(d.x * length, d.y * length) == Vector2(e.x * l, e.y * l);
    hide LengthSquared;
    SquareOrder(length, l);
    SquareOrder(l, length);
    assert l == length;
    SameFactor(d.x, e.x, length, l, d.x * length);
    SameFactor(d.y, e.y, length, l, d.y * length);
  }

  lemma SameFactor(a: real, b: real, c: real, e: real, product: real)
    requires c > 0.0 && e == c && product == a * c && product == b * e
    ensures a == b
  {
    if a < b { MulPositive(b - a, c); }
    if b < a { MulPositive(a - b, c); }
  }

  lemma TileIsConvex(m: MapData, p: Vector2, q: Vector2, r: Vector2, t: Tile)
    requires Rectangular(m) && WorldToBotTile(m, p) == Some(t) == WorldToBotTile(m, q)
    requires BetweenReals(r.x, p.x, q.x) && BetweenReals(r.y, p.y, q.y)
    ensures WorldToBotTile(m, r) == Some(t)
  {
    hide WorldToBotTile;
    TileIffBetweenEdges(m, p, t);
    TileIffBetweenEdges(m, q, t);
    TileIffBetweenEdges(m, r, t);
    hide ColEdge, RowEdge;
  }

  lemma {:induction false} TicksClose(trip: Trip, p: Vector2, t: Tile, d: Vector2, length: real, sqrt: real -> real, n: nat)
    requires Feasible(trip) && IsSqrt(sqrt) && Passable(trip.m, t) && 0.0 < Step(trip) && Heads(p, trip.goal, d, length)
    requires WorldToBotTile(trip.m, p) == Some(t) == WorldToBotTile(trip.m, trip.goal) && OpenBetween(trip, p)
    requires Travelled(n, Step(trip)) <= length
    ensures After(trip, p, sqrt, n) == Ahead(p, d, Travelled(n, Step(trip)))
    decreases n
  {
    hide Tick, OpenBetween, WorldToBotTile, Passable, BotMovementStep, Feasible, LengthSquared, Travelled;
    var step := Step(trip);
    if n == 0 {
      OneMoreStep(0, step);
      assert d.x * 0.0 == 0.0 && d.y * 0.0 == 0.0;
    } else {
      OneMoreStep(n - 1, step);
      TickCloses(trip, p, t, d, length, sqrt);
      var p' := Ahead(p, d, step);
      var gone := Travelled(n - 1, step);
      AheadTwice(p, d, step, gone);
      if length - step > 0.0 {
        assert Heads(p', trip.goal, d, length - step);
        TicksClose(trip, p', t, d, length - step, sqrt, n - 1);
      } else if n > 1 {
        OneMoreStep(n - 2, step);
      } else {
        assert After(trip, p', sqrt, 0) == p';
        assert d.x * 0.0 == 0.0 && d.y * 0.0 == 0.0;
      }
    }
  }

  /** The way that `n` steps go. */
  function Travelled(n: nat, step: real): real {
    n as real * step
  }

  lemma OneMoreStep(n: nat, step: real)
    requires step >= 0.0
    ensures Travelled(n + 1, step) == Travelled(n, step) + step && Travelled(n, step) >= 0.0 && Travelled(0, step) == 0.0
  {
    MulNonNegative(n as real, step);
  }

  lemma AheadTwice(p: Vector2, d: Vector2, a: real, b: real)
    ensures Ahead(Ahead(p, d, a), d, b) == Ahead(p, d, a + b)
  {
    assert d.x * (a + b) == d.x * a + d.x * b && d.y * (a + b) == d.y * a + d.y * b;
  }

  /**
   The end of a chase in the movement phase: the only live player, in its goal's tile with nothing in between,
   goes straight to the goal. As long as the steps made are no longer than the distance was, the distance left
   is the distance it had less these steps.
   */
  lemma BotClosesIn(trip: Trip, players: seq<Mover>, i: nat, t: Tile, d: Vector2, length: real, sqrt: real -> real, n: nat)
    requires IsSqrt(sqrt) && Feasible(trip) && OnlyBotLives(players, i) && players[i].radius == trip.radius
    requires Passable(trip.m, t) && WorldToBotTile(trip.m, players[i].pos) == Some(t) == WorldToBotTile(trip.m, trip.goal)
    requires Heads(players[i].pos, trip.goal, d, length) && OpenBetween(trip, players[i].pos)
    requires Travelled(n, Step(trip)) <= length
    ensures var left := length - Travelled(n, Step(trip));
      var p := BotTicks(trip, players, i, sqrt, n)[i].pos;
      trip.goal == Ahead(p, d, left) && WorldDistanceSquared(p, trip.goal) == Square(left)
  {
    hide After, OpenBetween, WorldToBotTile, Passable, BotTicks, Travelled, Ahead, WorldDistanceSquared, Square;
    StepIsPositive(trip);
    hide BotMovementStep;
    TicksAreLone(trip, players, i, sqrt, n);
    hide Feasible, OnlyBotLives, Heads, LengthSquared;
    TicksClose(trip, players[i].pos, t, d, length, sqrt, n);
    WayLeft(players[i].pos, trip.goal, d, length, Travelled(n, Step(trip)));
  }

  /** Straight on for part of the way, the rest lies ahead. */
  lemma WayLeft(p: Vector2, goal: Vector2, d: Vector2, length: real, gone: real)
    requires Heads(p, goal, d, length)
    ensures var q := Ahead(p, d, gone);
      goal == Ahead(q, d, length - gone) && WorldDistanceSquared(q, goal) == Square(length - gone)
  {
    hide Heads, Ahead, WorldDistanceSquared, Square, LengthSquared;
    HeadsAhead(p, goal, d, length);
    AheadTwice(p, d, gone, length - gone);
    assert gone + (length - gone) == length;
    AheadDistance(Ahead(p, d, gone), d, length - gone);
  }

  lemma HeadsAhead(p: Vector2, goal: Vector2, d: Vector2, length: real)
    requires Heads(p, goal, d, length)
    ensures goal == Ahead(p, d, length) && LengthSquared(d) == 1.0
  {
    hide LengthSquared;
  }

  lemma AheadDistance(q: Vector2, d: Vector2, left: real)
    requires LengthSquared(d) == 1.0
    ensures WorldDistanceSquared(q, Ahead(q, d, left)) == Square(left)
  {
    hide LengthSquared, Square;
    var g := Ahead(q, d, left);
    assert Vector2(g.x - q.x, g.y - q.y) == Vector2(d.x * left, d.y * left) && Vector2(d.x, d.y) == d;
    UnitScaled(d, left);
  }

  lemma UnitScaled(d: Vector2, left: real)
    requires LengthSquared(d) == 1.0
    ensures LengthSquared(Vector2(d.x * left, d.y * left)) == Square(left)
  {
    SquareIs(left);
    ScaledSquares(d.x, d.y, left, Square(left));
    assert Vector2(d.x, d.y) == d;
    hide LengthSquared, Square;
    OneTimes(Square(left), LengthSquared(d));
  }

  lemma SquareIs(x: real)
    ensures Square(x) == x * x
  {
  }

  lemma OneTimes(a: real, one: real)
    requires one == 1.0
    ensures one * a == a
  {
  }

  function WorldDistanceSquared(p: Vector2, q: Vector2): real {
    LengthSquared(Vector2(q.x - p.x, q.y - p.y))
  }
}
