/** The arrival theorem for the server's own movement phase and a bot that steers with its path cache. */
module BotRun {
  import opened Wrappers
  import opened Grid
  import opened World
  import opened Steering
  import opened Movement
  import opened MovementSafety
  import opened PathCache
  import opened Arrival

  /** The displacement that the server prepares for the bot's direction; without a direction the bot stands still. */
  function BotMovement(trip: Trip, direction: Option<Vector2>, sqrt: real -> real): Vector2
    requires IsSqrt(sqrt)
  {
    PreparedMovement(if direction.None? then ZERO else direction.value, trip.speed, trip.tickRate, sqrt)
  }

  /** One tick of all players in which only player `i` moves, in the direction computed without a cache. */
  ghost function BotTick(trip: Trip, players: seq<Mover>, i: nat, sqrt: real -> real): (r: seq<Mover>)
    requires IsSqrt(sqrt) && i < |players|
    ensures |r| == |players|
  {
    var direction := NextBotPathDirection(trip.m, players[i].pos, trip.goal, Step(trip), sqrt);
    Moved(trip.m, players, [PreparedInput(i, BotMovement(trip, direction, sqrt))], sqrt)
  }

  ghost function BotTicks(trip: Trip, players: seq<Mover>, i: nat, sqrt: real -> real, n: nat): (r: seq<Mover>)
    requires IsSqrt(sqrt) && i < |players|
    ensures |r| == |players|
    decreases n
  {
    if n == 0 then players else BotTicks(trip, BotTick(trip, players, i, sqrt), i, sqrt, n - 1)
  }

  ghost predicate OnlyBotLives(players: seq<Mover>, i: nat) {
    i < |players| && forall k :: 0 <= k < |players| && k != i ==> players[k].dead
  }

  /** For the only live player the whole movement phase is the two wall tests. */
  lemma TickIsLone(trip: Trip, players: seq<Mover>, i: nat, sqrt: real -> real)
    requires IsSqrt(sqrt) && OnlyBotLives(players, i) && players[i].radius == trip.radius
    ensures var after := BotTick(trip, players, i, sqrt);
      && after[i] == players[i].(pos := Tick(trip, players[i].pos, sqrt)) && OnlyBotLives(after, i)
  {
    hide LoneStep, PreparedMovement, NextBotPathDirection, AfterY;
    var direction := NextBotPathDirection(trip.m, players[i].pos, trip.goal, Step(trip), sqrt);
    LoneMovement(trip.m, players, BotMovement(trip, direction, sqrt), sqrt, i);
  }

  lemma {:induction false} TicksAreLone(trip: Trip, players: seq<Mover>, i: nat, sqrt: real -> real, n: nat)
    requires IsSqrt(sqrt) && OnlyBotLives(players, i) && players[i].radius == trip.radius
    ensures BotTicks(trip, players, i, sqrt, n)[i].pos == After(trip, players[i].pos, sqrt, n)
    decreases n
  {
    hide BotTick, Tick;
    if n > 0 {
      TickIsLone(trip, players, i, sqrt);
      TicksAreLone(trip, BotTick(trip, players, i, sqrt), i, sqrt, n - 1);
    }
  }

  /**
   The arrival theorem. The only live player, if it fits the corridors and starts clear of the walls in a
   tile connected to its goal's tile, is in the goal's tile after at most (tiles to go) x (ticks per tile)
   ticks of the movement phase, and touches no wall at any tick before that.
   */
  lemma BotArrives(trip: Trip, players: seq<Mover>, i: nat, t: Tile, g: Tile, sqrt: real -> real) returns (n: nat)
    requires IsSqrt(sqrt) && Feasible(trip) && OnlyBotLives(players, i) && players[i].radius == trip.radius
    requires WorldToBotTile(trip.m, players[i].pos) == Some(t) && Passable(trip.m, t)
    requires Clear(trip.m, players[i].pos, trip.radius)
    requires WorldToBotTile(trip.m, trip.goal) == Some(g) && Passable(trip.m, g) && Reachable(trip.m, t, g)
    ensures Step(trip) > 0.0 && n <= Distance(trip.m, t, g) * TicksPerTile(trip)
    ensures WorldToBotTile(trip.m, BotTicks(trip, players, i, sqrt, n)[i].pos) == Some(g)
    ensures forall k: nat :: k <= n ==> Clear(trip.m, BotTicks(trip, players, i, sqrt, k)[i].pos, trip.radius)
  {
    hide Clear, BotTicks, TicksPerTile, Passable, Reachable, WorldToBotTile, After, Distance;
    n := PathArrives(trip, players[i].pos, t, g, sqrt);
    TicksAreLone(trip, players, i, sqrt, n);
    forall k: nat | k <= n
      ensures Clear(trip.m, BotTicks(trip, players, i, sqrt, k)[i].pos, trip.radius)
    {
      TicksAreLone(trip, players, i, sqrt, k);
    }
  }

  /**
   The run as the room makes it: the cached direction of a controller that may remember any truthful step,
   and the movement phase in place. It is the run that the theorem is about.
   */
  method RunBot(trip: Trip, players: array<Mover>, i: nat, state: BotControllerState, sqrt: real -> real, n: nat)
    requires IsSqrt(sqrt) && Rectangular(trip.m) && i < players.Length && state.Valid(trip.m)
    modifies players, state
    ensures state.Valid(trip.m) && players[..] == BotTicks(trip, old(players[..]), i, sqrt, n)
  {
    hide Moved, NextBotPathDirection, BotMovement, state.Valid;
    for k := 0 to n
      invariant state.Valid(trip.m)
      invariant BotTicks(trip, players[..], i, sqrt, n - k) == BotTicks(trip, old(players[..]), i, sqrt, n)
    {
      assert players[..][i] == players[i];
      var direction := state.CachedBotPathDirection(trip.m, players[i].pos, trip.goal, Step(trip), sqrt);
      ApplyPlayerMovement(trip.m, players, [PreparedInput(i, BotMovement(trip, direction, sqrt))], sqrt);
    }
  }
}
