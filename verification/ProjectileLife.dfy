/**
 The life of projectiles: flight up to a range, one hit at most, and a tombstone that stays visible for a
 fixed number of snapshots. What blocks a projectile, who may hit whom, where a teleport lands and how the
 players move are inputs of every tick.
 */
module ProjectileLife {
  import opened Wrappers
  import opened World

  const RETENTION_TICKS: nat := 30
  const RANGE_EPS: real := 0.000000000001

  datatype Projectile = Projectile(
    id: nat,
    owner: nat,
    pos: Vector2,
    dir: Vector2,
    speed: real,
    damage: real,
    radius: real,
    destroyed: bool)

  datatype Runtime = Runtime(maxDistance: real, teleportBehind: real, moved: real)

  datatype Player = Player(id: nat, pos: Vector2, radius: real, hp: real, dead: bool)

  /** The search for a free place behind a target: players, owner, target, direction and distance behind. */
  type Landing = (seq<Player>, nat, nat, Vector2, real) -> Option<Vector2>

  datatype Rules = Rules(tickDuration: real, blocked: (Vector2, real) -> bool, canHit: (nat, Player) -> bool, landing: Landing)

  /** A hit of a projectile on the player with id `target`. */
  datatype Hit = Hit(projectile: nat, target: nat, damage: real)

  datatype Shot = Shot(
    owner: nat,
    pos: Vector2,
    dir: Vector2,
    speed: real,
    damage: real,
    radius: real,
    maxDistance: real,
    teleportBehind: real)

  /** `nextSeq` numbers the projectiles; `hits` and `shots`, the shot of number k at k - 1, are history. */
  datatype Arena = Arena(
    tick: nat,
    players: seq<Player>,
    projectiles: seq<Projectile>,
    nextSeq: nat,
    runtime: map<nat, Runtime>,
    destroyedAt: map<nat, nat>,
    hits: seq<Hit>,
    shots: seq<Shot>)

  // ---------- Flight and hits ----------

  /** How far a projectile goes this tick, and whether that takes it to its range. */
  function Flight(speed: real, tickDuration: real, r: Option<Runtime>): (real, bool) {
    var step := speed * tickDuration;
    if r.None? then (step, false)
    else
      var remaining := r.value.maxDistance - r.value.moved;
      if remaining <= step + RANGE_EPS then (Max(remaining, 0.0), true) else (step, false)
  }

  function Along(pos: Vector2, dir: Vector2, step: real): Vector2 {
    Vector2(pos.x + dir.x * step, pos.y + dir.y * step)
  }

  predicate CirclesOverlap(a: Vector2, ra: real, b: Vector2, rb: real) {
    var radius := Max(ra, 0.0) + Max(rb, 0.0);
    (a.x - b.x) * (a.x - b.x) + (a.y - b.y) * (a.y - b.y) <= radius * radius + RANGE_EPS
  }

  predicate Hittable(p: Projectile, target: Player, rules: Rules) {
    rules.canHit(p.owner, target) && CirclesOverlap(p.pos, p.radius, target.pos, target.radius)
  }

  /** The hittable player with the least id among the first `upTo`. */
  function TargetOf(p: Projectile, players: seq<Player>, rules: Rules, upTo: nat): Option<nat>
    requires upTo <= |players|
    ensures TargetOf(p, players, rules, upTo).Some? ==> TargetOf(p, players, rules, upTo).value < upTo
  {
    if upTo == 0 then None
    else
      var i := upTo - 1;
      var best := TargetOf(p, players, rules, i);
      if !Hittable(p, players[i], rules) then best
      else if best.None? || players[i].id < players[best.value].id then Some(i)
      else best
  }

  function Damaged(t: Player, amount: real): Player {
    if t.hp - amount <= 0.0 then t.(hp := 0.0, dead := true) else t.(hp := t.hp - amount)
  }

  /** The first of the players with this id. */
  function IndexOf(players: seq<Player>, id: nat): (i: Option<nat>)
    ensures i.Some? ==> i.value < |players| && players[i.value].id == id
  {
    if players == [] then None
    else if players[0].id == id then Some(0)
    else
      var rest := IndexOf(players[1..], id);
      if rest.None? then None else Some(rest.value + 1)
  }

  /** A projectile that teleports takes its living owner behind the target, if there is room. */
  function Teleported(players: seq<Player>, owner: nat, target: nat, dir: Vector2, behind: real, rules: Rules): (after: seq<Player>)
    ensures |after| == |players|
  {
    var o := IndexOf(players, owner);
    if behind <= 0.0 || o.None? || players[o.value].dead then players
    else
      var place := rules.landing(players, o.value, target, dir, behind);
      if place.None? then players else players[o.value := players[o.value].(pos := place.value)]
  }

  /** A hit on player `t`: damage first, then the teleport. */
  function HitBy(players: seq<Player>, p: Projectile, t: nat, r: Option<Runtime>, rules: Rules): (after: seq<Player>)
    requires t < |players|
    ensures |after| == |players|
  {
    var damaged := players[t := Damaged(players[t], p.damage)];
    if r.None? then damaged else Teleported(damaged, p.owner, t, p.dir, r.value.teleportBehind, rules)
  }

  function RuntimeOf(a: Arena, id: nat): Option<Runtime> {
    if id in a.runtime then Some(a.runtime[id]) else None
  }

  function MarkDestroyed(a: Arena, i: nat, p: Projectile): Arena
    requires i < |a.projectiles|
  {
    a.(projectiles := a.projectiles[i := p.(destroyed := true)],
       runtime := a.runtime - {p.id}, destroyedAt := a.destroyedAt[p.id := a.tick + 1])
  }

  function MoveOne(a: Arena, i: nat, rules: Rules): (after: Arena)
    requires i < |a.projectiles|
    ensures |after.projectiles| == |a.projectiles|
  {
    var p := a.projectiles[i];
    if p.destroyed then a
    else
      var r := RuntimeOf(a, p.id);
      var (step, reached) := Flight(p.speed, rules.tickDuration, r);
      var moved := p.(pos := Along(p.pos, p.dir, step));
      if rules.blocked(moved.pos, moved.radius) then MarkDestroyed(a, i, moved)
      else
        var target := TargetOf(moved, a.players, rules, |a.players|);
        if target.Some? then
          MarkDestroyed(a, i, moved).(players := HitBy(a.players, moved, target.value, r, rules),
                                      hits := a.hits + [Hit(p.id, a.players[target.value].id, p.damage)])
        else if reached then MarkDestroyed(a, i, moved)
        else
          a.(projectiles := a.projectiles[i := moved],
             runtime := if r.None? then a.runtime else a.runtime[p.id := r.value.(moved := r.value.moved + step)])
  }

  function MoveFirst(a: Arena, n: nat, rules: Rules): (after: Arena)
    requires n <= |a.projectiles|
    ensures |after.projectiles| == |a.projectiles|
  {
    if n == 0 then a else MoveOne(MoveFirst(a, n - 1, rules), n - 1, rules)
  }

  // ---------- Emission and pruning ----------

  function Emit(a: Arena, s: Shot): Arena {
    var id := a.nextSeq + 1;
    a.(nextSeq := id,
       projectiles := a.projectiles + [Projectile(id, s.owner, s.pos, s.dir, s.speed, s.damage, s.radius, false)],
       runtime := a.runtime[id := Runtime(s.maxDistance, s.teleportBehind, 0.0)],
       shots := a.shots + [s])
  }

  function EmitAll(a: Arena, shots: seq<Shot>): Arena
    decreases |shots|
  {
    if shots == [] then a else Emit(EmitAll(a, shots[..|shots| - 1]), shots[|shots| - 1])
  }

  function DestroyedTick(destroyedAt: map<nat, nat>, id: nat, tick: nat): nat {
    if id in destroyedAt then destroyedAt[id] else tick
  }

  predicate Expired(p: Projectile, destroyedAt: map<nat, nat>, tick: nat) {
    p.destroyed && tick >= DestroyedTick(destroyedAt, p.id, tick) + RETENTION_TICKS
  }

  /** The projectiles that stay, in order, and the tombstone ticks that stay with them. */
  function Pruned(ps: seq<Projectile>, destroyedAt: map<nat, nat>, tick: nat): (seq<Projectile>, map<nat, nat>) {
    if ps == [] then ([], destroyedAt)
    else
      var p := ps[|ps| - 1];
      var (kept, ticks) := Pruned(ps[..|ps| - 1], destroyedAt, tick);
      if !p.destroyed then (kept + [p], ticks)
      else if Expired(p, ticks, tick) then (kept, ticks - {p.id})
      else (kept + [p], ticks[p.id := DestroyedTick(ticks, p.id, tick)])
  }

  function Prune(a: Arena): Arena {
    var (kept, ticks) := Pruned(a.projectiles, a.destroyedAt, a.tick);
    a.(projectiles := kept, destroyedAt := ticks)
  }

  /** Damage that other attacks do in the tick, by player index. */
  datatype Strike = Strike(index: nat, damage: real)

  function StruckAll(players: seq<Player>, strikes: seq<Strike>): (after: seq<Player>)
    ensures |after| == |players|
    decreases |strikes|
  {
    if strikes == [] then players
    else
      var before := StruckAll(players, strikes[..|strikes| - 1]);
      var s := strikes[|strikes| - 1];
      if s.index < |players| && s.damage != 0.0 then before[s.index := Damaged(before[s.index], s.damage)] else before
  }

  /** Where movement and dashes take the players, by player index. */
  function Relocated(players: seq<Player>, places: seq<Vector2>): (after: seq<Player>)
    ensures |after| == |players|
  {
    seq(|players|, i requires 0 <= i < |players| => if i < |places| then players[i].(pos := places[i]) else players[i])
  }

  /** A tick's rules, the places the players move to, and what the tick's attacks do. */
  datatype Input = Input(rules: Rules, places: seq<Vector2>, strikes: seq<Strike>, shots: seq<Shot>)

  function Step(a: Arena, input: Input): Arena {
    var moved := MoveFirst(a, |a.projectiles|, input.rules);
    var struck := moved.(players := StruckAll(Relocated(moved.players, input.places), input.strikes));
    var emitted := EmitAll(struck, input.shots);
    Prune(emitted.(tick := emitted.tick + 1))
  }

  function Run(a: Arena, inputs: seq<Input>): Arena
    decreases |inputs|
  {
    if inputs == [] then a else Step(Run(a, inputs[..|inputs| - 1]), inputs[|inputs| - 1])
  }

  // ---------- The state, updated in place ----------

  class Simulation {
    var arena: Arena

    constructor (players: seq<Player>)
      ensures arena == Arena(0, players, [], 0, map[], map[], [], [])
      ensures DeadAtZero(players) ==> Sound(arena) && DamagePositive(arena) && Aged(arena) && OnPaths(arena)
    {
      arena := Arena(0, players, [], 0, map[], map[], [], []);
    }

    method MoveProjectiles(rules: Rules)
      modifies this
      ensures arena == MoveFirst(old(arena), |old(arena).projectiles|, rules)
    {
      hide MoveOne;
      var i := 0;
      while i < |arena.projectiles|
        invariant 0 <= i <= |arena.projectiles| == |old(arena).projectiles|
        invariant arena == MoveFirst(old(arena), i, rules)
      {
        MoveProjectile(i, rules);
        i := i + 1;
      }
    }

    method MoveProjectile(i: nat, rules: Rules)
      requires i < |arena.projectiles|
      modifies this
      ensures arena == MoveOne(old(arena), i, rules) && |arena.projectiles| == |old(arena).projectiles|
    {
      hide Flight, TargetOf, HitBy, Along;
      var p := arena.projectiles[i];
      if p.destroyed {
        return;
      }
      var r := RuntimeOf(arena, p.id);
      var (step, reached) := Flight(p.speed, rules.tickDuration, r);
      p := p.(pos := Along(p.pos, p.dir, step));
      var after := arena;
      if rules.blocked(p.pos, p.radius) {
        after := MarkDestroyed(after, i, p);
      } else {
        var target := FindTarget(p, rules);
        if target.Some? {
          var t := target.value;
          after := MarkDestroyed(after, i, p);
          after := after.(players := HitBy(after.players, p, t, r, rules), hits := after.hits + [Hit(p.id, after.players[t].id, p.damage)]);
        } else if reached {
          after := MarkDestroyed(after, i, p);
        } else {
          after := after.(projectiles := after.projectiles[i := p]);
          if r.Some? {
            after := after.(runtime := after.runtime[p.id := r.value.(moved := r.value.moved + step)]);
          }
        }
      }
      assert after == MoveOne(arena, i, rules);
      arena := after;
    }

    method FindTarget(p: Projectile, rules: Rules) returns (target: Option<nat>)
      ensures target == TargetOf(p, arena.players, rules, |arena.players|)
    {
      target := None;
      var i := 0;
      while i < |arena.players|
        invariant 0 <= i <= |arena.players|
        invariant target == TargetOf(p, arena.players, rules, i)
      {
        if Hittable(p, arena.players[i], rules) && (target.None? || arena.players[i].id < arena.players[target.value].id) {
          target := Some(i);
        }
        i := i + 1;
      }
    }

    /** The survivors move to the front of the list, which is then cut. */
    method PruneExpiredProjectileTombstones()
      modifies this
      ensures arena == Prune(old(arena))
    {
      hide Expired, DestroyedTick;
      var was := arena.projectiles;
      var ps := was;
      var ticks := arena.destroyedAt;
      var kept := 0;
      var i := 0;
      while i < |was|
        invariant 0 <= kept <= i <= |was| == |ps|
        invariant forall k :: i <= k < |was| ==> ps[k] == was[k]
        invariant (ps[..kept], ticks) == Pruned(was[..i], old(arena).destroyedAt, arena.tick)
        invariant arena == old(arena)
      {
        var p := ps[i];
        assert p == was[i] && was[..i + 1][..i] == was[..i];
        if !p.destroyed {
          ps := ps[kept := p];
          assert ps[..kept + 1] == ps[..kept] + [p];
          kept := kept + 1;
        } else if Expired(p, ticks, arena.tick) {
          ticks := ticks - {p.id};
        } else {
          ticks := ticks[p.id := DestroyedTick(ticks, p.id, arena.tick)];
          ps := ps[kept := p];
          assert ps[..kept + 1] == ps[..kept] + [p];
          kept := kept + 1;
        }
        i := i + 1;
      }
      assert was[..i] == was;
      arena := arena.(projectiles := ps[..kept], destroyedAt := ticks);
    }

    method EmitProjectiles(shots: seq<Shot>)
      modifies this
      ensures arena == EmitAll(old(arena), shots)
    {
      var k := 0;
      while k < |shots|
        invariant 0 <= k <= |shots|
        invariant arena == EmitAll(old(arena), shots[..k])
      {
        assert shots[..k + 1][..k] == shots[..k];
        arena := Emit(arena, shots[k]);
        k := k + 1;
      }
      assert shots[..k] == shots;
    }

    method Advance(input: Input)
      modifies this
      ensures arena == Step(old(arena), input)
    {
      MoveProjectiles(input.rules);
      arena := arena.(players := Relocated(arena.players, input.places));
      arena := arena.(players := StruckAll(arena.players, input.strikes));
      EmitProjectiles(input.shots);
      arena := arena.(tick := arena.tick + 1);
      PruneExpiredProjectileTombstones();
    }
  }

  // ---------- What every tick keeps ----------

  ghost predicate DistinctIds(ps: seq<Projectile>) {
    forall i, j :: 0 <= i < j < |ps| ==> ps[i].id != ps[j].id
  }

  /** The ids of the live projectiles, or of the tombstones. */
  function IdsWhere(ps: seq<Projectile>, destroyed: bool): set<nat> {
    set p | p in ps && p.destroyed == destroyed :: p.id
  }

  predicate LiveOrBuried(a: Arena) {
    a.runtime.Keys == IdsWhere(a.projectiles, false) && a.destroyedAt.Keys == IdsWhere(a.projectiles, true)
  }

  ghost predicate InRange(a: Arena) {
    && (forall id :: id in a.runtime ==> 0.0 <= a.runtime[id].moved <= a.runtime[id].maxDistance)
    && (forall i :: 0 <= i < |a.projectiles| ==> a.projectiles[i].speed >= 0.0 && a.projectiles[i].id <= a.nextSeq)
  }

  /** Every hit is by a projectile of its own, which is no longer live. */
  ghost predicate HitsOnce(a: Arena) {
    && (forall i, j :: 0 <= i < j < |a.hits| ==> a.hits[i].projectile != a.hits[j].projectile)
    && (forall i :: 0 <= i < |a.hits| ==> a.hits[i].projectile <= a.nextSeq && a.hits[i].projectile !in a.runtime)
  }

  ghost predicate DeadAtZero(players: seq<Player>) {
    forall i :: 0 <= i < |players| ==> players[i].hp >= 0.0 && (players[i].hp == 0.0 <==> players[i].dead)
  }

  ghost predicate Sound(a: Arena) {
    DistinctIds(a.projectiles) && LiveOrBuried(a) && InRange(a) && HitsOnce(a) && DeadAtZero(a.players)
  }

  /** Damage is not negative, and shots have a range and fly forwards. */
  ghost predicate ValidInput(input: Input) {
    input.rules.tickDuration > 0.0 && (forall s :: s in input.strikes ==> s.damage >= 0.0) && ShotsValid(input.shots)
  }

  lemma ReplacedIds(ps: seq<Projectile>, i: nat, p: Projectile, destroyed: bool)
    requires DistinctIds(ps) && i < |ps| && p.id == ps[i].id
    ensures DistinctIds(ps[i := p])
    ensures IdsWhere(ps[i := p], destroyed) == IdsWhere(ps, destroyed) - {p.id} + if p.destroyed == destroyed then {p.id} else {}
  {
    var after := ps[i := p];
    forall id
      ensures id in IdsWhere(after, destroyed) <==>
              id in IdsWhere(ps, destroyed) - {p.id} + if p.destroyed == destroyed then {p.id} else {}
    {
      if id in IdsWhere(after, destroyed) {
        var q :| q in after && q.destroyed == destroyed && q.id == id;
        var j :| 0 <= j < |after| && after[j] == q;
        if j != i { assert ps[j] in ps; }
      }
      if id in IdsWhere(ps, destroyed) && id != p.id {
        var q :| q in ps && q.destroyed == destroyed && q.id == id;
        var j :| 0 <= j < |ps| && ps[j] == q;
        assert after[j] == q && after[j] in after;
      }
      if id == p.id { assert after[i] in after; }
    }
  }

  lemma DestroyedKeeps(a: Arena, i: nat, p: Projectile)
    requires DistinctIds(a.projectiles) && LiveOrBuried(a) && InRange(a)
    requires i < |a.projectiles| && !a.projectiles[i].destroyed && p.id == a.projectiles[i].id && p.speed == a.projectiles[i].speed
    ensures var b := MarkDestroyed(a, i, p);
      DistinctIds(b.projectiles) && LiveOrBuried(b) && InRange(b) && b.runtime.Keys == a.runtime.Keys - {p.id}
  {
    ReplacedIds(a.projectiles, i, p.(destroyed := true), false);
    ReplacedIds(a.projectiles, i, p.(destroyed := true), true);
    hide IdsWhere, DistinctIds;
    var b := MarkDestroyed(a, i, p);
    assert b.destroyedAt.Keys == a.destroyedAt.Keys + {p.id};
    assert a.destroyedAt.Keys + {p.id} == a.destroyedAt.Keys - {p.id} + {p.id};
  }

  lemma FlownKeeps(a: Arena, i: nat, p: Projectile, moved: real)
    requires DistinctIds(a.projectiles) && LiveOrBuried(a) && InRange(a)
    requires i < |a.projectiles| && !a.projectiles[i].destroyed && !p.destroyed
    requires p.id == a.projectiles[i].id && p.speed == a.projectiles[i].speed
    requires p.id in a.runtime && 0.0 <= moved <= a.runtime[p.id].maxDistance
    ensures var b := a.(projectiles := a.projectiles[i := p], runtime := a.runtime[p.id := a.runtime[p.id].(moved := moved)]);
      DistinctIds(b.projectiles) && LiveOrBuried(b) && InRange(b) && b.runtime.Keys == a.runtime.Keys
  {
    ReplacedIds(a.projectiles, i, p, false);
    ReplacedIds(a.projectiles, i, p, true);
    NotBoth(a.projectiles, i);
    hide IdsWhere, DistinctIds;
    var b := a.(projectiles := a.projectiles[i := p], runtime := a.runtime[p.id := a.runtime[p.id].(moved := moved)]);
    assert b.runtime.Keys == a.runtime.Keys;
  }

  lemma NotBoth(ps: seq<Projectile>, i: nat)
    requires DistinctIds(ps) && i < |ps|
    ensures ps[i].id in IdsWhere(ps, ps[i].destroyed) && ps[i].id !in IdsWhere(ps, !ps[i].destroyed)
  {
  }

  /** A projectile's step stays within its range, and takes it there exactly when it says so. */
  lemma FlightWithin(speed: real, tickDuration: real, r: Runtime)
    requires speed >= 0.0 && tickDuration > 0.0 && 0.0 <= r.moved <= r.maxDistance
    ensures var (step, reached) := Flight(speed, tickDuration, Some(r));
      0.0 <= step && r.moved + step <= r.maxDistance && (reached ==> r.moved + step == r.maxDistance)
  {
    assert speed * tickDuration >= 0.0;
  }

  lemma DamagedStaysSound(players: seq<Player>, i: nat, amount: real)
    requires DeadAtZero(players) && i < |players| && amount >= 0.0
    ensures DeadAtZero(players[i := Damaged(players[i], amount)])
    ensures Damaged(players[i], amount).id == players[i].id && (players[i].dead ==> Damaged(players[i], amount).dead)
  {
  }

  /** Damage and teleports keep the identities, and the dead at zero. */
  lemma HitStaysSound(players: seq<Player>, p: Projectile, t: nat, r: Option<Runtime>, rules: Rules)
    requires DeadAtZero(players) && t < |players| && p.damage >= 0.0
    ensures var after := HitBy(players, p, t, r, rules);
      DeadAtZero(after) && forall i :: 0 <= i < |players| ==>
        after[i].id == players[i].id && (players[i].dead ==> after[i].dead)
  {
    hide Damaged;
    DamagedStaysSound(players, t, p.damage);
  }

  ghost predicate DamagePositive(a: Arena) {
    forall i :: 0 <= i < |a.projectiles| ==> a.projectiles[i].damage >= 0.0
  }

  /** Moving one projectile; a dead player stays dead. */
  lemma MoveOneKeeps(a: Arena, i: nat, rules: Rules)
    requires Sound(a) && DamagePositive(a) && i < |a.projectiles| && rules.tickDuration > 0.0
    ensures Sound(MoveOne(a, i, rules)) && DamagePositive(MoveOne(a, i, rules))
    ensures Onward(a, MoveOne(a, i, rules))
  {
    hide IdsWhere, DistinctIds, Flight, TargetOf, HitBy, Along;
    var p := a.projectiles[i];
    if !p.destroyed {
      NotBoth(a.projectiles, i);
      LiveHasRuntime(a, i);
      var (step, reached) := Flight(p.speed, rules.tickDuration, RuntimeOf(a, p.id));
      FlightWithin(p.speed, rules.tickDuration, a.runtime[p.id]);
      var moved := p.(pos := Along(p.pos, p.dir, step));
      DestroyedKeeps(a, i, moved);
      var target := TargetOf(moved, a.players, rules, |a.players|);
      if target.Some? {
        HitStaysSound(a.players, moved, target.value, RuntimeOf(a, p.id), rules);
      }
      FlownKeeps(a, i, moved, a.runtime[p.id].moved + step);
    }
  }

  lemma LiveHasRuntime(a: Arena, i: nat)
    requires LiveOrBuried(a) && i < |a.projectiles| && !a.projectiles[i].destroyed
    ensures a.projectiles[i].id in a.runtime
  {
    assert a.projectiles[i] in a.projectiles;
  }

  /** What time never undoes: deaths, the ticks of tombstones, and that an id is used once. */
  ghost predicate Onward(a: Arena, b: Arena) {
    && b.tick == a.tick && b.nextSeq >= a.nextSeq && |b.players| == |a.players|
    && (forall i :: 0 <= i < |a.players| ==> b.players[i].id == a.players[i].id && (a.players[i].dead ==> b.players[i].dead))
    && (forall id :: id in a.destroyedAt ==> id in b.destroyedAt && b.destroyedAt[id] == a.destroyedAt[id])
    && (forall id :: id in b.destroyedAt && id !in a.destroyedAt ==> b.destroyedAt[id] == a.tick + 1)
    && (forall id :: id in b.destroyedAt || id in b.runtime ==> id > a.nextSeq || id in a.destroyedAt || id in a.runtime)
    && (forall id :: id in a.runtime ==> id in b.runtime || id in b.destroyedAt)
    && a.hits <= b.hits
  }

  lemma OnwardTrans(a: Arena, b: Arena, c: Arena)
    requires Onward(a, b) && Onward(b, c)
    ensures Onward(a, c)
  {
  }

  lemma {:induction false} MoveFirstKeeps(a: Arena, n: nat, rules: Rules)
    requires Sound(a) && DamagePositive(a) && n <= |a.projectiles| && rules.tickDuration > 0.0
    ensures Sound(MoveFirst(a, n, rules)) && DamagePositive(MoveFirst(a, n, rules)) && Onward(a, MoveFirst(a, n, rules))
  {
    hide Sound, DamagePositive, Onward, MoveOne;
    if n == 0 {
      OnwardRefl(a);
    } else {
      MoveFirstKeeps(a, n - 1, rules);
      MoveOneKeeps(MoveFirst(a, n - 1, rules), n - 1, rules);
      OnwardTrans(a, MoveFirst(a, n - 1, rules), MoveFirst(a, n, rules));
    }
  }

  lemma OnwardRefl(a: Arena)
    ensures Onward(a, a)
  {
  }

  lemma {:induction false} StruckKeeps(players: seq<Player>, strikes: seq<Strike>)
    requires DeadAtZero(players) && forall s :: s in strikes ==> s.damage >= 0.0
    ensures DeadAtZero(StruckAll(players, strikes))
    ensures forall i :: 0 <= i < |players| ==>
              var after := StruckAll(players, strikes)[i];
              after.id == players[i].id && (players[i].dead ==> after.dead)
    decreases |strikes|
  {
    hide Damaged;
    if strikes != [] {
      var init := strikes[..|strikes| - 1];
      StruckKeeps(players, init);
      var s := strikes[|strikes| - 1];
      if s.index < |players| { DamagedStaysSound(StruckAll(players, init), s.index, s.damage); }
    }
  }

  lemma EmitKeeps(a: Arena, s: Shot)
    requires Sound(a) && s.speed >= 0.0 && s.maxDistance >= 0.0
    ensures Sound(Emit(a, s)) && Onward(a, Emit(a, s))
  {
    hide DeadAtZero, IdsWhere, DistinctIds;
    var b := Emit(a, s);
    EmittedIds(a, b, s);
    assert b.runtime.Keys == a.runtime.Keys + {a.nextSeq + 1};
  }

  lemma EmittedIds(a: Arena, b: Arena, s: Shot)
    requires DistinctIds(a.projectiles) && InRange(a) && b == Emit(a, s)
    ensures DistinctIds(b.projectiles)
    ensures IdsWhere(b.projectiles, false) == IdsWhere(a.projectiles, false) + {a.nextSeq + 1}
    ensures IdsWhere(b.projectiles, true) == IdsWhere(a.projectiles, true)
  {
    assert forall q :: q in b.projectiles <==> q in a.projectiles || q == b.projectiles[|a.projectiles|];
    assert forall i :: 0 <= i < |a.projectiles| ==> a.projectiles[i] in a.projectiles;
  }

  ghost predicate ShotsValid(shots: seq<Shot>) {
    forall s :: s in shots ==> s.speed >= 0.0 && s.maxDistance >= 0.0 && s.damage >= 0.0
  }

  lemma {:induction false} EmitAllKeeps(a: Arena, shots: seq<Shot>)
    requires Sound(a) && DamagePositive(a) && ShotsValid(shots)
    ensures Sound(EmitAll(a, shots)) && DamagePositive(EmitAll(a, shots)) && Onward(a, EmitAll(a, shots))
    decreases |shots|
  {
    hide Sound, Onward;
    if shots == [] {
      OnwardRefl(a);
    } else {
      var init := shots[..|shots| - 1];
      EmitAllKeeps(a, init);
      EmitKeeps(EmitAll(a, init), shots[|shots| - 1]);
      OnwardTrans(a, EmitAll(a, init), EmitAll(a, shots));
    }
  }

  /** What pruning leaves, in the order in which it was. */
  function Survivors(ps: seq<Projectile>, destroyedAt: map<nat, nat>, tick: nat): seq<Projectile> {
    if ps == [] then []
    else
      var p := ps[|ps| - 1];
      Survivors(ps[..|ps| - 1], destroyedAt, tick) + if Expired(p, destroyedAt, tick) then [] else [p]
  }

  lemma {:induction false} PrunedTicks(ps: seq<Projectile>, destroyedAt: map<nat, nat>, tick: nat)
    requires DistinctIds(ps) && forall p :: p in ps && p.destroyed ==> p.id in destroyedAt
    ensures var ticks := Pruned(ps, destroyedAt, tick).1;
      && (forall id :: id in ticks <==> id in destroyedAt && !(exists p :: p in ps && p.id == id && Expired(p, destroyedAt, tick)))
      && (forall id :: id in ticks ==> ticks[id] == destroyedAt[id])
  {
    hide Expired, DestroyedTick;
    if ps != [] {
      var init := ps[..|ps| - 1];
      var p := ps[|ps| - 1];
      assert forall q :: q in ps <==> q in init || q == p;
      PrunedTicks(init, destroyedAt, tick);
      assert forall q :: q in init ==> q.id != p.id;
      var ticks := Pruned(init, destroyedAt, tick).1;
      assert p.destroyed ==> p.id in ticks && ticks[p.id] == destroyedAt[p.id];
      SameExpiry(p, ticks, destroyedAt, tick);
    }
  }

  lemma {:induction false} PrunedExact(ps: seq<Projectile>, destroyedAt: map<nat, nat>, tick: nat)
    requires DistinctIds(ps) && forall p :: p in ps && p.destroyed ==> p.id in destroyedAt
    ensures var (kept, ticks) := Pruned(ps, destroyedAt, tick);
      && kept == Survivors(ps, destroyedAt, tick) && DistinctIds(kept)
      && (forall p :: p in kept <==> p in ps && !Expired(p, destroyedAt, tick))
      && (forall id :: id in ticks <==> id in destroyedAt && !(exists p :: p in ps && p.id == id && Expired(p, destroyedAt, tick)))
      && (forall id :: id in ticks ==> ticks[id] == destroyedAt[id])
  {
    PrunedTicks(ps, destroyedAt, tick);
    SurvivorsPruned(ps, destroyedAt, tick);
  }

  lemma {:induction false} SurvivorsPruned(ps: seq<Projectile>, destroyedAt: map<nat, nat>, tick: nat)
    requires DistinctIds(ps) && forall p :: p in ps && p.destroyed ==> p.id in destroyedAt
    ensures var kept := Pruned(ps, destroyedAt, tick).0;
      && kept == Survivors(ps, destroyedAt, tick) && DistinctIds(kept)
      && (forall p :: p in kept <==> p in ps && !Expired(p, destroyedAt, tick))
  {
    hide Expired, DestroyedTick;
    if ps != [] {
      var init := ps[..|ps| - 1];
      var p := ps[|ps| - 1];
      assert forall q :: q in ps <==> q in init || q == p;
      SurvivorsPruned(init, destroyedAt, tick);
      PrunedTicks(init, destroyedAt, tick);
      var (kept, ticks) := Pruned(init, destroyedAt, tick);
      assert forall q :: q in init ==> q.id != p.id;
      assert p.destroyed ==> p.id in ticks && ticks[p.id] == destroyedAt[p.id];
      SameExpiry(p, ticks, destroyedAt, tick);
      assert forall i :: 0 <= i < |kept| ==> kept[i] in kept;
    }
  }

  lemma SameExpiry(p: Projectile, ticks: map<nat, nat>, others: map<nat, nat>, tick: nat)
    ensures !p.destroyed ==> !Expired(p, ticks, tick) && !Expired(p, others, tick)
    ensures p.id in ticks && p.id in others && ticks[p.id] == others[p.id] ==>
              Expired(p, ticks, tick) == Expired(p, others, tick) && DestroyedTick(ticks, p.id, tick) == ticks[p.id]
  {
  }

  /** Every tombstone is at most as old as it may get. */
  ghost predicate Aged(a: Arena) {
    forall id :: id in a.destroyedAt ==> a.destroyedAt[id] <= a.tick < a.destroyedAt[id] + RETENTION_TICKS
  }

  lemma PruneKeeps(a: Arena)
    requires Sound(a) && DamagePositive(a) && forall id :: id in a.destroyedAt ==> a.destroyedAt[id] <= a.tick
    ensures var b := Prune(a);
      && Sound(b) && DamagePositive(b) && Aged(b)
      && b == a.(projectiles := Survivors(a.projectiles, a.destroyedAt, a.tick), destroyedAt := b.destroyedAt)
      && (forall id :: id in b.destroyedAt <==> id in a.destroyedAt && a.tick < a.destroyedAt[id] + RETENTION_TICKS)
      && (forall id :: id in b.destroyedAt ==> b.destroyedAt[id] == a.destroyedAt[id])
  {
    hide DeadAtZero, Pruned, Survivors, Expired, IdsWhere, LiveOrBuried, DistinctIds;
    var b := Prune(a);
    BuriedHaveTicks(a);
    PrunedExact(a.projectiles, a.destroyedAt, a.tick);
    SurvivorIds(a, b);
    OfFewer(a, b);
  }

  lemma OfFewer(a: Arena, b: Arena)
    requires InRange(a) && DamagePositive(a) && b.nextSeq == a.nextSeq && b.runtime == a.runtime
    requires forall p :: p in b.projectiles ==> p in a.projectiles
    ensures InRange(b) && DamagePositive(b)
  {
    forall i | 0 <= i < |b.projectiles|
      ensures b.projectiles[i].speed >= 0.0 && b.projectiles[i].id <= b.nextSeq && b.projectiles[i].damage >= 0.0
    {
      assert b.projectiles[i] in a.projectiles;
    }
  }

  lemma BuriedHaveTicks(a: Arena)
    requires LiveOrBuried(a)
    ensures forall p :: p in a.projectiles && p.destroyed ==> p.id in a.destroyedAt
    ensures forall id :: id in a.destroyedAt ==> exists p :: p in a.projectiles && p.destroyed && p.id == id
  {
    assert forall p :: p in a.projectiles && p.destroyed ==> p.id in IdsWhere(a.projectiles, true);
    assert forall id :: id in IdsWhere(a.projectiles, true) ==> id in a.destroyedAt.Keys;
    assert forall id :: id in a.destroyedAt ==> id in IdsWhere(a.projectiles, true);
  }

  lemma SurvivorIds(a: Arena, b: Arena)
    requires DistinctIds(a.projectiles) && LiveOrBuried(a)
    requires forall p :: p in b.projectiles <==> p in a.projectiles && !Expired(p, a.destroyedAt, a.tick)
    requires forall id :: id in b.destroyedAt <==>
               id in a.destroyedAt && !(exists p :: p in a.projectiles && p.id == id && Expired(p, a.destroyedAt, a.tick))
    requires b.runtime == a.runtime
    ensures LiveOrBuried(b)
    ensures forall id :: id in b.destroyedAt <==> id in a.destroyedAt && a.tick < a.destroyedAt[id] + RETENTION_TICKS
  {
    BuriedHaveTicks(a);
    forall id
      ensures id in b.destroyedAt <==> id in a.destroyedAt && a.tick < a.destroyedAt[id] + RETENTION_TICKS
      ensures id in b.destroyedAt <==> id in IdsWhere(b.projectiles, true)
    {
      if id in a.destroyedAt {
        var p :| p in a.projectiles && p.destroyed && p.id == id;
        assert forall q :: q in a.projectiles && q.id == id ==> q == p by { SameId(a.projectiles, p); }
        if Expired(p, a.destroyedAt, a.tick) {
          assert !(exists q :: q in b.projectiles && q.id == id);
        } else {
          assert p in b.projectiles;
        }
      } else {
        assert forall q :: q in b.projectiles && q.destroyed ==> q.id in a.destroyedAt;
      }
    }
    assert IdsWhere(b.projectiles, false) == IdsWhere(a.projectiles, false);
  }

  lemma SameId(ps: seq<Projectile>, p: Projectile)
    requires DistinctIds(ps) && p in ps
    ensures forall q :: q in ps && q.id == p.id ==> q == p
  {
  }

  lemma LiveNotBuried(a: Arena)
    requires Sound(a)
    ensures forall id :: id in a.destroyedAt ==> id !in a.runtime && id <= a.nextSeq
    ensures forall id :: id in a.runtime ==> id <= a.nextSeq
  {
    forall id | id in a.destroyedAt || id in a.runtime
      ensures (id in a.destroyedAt ==> id !in a.runtime) && id <= a.nextSeq
    {
      assert id in IdsWhere(a.projectiles, true) || id in IdsWhere(a.projectiles, false);
    }
  }

  /** One tick as seen by the projectiles and players that are already there. */
  ghost predicate Aging(a: Arena, b: Arena) {
    && b.tick == a.tick + 1 && b.nextSeq >= a.nextSeq && |b.players| == |a.players| && a.hits <= b.hits
    && (forall i :: 0 <= i < |a.players| ==> b.players[i].id == a.players[i].id && (a.players[i].dead ==> b.players[i].dead))
    && (forall id :: id in a.destroyedAt ==>
          && (id in b.destroyedAt <==> b.tick < a.destroyedAt[id] + RETENTION_TICKS)
          && (id in b.destroyedAt ==> b.destroyedAt[id] == a.destroyedAt[id]))
    && (forall id :: id in b.destroyedAt && id !in a.destroyedAt ==> b.destroyedAt[id] == b.tick)
    && (forall id :: id in a.runtime ==> id in b.runtime || (id in b.destroyedAt && b.destroyedAt[id] == b.tick))
    && (forall id :: id <= a.nextSeq && id !in a.runtime ==> id !in b.runtime)
    && (forall id :: id <= a.nextSeq && id !in a.runtime && id !in a.destroyedAt ==> id !in b.destroyedAt)
  }

  lemma StepKeeps(a: Arena, input: Input)
    requires Sound(a) && DamagePositive(a) && Aged(a) && ValidInput(input)
    ensures var b := Step(a, input); Sound(b) && DamagePositive(b) && Aged(b) && Aging(a, b)
  {
    hide Sound, DamagePositive, DeadAtZero, MoveFirst, StruckAll, Relocated, EmitAll, Prune, Onward, ShotsValid, Survivors;
    var moved := MoveFirst(a, |a.projectiles|, input.rules);
    MoveFirstKeeps(a, |a.projectiles|, input.rules);
    SoundPlayers(moved);
    RelocatedKeeps(moved.players, input.places);
    StruckKeeps(Relocated(moved.players, input.places), input.strikes);
    var struck := moved.(players := StruckAll(Relocated(moved.players, input.places), input.strikes));
    PlayersReplaced(a, moved, struck);
    var emitted := EmitAll(struck, input.shots);
    EmitAllKeeps(struck, input.shots);
    OnwardTrans(a, struck, emitted);
    LiveNotBuried(a);
    LiveNotBuried(emitted);
    var ticked := emitted.(tick := emitted.tick + 1);
    TickedSound(a, emitted);
    PruneKeeps(ticked);
    AgingSteps(a, emitted, Step(a, input));
  }

  lemma RelocatedKeeps(players: seq<Player>, places: seq<Vector2>)
    requires DeadAtZero(players)
    ensures DeadAtZero(Relocated(players, places))
    ensures forall i :: 0 <= i < |players| ==>
              Relocated(players, places)[i].id == players[i].id && Relocated(players, places)[i].dead == players[i].dead
  {
  }

  lemma SoundPlayers(a: Arena)
    requires Sound(a)
    ensures DeadAtZero(a.players)
  {
  }

  lemma PlayersReplaced(a: Arena, b: Arena, c: Arena)
    requires Sound(b) && DamagePositive(b) && Onward(a, b) && c == b.(players := c.players) && DeadAtZero(c.players)
    requires |c.players| == |b.players|
    requires forall i :: 0 <= i < |b.players| ==>
               c.players[i].id == b.players[i].id && (b.players[i].dead ==> c.players[i].dead)
    ensures Sound(c) && DamagePositive(c) && Onward(a, c)
  {
    hide DeadAtZero, IdsWhere;
  }

  lemma TickedSound(a: Arena, b: Arena)
    requires Sound(b) && DamagePositive(b) && Onward(a, b) && Aged(a)
    ensures var c := b.(tick := b.tick + 1);
      Sound(c) && DamagePositive(c) && forall id :: id in c.destroyedAt ==> c.destroyedAt[id] <= c.tick
  {
    hide DeadAtZero, IdsWhere;
  }

  lemma AgingSteps(a: Arena, emitted: Arena, b: Arena)
    requires Onward(a, emitted) && Aged(a)
    requires forall id :: id in a.destroyedAt || id in emitted.destroyedAt ==> id !in a.runtime || id !in a.destroyedAt
    requires forall id :: id in emitted.destroyedAt ==> id !in emitted.runtime
    requires b == emitted.(tick := emitted.tick + 1, projectiles := b.projectiles, destroyedAt := b.destroyedAt)
    requires forall id :: id in b.destroyedAt <==>
               id in emitted.destroyedAt && b.tick < emitted.destroyedAt[id] + RETENTION_TICKS
    requires forall id :: id in b.destroyedAt ==> b.destroyedAt[id] == emitted.destroyedAt[id]
    ensures Aging(a, b)
  {
  }

  // ---------- Whole runs ----------

  ghost predicate ValidInputs(inputs: seq<Input>) {
    forall input :: input in inputs ==> ValidInput(input)
  }

  /** Over any run the two books stay exact, nobody flies past its range, no projectile hits twice, and the dead are those at zero. */
  lemma {:induction false} RunKeeps(a: Arena, inputs: seq<Input>)
    requires Sound(a) && DamagePositive(a) && Aged(a) && ValidInputs(inputs)
    ensures var b := Run(a, inputs); Sound(b) && DamagePositive(b) && Aged(b) && b.tick == a.tick + |inputs|
    ensures var b := Run(a, inputs);
      |b.players| == |a.players| && forall i :: 0 <= i < |a.players| ==> a.players[i].dead ==> b.players[i].dead
    decreases |inputs|
  {
    hide Sound, DamagePositive, Aged, Step, ValidInput;
    if inputs != [] {
      var init := inputs[..|inputs| - 1];
      assert forall x :: x in init ==> x in inputs;
      RunKeeps(a, init);
      StepKeeps(Run(a, init), inputs[|inputs| - 1]);
    }
  }

  /** The projectile with this id is in the snapshot, as a tombstone. */
  ghost predicate Entombed(a: Arena, id: nat) {
    exists p :: p in a.projectiles && p.id == id && p.destroyed
  }

  ghost predicate Listed(a: Arena, id: nat) {
    exists p :: p in a.projectiles && p.id == id
  }

  /**
   A projectile destroyed in tick `d` is shown as destroyed in the snapshots of exactly the `RETENTION_TICKS`
   ticks from `d` on, and never again.
   */
  lemma {:induction false} TombstoneWindow(a: Arena, id: nat, inputs: seq<Input>)
    requires Sound(a) && DamagePositive(a) && Aged(a) && ValidInputs(inputs)
    requires id in a.destroyedAt
    ensures var b := Run(a, inputs);
      && (b.tick < a.destroyedAt[id] + RETENTION_TICKS ==> Entombed(b, id))
      && (b.tick >= a.destroyedAt[id] + RETENTION_TICKS ==> !Listed(b, id))
  {
    TombstoneRun(a, id, inputs);
    RunKeeps(a, inputs);
    var b := Run(a, inputs);
    hide Run;
    BuriedHaveTicks(b);
    if b.tick >= a.destroyedAt[id] + RETENTION_TICKS {
      NotListed(b, id);
    }
  }

  lemma NotListed(a: Arena, id: nat)
    requires LiveOrBuried(a) && id !in a.runtime && id !in a.destroyedAt
    ensures !Listed(a, id)
  {
    assert id !in IdsWhere(a.projectiles, true) && id !in IdsWhere(a.projectiles, false);
  }

  lemma {:induction false} TombstoneRun(a: Arena, id: nat, inputs: seq<Input>)
    requires Sound(a) && DamagePositive(a) && Aged(a) && ValidInputs(inputs)
    requires id in a.destroyedAt
    ensures var b := Run(a, inputs);
      && id !in b.runtime && id <= b.nextSeq
      && (id in b.destroyedAt <==> b.tick < a.destroyedAt[id] + RETENTION_TICKS)
      && (id in b.destroyedAt ==> b.destroyedAt[id] == a.destroyedAt[id])
    decreases |inputs|
  {
    hide Sound, DamagePositive, Step, ValidInput;
    LiveNotBuried(a);
    if inputs != [] {
      var init := inputs[..|inputs| - 1];
      assert forall x :: x in init ==> x in inputs;
      TombstoneRun(a, id, init);
      RunKeeps(a, init);
      StepKeeps(Run(a, init), inputs[|inputs| - 1]);
    }
  }

  /** A projectile leaves the live ones only into a tombstone of that very tick. */
  lemma DestructionIsDated(a: Arena, id: nat, input: Input)
    requires Sound(a) && DamagePositive(a) && Aged(a) && ValidInput(input)
    requires id in a.runtime
    ensures var b := Step(a, input);
      id in b.runtime || (id in b.destroyedAt && b.destroyedAt[id] == b.tick)
  {
    hide Sound, DamagePositive, Step;
    StepKeeps(a, input);
  }

  // ---------- The way a projectile has gone ----------

  predicate OnPath(s: Shot, pos: Vector2, travel: real) {
    0.0 <= travel <= s.maxDistance && pos == Along(s.pos, s.dir, travel)
  }

  /** A projectile is on the straight path of its shot, and a live one as far along as its runtime says. */
  ghost predicate OnItsPath(s: Shot, p: Projectile, runtime: map<nat, Runtime>) {
    && p.owner == s.owner && p.dir == s.dir && p.speed == s.speed && p.damage == s.damage && p.radius == s.radius
    && (exists travel :: OnPath(s, p.pos, travel))
    && (p.id in runtime ==>
          && runtime[p.id].maxDistance == s.maxDistance && runtime[p.id].teleportBehind == s.teleportBehind
          && OnPath(s, p.pos, runtime[p.id].moved))
  }

  ghost predicate OnPaths(a: Arena) {
    && |a.shots| == a.nextSeq && HitsTrue(a)
    && forall i :: 0 <= i < |a.projectiles| ==>
         1 <= a.projectiles[i].id <= a.nextSeq && OnItsPath(a.shots[a.projectiles[i].id - 1], a.projectiles[i], a.runtime)
  }

  /** Every hit does the damage of its shot. */
  ghost predicate HitsTrue(a: Arena) {
    forall i :: 0 <= i < |a.hits| ==>
      1 <= a.hits[i].projectile <= |a.shots| && a.hits[i].damage == a.shots[a.hits[i].projectile - 1].damage
  }

  lemma FurtherAlong(s: Shot, pos: Vector2, moved: real, step: real)
    requires OnPath(s, pos, moved) && step >= 0.0 && moved + step <= s.maxDistance
    ensures OnPath(s, Along(pos, s.dir, step), moved + step)
  {
    hide Along;
    AlongTwice(s.pos, s.dir, moved, step);
  }

  lemma AlongTwice(p: Vector2, dir: Vector2, a: real, b: real)
    ensures Along(Along(p, dir, a), dir, b) == Along(p, dir, a + b)
  {
    assert dir.x * (a + b) == dir.x * a + dir.x * b;
    assert dir.y * (a + b) == dir.y * a + dir.y * b;
  }

  /** Destroyed or not, a projectile ends its step on its path. */
  lemma MoveOneOnPath(a: Arena, i: nat, rules: Rules)
    requires Sound(a) && OnPaths(a) && i < |a.projectiles| && rules.tickDuration > 0.0
    ensures OnPaths(MoveOne(a, i, rules)) && MoveOne(a, i, rules).shots == a.shots
  {
    hide OnPath, Flight, TargetOf, HitBy, Along, IdsWhere, HitsOnce, DeadAtZero;
    var p := a.projectiles[i];
    if !p.destroyed {
      LiveHasRuntime(a, i);
      var r := a.runtime[p.id];
      var (step, reached) := Flight(p.speed, rules.tickDuration, Some(r));
      FlightWithin(p.speed, rules.tickDuration, r);
      FurtherAlong(a.shots[p.id - 1], p.pos, r.moved, step);
      var b := MoveOne(a, i, rules);
      assert b.projectiles[i].pos == Along(p.pos, p.dir, step);
      assert forall j :: 0 <= j < |a.projectiles| && j != i ==> b.projectiles[j] == a.projectiles[j] && b.projectiles[j].id != p.id;
      assert forall id :: id != p.id ==> (id in b.runtime <==> id in a.runtime) && (id in a.runtime ==> b.runtime[id] == a.runtime[id]);
      assert p.id in b.runtime ==> b.runtime[p.id] == r.(moved := r.moved + step);
    }
  }

  lemma {:induction false} MoveFirstOnPaths(a: Arena, n: nat, rules: Rules)
    requires Sound(a) && DamagePositive(a) && OnPaths(a) && n <= |a.projectiles| && rules.tickDuration > 0.0
    ensures OnPaths(MoveFirst(a, n, rules))
  {
    hide Sound, DamagePositive, OnPaths, MoveOne;
    if n > 0 {
      MoveFirstOnPaths(a, n - 1, rules);
      MoveFirstKeeps(a, n - 1, rules);
      MoveOneOnPath(MoveFirst(a, n - 1, rules), n - 1, rules);
    }
  }

  lemma EmitOnPath(a: Arena, s: Shot)
    requires OnPaths(a) && s.maxDistance >= 0.0
    ensures OnPaths(Emit(a, s))
  {
    hide OnPath;
    var b := Emit(a, s);
    AtOrigin(s);
    assert forall i :: 0 <= i < |a.projectiles| ==> b.shots[a.projectiles[i].id - 1] == a.shots[a.projectiles[i].id - 1];
  }

  lemma AtOrigin(s: Shot)
    requires s.maxDistance >= 0.0
    ensures OnPath(s, s.pos, 0.0)
  {
  }

  lemma {:induction false} EmitAllOnPaths(a: Arena, shots: seq<Shot>)
    requires OnPaths(a) && ShotsValid(shots)
    ensures OnPaths(EmitAll(a, shots))
    decreases |shots|
  {
    hide OnPaths;
    if shots != [] {
      EmitAllOnPaths(a, shots[..|shots| - 1]);
      EmitOnPath(EmitAll(a, shots[..|shots| - 1]), shots[|shots| - 1]);
    }
  }

  lemma PrunedOnPaths(a: Arena)
    requires Sound(a) && OnPaths(a)
    ensures OnPaths(Prune(a))
  {
    hide OnPaths, IdsWhere, Expired, Pruned, DeadAtZero;
    BuriedHaveTicks(a);
    PrunedExact(a.projectiles, a.destroyedAt, a.tick);
    FewerOnPaths(a, Prune(a));
  }

  lemma FewerOnPaths(a: Arena, b: Arena)
    requires OnPaths(a) && b == a.(projectiles := b.projectiles, destroyedAt := b.destroyedAt)
    requires forall p :: p in b.projectiles ==> p in a.projectiles
    ensures OnPaths(b)
  {
    hide OnItsPath;
    forall i | 0 <= i < |b.projectiles|
      ensures 1 <= b.projectiles[i].id <= b.nextSeq && OnItsPath(b.shots[b.projectiles[i].id - 1], b.projectiles[i], b.runtime)
    {
      assert b.projectiles[i] in a.projectiles;
    }
  }

  lemma StepOnPaths(a: Arena, input: Input)
    requires Sound(a) && DamagePositive(a) && Aged(a) && OnPaths(a) && ValidInput(input)
    ensures OnPaths(Step(a, input))
  {
    hide Sound, DamagePositive, DeadAtZero, MoveFirst, StruckAll, Relocated, EmitAll, Prune, Onward, ShotsValid, OnItsPath;
    var moved := MoveFirst(a, |a.projectiles|, input.rules);
    MoveFirstKeeps(a, |a.projectiles|, input.rules);
    MoveFirstOnPaths(a, |a.projectiles|, input.rules);
    SoundPlayers(moved);
    RelocatedKeeps(moved.players, input.places);
    StruckKeeps(Relocated(moved.players, input.places), input.strikes);
    var struck := moved.(players := StruckAll(Relocated(moved.players, input.places), input.strikes));
    PlayersReplaced(a, moved, struck);
    EmitAllKeeps(struck, input.shots);
    EmitAllOnPaths(struck, input.shots);
    var emitted := EmitAll(struck, input.shots);
    OnwardTrans(a, struck, emitted);
    TickedSound(a, emitted);
    PrunedOnPaths(emitted.(tick := emitted.tick + 1));
  }

  lemma {:induction false} RunOnPaths(a: Arena, inputs: seq<Input>)
    requires Sound(a) && DamagePositive(a) && Aged(a) && OnPaths(a) && ValidInputs(inputs)
    ensures OnPaths(Run(a, inputs))
    decreases |inputs|
  {
    hide Sound, DamagePositive, Aged, OnPaths, Step, ValidInput;
    if inputs != [] {
      var init := inputs[..|inputs| - 1];
      assert forall x :: x in init ==> x in inputs;
      RunOnPaths(a, init);
      RunKeeps(a, init);
      StepOnPaths(Run(a, init), inputs[|inputs| - 1]);
    }
  }

  function DistanceSquared(p: Vector2, q: Vector2): real {
    (p.x - q.x) * (p.x - q.x) + (p.y - q.y) * (p.y - q.y)
  }

  /** `p` has gone this far from where it was emitted, straight ahead and within its range; a live one as far as its runtime says. */
  ghost predicate HasGone(a: Arena, p: Projectile, travel: real) {
    && 1 <= p.id <= |a.shots|
    && var s := a.shots[p.id - 1];
    && p.owner == s.owner && p.dir == s.dir && p.speed == s.speed && p.damage == s.damage && p.radius == s.radius
    && 0.0 <= travel <= s.maxDistance && p.pos == Along(s.pos, s.dir, travel)
    && (LengthSquared(s.dir) == 1.0 ==> DistanceSquared(p.pos, s.pos) == travel * travel)
    && (!p.destroyed ==> p.id in a.runtime && travel == a.runtime[p.id].moved)
  }

  /**
   In every snapshot of a run that starts without projectiles, every projectile, live or tombstone, is at
   most its shot's range away from where it was emitted, in the direction of the shot.
   */
  lemma NoneBeyondRange(players: seq<Player>, inputs: seq<Input>, p: Projectile) returns (travel: real)
    requires DeadAtZero(players) && ValidInputs(inputs)
    requires p in Run(Arena(0, players, [], 0, map[], map[], [], []), inputs).projectiles
    ensures HasGone(Run(Arena(0, players, [], 0, map[], map[], [], []), inputs), p, travel)
  {
    hide Run, ValidInput, HasGone, OnItsPath;
    var start := Arena(0, players, [], 0, map[], map[], [], []);
    RunKeeps(start, inputs);
    RunOnPaths(start, inputs);
    travel := WayGone(Run(start, inputs), p);
  }

  lemma WayGone(a: Arena, p: Projectile) returns (travel: real)
    requires LiveOrBuried(a) && OnPaths(a) && p in a.projectiles
    ensures HasGone(a, p, travel)
  {
    hide Along;
    var i :| 0 <= i < |a.projectiles| && a.projectiles[i] == p;
    var s := a.shots[p.id - 1];
    if p.destroyed {
      travel :| OnPath(s, p.pos, travel);
    } else {
      LiveHasRuntime(a, i);
      travel := a.runtime[p.id].moved;
    }
    UnitWay(s.pos, s.dir, travel);
  }

  lemma UnitWay(pos: Vector2, dir: Vector2, travel: real)
    ensures LengthSquared(dir) == 1.0 ==> DistanceSquared(Along(pos, dir, travel), pos) == travel * travel
  {
    var q := Along(pos, dir, travel);
    assert q.x - pos.x == dir.x * travel && q.y - pos.y == dir.y * travel;
    assert (dir.x * travel) * (dir.x * travel) == (dir.x * dir.x) * (travel * travel);
    assert (dir.y * travel) * (dir.y * travel) == (dir.y * dir.y) * (travel * travel);
  }

  // ---------- Targets, flights and hits ----------

  /** The target is the one with the least id of the players that may be hit and are touched, and there is none exactly if nobody is. */
  lemma {:induction false} TargetIsLeast(p: Projectile, players: seq<Player>, rules: Rules, upTo: nat)
    requires upTo <= |players|
    ensures var target := TargetOf(p, players, rules, upTo);
      if target.None?
      then forall j :: 0 <= j < upTo && rules.canHit(p.owner, players[j]) ==>
             !CirclesOverlap(p.pos, p.radius, players[j].pos, players[j].radius)
      else
        && var t := players[target.value];
        && rules.canHit(p.owner, t) && CirclesOverlap(p.pos, p.radius, t.pos, t.radius)
        && forall j :: 0 <= j < upTo && rules.canHit(p.owner, players[j]) && players[j].id < t.id ==>
             !CirclesOverlap(p.pos, p.radius, players[j].pos, players[j].radius)
  {
    hide CirclesOverlap;
    if upTo > 0 {
      TargetIsLeast(p, players, rules, upTo - 1);
    }
  }

  /** What is left of some health after some damage. */
  function Left(health: real, damage: real): real {
    if health > damage then health - damage else 0.0
  }

  lemma LeftTwice(health: real, a: real, b: real)
    requires b >= 0.0
    ensures Left(Left(health, a), b) == Left(health, a + b)
  {
  }

  /**
   A hit takes its damage from its target, down to zero, at which the target is dead, and from nobody else. Only
   the owner of a teleporting projectile, if it lives and there is room, changes its place.
   */
  lemma HitEffect(players: seq<Player>, p: Projectile, t: nat, r: Option<Runtime>, rules: Rules)
    requires t < |players|
    ensures var after := HitBy(players, p, t, r, rules);
      forall j :: 0 <= j < |players| ==>
        && after[j].id == players[j].id && after[j].radius == players[j].radius
        && after[j].hp == (if j == t then Left(players[j].hp, p.damage) else players[j].hp)
        && after[j].dead == (players[j].dead || (j == t && players[j].hp <= p.damage))
        && (after[j].pos != players[j].pos ==> r.Some? && r.value.teleportBehind > 0.0 && !after[j].dead && after[j].id == p.owner)
  {
  }

  /** The teleport takes the first player with the owner's id to the place found behind the target. */
  lemma TeleportEffect(players: seq<Player>, owner: nat, target: nat, dir: Vector2, behind: real, rules: Rules, o: nat)
    requires o < |players| && players[o].id == owner && forall j :: 0 <= j < o ==> players[j].id != owner
    ensures var place := rules.landing(players, o, target, dir, behind);
      Teleported(players, owner, target, dir, behind, rules)
      == if behind > 0.0 && !players[o].dead && place.Some? then players[o := players[o].(pos := place.value)] else players
  {
    IndexIsFirst(players, owner, o);
  }

  /** A hit of a projectile that teleports takes the living owner to the place found behind the target, if there is one. */
  lemma HitTeleports(players: seq<Player>, p: Projectile, t: nat, r: Runtime, rules: Rules, o: nat)
    requires t < |players| && o < |players| && players[o].id == p.owner && forall j :: 0 <= j < o ==> players[j].id != p.owner
    ensures var damaged := players[t := players[t].(hp := Left(players[t].hp, p.damage),
                                                    dead := players[t].dead || players[t].hp <= p.damage)];
      var place := rules.landing(damaged, o, t, p.dir, r.teleportBehind);
      HitBy(players, p, t, Some(r), rules)
      == if r.teleportBehind > 0.0 && !damaged[o].dead && place.Some? then damaged[o := damaged[o].(pos := place.value)] else damaged
  {
    var damaged := players[t := Damaged(players[t], p.damage)];
    TeleportEffect(damaged, p.owner, t, p.dir, r.teleportBehind, rules, o);
  }

  lemma {:induction false} IndexIsFirst(players: seq<Player>, id: nat, o: nat)
    requires o < |players| && players[o].id == id && forall j :: 0 <= j < o ==> players[j].id != id
    ensures IndexOf(players, id) == Some(o)
  {
    if o > 0 {
      assert players[1..][o - 1] == players[o];
      IndexIsFirst(players[1..], id, o - 1);
    }
  }

  /** A live projectile goes its speed times the tick, or, if that is all to within the tolerance, what is left of its range. */
  lemma FlightIs(speed: real, tickDuration: real, r: Runtime)
    ensures var remaining := r.maxDistance - r.moved;
      var (gone, ends) := Flight(speed, tickDuration, Some(r));
      && ends == (remaining <= speed * tickDuration + RANGE_EPS)
      && gone == if !ends then speed * tickDuration else if remaining > 0.0 then remaining else 0.0
  {
  }

  /**
   Where it gets it survives exactly if nothing blocks it, it touches nobody it may hit, and its range goes on; then
   its runtime counts the way. Blocked, it hits nobody, and otherwise its target, if it has one.
   */
  lemma FlightEffect(a: Arena, i: nat, rules: Rules)
    requires i < |a.projectiles| && !a.projectiles[i].destroyed && a.projectiles[i].id in a.runtime
    ensures var p := a.projectiles[i];
      var r := a.runtime[p.id];
      var (gone, ends) := Flight(p.speed, rules.tickDuration, Some(r));
      var q := p.(pos := Along(p.pos, p.dir, gone));
      var target := TargetOf(q, a.players, rules, |a.players|);
      var b := MoveOne(a, i, rules);
      && b.projectiles == a.projectiles[i := q.(destroyed := rules.blocked(q.pos, q.radius) || target.Some? || ends)]
      && (!b.projectiles[i].destroyed ==> b.runtime == a.runtime[p.id := r.(moved := r.moved + gone)])
      && (if !rules.blocked(q.pos, q.radius) && target.Some?
          then b.players == HitBy(a.players, q, target.value, Some(r), rules)
               && b.hits == a.hits + [Hit(p.id, a.players[target.value].id, p.damage)]
          else b.players == a.players && b.hits == a.hits)
  {
    hide TargetOf, HitBy, Flight, Along;
  }

  // ---------- Where health goes ----------

  /** The damage of these hits on the player with this id. */
  function HitDamage(hits: seq<Hit>, id: nat): real {
    if hits == [] then 0.0
    else
      var last := hits[|hits| - 1];
      HitDamage(hits[..|hits| - 1], id) + if last.target == id then last.damage else 0.0
  }

  /** The damage of these strikes against the player at this index. */
  function StrikeDamage(strikes: seq<Strike>, i: nat): real {
    if strikes == [] then 0.0
    else
      var last := strikes[|strikes| - 1];
      StrikeDamage(strikes[..|strikes| - 1], i) + if last.index == i then last.damage else 0.0
  }

  function StrikesOver(inputs: seq<Input>, i: nat): real {
    if inputs == [] then 0.0 else StrikesOver(inputs[..|inputs| - 1], i) + StrikeDamage(inputs[|inputs| - 1].strikes, i)
  }

  ghost predicate DistinctPlayers(players: seq<Player>) {
    forall i, j :: 0 <= i < j < |players| ==> players[i].id != players[j].id
  }

  /** Player `i` has lost exactly the damage of the hits recorded since and of these strikes. */
  ghost predicate Pays(a: Arena, b: Arena, i: nat, strikes: real)
    requires i < |a.players| == |b.players|
  {
    var id := a.players[i].id;
    var hits := HitDamage(b.hits, id) - HitDamage(a.hits, id);
    hits >= 0.0 && b.players[i].id == id && b.players[i].hp == Left(a.players[i].hp, hits + strikes)
  }

  lemma MoveOnePays(a: Arena, k: nat, rules: Rules, i: nat)
    requires Sound(a) && DamagePositive(a) && DistinctPlayers(a.players) && k < |a.projectiles| && i < |a.players|
    ensures |MoveOne(a, k, rules).players| == |a.players| && Pays(a, MoveOne(a, k, rules), i, 0.0)
  {
    hide TargetOf, HitBy, DistinctIds, LiveOrBuried, InRange, HitsOnce;
    var p := a.projectiles[k];
    var b := MoveOne(a, k, rules);
    if b.hits != a.hits {
      var r := RuntimeOf(a, p.id);
      var (step, reached) := Flight(p.speed, rules.tickDuration, r);
      var q := p.(pos := Along(p.pos, p.dir, step));
      var t := TargetOf(q, a.players, rules, |a.players|).value;
      HitEffect(a.players, q, t, r, rules);
      assert b.hits[..|b.hits| - 1] == a.hits;
    }
  }

  lemma PaysTwice(a: Arena, b: Arena, c: Arena, i: nat, s: real, t: real)
    requires i < |a.players| == |b.players| == |c.players| && Pays(a, b, i, s) && Pays(b, c, i, t) && s >= 0.0 && t >= 0.0
    ensures Pays(a, c, i, s + t)
  {
    var id := a.players[i].id;
    LeftTwice(a.players[i].hp, HitDamage(b.hits, id) - HitDamage(a.hits, id) + s, HitDamage(c.hits, id) - HitDamage(b.hits, id) + t);
  }

  lemma PaysNothing(a: Arena, b: Arena, i: nat)
    requires i < |a.players| == |b.players| && b.hits == a.hits && a.players[i].hp >= 0.0
    requires b.players[i].id == a.players[i].id && b.players[i].hp == a.players[i].hp
    ensures Pays(a, b, i, 0.0)
  {
  }

  lemma SamePlayerIds(a: Arena, b: Arena)
    requires DistinctPlayers(a.players) && Onward(a, b)
    ensures DistinctPlayers(b.players)
  {
  }

  lemma {:induction false} MoveFirstPays(a: Arena, n: nat, rules: Rules, i: nat)
    requires Sound(a) && DamagePositive(a) && DistinctPlayers(a.players) && n <= |a.projectiles| && rules.tickDuration > 0.0
    requires i < |a.players|
    ensures |MoveFirst(a, n, rules).players| == |a.players| && Pays(a, MoveFirst(a, n, rules), i, 0.0)
  {
    hide MoveOne, DamagePositive, Pays, DistinctPlayers, LiveOrBuried, InRange, HitsOnce, DistinctIds;
    if n == 0 {
      PaysNothing(a, a, i);
    } else {
      var b := MoveFirst(a, n - 1, rules);
      MoveFirstPays(a, n - 1, rules, i);
      MoveFirstKeeps(a, n - 1, rules);
      SamePlayerIds(a, b);
      MoveOnePays(b, n - 1, rules, i);
      PaysTwice(a, b, MoveFirst(a, n, rules), i, 0.0, 0.0);
    }
  }

  lemma {:induction false} StrikesPay(players: seq<Player>, strikes: seq<Strike>, i: nat)
    requires i < |players| && players[i].hp >= 0.0 && forall s :: s in strikes ==> s.damage >= 0.0
    ensures StrikeDamage(strikes, i) >= 0.0
    ensures StruckAll(players, strikes)[i].id == players[i].id
    ensures StruckAll(players, strikes)[i].hp == Left(players[i].hp, StrikeDamage(strikes, i))
    decreases |strikes|
  {
    if strikes != [] {
      var init := strikes[..|strikes| - 1];
      StrikesPay(players, init, i);
      LeftTwice(players[i].hp, StrikeDamage(init, i), strikes[|strikes| - 1].damage);
    }
  }

  /** A tick takes from each player the damage of the tick's hits on it and of the strikes against it. */
  lemma StepPays(a: Arena, input: Input, i: nat)
    requires Sound(a) && DamagePositive(a) && Aged(a) && ValidInput(input) && DistinctPlayers(a.players) && i < |a.players|
    ensures |Step(a, input).players| == |a.players| && StrikeDamage(input.strikes, i) >= 0.0
    ensures Pays(a, Step(a, input), i, StrikeDamage(input.strikes, i))
  {
    hide MoveFirst, EmitAll, Prune, StruckAll, Relocated, Pays, DamagePositive, LiveOrBuried, InRange, HitsOnce, DistinctIds;
    var moved := MoveFirst(a, |a.projectiles|, input.rules);
    MoveFirstKeeps(a, |a.projectiles|, input.rules);
    MoveFirstPays(a, |a.projectiles|, input.rules, i);
    RelocatedKeeps(moved.players, input.places);
    var relocated := Relocated(moved.players, input.places);
    assert relocated[i].hp == moved.players[i].hp by { RelocatedHealth(moved.players, input.places); }
    StrikesPay(relocated, input.strikes, i);
    var struck := moved.(players := StruckAll(relocated, input.strikes));
    StruckPays(moved, struck, i, StrikeDamage(input.strikes, i));
    PaysTwice(a, moved, struck, i, 0.0, StrikeDamage(input.strikes, i));
    EmitAllSamePlayers(struck, input.shots);
    var after := Step(a, input);
    assert after.players == struck.players && after.hits == struck.hits by { PruneSamePlayers(EmitAll(struck, input.shots)); }
    SamePays(a, struck, after, i, StrikeDamage(input.strikes, i));
  }

  lemma RelocatedHealth(players: seq<Player>, places: seq<Vector2>)
    ensures forall i :: 0 <= i < |players| ==>
              Relocated(players, places)[i] == players[i].(pos := if i < |places| then places[i] else players[i].pos)
  {
  }

  lemma StruckPays(a: Arena, b: Arena, i: nat, strikes: real)
    requires i < |a.players| == |b.players| && b.hits == a.hits && b.players[i].id == a.players[i].id
    requires b.players[i].hp == Left(a.players[i].hp, strikes)
    ensures Pays(a, b, i, strikes)
  {
  }

  lemma SamePays(a: Arena, b: Arena, c: Arena, i: nat, strikes: real)
    requires i < |a.players| == |b.players| && Pays(a, b, i, strikes) && c.players == b.players && c.hits == b.hits
    ensures Pays(a, c, i, strikes)
  {
  }

  lemma {:induction false} EmitAllSamePlayers(a: Arena, shots: seq<Shot>)
    ensures EmitAll(a, shots).players == a.players && EmitAll(a, shots).hits == a.hits
    decreases |shots|
  {
    if shots != [] {
      EmitAllSamePlayers(a, shots[..|shots| - 1]);
    }
  }

  lemma PruneSamePlayers(a: Arena)
    ensures Prune(a.(tick := a.tick + 1)).players == a.players && Prune(a.(tick := a.tick + 1)).hits == a.hits
  {
    hide Pruned;
  }

  /**
   Over any run each player has lost exactly the damage of the recorded hits on it and of the strikes against it,
   down to zero.
   */
  lemma {:induction false} HealthIsPaid(a: Arena, inputs: seq<Input>, i: nat)
    requires Sound(a) && DamagePositive(a) && Aged(a) && ValidInputs(inputs) && DistinctPlayers(a.players) && i < |a.players|
    ensures |Run(a, inputs).players| == |a.players| && DistinctPlayers(Run(a, inputs).players) && StrikesOver(inputs, i) >= 0.0
    ensures Pays(a, Run(a, inputs), i, StrikesOver(inputs, i))
    decreases |inputs|
  {
    hide Step, Pays, DamagePositive, LiveOrBuried, InRange, HitsOnce, DistinctIds, ValidInput, Aged;
    if inputs == [] {
      PaysNothing(a, a, i);
    } else {
      var init := inputs[..|inputs| - 1];
      assert forall x :: x in init ==> x in inputs;
      HealthIsPaid(a, init, i);
      RunKeeps(a, init);
      var b := Run(a, init);
      StepPays(b, inputs[|inputs| - 1], i);
      StepKeeps(b, inputs[|inputs| - 1]);
      PaysTwice(a, b, Run(a, inputs), i, StrikesOver(init, i), StrikeDamage(inputs[|inputs| - 1].strikes, i));
    }
  }

  /** After a tick a player stands where its movement took it, if it was given a place. */
  lemma PlacesTaken(a: Arena, input: Input, i: nat)
    requires i < |a.players| && i < |input.places|
    ensures |MoveFirst(a, |a.projectiles|, input.rules).players| == |a.players| ==>
              i < |Step(a, input).players| && Step(a, input).players[i].pos == input.places[i]
  {
    hide MoveFirst, EmitAll, Prune;
    var moved := MoveFirst(a, |a.projectiles|, input.rules);
    if |moved.players| == |a.players| {
      var struck := moved.(players := StruckAll(Relocated(moved.players, input.places), input.strikes));
      StruckStays(Relocated(moved.players, input.places), input.strikes);
      EmitAllSamePlayers(struck, input.shots);
      PruneSamePlayers(EmitAll(struck, input.shots));
    }
  }

  lemma {:induction false} StruckStays(players: seq<Player>, strikes: seq<Strike>)
    ensures forall i :: 0 <= i < |players| ==> StruckAll(players, strikes)[i].pos == players[i].pos
    decreases |strikes|
  {
    if strikes != [] {
      StruckStays(players, strikes[..|strikes| - 1]);
    }
  }

  // ---------- What a tick does to every projectile ----------

  /** A tick turns each of its shots into a live projectile of its own, at the shot's origin and with its full range. */
  lemma ShotsFly(a: Arena, input: Input, k: nat)
    requires Sound(a) && DamagePositive(a) && Aged(a) && ValidInput(input) && k < |input.shots|
    ensures var b := Step(a, input);
      var s := input.shots[k];
      var id := a.nextSeq + 1 + k;
      && b.nextSeq == a.nextSeq + |input.shots|
      && Projectile(id, s.owner, s.pos, s.dir, s.speed, s.damage, s.radius, false) in b.projectiles
      && id in b.runtime && b.runtime[id] == Runtime(s.maxDistance, s.teleportBehind, 0.0)
  {
    hide MoveFirst, EmitAll, Prune, StruckAll, Relocated, Sound, DamagePositive, DeadAtZero, Onward, ShotsValid, Survivors;
    var moved := MoveFirst(a, |a.projectiles|, input.rules);
    MoveFirstKeeps(a, |a.projectiles|, input.rules);
    MoveFirstNumbers(a, |a.projectiles|, input.rules);
    SoundPlayers(moved);
    RelocatedKeeps(moved.players, input.places);
    StruckKeeps(Relocated(moved.players, input.places), input.strikes);
    var struck := moved.(players := StruckAll(Relocated(moved.players, input.places), input.strikes));
    PlayersReplaced(a, moved, struck);
    EmitAllShots(struck, input.shots, k);
    var emitted := EmitAll(struck, input.shots);
    EmitAllKeeps(struck, input.shots);
    OnwardTrans(a, struck, emitted);
    TickedSound(a, emitted);
    PruneKeepsLive(emitted.(tick := emitted.tick + 1));
  }

  lemma {:induction false} MoveFirstNumbers(a: Arena, n: nat, rules: Rules)
    requires n <= |a.projectiles|
    ensures MoveFirst(a, n, rules).nextSeq == a.nextSeq
  {
    hide TargetOf, HitBy;
    if n > 0 {
      MoveFirstNumbers(a, n - 1, rules);
    }
  }

  lemma {:induction false} EmitAllShots(a: Arena, shots: seq<Shot>, k: nat)
    requires k < |shots|
    ensures var b := EmitAll(a, shots);
      var s := shots[k];
      var id := a.nextSeq + 1 + k;
      && b.nextSeq == a.nextSeq + |shots|
      && Projectile(id, s.owner, s.pos, s.dir, s.speed, s.damage, s.radius, false) in b.projectiles
      && id in b.runtime && b.runtime[id] == Runtime(s.maxDistance, s.teleportBehind, 0.0)
    decreases |shots|
  {
    var init := shots[..|shots| - 1];
    var last := shots[|shots| - 1];
    var before := EmitAll(a, init);
    EmitAllNumbers(a, init);
    var b := Emit(before, last);
    if k < |init| {
      EmitAllShots(a, init, k);
      assert forall q :: q in before.projectiles ==> q in b.projectiles;
    } else {
      assert b.projectiles[|before.projectiles|].id == a.nextSeq + 1 + k;
    }
  }

  lemma {:induction false} EmitAllNumbers(a: Arena, shots: seq<Shot>)
    ensures EmitAll(a, shots).nextSeq == a.nextSeq + |shots|
    decreases |shots|
  {
    if shots != [] {
      EmitAllNumbers(a, shots[..|shots| - 1]);
    }
  }

  lemma FlownIsListed(a: Arena, b: Arena, i: nat, gone: real)
    requires i < |a.projectiles| == |b.projectiles| && Flown(a, b, i, gone) && !a.projectiles[i].destroyed
    ensures var p := a.projectiles[i];
      p.id in b.runtime ==>
        exists q :: q in b.projectiles && !q.destroyed && q == p.(pos := Along(p.pos, p.dir, gone))
  {
    assert b.projectiles[i] in b.projectiles;
  }

  lemma PruneKeepsLive(a: Arena)
    requires Sound(a) && DamagePositive(a) && forall id :: id in a.destroyedAt ==> a.destroyedAt[id] <= a.tick
    ensures Prune(a).nextSeq == a.nextSeq && Prune(a).runtime == a.runtime
    ensures forall p :: p in a.projectiles && !p.destroyed ==> p in Prune(a).projectiles
  {
    hide Pruned;
    BuriedHaveTicks(a);
    PrunedExact(a.projectiles, a.destroyedAt, a.tick);
  }

  /**
   A projectile that a tick leaves alive has flown its speed times the tick further, along its direction, and is
   otherwise as it was.
   */
  lemma LiveOnesFly(a: Arena, input: Input, i: nat)
    requires Sound(a) && DamagePositive(a) && Aged(a) && ValidInput(input)
    requires i < |a.projectiles| && !a.projectiles[i].destroyed
    ensures var b := Step(a, input);
      var p := a.projectiles[i];
      var gone := OneTick(p.speed, input.rules);
      p.id in a.runtime
      && (p.id in b.runtime ==>
           && p.(pos := Along(p.pos, p.dir, gone)) in b.projectiles
           && b.runtime[p.id] == a.runtime[p.id].(moved := a.runtime[p.id].moved + gone))
  {
    hide MoveFirst, EmitAll, Prune, StruckAll, Relocated, Sound, DamagePositive, DeadAtZero, Onward, ShotsValid, OneTick, Along;
    LiveHasRuntimeIn(a, i);
    var moved := MoveFirst(a, |a.projectiles|, input.rules);
    MoveFirstKeeps(a, |a.projectiles|, input.rules);
    MoveFirstNumbers(a, |a.projectiles|, input.rules);
    MoveFirstFlies(a, |a.projectiles|, input.rules, i);
    FlownIsListed(a, moved, i, OneTick(a.projectiles[i].speed, input.rules));
    SoundPlayers(moved);
    RelocatedKeeps(moved.players, input.places);
    StruckKeeps(Relocated(moved.players, input.places), input.strikes);
    var struck := moved.(players := StruckAll(Relocated(moved.players, input.places), input.strikes));
    PlayersReplaced(a, moved, struck);
    EmitAllKeepsOlder(struck, input.shots);
    var emitted := EmitAll(struck, input.shots);
    EmitAllKeeps(struck, input.shots);
    OnwardTrans(a, struck, emitted);
    TickedSound(a, emitted);
    PruneKeepsLive(emitted.(tick := emitted.tick + 1));
  }

  lemma LiveHasRuntimeIn(a: Arena, i: nat)
    requires Sound(a) && i < |a.projectiles| && !a.projectiles[i].destroyed
    ensures a.projectiles[i].id in a.runtime && a.projectiles[i].id <= a.nextSeq
  {
    LiveHasRuntime(a, i);
  }

  lemma {:induction false} EmitAllKeepsOlder(a: Arena, shots: seq<Shot>)
    ensures var b := EmitAll(a, shots);
      && (forall p :: p in a.projectiles ==> p in b.projectiles)
      && (forall id :: id <= a.nextSeq ==> (id in b.runtime <==> id in a.runtime))
      && (forall id :: id <= a.nextSeq && id in a.runtime ==> b.runtime[id] == a.runtime[id])
    decreases |shots|
  {
    if shots != [] {
      EmitAllKeepsOlder(a, shots[..|shots| - 1]);
      EmitAllNumbers(a, shots[..|shots| - 1]);
    }
  }

  function OneTick(speed: real, rules: Rules): real {
    speed * rules.tickDuration
  }

  /** How projectile `i` of `a` stands in `b` once the flight has passed it. */
  ghost predicate Flown(a: Arena, b: Arena, i: nat, gone: real)
    requires i < |a.projectiles| == |b.projectiles|
  {
    var p := a.projectiles[i];
    p.id in a.runtime
    && b.projectiles[i].id == p.id
    && (p.id in b.runtime ==>
         && b.projectiles[i] == p.(pos := Along(p.pos, p.dir, gone))
         && b.runtime[p.id] == a.runtime[p.id].(moved := a.runtime[p.id].moved + gone))
  }

  lemma {:induction false} MoveFirstFlies(a: Arena, n: nat, rules: Rules, i: nat)
    requires Sound(a) && DamagePositive(a) && n <= |a.projectiles| && rules.tickDuration > 0.0
    requires i < |a.projectiles| && !a.projectiles[i].destroyed && a.projectiles[i].id in a.runtime
    ensures var b := MoveFirst(a, n, rules);
      var p := a.projectiles[i];
      if i < n then Flown(a, b, i, OneTick(p.speed, rules))
      else b.projectiles[i] == p && p.id in b.runtime && b.runtime[p.id] == a.runtime[p.id]
  {
    hide MoveOne, Sound, DamagePositive, OneTick;
    if n > 0 {
      var b := MoveFirst(a, n - 1, rules);
      MoveFirstFlies(a, n - 1, rules, i);
      MoveFirstKeeps(a, n - 1, rules);
      if i == n - 1 {
        MoveOneFlies(b, i, rules);
        FlownAlike(a, b, MoveFirst(a, n, rules), i, OneTick(a.projectiles[i].speed, rules));
      } else {
        SoundIds(b);
        MoveOneSpares(b, n - 1, rules, i);
      }
    }
  }

  lemma FlownAlike(a: Arena, b: Arena, c: Arena, i: nat, gone: real)
    requires i < |a.projectiles| == |b.projectiles| == |c.projectiles| && Flown(b, c, i, gone)
    requires b.projectiles[i] == a.projectiles[i]
    requires a.projectiles[i].id in a.runtime && b.runtime[a.projectiles[i].id] == a.runtime[a.projectiles[i].id]
    ensures Flown(a, c, i, gone)
  {
  }

  lemma SoundIds(a: Arena)
    requires Sound(a)
    ensures DistinctIds(a.projectiles)
  {
  }

  lemma MoveOneFlies(a: Arena, i: nat, rules: Rules)
    requires i < |a.projectiles| && !a.projectiles[i].destroyed && a.projectiles[i].id in a.runtime
    ensures Flown(a, MoveOne(a, i, rules), i, OneTick(a.projectiles[i].speed, rules))
  {
    hide TargetOf, HitBy, Flight, Along, OneTick;
    var p := a.projectiles[i];
    FlightIsOneTick(p.speed, rules, a.runtime[p.id]);
    FlightEffect(a, i, rules);
  }

  lemma FlightIsOneTick(speed: real, rules: Rules, r: Runtime)
    ensures var (gone, ends) := Flight(speed, rules.tickDuration, Some(r)); !ends ==> gone == OneTick(speed, rules)
  {
  }

  lemma MoveOneSpares(a: Arena, k: nat, rules: Rules, i: nat)
    requires DistinctIds(a.projectiles) && k < |a.projectiles| && i < |a.projectiles| && i != k
    ensures var b := MoveOne(a, k, rules);
      var p := a.projectiles[i];
      && b.projectiles[i] == p && (p.id in b.runtime <==> p.id in a.runtime)
      && (p.id in a.runtime ==> b.runtime[p.id] == a.runtime[p.id])
  {
    hide TargetOf, HitBy, Along, Flight;
  }

  // ---------- What touching means ----------

  /** Circles that share a point overlap. */
  lemma TouchingOverlap(a: Vector2, ra: real, b: Vector2, rb: real, q: Vector2)
    requires ra >= 0.0 && rb >= 0.0 && DistanceSquared(q, a) <= ra * ra && DistanceSquared(q, b) <= rb * rb
    ensures CirclesOverlap(a, ra, b, rb)
  {
    var (ux, uy, vx, vy) := (q.x - a.x, q.y - a.y, q.x - b.x, q.y - b.y);
    var inner := ux * vx + uy * vy;
    InnerBound(ux, uy, vx, vy, ra, rb);
    DifferenceSquared(ux, uy, vx, vy);
    assert a.x - b.x == vx - ux && a.y - b.y == vy - uy;
    assert (ra + rb) * (ra + rb) == ra * ra + 2.0 * (ra * rb) + rb * rb;
  }

  lemma DifferenceSquared(ux: real, uy: real, vx: real, vy: real)
    ensures (vx - ux) * (vx - ux) + (vy - uy) * (vy - uy)
         == (ux * ux + uy * uy) + (vx * vx + vy * vy) - 2.0 * (ux * vx + uy * vy)
  {
  }

  lemma InnerBound(ux: real, uy: real, vx: real, vy: real, r: real, s: real)
    requires r >= 0.0 && s >= 0.0 && ux * ux + uy * uy <= r * r && vx * vx + vy * vy <= s * s
    ensures -(ux * vx + uy * vy) <= r * s
  {
    var inner := ux * vx + uy * vy;
    var cross := ux * vy - uy * vx;
    Lagrange(ux, uy, vx, vy);
    ProductOrder(ux * ux + uy * uy, vx * vx + vy * vy, r * r, s * s);
    assert (r * r) * (s * s) == (r * s) * (r * s);
    MulNonNegative(r, s);
    if -inner > r * s {
      SquareLess(r * s, -inner);
    }
  }

  lemma Lagrange(ux: real, uy: real, vx: real, vy: real)
    ensures (ux * vx + uy * vy) * (ux * vx + uy * vy) <= (ux * ux + uy * uy) * (vx * vx + vy * vy)
  {
    var cross := ux * vy - uy * vx;
    assert (ux * ux + uy * uy) * (vx * vx + vy * vy) == (ux * vx + uy * vy) * (ux * vx + uy * vy) + cross * cross;
  }

  lemma ProductOrder(x: real, y: real, x': real, y': real)
    requires 0.0 <= x <= x' && 0.0 <= y <= y'
    ensures x * y <= x' * y'
  {
    MulNonNegative(x' - x, y');
    MulNonNegative(x, y' - y);
  }

  /** Circles that overlap share a point, up to the tolerance. */
  lemma OverlapTouches(a: Vector2, ra: real, b: Vector2, rb: real) returns (q: Vector2)
    requires ra >= 0.0 && rb >= 0.0 && CirclesOverlap(a, ra, b, rb)
    ensures DistanceSquared(q, a) <= ra * ra + RANGE_EPS && DistanceSquared(q, b) <= rb * rb + RANGE_EPS
  {
    var radius := ra + rb;
    if radius == 0.0 {
      q := a;
    } else {
      var t := ra / radius;
      q := Vector2(a.x + t * (b.x - a.x), a.y + t * (b.y - a.y));
      var d := DistanceSquared(a, b);
      assert t * radius == ra && (1.0 - t) * radius == rb;
      Between(a, b, t, q);
      ShareOf(t, radius, d);
      ShareOf(1.0 - t, radius, d);
    }
  }

  lemma Between(a: Vector2, b: Vector2, t: real, q: Vector2)
    requires q == Vector2(a.x + t * (b.x - a.x), a.y + t * (b.y - a.y))
    ensures DistanceSquared(q, a) == t * t * DistanceSquared(a, b)
    ensures DistanceSquared(q, b) == (1.0 - t) * (1.0 - t) * DistanceSquared(a, b)
  {
    var dx, dy := b.x - a.x, b.y - a.y;
    assert q.x - a.x == t * dx && q.y - a.y == t * dy;
    assert q.x - b.x == -(1.0 - t) * dx && q.y - b.y == -(1.0 - t) * dy;
  }

  lemma ShareOf(t: real, radius: real, d: real)
    requires 0.0 <= t <= 1.0 && d <= radius * radius + RANGE_EPS
    ensures t * t * d <= (t * radius) * (t * radius) + RANGE_EPS
  {
    MulNonNegative(t, 1.0 - t);
    assert 0.0 <= t * t <= 1.0;
    MulNonNegative(t * t, radius * radius + RANGE_EPS - d);
    assert t * t * (radius * radius) == (t * radius) * (t * radius);
  }
}
