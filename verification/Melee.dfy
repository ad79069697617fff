/** Melee swings: whom a swing hits, that nothing shields whom it hits, and that all swings of a tick land at once. */
module Melee {
  import opened Wrappers
  import opened Grid
  import opened World
  import opened MapCollision
  import opened SegmentHit
  import opened CircleContact
  import ProjectileLife

  const CONTACT_EPS: real := 0.000000001

  datatype Behavior = FreeForAll | TwoTeams | NoTeams

  datatype Rules = Rules(behavior: Behavior, friendlyFire: bool)

  datatype Player = Player(id: nat, team: string, pos: Vector2, radius: real, hp: real, dead: bool)

  datatype Swing = Swing(owner: nat, origin: Vector2, direction: Vector2, rangeTiles: real, damage: real)

  /** Players damage living others: anybody in a free-for-all, and between two teams the other team's unless friends count. */
  predicate CanDamage(owner: Player, target: Player, rules: Rules) {
    if owner.id == target.id || target.dead then false
    else if rules.behavior.FreeForAll? then true
    else rules.behavior.TwoTeams? && (rules.friendlyFire || owner.team != target.team)
  }

  /** Where a swing reaches at most. */
  function Reach(s: Swing, tileSize: real): Vector2 {
    Vector2(s.origin.x + s.direction.x * s.rangeTiles * tileSize, s.origin.y + s.direction.y * s.rangeTiles * tileSize)
  }

  predicate Before(t: real, blocking: Option<real>) {
    blocking.None? || t < blocking.value - CONTACT_EPS
  }

  /** The swing touches the player before anything blocks it. */
  predicate Lands(sqrt: real -> real, s: Swing, end: Vector2, blocking: Option<real>, target: Player) {
    var hit := SegmentCircleHit(sqrt, s.origin, end, target.pos, target.radius);
    hit.Some? && Before(hit.value, blocking)
  }

  /** What stops a swing: the first wall or edge on its way, or everything if it starts off the map. */
  ghost predicate IsBlocking(m: MapData, s: Swing, end: Vector2, r: Option<real>) {
    if m.width == 0 || m.height == 0 then r == None
    else if !InBox(s.origin, MapMinCorner(m), MapMaxCorner(m)) then r == Some(0.0)
    else IsFirstBlocking(m, s.origin, end, r)
  }

  /** The target is the first player in list order that the owner may damage and the swing lands on. */
  ghost predicate IsTarget(sqrt: real -> real, m: MapData, s: Swing, players: seq<Player>, rules: Rules, target: Option<nat>) {
    exists blocking :: IsBlocking(m, s, Reach(s, m.tileSize), blocking)
                       && IsFirst(sqrt, s, Reach(s, m.tileSize), blocking, players, rules, target)
  }

  predicate IsFirst(sqrt: real -> real, s: Swing, end: Vector2, blocking: Option<real>, players: seq<Player>, rules: Rules,
                    target: Option<nat>) {
    if s.owner >= |players| then target == None
    else
      && (target.Some? ==>
            && target.value < |players| && CanDamage(players[s.owner], players[target.value], rules)
            && Lands(sqrt, s, end, blocking, players[target.value]))
      && forall i :: 0 <= i < |players| && (target.None? || i < target.value) ==>
           !(CanDamage(players[s.owner], players[i], rules) && Lands(sqrt, s, end, blocking, players[i]))
  }

  method FirstMeleeTarget(sqrt: real -> real, m: MapData, s: Swing, players: seq<Player>, rules: Rules) returns (target: Option<nat>)
    requires m.tileSize > 0.0
    ensures IsTarget(sqrt, m, s, players, rules, target)
  {
    hide IsFirstBlocking, SegmentCircleHit, CanDamage, MapMinCorner, MapMaxCorner;
    target := None;
    var end := Reach(s, m.tileSize);
    var blocking := FirstBlockingSegmentT(m, s.origin, end);
    assert IsBlocking(m, s, end, blocking);
    if s.owner >= |players| {
      assert IsFirst(sqrt, s, end, blocking, players, rules, target);
      return;
    }
    var i := 0;
    while i < |players|
      invariant 0 <= i <= |players| && target == None
      invariant forall k :: 0 <= k < i ==> !(CanDamage(players[s.owner], players[k], rules) && Lands(sqrt, s, end, blocking, players[k]))
    {
      if CanDamage(players[s.owner], players[i], rules) {
        var hit := SegmentCircleHit(sqrt, s.origin, end, players[i].pos, players[i].radius);
        if hit.Some? && (blocking.None? || hit.value < blocking.value - CONTACT_EPS) {
          target := Some(i);
          assert IsFirst(sqrt, s, end, blocking, players, rules, target);
          return;
        }
      }
      i := i + 1;
    }
    assert IsFirst(sqrt, s, end, blocking, players, rules, target);
  }

  /** Nobody damages itself or the dead; friends are spared exactly between two teams without friendly fire. */
  lemma DamageRules(owner: Player, target: Player, rules: Rules)
    ensures CanDamage(owner, target, rules) ==> owner.id != target.id && !target.dead
    ensures owner.id != target.id && !target.dead ==>
              (CanDamage(owner, target, rules) <==>
                match rules.behavior
                case FreeForAll => true
                case TwoTeams => owner.team == target.team ==> rules.friendlyFire
                case NoTeams => false)
  {
  }

  /** A swing in a direction of length one reaches exactly its range. */
  lemma ReachIsRange(s: Swing, tileSize: real)
    ensures var range := s.rangeTiles * tileSize;
      Minus(Reach(s, tileSize), s.origin) == Vector2(s.direction.x * range, s.direction.y * range)
    ensures LengthSquared(s.direction) == 1.0 ==>
              LengthSquared(Minus(Reach(s, tileSize), s.origin)) == Square(s.rangeTiles * tileSize)
  {
    var range := s.rangeTiles * tileSize;
    var (x, y) := (s.direction.x, s.direction.y);
    assert x * s.rangeTiles * tileSize == x * range && y * s.rangeTiles * tileSize == y * range;
    assert (x * range) * (x * range) + (y * range) * (y * range) == (x * x + y * y) * (range * range);
  }

  // ---------- What a swing that lands means ----------

  lemma {:induction false} OneBlocking(m: MapData, s: Swing, end: Vector2, r: Option<real>, q: Option<real>)
    requires IsBlocking(m, s, end, r) && IsBlocking(m, s, end, q)
    ensures r == q
  {
    hide WorldPos, TileHit, EdgeTime, Blocking, InBox;
    if m.width != 0 && m.height != 0 && InBox(s.origin, MapMinCorner(m), MapMaxCorner(m)) {
      NoLater(m, s.origin, end, r, q);
      NoLater(m, s.origin, end, q, r);
    }
  }

  lemma NoLater(m: MapData, start: Vector2, end: Vector2, r: Option<real>, q: Option<real>)
    requires IsFirstBlocking(m, start, end, r) && IsFirstBlocking(m, start, end, q)
    ensures q.Some? ==> r.Some? && r.value <= q.value
  {
    hide WorldPos, TileHit, EdgeTime, Blocking;
  }

  /** A swing has one target at most, whatever computes it. */
  lemma TargetIsUnique(sqrt: real -> real, m: MapData, s: Swing, players: seq<Player>, rules: Rules, t: Option<nat>, u: Option<nat>)
    requires IsTarget(sqrt, m, s, players, rules, t) && IsTarget(sqrt, m, s, players, rules, u)
    ensures t == u
  {
    hide IsBlocking, CanDamage, Lands, Reach;
    var end := Reach(s, m.tileSize);
    var r :| IsBlocking(m, s, end, r) && IsFirst(sqrt, s, end, r, players, rules, t);
    var q :| IsBlocking(m, s, end, q) && IsFirst(sqrt, s, end, q, players, rules, u);
    OneBlocking(m, s, end, r, q);
  }

  /**
   Whoever a swing hits is another living player whom its owner may damage; the swing touches its circle, and up to the
   instant of the hit it meets no wall and has not reached the edge of the map.
   */
  lemma NobodyIsHitThroughWalls(sqrt: real -> real, m: MapData, s: Swing, players: seq<Player>, rules: Rules, i: nat)
    requires m.tileSize > 0.0 && m.width != 0 && m.height != 0 && IsSqrt(sqrt)
    requires InBox(s.origin, MapMinCorner(m), MapMaxCorner(m))
    requires i < |players| && IsTarget(sqrt, m, s, players, rules, Some(i))
    ensures s.owner < |players| && CanDamage(players[s.owner], players[i], rules)
    ensures var end := Reach(s, m.tileSize);
      var hit := SegmentCircleHit(sqrt, s.origin, end, players[i].pos, players[i].radius);
      && hit.Some? && 0.0 <= hit.value <= 1.0
      && MeetsNoWall(m, s.origin, end, hit.value) && BeforeEdges(m, s.origin, end, PointAt(s.origin, end, hit.value))
  {
    hide WorldPos, IsFirstBlocking, CanDamage, Reach, MeetsNoWall, BeforeEdges, MapMinCorner, MapMaxCorner, InBox, SweepHit;
    var end := Reach(s, m.tileSize);
    var blocking :| IsBlocking(m, s, end, blocking) && IsFirst(sqrt, s, end, blocking, players, rules, Some(i));
    var hit := SegmentCircleHit(sqrt, s.origin, end, players[i].pos, players[i].radius);
    HitWithin(sqrt, Towards(s.origin, end, players[i].pos, players[i].radius));
    SightIsClearBefore(m, s.origin, end, blocking, hit.value);
  }

  /**
   The other way round: if a swing touches a player whom its owner may damage at an instant from which its way is clear
   for a little longer, then it hits that player or one before it in list order.
   */
  lemma InReachIsHit(sqrt: real -> real, m: MapData, s: Swing, players: seq<Player>, rules: Rules, target: Option<nat>, i: nat, t: real)
    requires m.tileSize > 0.0 && m.width != 0 && m.height != 0 && IsSqrt(sqrt)
    requires InBox(s.origin, MapMinCorner(m), MapMaxCorner(m)) && IsTarget(sqrt, m, s, players, rules, target)
    requires s.owner < |players| && i < |players| && CanDamage(players[s.owner], players[i], rules)
    requires var end := Reach(s, m.tileSize);
      var p := Towards(s.origin, end, players[i].pos, players[i].radius);
      && (C(p) <= 0.0 || A(p) == 0.0 || !Grazes(p))
      && 0.0 <= t <= 1.0 && Clearance(p, t) <= 0.0
      && t + CONTACT_EPS <= 1.0 && MeetsNoWall(m, s.origin, end, t + CONTACT_EPS)
      && BeforeEdges(m, s.origin, end, PointAt(s.origin, end, t + CONTACT_EPS))
    ensures target.Some? && target.value <= i
  {
    hide WorldPos, IsFirstBlocking, CanDamage, Reach, MeetsNoWall, BeforeEdges, MapMinCorner, MapMaxCorner, InBox, SweepHit, Clearance,
         A, C, Grazes;
    var end := Reach(s, m.tileSize);
    var p := Towards(s.origin, end, players[i].pos, players[i].radius);
    var blocking :| IsBlocking(m, s, end, blocking) && IsFirst(sqrt, s, end, blocking, players, rules, target);
    HitIsFirstTouch(sqrt, p);
    SightIsClearBefore(m, s.origin, end, blocking, t + CONTACT_EPS);
    assert Lands(sqrt, s, end, blocking, players[i]);
  }

  lemma HitWithin(sqrt: real -> real, p: Sweep)
    ensures SweepHit(sqrt, p).Some? ==> 0.0 <= SweepHit(sqrt, p).value <= 1.0
  {
    hide A, B, C, Discriminant, Grazes, Root;
  }

  // ---------- All swings of a tick ----------

  /** The damage of the swings that hit the player at this index. */
  function TotalDamage(swings: seq<Swing>, targets: seq<Option<nat>>, i: nat): real
    requires |targets| == |swings|
  {
    if swings == [] then 0.0
    else
      var n := |swings| - 1;
      TotalDamage(swings[..n], targets[..n], i) + if targets[n] == Some(i) then swings[n].damage else 0.0
  }

  /** A player after some damage; without any it stays as it is. */
  function Struck(p: Player, damage: real): Player {
    if damage == 0.0 then p
    else if p.hp - damage <= 0.0 then p.(hp := 0.0, dead := true) else p.(hp := p.hp - damage)
  }

  /** Every swing's target and every player's damage, all from the players as they are. */
  method Aim(sqrt: real -> real, m: MapData, frozen: seq<Player>, intents: seq<Swing>, rules: Rules)
    returns (targets: seq<Option<nat>>, damage: array<real>)
    requires m.tileSize > 0.0
    ensures |targets| == |intents| && fresh(damage) && damage.Length == |frozen|
    ensures forall k :: 0 <= k < |intents| ==> IsTarget(sqrt, m, intents[k], frozen, rules, targets[k])
    ensures forall i :: 0 <= i < damage.Length ==> damage[i] == TotalDamage(intents, targets, i)
  {
    hide IsTarget, TotalDamage;
    targets := [];
    damage := new real[|frozen|](i => 0.0);
    NoDamage(intents);
    var k := 0;
    while k < |intents|
      invariant 0 <= k == |targets| <= |intents|
      invariant forall j :: 0 <= j < k ==> IsTarget(sqrt, m, intents[j], frozen, rules, targets[j])
      invariant forall i :: 0 <= i < damage.Length ==> damage[i] == TotalDamage(intents[..k], targets, i)
    {
      var target := FirstMeleeTarget(sqrt, m, intents[k], frozen, rules);
      TargetExists(sqrt, m, intents[k], frozen, rules, target);
      DamageAdded(intents, targets, target, k);
      targets := targets + [target];
      if target.Some? {
        damage[target.value] := damage[target.value] + intents[k].damage;
      }
      k := k + 1;
    }
    assert intents[..k] == intents;
  }

  /**
   Every swing is aimed at the players as they were before any of them, so neither who lands first nor who dies of it
   matters; then each player takes the sum.
   */
  method ApplyMeleeIntents(sqrt: real -> real, m: MapData, players: array<Player>, intents: seq<Swing>, rules: Rules)
    returns (targets: seq<Option<nat>>)
    requires m.tileSize > 0.0
    modifies players
    ensures |targets| == |intents|
    ensures forall k :: 0 <= k < |intents| ==> IsTarget(sqrt, m, intents[k], old(players[..]), rules, targets[k])
    ensures forall i :: 0 <= i < players.Length ==> players[i] == Struck(old(players[i]), TotalDamage(intents, targets, i))
  {
    hide IsTarget, Struck, TotalDamage;
    var damage;
    targets, damage := Aim(sqrt, m, players[..], intents, rules);
    TakeDamage(players, damage);
  }

  method TakeDamage(players: array<Player>, damage: array<real>)
    requires damage.Length == players.Length
    modifies players
    ensures forall i :: 0 <= i < players.Length ==> players[i] == Struck(old(players[i]), old(damage[i]))
  {
    var index := 0;
    while index < players.Length
      invariant 0 <= index <= players.Length
      invariant forall i :: 0 <= i < damage.Length ==> damage[i] == old(damage[i])
      invariant forall i :: index <= i < players.Length ==> players[i] == old(players[i])
      invariant forall i :: 0 <= i < index ==> players[i] == Struck(old(players[i]), damage[i])
    {
      if damage[index] != 0.0 {
        var hp := players[index].hp - damage[index];
        if hp <= 0.0 {
          players[index] := players[index].(hp := 0.0, dead := true);
        } else {
          players[index] := players[index].(hp := hp);
        }
      }
      index := index + 1;
    }
  }

  lemma NoDamage(swings: seq<Swing>)
    ensures forall i :: TotalDamage(swings[..0], [], i) == 0.0
  {
  }

  lemma DamageAdded(swings: seq<Swing>, targets: seq<Option<nat>>, target: Option<nat>, k: nat)
    requires k < |swings| && |targets| == k
    ensures forall i: nat :: TotalDamage(swings[..k + 1], targets + [target], i)
                          == TotalDamage(swings[..k], targets, i) + if target == Some(i) then swings[k].damage else 0.0
  {
    hide TotalDamage;
    forall i: nat
      ensures TotalDamage(swings[..k + 1], targets + [target], i)
           == TotalDamage(swings[..k], targets, i) + if target == Some(i) then swings[k].damage else 0.0
    {
      OneMore(swings, targets, target, k, i);
    }
  }

  lemma TargetExists(sqrt: real -> real, m: MapData, s: Swing, players: seq<Player>, rules: Rules, target: Option<nat>)
    requires IsTarget(sqrt, m, s, players, rules, target)
    ensures target.Some? ==> target.value < |players|
  {
  }

  lemma OneMore(swings: seq<Swing>, targets: seq<Option<nat>>, target: Option<nat>, k: nat, i: nat)
    requires k < |swings| && |targets| == k
    ensures TotalDamage(swings[..k + 1], targets + [target], i)
         == TotalDamage(swings[..k], targets, i) + if target == Some(i) then swings[k].damage else 0.0
  {
    assert swings[..k + 1][..k] == swings[..k] && (targets + [target])[..k] == targets;
  }

  /** The strikes that a tick's swings are for the rest of the tick. */
  function Strikes(swings: seq<Swing>, targets: seq<Option<nat>>): seq<ProjectileLife.Strike>
    requires |targets| == |swings|
  {
    if swings == [] then []
    else
      var n := |swings| - 1;
      Strikes(swings[..n], targets[..n]) + if targets[n].Some? then [ProjectileLife.Strike(targets[n].value, swings[n].damage)] else []
  }

  /** Each player loses the sum of the swings that hit it, exactly as if they struck one after the other. */
  lemma {:induction false} StrikesAddUp(swings: seq<Swing>, targets: seq<Option<nat>>, i: nat)
    requires |targets| == |swings|
    ensures ProjectileLife.StrikeDamage(Strikes(swings, targets), i) == TotalDamage(swings, targets, i)
  {
    if swings != [] {
      var n := |swings| - 1;
      StrikesAddUp(swings[..n], targets[..n], i);
      var init := Strikes(swings[..n], targets[..n]);
      if targets[n].Some? {
        assert Strikes(swings, targets)[..|init|] == init;
      } else {
        assert Strikes(swings, targets) == init;
      }
    }
  }

  lemma StruckLosesAll(p: Player, damage: real)
    requires damage >= 0.0 && p.hp >= 0.0 && (p.hp == 0.0 <==> p.dead)
    ensures Struck(p, damage).hp == ProjectileLife.Left(p.hp, damage)
    ensures Struck(p, damage).hp == 0.0 <==> Struck(p, damage).dead
    ensures Struck(p, 0.0) == p
  {
  }
}
