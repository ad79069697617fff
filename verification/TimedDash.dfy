/** Dashes over several ticks: one swept segment a tick, until the time is up, something is met, or the owner dies. */
module TimedDash {
  import opened Wrappers
  import opened World
  import opened SkillDash
  import AttackTimers

  datatype Dash = Dash(direction: Vector2, stepDistance: real, remaining: nat, readyTick: nat)

  datatype Player = Player(id: nat, pos: Vector2, radius: real, dead: bool)

  /** Approving a reload dash at `tick`: its whole length in equal steps. */
  function Approved(direction: Vector2, distanceTiles: real, tileSize: real, duration: nat, tick: nat): Dash
    requires duration > 0
  {
    Dash(direction, distanceTiles * tileSize / duration as real, duration, tick + duration)
  }

  function AfterStep(d: Dash, collided: bool): Option<Dash> {
    if d.remaining <= 1 || collided then None else Some(d.(remaining := d.remaining - 1))
  }

  function TimerOf(d: Dash): AttackTimers.DashTimer {
    AttackTimers.DashTimer(d.remaining, d.readyTick)
  }

  /** The time of a dash is the timer that locks its owner's attacks and skills. */
  lemma TimersAgree(d: Dash, collided: bool, direction: Vector2, distanceTiles: real, tileSize: real, a: AttackTimers.Loadout,
                    g: AttackTimers.Gun, tick: nat)
    ensures AttackTimers.DashStepped(Some(TimerOf(d)), false, collided)
            == if AfterStep(d, collided).None? then None else Some(TimerOf(AfterStep(d, collided).value))
    ensures a.skill.ReloadDash? && a.skill.durationTicks > 0 ==>
              AttackTimers.AfterSkill(g, a, tick).dash
              == Some(TimerOf(Approved(direction, distanceTiles, tileSize, a.skill.durationTicks, tick)))
  {
  }

  // ---------- One tick of all players ----------

  predicate Dashes(p: Player, dashes: map<nat, Dash>) {
    !p.dead && p.id in dashes
  }

  /** The indices of the living dashers below an index, in player order. */
  function Dashers(ps: seq<Player>, dashes: map<nat, Dash>): seq<nat> {
    if ps == [] then []
    else
      var n := |ps| - 1;
      Dashers(ps[..n], dashes) + if Dashes(ps[n], dashes) then [n] else []
  }

  lemma {:induction false} DashersExact(ps: seq<Player>, dashes: map<nat, Dash>)
    ensures forall i: nat :: i in Dashers(ps, dashes) <==> i < |ps| && Dashes(ps[i], dashes)
    ensures forall j, k :: 0 <= j < k < |Dashers(ps, dashes)| ==> Dashers(ps, dashes)[j] < Dashers(ps, dashes)[k]
  {
    if ps != [] {
      var init := Dashers(ps[..|ps| - 1], dashes);
      DashersExact(ps[..|ps| - 1], dashes);
      assert forall j :: 0 <= j < |init| ==> init[j] in init;
    }
  }

  function CandidateOf(p: Player, d: Dash): Candidate {
    Candidate(p.id, p.pos, AddScaled(p.pos, d.direction, d.stepDistance), p.pos, d.direction, d.stepDistance,
              Max(p.radius, 0.0), false, true)
  }

  function Candidates(ps: seq<Player>, dashes: map<nat, Dash>): seq<Candidate> {
    DashersExact(ps, dashes);
    var dashers := Dashers(ps, dashes);
    seq(|dashers|, k requires 0 <= k < |dashers| =>
      assert dashers[k] in dashers; CandidateOf(ps[dashers[k]], dashes[ps[dashers[k]].id]))
  }

  predicate DistinctPlayers(ps: seq<Player>) {
    forall i, j :: 0 <= i < j < |ps| ==> ps[i].id != ps[j].id
  }

  class TimedDashes {
    var dashStates: map<nat, Dash>

    constructor ()
      ensures dashStates == map[]
    {
      dashStates := map[];
    }

    /**
     Every living dasher moves to where the tick's event loop leaves it and its dash goes on, or ends; the
     dashes of the dead are cleared, and nobody else moves.
     */
    method StepTimedDashes(players: array<Player>, finders: Finders)
      requires DistinctPlayers(players[..])
      modifies this, players
      ensures var dashers := Dashers(old(players[..]), old(dashStates));
        var moved := Resolved(Candidates(old(players[..]), old(dashStates)), finders, 0.0);
        && |moved| == |dashers|
        && (forall k :: 0 <= k < |dashers| ==>
              var i := dashers[k];
              && 0 <= i < players.Length && old(players[i].id) in old(dashStates)
              && players[i] == old(players[i]).(pos := moved[k].position)
              && StateOf(dashStates, players[i].id) == AfterStep(old(dashStates)[old(players[i].id)], moved[k].collided))
        && (forall i: nat :: i < players.Length && i !in dashers ==> players[i] == old(players[i]))
        && (forall i :: 0 <= i < players.Length && players[i].dead ==> players[i].id !in dashStates)
    {
      hide Resolved, Candidates, Dashers, AfterStep, StateOf, DeadAmong;
      ghost var was := players[..];
      ghost var dashes := dashStates;
      var intents := CollectIntents(players);
      DashersExact(was, dashes);
      LivingNotDead(was);
      LivingDashersKept(was, dashes, dashStates);
      var cs := Candidates(players[..], dashStates);
      CandidatesAlign(was, dashStates);
      var candidates := new Candidate[|intents|](k requires 0 <= k < |cs| => cs[k]);
      assert candidates[..] == cs;
      assert forall i :: i in intents ==> i < players.Length && players[i].id in dashStates;
      ApplySkillDashes(candidates, finders);
      StartedMoves(was, dashStates, finders);
      assert players[..] == was;
      ghost var cleared := dashStates;
      WriteBack(players, candidates, intents);
      SameIdentities(was, players[..], intents);
      Finish(players, candidates, intents);
      forall i | 0 <= i < players.Length && players[i].dead
        ensures players[i].id !in dashStates
      {
        assert was[i].dead && was[i].id == players[i].id;
        DeadIdNotDashing(was, dashes, i, intents);
        assert StateOf(cleared, was[i].id) == StateOf(dashStates, was[i].id);
        Absent(cleared, was[i].id);
        Absent(dashStates, was[i].id);
      }
    }

    /** The living dashers in player order; the dashes of the dead are cleared on the way. */
    method CollectIntents(players: array<Player>) returns (intents: seq<nat>)
      requires DistinctPlayers(players[..])
      modifies this
      ensures intents == Dashers(players[..], old(dashStates))
      ensures dashStates == map id | id in old(dashStates) && !DeadAmong(players[..], id) :: old(dashStates)[id]
    {
      ghost var was := players[..];
      ghost var dashes := dashStates;
      intents := [];
      var i := 0;
      while i < players.Length
        invariant 0 <= i <= players.Length
        invariant intents == Dashers(was[..i], dashes)
        invariant forall id :: id in dashStates ==> id in dashes && dashStates[id] == dashes[id]
        invariant forall id :: id in dashes ==> (id in dashStates <==> !DeadAmong(was[..i], id))
      {
        assert was[..i + 1][..i] == was[..i];
        assert players[i] == was[i];
        forall id
          ensures DeadAmong(was[..i + 1], id) <==> DeadAmong(was[..i], id) || (was[i].dead && was[i].id == id)
        {
          DeadAppended(was, i, id);
        }
        if players[i].dead {
          dashStates := dashStates - {players[i].id};
        } else {
          NotDeadYet(was, i);
          if players[i].id in dashStates {
            intents := intents + [i];
          }
        }
        i := i + 1;
      }
      assert was[..i] == was;
    }

    /** The dasher's places after the event loop. */
    method WriteBack(players: array<Player>, candidates: array<Candidate>, intents: seq<nat>)
      requires |intents| == candidates.Length
      requires forall j, k :: 0 <= j < k < |intents| ==> intents[j] < intents[k]
      requires forall i :: i in intents ==> i < players.Length
      modifies players
      ensures forall k :: 0 <= k < |intents| ==>
                intents[k] in intents && players[intents[k]] == old(players[intents[k]]).(pos := candidates[k].position)
      ensures forall i: nat :: i < players.Length && i !in intents ==> players[i] == old(players[i])
    {
      var k := 0;
      while k < |intents|
        invariant 0 <= k <= |intents|
        invariant forall j :: 0 <= j < |intents| ==>
                    intents[j] in intents
                    && players[intents[j]] == if j < k then old(players[intents[j]]).(pos := candidates[j].position)
                                              else old(players[intents[j]])
        invariant forall i: nat :: i < players.Length && i !in intents ==> players[i] == old(players[i])
      {
        assert intents[k] in intents;
        players[intents[k]] := players[intents[k]].(pos := candidates[k].position);
        k := k + 1;
      }
    }

    /** Each dash goes on or ends. */
    method Finish(players: array<Player>, candidates: array<Candidate>, intents: seq<nat>)
      requires DistinctPlayers(players[..]) && |intents| == candidates.Length
      requires forall j, k :: 0 <= j < k < |intents| ==> intents[j] < intents[k]
      requires forall i :: i in intents ==> i < players.Length && players[i].id in dashStates
      modifies this
      ensures forall k :: 0 <= k < |intents| ==>
                intents[k] in intents
                && var id := players[intents[k]].id;
                StateOf(dashStates, id) == AfterStep(old(dashStates)[id], candidates[k].collided)
      ensures forall id :: id !in IdsOf(players[..], intents) ==> StateOf(dashStates, id) == StateOf(old(dashStates), id)
    {
      hide AfterStep, DistinctPlayers;
      ghost var ids := IdsOf(players[..], intents);
      var k := 0;
      while k < |intents|
        invariant 0 <= k <= |intents|
        invariant forall j :: 0 <= j < k ==> StateOf(dashStates, ids[j]) == AfterStep(old(dashStates)[ids[j]], candidates[j].collided)
        invariant forall id :: id !in ids[..k] ==> StateOf(dashStates, id) == StateOf(old(dashStates), id)
      {
        var id := players[intents[k]].id;
        assert id == ids[k] && id !in ids[..k];
        assert StateOf(dashStates, id) == StateOf(old(dashStates), id);
        var dash := dashStates[id];
        StepCases(dash, candidates[k].collided);
        if dash.remaining <= 1 || candidates[k].collided {
          dashStates := dashStates - {id};
        } else {
          dashStates := dashStates[id := dash.(remaining := dash.remaining - 1)];
        }
        assert ids[..k + 1] == ids[..k] + [id];
        k := k + 1;
      }
    }
  }

  lemma StepCases(d: Dash, collided: bool)
    ensures AfterStep(d, collided) == if d.remaining <= 1 || collided then None else Some(d.(remaining := d.remaining - 1))
  {
  }

  /** The ids of the players at these indices, all different when the players are. */
  ghost function IdsOf(ps: seq<Player>, indices: seq<nat>): (ids: seq<nat>)
    requires forall i :: i in indices ==> i < |ps|
    requires DistinctPlayers(ps) && forall j, k :: 0 <= j < k < |indices| ==> indices[j] < indices[k]
    ensures |ids| == |indices| && (forall k :: 0 <= k < |ids| ==> indices[k] in indices && ids[k] == ps[indices[k]].id)
    ensures forall j, k :: 0 <= j < k < |ids| ==> ids[j] != ids[k]
  {
    seq<nat>(|indices|, k requires 0 <= k < |indices| => assert indices[k] in indices; ps[indices[k]].id)
  }

  lemma CandidatesAlign(ps: seq<Player>, dashes: map<nat, Dash>)
    ensures |Candidates(ps, dashes)| == |Dashers(ps, dashes)|
  {
  }

  lemma StartedMoves(ps: seq<Player>, dashes: map<nat, Dash>, finders: Finders)
    ensures |Resolved(Candidates(ps, dashes), finders, 0.0)| == |Candidates(ps, dashes)|
  {
    ResolvedSettles(Candidates(ps, dashes), finders, 0.0);
  }

  lemma SameIdentities(was: seq<Player>, now: seq<Player>, indices: seq<nat>)
    requires DistinctPlayers(was) && |now| == |was| && forall i :: i in indices ==> i < |was|
    requires forall j, k :: 0 <= j < k < |indices| ==> indices[j] < indices[k]
    requires forall i :: 0 <= i < |was| ==> now[i].id == was[i].id
    ensures DistinctPlayers(now) && IdsOf(now, indices) == IdsOf(was, indices)
  {
  }

  /** A dead player's id is among neither the cleared dashes nor the dashers. */
  lemma DeadIdNotDashing(ps: seq<Player>, dashes: map<nat, Dash>, i: nat, dashers: seq<nat>)
    requires DistinctPlayers(ps) && i < |ps| && ps[i].dead && dashers == Dashers(ps, dashes)
    requires forall k :: k in dashers ==> k < |ps| && Dashes(ps[k], dashes)
    requires forall j, k :: 0 <= j < k < |dashers| ==> dashers[j] < dashers[k]
    ensures DeadAmong(ps, ps[i].id) && ps[i].id !in IdsOf(ps, dashers)
  {
    var ids := IdsOf(ps, dashers);
    forall k | 0 <= k < |ids|
      ensures ids[k] != ps[i].id
    {
      assert dashers[k] in dashers;
    }
  }

  lemma Absent(dashes: map<nat, Dash>, id: nat)
    ensures StateOf(dashes, id).None? <==> id !in dashes
  {
  }

  function StateOf(dashes: map<nat, Dash>, id: nat): Option<Dash> {
    if id in dashes then Some(dashes[id]) else None
  }

  predicate DeadAmong(ps: seq<Player>, id: nat) {
    exists i :: 0 <= i < |ps| && ps[i].dead && ps[i].id == id
  }

  lemma DeadAppended(ps: seq<Player>, i: nat, id: nat)
    requires i < |ps|
    ensures DeadAmong(ps[..i + 1], id) <==> DeadAmong(ps[..i], id) || (ps[i].dead && ps[i].id == id)
  {
    assert ps[..i + 1] == ps[..i] + [ps[i]];
    if ps[i].dead && ps[i].id == id { assert ps[..i + 1][i].id == id; }
    if DeadAmong(ps[..i], id) {
      var j :| 0 <= j < i && ps[..i][j].dead && ps[..i][j].id == id;
      assert ps[..i + 1][j].dead;
    }
  }

  lemma NotDeadYet(ps: seq<Player>, i: nat)
    requires DistinctPlayers(ps) && i < |ps|
    ensures !DeadAmong(ps[..i], ps[i].id)
  {
  }

  lemma LivingNotDead(ps: seq<Player>)
    requires DistinctPlayers(ps)
    ensures forall i :: 0 <= i < |ps| && !ps[i].dead ==> !DeadAmong(ps, ps[i].id)
  {
  }

  /** Clearing the dashes of the dead changes nothing for the living dashers. */
  lemma {:induction false} LivingDashersKept(ps: seq<Player>, dashes: map<nat, Dash>, kept: map<nat, Dash>)
    requires forall id :: id in kept ==> id in dashes && kept[id] == dashes[id]
    requires forall i :: 0 <= i < |ps| && Dashes(ps[i], dashes) ==> ps[i].id in kept
    ensures Dashers(ps, kept) == Dashers(ps, dashes) && Candidates(ps, kept) == Candidates(ps, dashes)
  {
    SameDashers(ps, dashes, kept);
    DashersExact(ps, dashes);
    var dashers := Dashers(ps, dashes);
    forall k | 0 <= k < |dashers|
      ensures Candidates(ps, kept)[k] == Candidates(ps, dashes)[k]
    {
      assert dashers[k] in dashers;
    }
  }

  lemma {:induction false} SameDashers(ps: seq<Player>, dashes: map<nat, Dash>, kept: map<nat, Dash>)
    requires forall id :: id in kept ==> id in dashes
    requires forall i :: 0 <= i < |ps| && Dashes(ps[i], dashes) ==> ps[i].id in kept
    ensures Dashers(ps, kept) == Dashers(ps, dashes)
  {
    if ps != [] {
      SameDashers(ps[..|ps| - 1], dashes, kept);
    }
  }

  // ---------- One dash over its ticks ----------

  /** What a tick brings a dasher: death before its step, or how far it got and whether it met something. */
  datatype Outcome = Outcome(dead: bool, collided: bool, travel: real)

  /** The bounds that the event loop guarantees for every step. */
  predicate WithinStep(o: Outcome, d: Dash) {
    0.0 <= o.travel <= d.stepDistance && (!o.collided ==> o.travel == d.stepDistance)
  }

  /** The dash after the outcomes of its activation tick and the ticks that follow. */
  function After(d: Dash, outcomes: seq<Outcome>): Option<Dash>
    decreases |outcomes|
  {
    if outcomes == [] then Some(d)
    else
      var before := After(d, outcomes[..|outcomes| - 1]);
      var o := outcomes[|outcomes| - 1];
      if before.None? || o.dead then None else AfterStep(before.value, o.collided)
  }

  function Distance(d: Dash, outcomes: seq<Outcome>): real
    decreases |outcomes|
  {
    if outcomes == [] then 0.0
    else
      var init := outcomes[..|outcomes| - 1];
      var o := outcomes[|outcomes| - 1];
      Distance(d, init) + if After(d, init).None? || o.dead then 0.0 else o.travel
  }

  predicate Undisturbed(outcomes: seq<Outcome>) {
    forall o :: o in outcomes ==> !o.dead && !o.collided
  }

  /** A running dash always knows how long it has left, and an undisturbed one runs its full time. */
  lemma {:induction false} DashTimes(direction: Vector2, distanceTiles: real, tileSize: real, duration: nat, tick: nat,
                                     outcomes: seq<Outcome>)
    requires duration > 0
    ensures var d := Approved(direction, distanceTiles, tileSize, duration, tick);
      var after := After(d, outcomes);
      && (after.Some? ==>
            && |outcomes| < duration && after.value == d.(remaining := after.value.remaining)
            && after.value.remaining == after.value.readyTick - (tick + |outcomes| - 1) - 1)
      && (Undisturbed(outcomes) ==> (after.Some? <==> tick + |outcomes| < d.readyTick))
    decreases |outcomes|
  {
    if outcomes != [] {
      var init := outcomes[..|outcomes| - 1];
      assert Undisturbed(outcomes) ==> Undisturbed(init);
      DashTimes(direction, distanceTiles, tileSize, duration, tick, init);
    }
  }

  /** The way gone so far is at most a step for every tick spent, and exactly that without a disturbance. */
  lemma {:induction false} DashGoes(direction: Vector2, distanceTiles: real, tileSize: real, duration: nat, tick: nat,
                                    outcomes: seq<Outcome>)
    requires duration > 0
    requires var d := Approved(direction, distanceTiles, tileSize, duration, tick);
      d.stepDistance >= 0.0 && forall o :: o in outcomes ==> WithinStep(o, d)
    ensures var d := Approved(direction, distanceTiles, tileSize, duration, tick);
      var spent := if |outcomes| < duration then |outcomes| else duration;
      && 0.0 <= Distance(d, outcomes) <= Gone(spent, d.stepDistance)
      && (Undisturbed(outcomes) ==> Distance(d, outcomes) == Gone(spent, d.stepDistance))
    decreases |outcomes|
  {
    hide Approved, Gone;
    if outcomes != [] {
      var init := outcomes[..|outcomes| - 1];
      var d := Approved(direction, distanceTiles, tileSize, duration, tick);
      assert Undisturbed(outcomes) ==> Undisturbed(init);
      DashGoes(direction, distanceTiles, tileSize, duration, tick, init);
      DashTimes(direction, distanceTiles, tileSize, duration, tick, init);
      ReadyAfter(direction, distanceTiles, tileSize, duration, tick);
      var n := |init|;
      assert WithinStep(outcomes[n], d);
      OneMore(n, d.stepDistance);
    } else {
      OneMore(0, Approved(direction, distanceTiles, tileSize, duration, tick).stepDistance);
    }
  }

  lemma ReadyAfter(direction: Vector2, distanceTiles: real, tileSize: real, duration: nat, tick: nat)
    requires duration > 0
    ensures Approved(direction, distanceTiles, tileSize, duration, tick).readyTick == tick + duration
  {
  }

  /** The way that `n` undisturbed steps go. */
  function Gone(n: nat, step: real): real {
    n as real * step
  }

  lemma OneMore(n: nat, step: real)
    ensures Gone(n + 1, step) == Gone(n, step) + step && Gone(0, step) == 0.0
  {
  }

  /** In all, a dash covers at most its configured distance, and all of it if it runs its full time undisturbed. */
  lemma DashDistance(direction: Vector2, distanceTiles: real, tileSize: real, duration: nat, tick: nat, outcomes: seq<Outcome>)
    requires duration > 0 && distanceTiles > 0.0 && tileSize > 0.0
    requires var d := Approved(direction, distanceTiles, tileSize, duration, tick); forall o :: o in outcomes ==> WithinStep(o, d)
    ensures var d := Approved(direction, distanceTiles, tileSize, duration, tick);
      && 0.0 <= Distance(d, outcomes) <= distanceTiles * tileSize
      && (Undisturbed(outcomes) && |outcomes| >= duration ==> Distance(d, outcomes) == distanceTiles * tileSize)
  {
    hide Distance, Gone;
    var d := Approved(direction, distanceTiles, tileSize, duration, tick);
    StepShare(distanceTiles, tileSize, duration);
    DashGoes(direction, distanceTiles, tileSize, duration, tick, outcomes);
    var spent := if |outcomes| < duration then |outcomes| else duration;
    Fewer(spent, duration, d.stepDistance);
  }

  lemma StepShare(distanceTiles: real, tileSize: real, duration: nat)
    requires duration > 0 && distanceTiles > 0.0 && tileSize > 0.0
    ensures var step := distanceTiles * tileSize / duration as real;
      step > 0.0 && Gone(duration, step) == distanceTiles * tileSize
  {
    MulPositive(distanceTiles, tileSize);
    Divided(distanceTiles * tileSize, duration as real);
  }

  lemma Divided(whole: real, parts: real)
    requires whole > 0.0 && parts > 0.0
    ensures whole / parts > 0.0 && parts * (whole / parts) == whole
  {
    var step := whole / parts;
    assert step * parts == whole;
    if step <= 0.0 {
      NotPositive(step, parts);
    }
  }

  lemma NotPositive(a: real, b: real)
    requires a <= 0.0 && b > 0.0
    ensures a * b <= 0.0
  {
  }

  lemma Fewer(n: nat, m: nat, step: real)
    requires n <= m && step >= 0.0
    ensures Gone(n, step) <= Gone(m, step)
  {
    assert (m - n) as real * step >= 0.0;
  }

  /** What a tick brings a living dasher is an outcome within its step, whatever contacts there are. */
  lemma StepIsWithin(ps: seq<Player>, dashes: map<nat, Dash>, finders: Finders, k: nat)
    requires forall id :: id in dashes ==> dashes[id].stepDistance > 0.0
    requires k < |Dashers(ps, dashes)|
    ensures var i := Dashers(ps, dashes)[k];
      var moved := Resolved(Candidates(ps, dashes), finders, 0.0);
      && i < |ps| && Dashes(ps[i], dashes) && |moved| == |Dashers(ps, dashes)|
      && moved[k].player == ps[i].id && moved[k].origin == ps[i].pos && moved[k].direction == dashes[ps[i].id].direction
      && moved[k].radius == (if ps[i].radius > 0.0 then ps[i].radius else 0.0)
      && exists o :: WithinStep(o, dashes[ps[i].id]) && !o.dead && o.collided == moved[k].collided
                     && moved[k].position == AddScaled(ps[i].pos, dashes[ps[i].id].direction, o.travel)
  {
    hide Resolved, AddScaled, Round, IsAlong;
    DashersExact(ps, dashes);
    var i := Dashers(ps, dashes)[k];
    assert i in Dashers(ps, dashes);
    var cs := Candidates(ps, dashes);
    forall j | 0 <= j < |cs|
      ensures Starting(cs[j])
    {
      assert Dashers(ps, dashes)[j] in Dashers(ps, dashes);
    }
    DashesResolve(cs, finders);
    var moved := Resolved(cs, finders, 0.0)[k];
    assert SameDash(cs[k], moved);
    var travel :| 0.0 <= travel <= moved.distance && IsAlong(moved, travel) && (!moved.collided ==> travel == moved.distance);
    AddScaledIsAlong(moved, travel);
    var o := Outcome(false, moved.collided, travel);
    assert WithinStep(o, dashes[ps[i].id]);
  }

  // ---------- A player's positions over a dash ----------

  /** All players as a tick's dash step finds them; from tick to tick the others may change in any way. */
  datatype Frame = Frame(players: seq<Player>, dashes: map<nat, Dash>, finders: Finders)

  predicate Dashing(f: Frame, i: nat) {
    i < |f.players| && Dashes(f.players[i], f.dashes) && forall id :: id in f.dashes ==> f.dashes[id].stepDistance > 0.0
  }

  function DashOf(f: Frame, i: nat): Dash
    requires Dashing(f, i)
  {
    f.dashes[f.players[i].id]
  }

  /** The player's place among the dashers. */
  ghost function Place(f: Frame, i: nat): (k: nat)
    requires Dashing(f, i)
    ensures k < |Dashers(f.players, f.dashes)| && Dashers(f.players, f.dashes)[k] == i
  {
    DashersExact(f.players, f.dashes);
    var k: nat :| k < |Dashers(f.players, f.dashes)| && Dashers(f.players, f.dashes)[k] == i;
    k
  }

  /** Where the tick's event loop leaves player `i`, as the in-place step writes it back. */
  ghost function Landed(f: Frame, i: nat): Candidate
    requires Dashing(f, i)
  {
    StartedMoves(f.players, f.dashes, f.finders);
    Resolved(Candidates(f.players, f.dashes), f.finders, 0.0)[Place(f, i)]
  }

  /**
   Consecutive ticks of one dash of player `i`: it lives, and finds itself where the tick before left it, with
   the dash that the tick before left it.
   */
  ghost predicate OneDash(frames: seq<Frame>, i: nat) {
    && (forall n :: 0 <= n < |frames| ==> Dashing(frames[n], i))
    && (forall n {:trigger Landed(frames[n], i)} :: 0 <= n < |frames| - 1 ==>
          && frames[n + 1].players[i].pos == Landed(frames[n], i).position
          && AfterStep(DashOf(frames[n], i), Landed(frames[n], i).collided) == Some(DashOf(frames[n + 1], i)))
  }

  lemma LandedWithin(f: Frame, i: nat) returns (o: Outcome)
    requires Dashing(f, i)
    ensures WithinStep(o, DashOf(f, i)) && !o.dead && o.collided == Landed(f, i).collided
    ensures Landed(f, i).position == AddScaled(f.players[i].pos, DashOf(f, i).direction, o.travel)
  {
    hide Resolved, AddScaled, Candidates, Dashers, WithinStep;
    var k := Place(f, i);
    StepIsWithin(f.players, f.dashes, f.finders, k);
    var moved := Resolved(Candidates(f.players, f.dashes), f.finders, 0.0);
    o :| WithinStep(o, DashOf(f, i)) && !o.dead && o.collided == moved[k].collided
         && moved[k].position == AddScaled(f.players[i].pos, DashOf(f, i).direction, o.travel);
  }

  /** The outcomes of the ticks of one dash: within its step, adding up to where the last tick leaves the player. */
  ghost predicate Account(frames: seq<Frame>, i: nat, outcomes: seq<Outcome>)
    requires |frames| > 0 && OneDash(frames, i)
  {
    var d := DashOf(frames[0], i);
    var last := |frames| - 1;
    && |outcomes| == |frames|
    && (forall n :: 0 <= n < |frames| ==> WithinStep(outcomes[n], d) && !outcomes[n].dead && (n < last ==> !outcomes[n].collided))
    && outcomes[last].collided == Landed(frames[last], i).collided
    && After(d, outcomes[..last]) == Some(DashOf(frames[last], i))
    && SameWay(d, DashOf(frames[last], i))
    && Landed(frames[last], i).position == AddScaled(frames[0].players[i].pos, d.direction, Distance(d, outcomes))
  }

  predicate SameWay(d: Dash, e: Dash) {
    e.stepDistance == d.stepDistance && e.direction == d.direction && e.readyTick == d.readyTick
  }

  lemma {:induction false} FrameOutcomes(frames: seq<Frame>, i: nat) returns (outcomes: seq<Outcome>)
    requires |frames| > 0 && OneDash(frames, i)
    ensures Account(frames, i, outcomes)
    decreases |frames|
  {
    hide Landed, WithinStep, AddScaled;
    var last := |frames| - 1;
    if last == 0 {
      var o := LandedWithin(frames[0], i);
      outcomes := [o];
      assert outcomes[..0] == [];
      AfterNext(DashOf(frames[0], i), outcomes);
    } else {
      var init := FrameOutcomes(frames[..last], i);
      outcomes := NextOutcome(frames, i, init);
    }
  }

  lemma NextOutcome(frames: seq<Frame>, i: nat, init: seq<Outcome>) returns (outcomes: seq<Outcome>)
    requires |frames| > 1 && OneDash(frames, i) && OneDash(frames[..|frames| - 1], i)
    requires Account(frames[..|frames| - 1], i, init)
    ensures Account(frames, i, outcomes)
  {
    hide Landed, WithinStep, AddScaled, After, Distance;
    var last := |frames| - 1;
    var d := DashOf(frames[0], i);
    var before := frames[last - 1];
    assert frames[..last][last - 1] == before && Dashing(before, i) && Dashing(frames[last], i);
    assert frames[last].players[i].pos == Landed(before, i).position
           && AfterStep(DashOf(before, i), Landed(before, i).collided) == Some(DashOf(frames[last], i));
    var o := LandedWithin(frames[last], i);
    outcomes := init + [o];
    assert outcomes[..last] == init;
    AfterNext(d, init);
    AfterNext(d, outcomes);
    SameStep(o, d, DashOf(frames[last], i));
    AddTwice(frames[0].players[i].pos, d.direction, Distance(d, init), o.travel);
  }

  lemma AfterNext(d: Dash, outcomes: seq<Outcome>)
    requires outcomes != []
    ensures var init := outcomes[..|outcomes| - 1];
      var o := outcomes[|outcomes| - 1];
      && After(d, outcomes) == (if After(d, init).None? || o.dead then None else AfterStep(After(d, init).value, o.collided))
      && Distance(d, outcomes) == Distance(d, init) + if After(d, init).None? || o.dead then 0.0 else o.travel
  {
  }

  lemma SameStep(o: Outcome, d: Dash, e: Dash)
    requires e.stepDistance == d.stepDistance
    ensures WithinStep(o, d) <==> WithinStep(o, e)
  {
  }

  lemma AddTwice(p: Vector2, direction: Vector2, a: real, b: real)
    ensures AddScaled(AddScaled(p, direction, a), direction, b) == AddScaled(p, direction, a + b)
  {
    assert direction.x * (a + b) == direction.x * a + direction.x * b;
    assert direction.y * (a + b) == direction.y * a + direction.y * b;
  }

  /**
   Over all the ticks of one dash the player goes straight along the direction of its approval, never back and
   never further than the configured distance from where it started; it goes exactly that distance if the last
   tick is the last of the duration and meets nothing, and until then it is always on time.
   */
  lemma DashPositions(frames: seq<Frame>, i: nat, direction: Vector2, distanceTiles: real, tileSize: real, duration: nat, tick: nat)
    returns (travel: real)
    requires duration > 0 && distanceTiles > 0.0 && tileSize > 0.0
    requires |frames| > 0 && OneDash(frames, i) && DashOf(frames[0], i) == Approved(direction, distanceTiles, tileSize, duration, tick)
    ensures var last := frames[|frames| - 1];
      && |frames| <= duration && DashOf(last, i).remaining == DashOf(last, i).readyTick - (tick + |frames| - 1)
      && Landed(last, i).position == AddScaled(frames[0].players[i].pos, direction, travel)
      && 0.0 <= travel <= distanceTiles * tileSize
      && (!Landed(last, i).collided ==>
            travel == Gone(|frames|, distanceTiles * tileSize / duration as real)
            && (|frames| == duration ==> travel == distanceTiles * tileSize))
  {
    hide Landed, WithinStep, AddScaled, Distance, After, Gone;
    var outcomes := FrameOutcomes(frames, i);
    var d := DashOf(frames[0], i);
    assert forall o :: o in outcomes ==> WithinStep(o, d);
    var last := |frames| - 1;
    travel := Distance(d, outcomes);
    DashTimes(direction, distanceTiles, tileSize, duration, tick, outcomes[..last]);
    DashDistance(direction, distanceTiles, tileSize, duration, tick, outcomes);
    StepShare(distanceTiles, tileSize, duration);
    if !Landed(frames[last], i).collided {
      assert Undisturbed(outcomes);
      DashGoes(direction, distanceTiles, tileSize, duration, tick, outcomes);
    }
  }
}
