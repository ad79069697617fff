/**
 The simulation state's attack charges, bursts, skill cooldowns and dash timers, updated in place for all
 players once a tick. Every player's gun goes through exactly its own tick, whatever the others do.
 */
module Combat {
  import opened Wrappers
  import opened AttackTimers

  datatype Emission = Emission(owner: nat, ordinal: nat)

  predicate Ascending(ids: seq<nat>) {
    forall i, j :: 0 <= i < j < |ids| ==> ids[i] < ids[j]
  }

  /** The scheduled emissions of these owners in order. */
  function DueEmissions(ids: seq<nat>, bursts: map<nat, Burst>, tick: nat, dead: set<nat>): seq<Emission> {
    if ids == [] then []
    else
      var init := ids[..|ids| - 1];
      var id := ids[|ids| - 1];
      DueEmissions(init, bursts, tick, dead)
      + if id in bursts && id !in dead && Due(bursts[id], tick) then [Emission(id, bursts[id].nextOrdinal)] else []
  }

  /** A tick's scheduled emissions are exactly the due shots of living owners, one each, in owner order. */
  lemma {:induction false} DueEmissionsExact(ids: seq<nat>, bursts: map<nat, Burst>, tick: nat, dead: set<nat>)
    requires Ascending(ids)
    ensures var es := DueEmissions(ids, bursts, tick, dead);
      && (forall e :: e in es <==>
            e.owner in ids && e.owner in bursts && e.owner !in dead && Due(bursts[e.owner], tick)
            && e.ordinal == bursts[e.owner].nextOrdinal)
      && (forall i, j :: 0 <= i < j < |es| ==> es[i].owner < es[j].owner)
  {
    hide Due;
    if ids != [] {
      var init := ids[..|ids| - 1];
      DueEmissionsExact(init, bursts, tick, dead);
      assert forall id :: id in ids <==> id in init || id == ids[|ids| - 1];
      assert forall e :: e in DueEmissions(init, bursts, tick, dead) ==> e.owner < ids[|ids| - 1];
    }
  }

  /** The bursts once these owners have had their turn. */
  function CollectedFrom(ids: seq<nat>, bursts: map<nat, Burst>, tick: nat, dead: set<nat>): map<nat, Burst> {
    if ids == [] then bursts
    else
      var init := CollectedFrom(ids[..|ids| - 1], bursts, tick, dead);
      var id := ids[|ids| - 1];
      if id !in init then init
      else if id in dead then init - {id}
      else init[id := Collected(init[id], tick)]
  }

  lemma {:induction false} CollectedEach(ids: seq<nat>, bursts: map<nat, Burst>, tick: nat, dead: set<nat>)
    requires Ascending(ids)
    ensures var after := CollectedFrom(ids, bursts, tick, dead);
      && (forall id :: id in after <==> id in bursts && !(id in ids && id in dead))
      && (forall id :: id in after ==> after[id] == if id in ids then Collected(bursts[id], tick) else bursts[id])
  {
    hide Collected;
    if ids != [] {
      var init := ids[..|ids| - 1];
      var last := ids[|ids| - 1];
      CollectedEach(init, bursts, tick, dead);
      assert last !in init;
      assert forall id :: id in ids <==> id in init || id == last;
    }
  }

  lemma NothingCollected(bursts: map<nat, Burst>, tick: nat, dead: set<nat>)
    ensures CollectedFrom([], bursts, tick, dead) == bursts && DueEmissions([], bursts, tick, dead) == []
  {
  }

  lemma CollectedNext(ids: seq<nat>, k: nat, bursts: map<nat, Burst>, tick: nat, dead: set<nat>)
    requires Ascending(ids) && k < |ids| && ids[k] in bursts
    ensures var cur := CollectedFrom(ids[..k], bursts, tick, dead);
      && ids[k] in cur && cur[ids[k]] == bursts[ids[k]]
      && CollectedFrom(ids[..k + 1], bursts, tick, dead)
         == (if ids[k] in dead then cur - {ids[k]} else cur[ids[k] := Collected(bursts[ids[k]], tick)])
      && DueEmissions(ids[..k + 1], bursts, tick, dead)
         == DueEmissions(ids[..k], bursts, tick, dead)
            + if ids[k] !in dead && Due(bursts[ids[k]], tick) then [Emission(ids[k], bursts[ids[k]].nextOrdinal)] else []
  {
    hide Collected, Due;
    assert ids[..k + 1][..k] == ids[..k];
    CollectedEach(ids[..k], bursts, tick, dead);
    assert ids[k] !in ids[..k];
  }

  /** These are the tick's due emissions of every living burst owner, in owner order. */
  ghost predicate InOwnerOrder(emissions: seq<Emission>, bursts: map<nat, Burst>, tick: nat, dead: set<nat>) {
    exists ids :: Ascending(ids) && (forall id :: id in ids <==> id in bursts)
                  && emissions == DueEmissions(ids, bursts, tick, dead)
  }

  class CombatState {
    /** The configurations of the players. */
    const loadouts: map<nat, Loadout>
    var attackStates: map<nat, Charges>
    var burstStates: map<nat, Burst>
    var dashStates: map<nat, DashTimer>
    var skillReadyTicks: map<nat, nat>

    ghost predicate Valid()
      reads this
    {
      && attackStates.Keys == loadouts.Keys && skillReadyTicks.Keys == loadouts.Keys
      && burstStates.Keys <= loadouts.Keys && dashStates.Keys <= loadouts.Keys
      && forall id :: id in loadouts ==> ValidLoadout(loadouts[id])
    }

    function GunOf(id: nat): Gun
      requires id in attackStates && id in skillReadyTicks
      reads this
    {
      Gun(attackStates[id], Lookup(burstStates, id), Lookup(dashStates, id), skillReadyTicks[id])
    }

    constructor (loadouts: map<nat, Loadout>)
      requires forall id :: id in loadouts ==> ValidLoadout(loadouts[id])
      ensures Valid() && this.loadouts == loadouts
      ensures forall id :: id in loadouts ==> GunOf(id) == Fresh(loadouts[id])
    {
      this.loadouts := loadouts;
      attackStates := map id | id in loadouts :: Charges(loadouts[id].maxCharges, 0);
      burstStates := map[];
      dashStates := map[];
      skillReadyTicks := map id | id in loadouts :: 0;
    }

    method RechargeAttackCharges()
      requires Valid()
      modifies `attackStates
      ensures Valid()
      ensures forall id :: id in loadouts ==> attackStates[id] == Recharge(old(attackStates)[id], loadouts[id])
    {
      hide ValidSchedule, Recharge;
      var todo := attackStates.Keys;
      while todo != {}
        invariant todo <= attackStates.Keys == loadouts.Keys
        invariant forall id :: id in loadouts ==>
                    attackStates[id] == if id in todo then old(attackStates)[id] else Recharge(old(attackStates)[id], loadouts[id])
        decreases |todo|
      {
        var id :| id in todo;
        var state := RechargedState(attackStates[id], loadouts[id]);
        attackStates := attackStates[id := state];
        todo := todo - {id};
      }
    }

    /** One player's entry of the loop. */
    static method RechargedState(was: Charges, loadout: Loadout) returns (state: Charges)
      requires loadout.rechargeTicks > 0
      ensures state == Recharge(was, loadout)
    {
      state := was;
      if state.charges >= loadout.maxCharges {
        return Charges(loadout.maxCharges, 0);
      }
      state := state.(recharged := state.recharged + 1);
      var restored := state.recharged / loadout.rechargeTicks;
      if restored > 0 {
        state := Charges(state.charges + restored, state.recharged % loadout.rechargeTicks);
      }
      if state.charges >= loadout.maxCharges {
        state := Charges(loadout.maxCharges, 0);
      }
    }

    method OrderedBurstOwnerIDs() returns (ids: seq<nat>)
      ensures Ascending(ids) && (forall id :: id in ids <==> id in burstStates)
    {
      ids := [];
      var todo := burstStates.Keys;
      while todo != {}
        invariant todo <= burstStates.Keys && Ascending(ids)
        invariant forall id :: id in ids <==> id in burstStates && id !in todo
        invariant forall i, id :: 0 <= i < |ids| && id in todo ==> ids[i] < id
        decreases |todo|
      {
        var least :| least in todo;
        var rest := todo - {least};
        while rest != {}
          invariant rest <= todo && least in todo
          invariant forall id :: id in todo && id !in rest ==> least <= id
          decreases |rest|
        {
          var id :| id in rest;
          if id < least { least := id; }
          rest := rest - {id};
        }
        ids := ids + [least];
        todo := todo - {least};
      }
    }

    method CollectDueBurstEmissions(tick: nat, dead: set<nat>) returns (emissions: seq<Emission>)
      modifies `burstStates
      ensures burstStates == map id | id in old(burstStates) && id !in dead :: Collected(old(burstStates)[id], tick)
      ensures InOwnerOrder(emissions, old(burstStates), tick, dead)
    {
      hide Due, DueEmissions, CollectedFrom;
      var ids := OrderedBurstOwnerIDs();
      emissions := [];
      var k := 0;
      assert ids[..0] == [];
      NothingCollected(burstStates, tick, dead);
      while k < |ids|
        invariant 0 <= k <= |ids|
        invariant emissions == DueEmissions(ids[..k], old(burstStates), tick, dead)
        invariant burstStates == CollectedFrom(ids[..k], old(burstStates), tick, dead)
      {
        CollectedNext(ids, k, old(burstStates), tick, dead);
        if ids[k] in dead {
          burstStates := burstStates - {ids[k]};
        } else {
          var burst := burstStates[ids[k]];
          if Due(burst, tick) {
            emissions := emissions + [Emission(ids[k], burst.nextOrdinal)];
            burst := burst.(nextOrdinal := burst.nextOrdinal + 1);
          }
          burstStates := burstStates[ids[k] := burst];
        }
        k := k + 1;
      }
      assert ids[..k] == ids;
      CollectedEach(ids, old(burstStates), tick, dead);
    }

    method ConsumeAttackCharge(id: nat) returns (ok: bool)
      requires Valid()
      modifies `attackStates
      ensures Valid() && ok == (id in old(attackStates) && old(attackStates)[id].charges > 0)
      ensures attackStates == if ok then old(attackStates)[id := old(attackStates)[id].(charges := old(attackStates)[id].charges - 1)]
                              else old(attackStates)
    {
      if id !in attackStates || attackStates[id].charges == 0 {
        return false;
      }
      attackStates := attackStates[id := attackStates[id].(charges := attackStates[id].charges - 1)];
      return true;
    }

    /** Approves the player's skill if its cooldown is over. */
    method TryApproveSkill(id: nat, tick: nat) returns (ok: bool)
      requires Valid() && id in loadouts
      modifies `skillReadyTicks
      ensures Valid() && ok == (tick >= old(skillReadyTicks)[id])
      ensures GunOf(id) == if ok then old(GunOf(id)).(skillReadyTick := tick + loadouts[id].cooldownTicks) else old(GunOf(id))
      ensures OthersKept(id)
    {
      if tick < skillReadyTicks[id] || loadouts[id].cooldownTicks == 0 {
        return false;
      }
      skillReadyTicks := skillReadyTicks[id := tick + loadouts[id].cooldownTicks];
      return true;
    }

    /** What an approved skill does at once, and the shot that it fires. */
    method DispatchApprovedSkill(id: nat, tick: nat) returns (activation: seq<Emission>)
      requires Valid() && id in loadouts && skillReadyTicks[id] == tick + loadouts[id].cooldownTicks
      modifies `attackStates, `burstStates, `dashStates
      ensures Valid() && GunOf(id) == AfterSkill(old(GunOf(id)), loadouts[id], tick)
      ensures OthersKept(id)
      ensures activation == if loadouts[id].skill.ReloadDash? then [] else [Emission(id, 0)]
    {
      match loadouts[id].skill
      case ReloadDash(duration) =>
        attackStates := attackStates[id := Charges(loadouts[id].maxCharges, 0)];
        dashStates := dashStates[id := DashTimer(duration, tick + duration)];
        activation := [];
      case BurstProjectile(schedule) =>
        burstStates := burstStates[id := Burst(schedule, tick, 1)];
        activation := [Emission(id, 0)];
      case TeleportProjectile =>
        activation := [Emission(id, 0)];
    }

    /** Every other player's gun is what it was. */
    twostate predicate OthersKept(id: nat)
      requires old(Valid()) && Valid()
      reads this
    {
      forall other :: other in loadouts && other != id ==> GunOf(other) == old(GunOf(other))
    }

    /** Before the movement: the reload dash of one player's prepared input. */
    method PrepareTimedDash(id: nat, tick: nat, input: Input)
      requires Valid() && id in loadouts
      modifies this
      ensures Valid() && GunOf(id) == Prepared(old(GunOf(id)), loadouts[id], tick, input)
      ensures OthersKept(id)
    {
      hide AfterSkill, ValidSchedule;
      SkillOnce(GunOf(id), loadouts[id], tick);
      if id !in dashStates && input.skill && loadouts[id].skill.ReloadDash? {
        var ok := TryApproveSkill(id, tick);
        if ok {
          var activation := DispatchApprovedSkill(id, tick);
        }
      }
    }

    /** A burst in progress refuses another one before a charge is spent. */
    method ApproveAttack(id: nat, tick: nat) returns (activation: seq<Emission>)
      requires Valid() && id in loadouts
      modifies `attackStates, `burstStates
      ensures Valid() && OthersKept(id)
      ensures GunOf(id) == if Granted(old(GunOf(id)), loadouts[id]) then AfterAttack(old(GunOf(id)), loadouts[id], tick)
                           else old(GunOf(id))
      ensures activation == if Granted(old(GunOf(id)), loadouts[id]) && loadouts[id].burst.Some? then [Emission(id, 0)] else []
    {
      hide ValidLoadout;
      activation := [];
      if loadouts[id].burst.Some? && id in burstStates {
        return;
      }
      var ok := ConsumeAttackCharge(id);
      if ok && loadouts[id].burst.Some? {
        burstStates := burstStates[id := Burst(loadouts[id].burst.value, tick, 1)];
        activation := [Emission(id, 0)];
      }
    }

    /**
     After the movement: one player's prepared input changes that player's gun as its tick says, and nobody
     else's; a player that is dashing gets nothing and pays nothing.
     */
    method ApplyPreparedInput(id: nat, tick: nat, input: Input) returns (activation: seq<Emission>)
      requires Valid() && id in loadouts
      modifies this
      ensures Valid() && GunOf(id) == Applied(old(GunOf(id)), loadouts[id], tick, input)
      ensures OthersKept(id)
      ensures activation == ActivationOf(old(GunOf(id)), loadouts[id], id, tick, input)
    {
      hide AfterSkill, ValidSchedule;
      SkillOnce(GunOf(id), loadouts[id], tick);
      activation := [];
      if id in dashStates {
        return;
      }
      if input.skill {
        var ok := TryApproveSkill(id, tick);
        if ok {
          activation := DispatchApprovedSkill(id, tick);
          return;
        }
      }
      if input.attack {
        activation := ApproveAttack(id, tick);
      }
    }

    /** Each dash has one segment less to go, and none if it met something or its owner died. */
    method StepDashTimers(dead: set<nat>, collided: set<nat>)
      requires Valid()
      modifies `dashStates
      ensures Valid()
      ensures forall id :: id in loadouts ==>
                Lookup(dashStates, id) == DashStepped(Lookup(old(dashStates), id), id in dead, id in collided)
    {
      hide DashStepped;
      ghost var was := dashStates;
      var todo := dashStates.Keys;
      NothingToStep(dead, collided);
      while todo != {}
        invariant todo <= dashStates.Keys && dashStates.Keys <= loadouts.Keys
        invariant forall id :: Lookup(dashStates, id)
                               == if id in todo then Lookup(was, id) else DashStepped(Lookup(was, id), id in dead, id in collided)
        decreases |todo|
      {
        var id :| id in todo;
        var dash := dashStates[id];
        assert Lookup(was, id) == Some(dash) by { assert Lookup(dashStates, id) == Some(dash); }
        SteppedCases(dash, id in dead, id in collided);
        if id in dead || id in collided || dash.remaining <= 1 {
          dashStates := dashStates - {id};
        } else {
          dashStates := dashStates[id := dash.(remaining := dash.remaining - 1)];
        }
        todo := todo - {id};
      }
    }

    /** What the tick's snapshot tells one player; the dash of a dead player is cleared. */
    method ProjectPlayer(id: nat, tick: nat, dead: bool) returns (ready: int, nextCharge: int)
      requires Valid() && id in loadouts
      modifies `dashStates
      ensures Valid() && OthersKept(id)
      ensures GunOf(id) == old(GunOf(id)).(dash := if dead then None else old(GunOf(id)).dash)
      ensures ready == AttackReadyTick(old(GunOf(id)), dead)
      ensures nextCharge == NextChargeTick(attackStates[id], loadouts[id], tick)
    {
      ready := 0;
      if dead {
        dashStates := dashStates - {id};
      }
      if id in dashStates {
        ready := dashStates[id].readyTick;
      }
      if id in burstStates && !dead {
        var burst := burstStates[id];
        ready := burst.activation + LastOffset(burst.schedule) + 1;
      }
      nextCharge := NextChargeTick(attackStates[id], loadouts[id], tick);
    }

    method FinishCompletedBursts()
      modifies `burstStates
      ensures burstStates == map id | id in old(burstStates) && !Complete(old(burstStates)[id]) :: old(burstStates)[id]
    {
      var ids := OrderedBurstOwnerIDs();
      var k := 0;
      while k < |ids|
        invariant 0 <= k <= |ids|
        invariant forall id :: id in burstStates <==> id in old(burstStates) && !(id in ids[..k] && Complete(old(burstStates)[id]))
        invariant forall id :: id in burstStates ==> burstStates[id] == old(burstStates)[id]
      {
        assert ids[k] !in ids[..k];
        if Complete(burstStates[ids[k]]) {
          burstStates := burstStates - {ids[k]};
        }
        k := k + 1;
      }
      assert ids[..k] == ids;
    }

    method PrepareTimedDashes(tick: nat, inputs: seq<(nat, Input)>)
      requires Valid() && OneEach(inputs, loadouts.Keys)
      modifies this
      ensures Valid()
      ensures forall id :: id in loadouts ==> GunOf(id) == Prepared(old(GunOf(id)), loadouts[id], tick, InputOf(inputs, id))
    {
      hide Prepared, ValidLoadout;
      IdleChangesNothing();
      var k := 0;
      while k < |inputs|
        invariant 0 <= k <= |inputs| && Valid()
        invariant forall id :: id in loadouts ==>
                    GunOf(id) == Prepared(old(GunOf(id)), loadouts[id], tick, InputOf(inputs[..k], id))
      {
        NextInput(inputs, k, loadouts.Keys);
        PrepareTimedDash(inputs[k].0, tick, inputs[k].1);
        k := k + 1;
      }
      assert inputs[..k] == inputs;
    }

    /** Everybody's gun. */
    ghost function Guns(): map<nat, Gun>
      requires Valid()
      reads this
    {
      map id | id in loadouts :: GunOf(id)
    }

    method ApplyInputs(tick: nat, inputs: seq<(nat, Input)>) returns (activations: seq<Emission>)
      requires Valid() && OneEach(inputs, loadouts.Keys)
      modifies this
      ensures Valid()
      ensures activations == FiredBy(inputs, old(Guns()), loadouts, tick)
      ensures forall id :: id in loadouts ==> GunOf(id) == Applied(old(GunOf(id)), loadouts[id], tick, InputOf(inputs, id))
    {
      hide Applied, ValidLoadout, ActivationOf;
      IdleChangesNothing();
      activations := [];
      ghost var guns := Guns();
      var k := 0;
      while k < |inputs|
        invariant 0 <= k <= |inputs| && Valid()
        invariant activations == FiredBy(inputs[..k], guns, loadouts, tick)
        invariant forall id :: id in loadouts ==>
                    GunOf(id) == Applied(old(GunOf(id)), loadouts[id], tick, InputOf(inputs[..k], id))
      {
        NextInput(inputs, k, loadouts.Keys);
        var activation := ApplyPreparedInput(inputs[k].0, tick, inputs[k].1);
        assert inputs[..k + 1][..k] == inputs[..k];
        activations := activations + activation;
        k := k + 1;
      }
      assert inputs[..k] == inputs;
    }

    /** Up to the inputs. */
    method Begin(tick: nat, dead: set<nat>) returns (scheduled: seq<Emission>)
      requires Valid()
      modifies this
      ensures Valid()
      ensures forall id :: id in loadouts ==> GunOf(id) == BeforeInput(old(GunOf(id)), loadouts[id], tick, id in dead)
      ensures InOwnerOrder(scheduled, old(burstStates), tick, dead)
    {
      hide Collected, Recharge, InOwnerOrder;
      RechargeAttackCharges();
      scheduled := CollectDueBurstEmissions(tick, dead);
    }

    /** From the inputs on. */
    method End(dead: set<nat>, collided: set<nat>)
      requires Valid()
      modifies this
      ensures Valid()
      ensures forall id :: id in loadouts ==> GunOf(id) == Ended(old(GunOf(id)), id in dead, id in collided)
    {
      hide DashStepped, Complete, ValidLoadout;
      StepDashTimers(dead, collided);
      FinishCompletedBursts();
    }

    /**
     A whole tick of attacks: every player's gun takes exactly its own tick. `dead` are those that died before
     the inputs, `collided` those whose dash segment met something.
     */
    method Advance(tick: nat, dead: set<nat>, collided: set<nat>, inputs: seq<(nat, Input)>)
      returns (scheduled: seq<Emission>, activations: seq<Emission>)
      requires Valid() && OneEach(inputs, loadouts.Keys - dead)
      modifies this
      ensures Valid()
      ensures forall id :: id in loadouts ==>
                GunOf(id) == Tick(old(GunOf(id)), loadouts[id], tick, Event(id in dead, InputOf(inputs, id), id in collided))
      ensures InOwnerOrder(scheduled, old(burstStates), tick, dead)
      ensures activations == FiredBy(inputs, GunsBefore(old(Guns()), loadouts, tick, dead, inputs), loadouts, tick)
    {
      hide Prepared, Applied, BeforeInput, Ended, InOwnerOrder, GunOf, ActivationOf, FiredBy, ValidSchedule;
      IdleChangesNothing();
      forall id | id in dead
        ensures InputOf(inputs, id) == Idle
      {
        NoInput(inputs, id);
      }
      scheduled := Begin(tick, dead);
      PrepareTimedDashes(tick, inputs);
      assert Guns() == GunsBefore(old(Guns()), loadouts, tick, dead, inputs);
      activations := ApplyInputs(tick, inputs);
      End(dead, collided);
    }
  }

  lemma SkillOnce(g: Gun, a: Loadout, tick: nat)
    ensures AfterSkill(g.(skillReadyTick := tick + a.cooldownTicks), a, tick) == AfterSkill(g, a, tick)
    ensures AfterSkill(g, a, tick).skillReadyTick == tick + a.cooldownTicks
  {
  }

  lemma NothingToStep(dead: set<nat>, collided: set<nat>)
    ensures forall id: nat :: DashStepped(None, id in dead, id in collided) == None
  {
  }

  lemma SteppedCases(dash: DashTimer, dead: bool, collided: bool)
    ensures DashStepped(Some(dash), dead, collided)
            == if dead || collided || dash.remaining <= 1 then None else Some(dash.(remaining := dash.remaining - 1))
  {
  }

  function Lookup<V>(m: map<nat, V>, id: nat): Option<V> {
    if id in m then Some(m[id]) else None
  }

  /** The shot that an input fires at once. */
  function ActivationOf(g: Gun, a: Loadout, id: nat, tick: nat, input: Input): seq<Emission> {
    if g.dash.Some? then []
    else if SkillApproved(g, a, tick, input) then if a.skill.ReloadDash? then [] else [Emission(id, 0)]
    else if input.attack && Granted(g, a) && a.burst.Some? then [Emission(id, 0)]
    else []
  }

  /** The guns as the inputs find them: recharged, with the due shots fired, and with reload dashes approved. */
  ghost function GunsBefore(guns: map<nat, Gun>, loadouts: map<nat, Loadout>, tick: nat, dead: set<nat>,
                            inputs: seq<(nat, Input)>): map<nat, Gun>
    requires guns.Keys == loadouts.Keys && forall id :: id in loadouts ==> loadouts[id].rechargeTicks > 0
  {
    map id | id in guns ::
      Prepared(BeforeInput(guns[id], loadouts[id], tick, id in dead), loadouts[id], tick, InputOf(inputs, id))
  }

  /** The shots that the inputs fire at once, in the order of the inputs. */
  function FiredBy(inputs: seq<(nat, Input)>, guns: map<nat, Gun>, loadouts: map<nat, Loadout>, tick: nat): seq<Emission>
    requires guns.Keys == loadouts.Keys && OneEach(inputs, loadouts.Keys)
  {
    if inputs == [] then []
    else
      var (id, input) := inputs[|inputs| - 1];
      FiredBy(inputs[..|inputs| - 1], guns, loadouts, tick) + ActivationOf(guns[id], loadouts[id], id, tick, input)
  }

  /** Each player fires its ordinal 0 at once exactly if its own input activates a shot, and then once. */
  lemma {:induction false} FiredByExact(inputs: seq<(nat, Input)>, guns: map<nat, Gun>, loadouts: map<nat, Loadout>, tick: nat)
    requires guns.Keys == loadouts.Keys && OneEach(inputs, loadouts.Keys)
    requires forall id :: id in loadouts ==> ValidLoadout(loadouts[id])
    ensures var fired := FiredBy(inputs, guns, loadouts, tick);
      && (forall e :: e in fired <==>
            e.ordinal == 0 && exists k :: 0 <= k < |inputs| && inputs[k].0 == e.owner
                                          && ActivationOf(guns[e.owner], loadouts[e.owner], e.owner, tick, inputs[k].1) != [])
      && (forall i, j :: 0 <= i < j < |fired| ==> fired[i].owner != fired[j].owner)
  {
    hide ValidSchedule, SkillApproved, Granted;
    if inputs != [] {
      var init := inputs[..|inputs| - 1];
      var last := inputs[|inputs| - 1];
      FiredByExact(init, guns, loadouts, tick);
      assert forall k :: 0 <= k < |init| ==> init[k] == inputs[k];
      var before := FiredBy(init, guns, loadouts, tick);
      assert forall e :: e in before ==> e.owner != last.0;
      var activation := ActivationOf(guns[last.0], loadouts[last.0], last.0, tick, last.1);
      assert activation == [] || activation == [Emission(last.0, 0)];
      forall e
        ensures e in before + activation <==>
                  e.ordinal == 0 && exists k :: 0 <= k < |inputs| && inputs[k].0 == e.owner
                                                && ActivationOf(guns[e.owner], loadouts[e.owner], e.owner, tick, inputs[k].1) != []
      {
        if e in before {
          var k :| 0 <= k < |init| && init[k].0 == e.owner
                   && ActivationOf(guns[e.owner], loadouts[e.owner], e.owner, tick, init[k].1) != [];
          assert inputs[k].0 == e.owner;
        }
        if e in activation { assert inputs[|inputs| - 1].0 == e.owner; }
      }
    }
  }

  /** A shot is fired at once exactly by an approved shooting skill or a granted burst attack, and it is the first of its burst. */
  lemma FiresAtOnce(g: Gun, a: Loadout, id: nat, tick: nat, input: Input)
    requires ValidLoadout(a)
    ensures var fired := ActivationOf(g, a, id, tick, input);
      var skill := input.skill && g.dash.None? && g.skillReadyTick <= tick;
      var attack := input.attack && g.dash.None? && !skill && a.burst.Some? && g.burst.None? && g.charges.charges > 0;
      && fired == (if (skill && !a.skill.ReloadDash?) || attack then [Emission(id, 0)] else [])
      && (attack ==> Applied(g, a, tick, input).burst == Some(Burst(a.burst.value, tick, 1)))
      && (skill && a.skill.BurstProjectile? ==> Applied(g, a, tick, input).burst == Some(Burst(a.skill.schedule, tick, 1)))
  {
    hide ValidSchedule;
  }

  /** A skill that is due goes before an attack: it is used up, and no charge is spent. */
  lemma SkillGoesFirst(g: Gun, a: Loadout, tick: nat, input: Input)
    requires ValidLoadout(a) && input.skill && g.dash.None? && g.skillReadyTick <= tick
    ensures var after := AfterInput(g, a, tick, input);
      && after.skillReadyTick == tick + a.cooldownTicks
      && after.charges == (if a.skill.ReloadDash? then Charges(a.maxCharges, 0) else g.charges)
      && (a.skill.ReloadDash? <==> after.dash.Some?)
  {
    hide ValidSchedule;
  }

  /** The prepared inputs are of different players among these. */
  predicate OneEach(inputs: seq<(nat, Input)>, ids: set<nat>) {
    && (forall i :: 0 <= i < |inputs| ==> inputs[i].0 in ids)
    && (forall i, j :: 0 <= i < j < |inputs| ==> inputs[i].0 != inputs[j].0)
  }

  lemma IdleChangesNothing()
    ensures forall g: Gun, a: Loadout, tick: nat {:trigger Prepared(g, a, tick, Idle)} :: Prepared(g, a, tick, Idle) == g
    ensures forall g: Gun, a: Loadout, tick: nat {:trigger Applied(g, a, tick, Idle)} :: Applied(g, a, tick, Idle) == g
  {
  }

  function InputOf(inputs: seq<(nat, Input)>, id: nat): Input {
    if inputs == [] then Idle
    else if inputs[|inputs| - 1].0 == id then inputs[|inputs| - 1].1
    else InputOf(inputs[..|inputs| - 1], id)
  }

  lemma NoInput(inputs: seq<(nat, Input)>, id: nat)
    requires forall i :: 0 <= i < |inputs| ==> inputs[i].0 != id
    ensures InputOf(inputs, id) == Idle
  {
    if inputs != [] {
      NoInput(inputs[..|inputs| - 1], id);
    }
  }

  lemma NextInput(inputs: seq<(nat, Input)>, k: nat, ids: set<nat>)
    requires OneEach(inputs, ids) && k < |inputs|
    ensures InputOf(inputs[..k], inputs[k].0) == Idle
    ensures forall id :: InputOf(inputs[..k + 1], id) == if id == inputs[k].0 then inputs[k].1 else InputOf(inputs[..k], id)
  {
    assert inputs[..k + 1][..k] == inputs[..k];
    NoInput(inputs[..k], inputs[k].0);
  }
}
