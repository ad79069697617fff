/**
 One player's attack charges, burst and dash over the simulation's ticks: what a tick does to them, and what
 the two promised ticks in every snapshot (the next charge, the next possible attack) mean for every future run.
 */
module AttackTimers {
  import opened Wrappers

  datatype Schedule = Schedule(count: nat, interval: nat, offsets: seq<nat>)

  /** What a player's skill does to its attacks; a teleport projectile does nothing to them. */
  datatype Skill = ReloadDash(durationTicks: nat) | BurstProjectile(schedule: Schedule) | TeleportProjectile

  /** A player's configuration; `burst` says that its normal attack is a burst, with the schedule of its shots. */
  datatype Loadout = Loadout(maxCharges: nat, rechargeTicks: nat, burst: Option<Schedule>, skill: Skill, cooldownTicks: nat)

  datatype Charges = Charges(charges: nat, recharged: nat)

  datatype Burst = Burst(schedule: Schedule, activation: nat, nextOrdinal: nat)

  /** The time of a running dash; its movement is in TimedDash. */
  datatype DashTimer = DashTimer(remaining: nat, readyTick: nat)

  predicate ValidLoadout(a: Loadout) {
    && a.maxCharges > 0 && a.rechargeTicks > 0 && a.cooldownTicks > 0
    && (a.burst.Some? ==> a.burst.value.count > 1 && ValidSchedule(a.burst.value))
    && match a.skill
       case ReloadDash(duration) => duration > 0
       case BurstProjectile(schedule) => schedule.count > 1 && ValidSchedule(schedule)
       case TeleportProjectile => true
  }

  predicate ValidSchedule(s: Schedule) {
    if s.offsets == [] then s.interval > 0
    else
      && s.count == |s.offsets| && s.interval == 0 && s.offsets[0] == 0
      && forall i :: 1 <= i < |s.offsets| ==> s.offsets[i - 1] < s.offsets[i]
  }

  // ---------- Charges ----------

  function Recharge(c: Charges, a: Loadout): Charges
    requires a.rechargeTicks > 0
  {
    if c.charges >= a.maxCharges then Charges(a.maxCharges, 0)
    else
      var ticks := c.recharged + 1;
      var restored := ticks / a.rechargeTicks;
      var grown := if restored > 0 then Charges(c.charges + restored, ticks % a.rechargeTicks) else Charges(c.charges, ticks);
      if grown.charges >= a.maxCharges then Charges(a.maxCharges, 0) else grown
  }

  /** What a snapshot promises; zero when the charges are full. */
  function NextChargeTick(c: Charges, a: Loadout, tick: nat): int {
    if c.charges >= a.maxCharges then 0 else tick + a.rechargeTicks - c.recharged
  }

  predicate ValidCharges(c: Charges, a: Loadout) {
    c.charges <= a.maxCharges && c.recharged < a.rechargeTicks && (c.charges == a.maxCharges ==> c.recharged == 0)
  }

  // ---------- Bursts ----------

  function Offset(s: Schedule, k: nat): nat {
    if |s.offsets| > k then s.offsets[k] else k * s.interval
  }

  function LastOffset(s: Schedule): int {
    if |s.offsets| == s.count && s.count > 0 then s.offsets[s.count - 1] else (s.count - 1) * s.interval
  }

  /** The first tick after a burst's last shot. */
  function BurstReady(b: Burst): int {
    b.activation + LastOffset(b.schedule) + 1
  }

  predicate Due(b: Burst, tick: nat) {
    b.nextOrdinal < b.schedule.count && tick == b.activation + Offset(b.schedule, b.nextOrdinal)
  }

  /** The burst after collecting this tick's emission. */
  function Collected(b: Burst, tick: nat): Burst {
    if Due(b, tick) then b.(nextOrdinal := b.nextOrdinal + 1) else b
  }

  predicate Complete(b: Burst) {
    b.nextOrdinal >= b.schedule.count
  }

  // ---------- A tick of one player ----------

  datatype Gun = Gun(charges: Charges, burst: Option<Burst>, dash: Option<DashTimer>, skillReadyTick: nat)

  /** The buttons pressed together with an aim. */
  datatype Input = Input(skill: bool, attack: bool)

  const Idle := Input(false, false)

  /**
   `dead` is what the tick's projectiles left before bursts are collected, and a dead player's input is dropped;
   `collided` says that this tick's segment of a dash met something.
   */
  datatype Event = Event(dead: bool, input: Input, collided: bool)

  /** Nothing is promised to a dead player or to one that is not locked; a burst's promise hides a dash's. */
  function AttackReadyTick(g: Gun, dead: bool): int {
    if dead then 0
    else if g.burst.Some? then BurstReady(g.burst.value)
    else if g.dash.Some? then g.dash.value.readyTick
    else 0
  }

  predicate SkillApproved(g: Gun, a: Loadout, tick: nat, input: Input) {
    input.skill && g.dash.None? && tick >= g.skillReadyTick && a.cooldownTicks > 0
  }

  function AfterSkill(g: Gun, a: Loadout, tick: nat): Gun {
    var spent := g.(skillReadyTick := tick + a.cooldownTicks);
    match a.skill
    case ReloadDash(duration) =>
      spent.(charges := Charges(a.maxCharges, 0), dash := Some(DashTimer(duration, tick + duration)))
    case BurstProjectile(schedule) => spent.(burst := Some(Burst(schedule, tick, 1)))
    case TeleportProjectile => spent
  }

  /** Before the movement only reload dashes are approved. */
  function Prepared(g: Gun, a: Loadout, tick: nat, input: Input): Gun {
    if SkillApproved(g, a, tick, input) && a.skill.ReloadDash? then AfterSkill(g, a, tick) else g
  }

  /** Neither a burst of the same attack nor a lack of charges stands in the way. */
  predicate Granted(g: Gun, a: Loadout) {
    (a.burst.Some? ==> g.burst.None?) && g.charges.charges > 0
  }

  function AfterAttack(g: Gun, a: Loadout, tick: nat): Gun
    requires Granted(g, a)
  {
    g.(charges := g.charges.(charges := g.charges.charges - 1),
       burst := if a.burst.Some? then Some(Burst(a.burst.value, tick, 1)) else g.burst)
  }

  /** After the movement: a dash in progress refuses everything, and a skill takes precedence over an attack. */
  function Applied(g: Gun, a: Loadout, tick: nat, input: Input): Gun {
    if g.dash.Some? then g
    else if SkillApproved(g, a, tick, input) then AfterSkill(g, a, tick)
    else if input.attack && Granted(g, a) then AfterAttack(g, a, tick)
    else g
  }

  function AfterInput(g: Gun, a: Loadout, tick: nat, input: Input): Gun {
    Applied(Prepared(g, a, tick, input), a, tick, input)
  }

  /** Up to the inputs: recharge, then the due emission of a living owner. */
  function BeforeInput(g: Gun, a: Loadout, tick: nat, dead: bool): Gun
    requires a.rechargeTicks > 0
  {
    g.(charges := Recharge(g.charges, a),
       burst := if g.burst.None? || dead then None else Some(Collected(g.burst.value, tick)))
  }

  function DashStepped(dash: Option<DashTimer>, dead: bool, collided: bool): Option<DashTimer> {
    if dash.None? || dead || collided || dash.value.remaining <= 1 then None
    else Some(dash.value.(remaining := dash.value.remaining - 1))
  }

  function Finished(g: Gun): Gun {
    if g.burst.Some? && Complete(g.burst.value) then g.(burst := None) else g
  }

  /** After the inputs: the dash's segment, and the end of a completed burst. */
  function Ended(g: Gun, dead: bool, collided: bool): Gun {
    Finished(g.(dash := DashStepped(g.dash, dead, collided)))
  }

  function Tick(g: Gun, a: Loadout, tick: nat, e: Event): Gun
    requires a.rechargeTicks > 0
  {
    var before := BeforeInput(g, a, tick, e.dead);
    Ended(if e.dead then before else AfterInput(before, a, tick, e.input), e.dead, e.collided)
  }

  /** After the events of the ticks `tick + 1`, `tick + 2`, and so on. */
  function Run(g: Gun, a: Loadout, tick: nat, events: seq<Event>): Gun
    requires a.rechargeTicks > 0
    decreases |events|
  {
    if events == [] then g
    else Tick(Run(g, a, tick, events[..|events| - 1]), a, tick + |events|, events[|events| - 1])
  }

  predicate AttackGranted(g: Gun, a: Loadout, tick: nat, e: Event)
    requires a.rechargeTicks > 0
  {
    !e.dead && e.input.attack
    && var before := Prepared(BeforeInput(g, a, tick, e.dead), a, tick, e.input);
    before.dash.None? && !SkillApproved(before, a, tick, e.input) && Granted(before, a)
  }

  function Grants(g: Gun, a: Loadout, tick: nat, events: seq<Event>): nat
    requires a.rechargeTicks > 0
    decreases |events|
  {
    if events == [] then 0
    else
      var init := events[..|events| - 1];
      Grants(g, a, tick, init)
      + if AttackGranted(Run(g, a, tick, init), a, tick + |events|, events[|events| - 1]) then 1 else 0
  }

  /** This tick approves the player's skill. */
  predicate SkillUsed(g: Gun, a: Loadout, tick: nat, e: Event) {
    !e.dead && SkillApproved(g, a, tick, e.input)
  }

  predicate Reloaded(g: Gun, a: Loadout, tick: nat, e: Event) {
    a.skill.ReloadDash? && SkillUsed(g, a, tick, e)
  }

  function Reloads(g: Gun, a: Loadout, tick: nat, events: seq<Event>): nat
    requires a.rechargeTicks > 0
    decreases |events|
  {
    if events == [] then 0
    else
      var init := events[..|events| - 1];
      Reloads(g, a, tick, init)
      + if Reloaded(Run(g, a, tick, init), a, tick + |events|, events[|events| - 1]) then 1 else 0
  }

  // ---------- The charge that a snapshot promises ----------

  lemma RechargeGrows(c: Charges, a: Loadout)
    requires ValidLoadout(a) && ValidCharges(c, a)
    ensures var r := Recharge(c, a);
      && ValidCharges(r, a)
      && (if c.charges == a.maxCharges then r == c
          else if c.recharged + 1 < a.rechargeTicks then r == Charges(c.charges, c.recharged + 1)
          else r == Charges(c.charges + 1, 0))
  {
  }

  lemma TickCharges(g: Gun, a: Loadout, tick: nat, e: Event)
    requires ValidLoadout(a) && ValidCharges(g.charges, a)
    ensures ValidCharges(Tick(g, a, tick, e).charges, a)
    ensures var c := Recharge(g.charges, a);
      Tick(g, a, tick, e).charges
        == if AttackGranted(g, a, tick, e) then c.(charges := c.charges - 1)
           else if Reloaded(g, a, tick, e) then Charges(a.maxCharges, 0)
           else c
  {
    RechargeGrows(g.charges, a);
  }

  /** A charge is promised exactly while one is missing, and within the recharge time. */
  lemma ChargePromised(c: Charges, a: Loadout, tick: nat)
    requires ValidLoadout(a) && ValidCharges(c, a)
    ensures if c.charges == a.maxCharges then NextChargeTick(c, a, tick) == 0
            else tick < NextChargeTick(c, a, tick) <= tick + a.rechargeTicks
  {
  }

  /**
   Whatever the player does meanwhile, short of a reload dash, the promised tick is exactly the next one
   at which a charge is restored.
   */
  lemma {:induction false} NextChargeIsExact(g: Gun, a: Loadout, tick: nat, events: seq<Event>)
    requires ValidLoadout(a) && ValidCharges(g.charges, a) && g.charges.charges < a.maxCharges
    requires Reloads(g, a, tick, events) == 0 && tick + |events| < NextChargeTick(g.charges, a, tick)
    ensures tick < NextChargeTick(g.charges, a, tick) <= tick + a.rechargeTicks
    ensures var before := Run(g, a, tick, events).charges;
      && ValidCharges(before, a) && before.charges < a.maxCharges
      && NextChargeTick(before, a, tick + |events|) == NextChargeTick(g.charges, a, tick)
      && Recharge(before, a).charges
         == before.charges + if tick + |events| + 1 == NextChargeTick(g.charges, a, tick) then 1 else 0
    decreases |events|
  {
    hide Tick, AttackGranted, Reloaded;
    if events != [] {
      var init := events[..|events| - 1];
      NextChargeIsExact(g, a, tick, init);
      TickCharges(Run(g, a, tick, init), a, tick + |events|, events[|events| - 1]);
    }
    RechargeGrows(Run(g, a, tick, events).charges, a);
  }

  // ---------- How many attacks a run can hold ----------

  function Worth(c: Charges, a: Loadout): nat {
    c.charges * a.rechargeTicks + c.recharged
  }

  lemma RechargeWorth(c: Charges, a: Loadout)
    requires ValidLoadout(a) && ValidCharges(c, a)
    ensures Worth(Recharge(c, a), a) <= Worth(c, a) + 1
  {
    RechargeGrows(c, a);
    assert (c.charges + 1) * a.rechargeTicks == c.charges * a.rechargeTicks + a.rechargeTicks;
  }

  lemma FullWorth(c: Charges, a: Loadout)
    requires ValidLoadout(a) && ValidCharges(c, a)
    ensures 0 <= Worth(c, a) <= a.maxCharges * a.rechargeTicks
  {
    if c.charges < a.maxCharges {
      MulOrder(c.charges + 1, a.maxCharges, a.rechargeTicks);
      assert (c.charges + 1) * a.rechargeTicks == c.charges * a.rechargeTicks + a.rechargeTicks;
    }
  }

  lemma MulOrder(x: nat, y: nat, k: nat)
    requires x <= y
    ensures x * k <= y * k
  {
  }

  /** One tick: what it grants and leaves is paid for by what it found, by the tick itself, and by a reload. */
  lemma TickIsPaid(g: Gun, a: Loadout, tick: nat, e: Event)
    requires ValidLoadout(a) && ValidCharges(g.charges, a)
    ensures (if AttackGranted(g, a, tick, e) then a.rechargeTicks else 0) + Worth(Tick(g, a, tick, e).charges, a)
         <= Worth(g.charges, a) + 1 + if Reloaded(g, a, tick, e) then a.maxCharges * a.rechargeTicks else 0
  {
    hide Recharge, BeforeInput;
    TickCharges(g, a, tick, e);
    RechargeWorth(g.charges, a);
    RechargeGrows(g.charges, a);
    var c := Recharge(g.charges, a);
    if AttackGranted(g, a, tick, e) {
      assert (c.charges - 1) * a.rechargeTicks == c.charges * a.rechargeTicks - a.rechargeTicks;
    }
  }

  lemma {:induction false} GrantsArePaid(g: Gun, a: Loadout, tick: nat, events: seq<Event>)
    requires ValidLoadout(a) && ValidCharges(g.charges, a)
    ensures ValidCharges(Run(g, a, tick, events).charges, a)
    ensures Grants(g, a, tick, events) * a.rechargeTicks + Worth(Run(g, a, tick, events).charges, a)
         <= Worth(g.charges, a) + |events| + Reloads(g, a, tick, events) * (a.maxCharges * a.rechargeTicks)
    decreases |events|
  {
    hide Tick, AttackGranted, Reloaded, Recharge, Worth;
    if events != [] {
      var init := events[..|events| - 1];
      var last := events[|events| - 1];
      var before := Run(g, a, tick, init);
      GrantsArePaid(g, a, tick, init);
      TickCharges(before, a, tick + |events|, last);
      TickIsPaid(before, a, tick + |events|, last);
      var granted := if AttackGranted(before, a, tick + |events|, last) then 1 else 0;
      var reloads := if Reloaded(before, a, tick + |events|, last) then 1 else 0;
      Distribute(Grants(g, a, tick, init), granted, a.rechargeTicks);
      Distribute(Reloads(g, a, tick, init), reloads, a.maxCharges * a.rechargeTicks);
    }
  }

  lemma Distribute(x: nat, y: nat, k: nat)
    requires y <= 1
    ensures (x + y) * k == x * k + if y == 1 then k else 0
  {
  }

  /** In `T` ticks with `k` reload dashes at most `(k + 1) * MaxCharges + T / RechargeTicks` attacks are granted. */
  lemma AttackRateBound(g: Gun, a: Loadout, tick: nat, events: seq<Event>)
    requires ValidLoadout(a) && ValidCharges(g.charges, a)
    ensures Grants(g, a, tick, events) <= (Reloads(g, a, tick, events) + 1) * a.maxCharges + |events| / a.rechargeTicks
  {
    hide Run, Grants, Reloads, Worth;
    GrantsArePaid(g, a, tick, events);
    FullWorth(g.charges, a);
    var k, r, m := Reloads(g, a, tick, events), a.rechargeTicks, a.maxCharges;
    Regroup(k, m, r);
    QuotientBound(Grants(g, a, tick, events), (k + 1) * m, |events|, r);
  }

  /** Reload dashes are at least a cooldown apart. */
  lemma {:induction false} ReloadsAreSpaced(g: Gun, a: Loadout, tick: nat, events: seq<Event>)
    requires ValidLoadout(a)
    ensures var k := Reloads(g, a, tick, events);
      k > 0 ==>
        && k * a.cooldownTicks <= Run(g, a, tick, events).skillReadyTick - (tick + 1)
        && Run(g, a, tick, events).skillReadyTick <= tick + |events| + a.cooldownTicks
    decreases |events|
  {
    hide Tick, Reloaded;
    if events != [] {
      var init := events[..|events| - 1];
      ReloadsAreSpaced(g, a, tick, init);
      SkillSpent(Run(g, a, tick, init), a, tick + |events|, events[|events| - 1]);
      Distribute(Reloads(g, a, tick, init), 1, a.cooldownTicks);
    }
  }

  lemma SkillSpent(g: Gun, a: Loadout, tick: nat, e: Event)
    requires ValidLoadout(a)
    ensures var after := Tick(g, a, tick, e);
      if SkillUsed(g, a, tick, e) then g.skillReadyTick <= tick && after.skillReadyTick == tick + a.cooldownTicks
      else after.skillReadyTick == g.skillReadyTick
    ensures Reloaded(g, a, tick, e) ==> SkillUsed(g, a, tick, e)
  {
  }

  /** So the cooldown alone bounds them: at most one in every started cooldown of the run. */
  lemma ReloadBound(g: Gun, a: Loadout, tick: nat, events: seq<Event>)
    requires ValidLoadout(a) && events != []
    ensures Reloads(g, a, tick, events) <= 1 + (|events| - 1) / a.cooldownTicks
  {
    hide Run, Reloads;
    ReloadsAreSpaced(g, a, tick, events);
    QuotientBound(Reloads(g, a, tick, events), 1, |events| - 1, a.cooldownTicks);
  }

  lemma Regroup(k: nat, m: nat, r: nat)
    ensures m * r + k * (m * r) == ((k + 1) * m) * r
  {
    assert ((k + 1) * m) * r == (k + 1) * (m * r);
  }

  lemma QuotientBound(n: nat, b: nat, t: nat, r: nat)
    requires r > 0 && n * r <= b * r + t
    ensures n <= b + t / r
  {
    assert t == (t / r) * r + t % r;
    assert (b + t / r + 1) * r == b * r + (t / r) * r + r;
    MulCancel(n, b + t / r + 1, r);
  }

  lemma MulCancel(x: nat, y: nat, k: nat)
    requires x * k < y * k
    ensures x < y
  {
    if y <= x {
      MulOrder(y, x, k);
    }
  }

  // ---------- A burst's schedule ----------

  lemma {:induction false} OffsetsIncrease(s: Schedule, i: nat, j: nat)
    requires ValidSchedule(s) && i < j < s.count
    ensures Offset(s, i) < Offset(s, j)
    decreases j - i
  {
    if s.offsets == [] {
      assert j * s.interval == i * s.interval + (j - i) * s.interval;
      MulOrder(1, j - i, s.interval);
    } else if i + 1 < j {
      OffsetsIncrease(s, i, j - 1);
      assert s.offsets[j - 1] < s.offsets[j];
    }
  }

  lemma OffsetEnds(s: Schedule)
    requires ValidSchedule(s) && s.count > 0
    ensures Offset(s, 0) == 0 && LastOffset(s) == Offset(s, s.count - 1)
  {
  }

  /** A shot's offset is listed, or a multiple of the interval. */
  lemma OffsetsAre(s: Schedule)
    requires ValidSchedule(s)
    ensures forall k :: 0 <= k < s.count ==> Offset(s, k) == if s.offsets == [] then k * s.interval else s.offsets[k]
  {
  }

  ghost predicate OnSchedule(b: Burst, tick: nat) {
    && b.activation <= tick && 1 <= b.nextOrdinal <= b.schedule.count
    && (forall k :: 0 <= k < b.nextOrdinal ==> b.activation + Offset(b.schedule, k) <= tick)
    && (forall k :: b.nextOrdinal <= k < b.schedule.count ==> tick < b.activation + Offset(b.schedule, k))
  }

  lemma ActivationOnSchedule(s: Schedule, tick: nat)
    requires ValidSchedule(s) && s.count > 0
    ensures OnSchedule(Burst(s, tick, 1), tick)
  {
    OffsetEnds(s);
    forall k | 1 <= k < s.count
      ensures tick < tick + Offset(s, k)
    {
      OffsetsIncrease(s, 0, k);
    }
  }

  /** Collecting at the next tick keeps a burst on schedule, and emits the one shot whose tick has come, if any. */
  lemma CollectOnSchedule(b: Burst, tick: nat)
    requires ValidSchedule(b.schedule) && OnSchedule(b, tick)
    ensures OnSchedule(Collected(b, tick + 1), tick + 1)
    ensures forall k :: 0 <= k < b.schedule.count ==>
                          (tick + 1 == b.activation + Offset(b.schedule, k) <==> Due(b, tick + 1) && b.nextOrdinal == k)
  {
    var n := b.nextOrdinal;
    forall k | n < k < b.schedule.count
      ensures Offset(b.schedule, n) < Offset(b.schedule, k)
    {
      OffsetsIncrease(b.schedule, n, k);
    }
  }

  // ---------- States that runs can reach ----------

  ghost predicate SoundBurst(b: Burst, a: Loadout, tick: nat) {
    && (a.burst == Some(b.schedule) || a.skill == BurstProjectile(b.schedule))
    && ValidSchedule(b.schedule) && b.schedule.count > 1 && OnSchedule(b, tick) && !Complete(b)
  }

  predicate SoundDash(d: DashTimer, a: Loadout, tick: nat) {
    a.skill.ReloadDash? && d.remaining > 0 && d.remaining == d.readyTick - tick - 1
  }

  ghost predicate Sound(g: Gun, a: Loadout, tick: nat) {
    && ValidLoadout(a) && ValidCharges(g.charges, a)
    && (g.burst.Some? ==> SoundBurst(g.burst.value, a, tick))
    && (g.dash.Some? ==> SoundDash(g.dash.value, a, tick))
  }

  lemma TickSound(g: Gun, a: Loadout, tick: nat, e: Event)
    requires Sound(g, a, tick)
    ensures Sound(Tick(g, a, tick + 1, e), a, tick + 1)
  {
    hide Recharge, OnSchedule, ValidSchedule, LastOffset, Due;
    TickCharges(g, a, tick + 1, e);
    if g.burst.Some? {
      CollectOnSchedule(g.burst.value, tick);
    }
    if a.burst.Some? { ActivationOnSchedule(a.burst.value, tick + 1); }
    if a.skill.BurstProjectile? { ActivationOnSchedule(a.skill.schedule, tick + 1); }
  }

  function Fresh(a: Loadout): Gun {
    Gun(Charges(a.maxCharges, 0), None, None, 0)
  }

  lemma FreshSound(a: Loadout, tick: nat)
    requires ValidLoadout(a)
    ensures Sound(Fresh(a), a, tick)
  {
  }

  /** Every run leads from sound states to sound states: a dash always knows how long it lasts, a burst is on schedule. */
  lemma {:induction false} RunSound(g: Gun, a: Loadout, tick: nat, events: seq<Event>)
    requires Sound(g, a, tick)
    ensures Sound(Run(g, a, tick, events), a, tick + |events|)
    decreases |events|
  {
    hide Tick, OnSchedule;
    if events != [] {
      RunSound(g, a, tick, events[..|events| - 1]);
      TickSound(Run(g, a, tick, events[..|events| - 1]), a, tick + |events| - 1, events[|events| - 1]);
    }
  }

  // ---------- Bursts over a run ----------

  lemma StillToCome(b: Burst, tick: nat)
    requires ValidSchedule(b.schedule) && OnSchedule(b, tick) && !Complete(b)
    ensures tick + 1 < BurstReady(b)
  {
    OffsetEnds(b.schedule);
    assert tick < b.activation + Offset(b.schedule, b.schedule.count - 1);
  }

  lemma CompleteAtLast(b: Burst, tick: nat)
    requires ValidSchedule(b.schedule) && b.schedule.count > 0 && OnSchedule(b, tick)
    ensures Complete(b) <==> BurstReady(b) <= tick + 1
  {
    OffsetEnds(b.schedule);
  }

  /** The owner dies, or its skill replaces the burst. */
  predicate EndsBurst(g: Gun, a: Loadout, tick: nat, e: Event) {
    e.dead || (a.skill.BurstProjectile? && SkillUsed(g, a, tick, e))
  }

  /** A run in which the owner lives and no skill replaces the burst; it may dash. */
  predicate Uninterrupted(g: Gun, a: Loadout, tick: nat, events: seq<Event>)
    requires a.rechargeTicks > 0
    decreases |events|
  {
    events == []
    || (var init := events[..|events| - 1];
        Uninterrupted(g, a, tick, init)
        && !EndsBurst(Run(g, a, tick, init), a, tick + |events|, events[|events| - 1]))
  }

  /** The same burst, or none from the tick of its last shot on. */
  predicate Continues(b: Burst, after: Option<Burst>, tick: nat) {
    if tick + 1 < BurstReady(b) then
      after.Some? && after.value.schedule == b.schedule && after.value.activation == b.activation
    else after.None?
  }

  /** One tick of a burst under way. */
  lemma BurstTick(g: Gun, a: Loadout, tick: nat, e: Event)
    requires Sound(g, a, tick) && g.burst.Some? && !EndsBurst(g, a, tick + 1, e)
    ensures a.burst.Some? ==> !AttackGranted(g, a, tick + 1, e)
    ensures Continues(g.burst.value, Tick(g, a, tick + 1, e).burst, tick + 1)
  {
    hide OnSchedule, ValidSchedule, Recharge, LastOffset, Due;
    CollectOnSchedule(g.burst.value, tick);
    CompleteAtLast(Collected(g.burst.value, tick + 1), tick + 1);
  }

  /**
   A burst under way, by an attack or by a skill: after any uninterrupted run it is still there exactly until
   its last shot. If the normal attack is a burst too, no attack has been granted meanwhile.
   */
  lemma {:induction false} BurstRuns(g: Gun, a: Loadout, tick: nat, events: seq<Event>)
    requires Sound(g, a, tick) && g.burst.Some? && Uninterrupted(g, a, tick, events)
    requires tick + |events| < BurstReady(g.burst.value)
    ensures a.burst.Some? ==> Grants(g, a, tick, events) == 0
    ensures Continues(g.burst.value, Run(g, a, tick, events).burst, tick + |events|)
    decreases |events|
  {
    hide Tick, AttackGranted, EndsBurst, OnSchedule, ValidSchedule, Complete, LastOffset;
    if events == [] {
      StillToCome(g.burst.value, tick);
    } else {
      var init := events[..|events| - 1];
      BurstRuns(g, a, tick, init);
      RunSound(g, a, tick, init);
      BurstTick(Run(g, a, tick, init), a, tick + |init|, events[|events| - 1]);
    }
  }

  /** The ordinal that a living owner emits at the tick after these events, if any. */
  function EmittedAfter(g: Gun, a: Loadout, tick: nat, events: seq<Event>): Option<nat>
    requires a.rechargeTicks > 0
  {
    var before := Run(g, a, tick, events);
    if before.burst.Some? && Due(before.burst.value, tick + |events| + 1) then Some(before.burst.value.nextOrdinal) else None
  }

  /** A living player tries to attack and does not use its skill. */
  const Attempt := Event(false, Input(false, true), false)

  /**
   A burst activated at `tick`, by an attack or by a skill, emits its ordinal k at `tick + Offset(k)` and at
   no other tick of an uninterrupted run. If the normal attack is a burst, every attack is refused free of
   charge until the tick after the last shot, and then only a dash in progress and the charges decide.
   */
  lemma BurstPromises(g: Gun, a: Loadout, s: Schedule, tick: nat, events: seq<Event>)
    requires Sound(g, a, tick) && g.burst == Some(Burst(s, tick, 1)) && Uninterrupted(g, a, tick, events)
    requires tick + |events| < BurstReady(Burst(s, tick, 1))
    ensures var next := tick + |events| + 1;
      && (forall k :: 1 <= k < s.count ==>
            (EmittedAfter(g, a, tick, events) == Some(k) <==> next == tick + Offset(s, k)))
      && (EmittedAfter(g, a, tick, events).Some? ==> exists k :: 1 <= k < s.count && next == tick + Offset(s, k))
    ensures forall k :: 0 <= k < s.count ==> Offset(s, k) == if s.offsets == [] then k * s.interval else s.offsets[k]
    ensures BurstReady(Burst(s, tick, 1)) == tick + Offset(s, s.count - 1) + 1
    ensures a.burst.Some? ==>
              && Grants(g, a, tick, events) == 0
              && var before := Run(g, a, tick, events);
              (AttackGranted(before, a, tick + |events| + 1, Attempt) <==>
                 (&& tick + |events| + 1 == BurstReady(Burst(s, tick, 1))
                  && before.dash.None? && Recharge(before.charges, a).charges > 0))
  {
    OffsetEnds(s);
    OffsetsAre(s);
    hide Run, Grants, Recharge, Uninterrupted, OnSchedule, ValidSchedule, LastOffset, Offset;
    BurstRuns(g, a, tick, events);
    RunSound(g, a, tick, events);
    var before := Run(g, a, tick, events);
    if before.burst.Some? {
      CollectOnSchedule(before.burst.value, tick + |events|);
      if Due(before.burst.value, tick + |events| + 1) { NextIsScheduled(before.burst.value, tick + |events|); }
    } else {
      AllFired(s);
    }
  }

  lemma NextIsScheduled(b: Burst, tick: nat)
    requires OnSchedule(b, tick) && Due(b, tick + 1)
    ensures 1 <= b.nextOrdinal < b.schedule.count && tick + 1 == b.activation + Offset(b.schedule, b.nextOrdinal)
  {
  }

  lemma AllFired(s: Schedule)
    requires ValidSchedule(s) && s.count > 1
    ensures forall k :: 0 <= k < s.count ==> Offset(s, k) <= LastOffset(s)
  {
    hide ValidSchedule, Offset, LastOffset;
    OffsetEnds(s);
    forall k | 0 <= k < s.count
      ensures Offset(s, k) <= LastOffset(s)
    {
      if k < s.count - 1 { OffsetsIncrease(s, k, s.count - 1); }
    }
  }

  // ---------- Dashes over a run ----------

  /** The charges after so many ticks without an attack or a reload. */
  function Recharged(c: Charges, a: Loadout, ticks: nat): Charges
    requires a.rechargeTicks > 0
  {
    if ticks == 0 then c else Recharge(Recharged(c, a, ticks - 1), a)
  }

  /** The owner lives and its dash meets nothing. */
  predicate Unhindered(events: seq<Event>) {
    forall e :: e in events ==> !e.dead && !e.collided
  }

  /**
   A dash in progress ends by itself exactly before its ready tick. Until then every attack and every skill is
   refused and costs nothing; at that tick only a burst of the player's own and the charges decide.
   */
  lemma {:induction false} DashPromises(g: Gun, a: Loadout, tick: nat, events: seq<Event>)
    requires Sound(g, a, tick) && g.dash.Some? && Unhindered(events)
    requires tick + |events| < g.dash.value.readyTick
    ensures Grants(g, a, tick, events) == 0 && Reloads(g, a, tick, events) == 0
    ensures var after := Run(g, a, tick, events);
      var next := tick + |events| + 1;
      && after.charges == Recharged(g.charges, a, |events|) && after.skillReadyTick == g.skillReadyTick
      && (if next < g.dash.value.readyTick
          then after.dash == Some(DashTimer(g.dash.value.readyTick - (tick + |events|) - 1, g.dash.value.readyTick))
          else after.dash.None?)
      && (next < g.dash.value.readyTick ==>
            forall e: Event :: !AttackGranted(after, a, next, e) && !SkillUsed(after, a, next, e))
      && (next == g.dash.value.readyTick ==>
            (AttackGranted(after, a, next, Attempt) <==>
               (a.burst.Some? ==> after.burst.None?) && Recharge(after.charges, a).charges > 0))
    decreases |events|
  {
    hide Recharge, Collected, Complete, OnSchedule, ValidSchedule;
    if events != [] {
      var init := events[..|events| - 1];
      DashPromises(g, a, tick, init);
    }
  }

  // ---------- The attack tick that a snapshot promises ----------

  /** The next tick's attacks are refused whatever the charges are. */
  predicate Locked(g: Gun, a: Loadout) {
    g.dash.Some? || (a.burst.Some? && g.burst.Some?)
  }

  /** The first tick at which neither the dash nor the player's own burst is left. */
  function FreeTick(g: Gun, a: Loadout, tick: nat): int {
    var dash := if g.dash.Some? then g.dash.value.readyTick else tick + 1;
    if a.burst.Some? && g.burst.Some? && BurstReady(g.burst.value) > dash then BurstReady(g.burst.value) else dash
  }

  /** The owner dies, its dash meets something, or its skill starts another dash or burst. */
  predicate Disturbs(g: Gun, a: Loadout, tick: nat, e: Event) {
    e.dead || e.collided || (!a.skill.TeleportProjectile? && SkillUsed(g, a, tick, e))
  }

  predicate Undisturbed(g: Gun, a: Loadout, tick: nat, events: seq<Event>)
    requires a.rechargeTicks > 0
    decreases |events|
  {
    events == []
    || (var init := events[..|events| - 1];
        Undisturbed(g, a, tick, init)
        && !Disturbs(Run(g, a, tick, init), a, tick + |events|, events[|events| - 1]))
  }

  lemma LockedBefore(g: Gun, a: Loadout, tick: nat)
    requires Sound(g, a, tick)
    ensures Locked(g, a) <==> tick + 1 < FreeTick(g, a, tick)
  {
    hide OnSchedule, ValidSchedule, LastOffset;
    if g.burst.Some? { StillToCome(g.burst.value, tick); }
  }

  lemma LockedTick(g: Gun, a: Loadout, tick: nat, e: Event)
    requires Sound(g, a, tick) && Locked(g, a) && !Disturbs(g, a, tick + 1, e)
    ensures !AttackGranted(g, a, tick + 1, e)
    ensures var after := Tick(g, a, tick + 1, e);
      FreeTick(after, a, tick + 1) == FreeTick(g, a, tick) && after.charges == Recharge(g.charges, a)
  {
    hide OnSchedule, ValidSchedule, Recharge, LastOffset, Due;
    if g.burst.Some? {
      BurstTick(g, a, tick, e);
      StillToCome(g.burst.value, tick);
    }
  }

  /** Until exactly its free tick a player is refused every attack, free of charge. */
  lemma {:induction false} LockEnds(g: Gun, a: Loadout, tick: nat, events: seq<Event>)
    requires Sound(g, a, tick) && Undisturbed(g, a, tick, events) && tick + |events| < FreeTick(g, a, tick)
    ensures Sound(Run(g, a, tick, events), a, tick + |events|) && Grants(g, a, tick, events) == 0
    ensures var after := Run(g, a, tick, events);
      && FreeTick(after, a, tick + |events|) == FreeTick(g, a, tick)
      && (Locked(after, a) <==> tick + |events| + 1 < FreeTick(g, a, tick))
      && after.charges == Recharged(g.charges, a, |events|)
    decreases |events|
  {
    hide OnSchedule, ValidSchedule, Tick, AttackGranted, Disturbs, FreeTick, Locked, Recharge;
    RunSound(g, a, tick, events);
    LockedBefore(Run(g, a, tick, events), a, tick + |events|);
    if events != [] {
      var init := events[..|events| - 1];
      LockEnds(g, a, tick, init);
      LockedTick(Run(g, a, tick, init), a, tick + |init|, events[|events| - 1]);
    }
  }

  /** A snapshot's promise to a living player; without a lock it is the next tick. */
  function PromisedTick(g: Gun, tick: nat): int {
    if AttackReadyTick(g, false) == 0 then tick + 1 else AttackReadyTick(g, false)
  }

  /** In every undisturbed run attacks are locked before exactly the promised tick. */
  ghost predicate PromiseHolds(g: Gun, a: Loadout, tick: nat)
    requires a.rechargeTicks > 0
  {
    forall events ::
      Undisturbed(g, a, tick, events) && tick + |events| < PromisedTick(g, tick) ==>
        (Locked(Run(g, a, tick, events), a) <==> tick + |events| + 1 < PromisedTick(g, tick))
  }

  /** What a client can see: the burst is one of the normal attack, and no dash outlasts it. */
  predicate Reliable(g: Gun, a: Loadout) {
    g.burst.Some? ==> a.burst.Some? && (g.dash.Some? ==> g.dash.value.readyTick <= BurstReady(g.burst.value))
  }

  /**
   The promised tick is the one at which attacks become possible exactly when a running burst is one of the
   normal attack and no dash outlasts it: a skill's burst does not lock other attacks, and a burst's promise
   takes the place of a dash's that lasts longer.
   */
  lemma PromiseHoldsIffReliable(g: Gun, a: Loadout, tick: nat)
    requires Sound(g, a, tick)
    ensures PromiseHolds(g, a, tick) <==> Reliable(g, a)
  {
    hide Run, Undisturbed, OnSchedule, ValidSchedule, LastOffset;
    if g.burst.Some? { StillToCome(g.burst.value, tick); }
    var p := PromisedTick(g, tick);
    if Reliable(g, a) {
      forall events | Undisturbed(g, a, tick, events) && tick + |events| < p
        ensures Locked(Run(g, a, tick, events), a) <==> tick + |events| + 1 < p
      {
        LockEnds(g, a, tick, events);
      }
    } else {
      var n := if a.burst.None? then 0 else p - tick - 1;
      IdlesUndisturbed(g, a, tick, n);
      LockEnds(g, a, tick, Idles(n));
    }
  }

  function Idles(n: nat): seq<Event> {
    seq(n, _ => Event(false, Idle, false))
  }

  lemma {:induction false} IdlesUndisturbed(g: Gun, a: Loadout, tick: nat, n: nat)
    requires a.rechargeTicks > 0
    ensures Undisturbed(g, a, tick, Idles(n))
  {
    if n > 0 {
      assert Idles(n)[..n - 1] == Idles(n - 1);
      IdlesUndisturbed(g, a, tick, n - 1);
    }
  }

  /** Where the promise is reliable: attacks are refused free of charge until exactly that tick, and then only the charges decide. */
  lemma AttackPromise(g: Gun, a: Loadout, tick: nat, events: seq<Event>)
    requires Sound(g, a, tick) && Reliable(g, a)
    requires Undisturbed(g, a, tick, events) && tick + |events| < PromisedTick(g, tick)
    ensures Grants(g, a, tick, events) == 0
    ensures var before := Run(g, a, tick, events);
      && before.charges == Recharged(g.charges, a, |events|)
      && (AttackGranted(before, a, tick + |events| + 1, Attempt) <==>
            tick + |events| + 1 == PromisedTick(g, tick) && Recharge(before.charges, a).charges > 0)
  {
    hide Run, Undisturbed, OnSchedule, ValidSchedule, LastOffset, Recharge;
    if g.burst.Some? { StillToCome(g.burst.value, tick); }
    LockEnds(g, a, tick, events);
  }

  /** A dash approved during a burst: the snapshot of tick 2 promises tick 4, and an idle tick later the attack at 4 is refused. */
  lemma DashOutlastsBurst()
    ensures var a := Loadout(3, 45, Some(Schedule(2, 2, [])), ReloadDash(9), 300);
      var events := [Attempt, Event(false, Input(true, false), false)];
      var g := Run(Fresh(a), a, 0, events);
      && ValidLoadout(a) && AttackReadyTick(g, false) == 4 && !Reliable(g, a)
      && var idle := Event(false, Idle, false);
      && !Disturbs(g, a, 3, idle)
      && g.charges.charges == 3 && !AttackGranted(Tick(g, a, 3, idle), a, 4, Attempt)
  {
    var a := Loadout(3, 45, Some(Schedule(2, 2, [])), ReloadDash(9), 300);
    var skill := Event(false, Input(true, false), false);
    assert [Attempt, skill][..1] == [Attempt] && [Attempt][..0] == [];
    assert Run(Fresh(a), a, 0, [Attempt]) == Tick(Fresh(a), a, 1, Attempt);
    assert Run(Fresh(a), a, 0, [Attempt, skill]) == Tick(Tick(Fresh(a), a, 1, Attempt), a, 2, skill);
  }

  /** A skill's burst does not lock a normal attack of another kind: promised tick 18, it is granted at tick 2. */
  lemma SkillBurstLocksNothing()
    ensures var s := Schedule(10, 0, [0, 2, 4, 6, 7, 9, 11, 13, 14, 16]);
      var a := Loadout(3, 45, None, BurstProjectile(s), 300);
      var g := Run(Fresh(a), a, 0, [Event(false, Input(true, false), false)]);
      && ValidLoadout(a) && AttackReadyTick(g, false) == 18 && !Reliable(g, a)
      && AttackGranted(g, a, 2, Attempt)
  {
    var s := Schedule(10, 0, [0, 2, 4, 6, 7, 9, 11, 13, 14, 16]);
    var a := Loadout(3, 45, None, BurstProjectile(s), 300);
    var skill := Event(false, Input(true, false), false);
    assert [skill][..0] == [];
    assert Run(Fresh(a), a, 0, [skill]) == Tick(Fresh(a), a, 1, skill);
  }
}
