/**
 One room: every critical section that holds the room's mutex, as a function from the room to what the
 section leaves behind. The five ticker and stop-channel pairs are one map, in which a kind is present
 while its fields are non-nil. A section that creates a pair and fails to launch its worker, or detaches
 one, hands it on to be stopped.
 */
module RoomLifecycle {
  datatype Phase = Forming | Matched | Loading | Starting | Started

  datatype Kind = BotFill | Attach | Ready | Countdown | Gameplay

  /** A ticker with its stop channel, known by its room, its field and the section that created it. */
  datatype Timer = Timer(room: nat, kind: Kind, serial: nat)

  datatype Participant = Participant(id: nat, isBot: bool)

  /** `clients` and `reservations` name the session or the reservation that a player id maps to. */
  datatype Room = Room(
    ref: nat,
    name: nat,
    capacity: nat,
    players: seq<Participant>,
    removed: bool,
    ending: bool,
    started: bool,
    phase: Phase,
    ready: set<nat>,
    clients: map<nat, nat>,
    reservations: map<nat, nat>,
    countdown: nat,
    timers: map<Kind, Timer>)

  const COUNTDOWN_SECONDS: nat := 3

  function NewRoom(ref: nat, name: nat, capacity: nat): Room {
    Room(ref, name, capacity, [], false, false, false, Forming, {}, map[], map[], 0, map[])
  }

  function Ids(room: Room): set<nat> {
    set p | p in room.players :: p.id
  }

  function HumanCount(players: seq<Participant>): nat {
    if players == [] then 0
    else HumanCount(players[..|players| - 1]) + if players[|players| - 1].isBot then 0 else 1
  }

  predicate AllAttached(room: Room) {
    && |room.players| == room.capacity
    && (forall p :: p in room.players && !p.isBot ==> p.id in room.clients)
    && HumanCount(room.players) > 0
  }

  predicate AllReady(room: Room) {
    && |room.players| == room.capacity
    && (forall p :: p in room.players && !p.isBot ==> p.id in room.ready)
    && HumanCount(room.players) > 0
  }

  predicate PreStart(room: Room) {
    !room.started && room.phase != Forming
  }

  // ---------- The helpers that run inside a section ----------

  /** A section at work on a room; `delta` is what it commits to the connected-clients counter. */
  datatype Work = Work(
    room: Room,
    serial: nat,
    launch: bool,
    armed: set<Timer>,
    detached: multiset<Timer>,
    stopped: multiset<Timer>,
    delta: int)

  predicate SamePlayers(w: Work, v: Work) {
    && v.room.players == w.room.players && v.room.ref == w.room.ref && v.room.capacity == w.room.capacity
    && v.serial == w.serial && v.launch == w.launch
  }

  predicate StaysOpen(w: Work, v: Work) {
    SamePlayers(w, v) && v.room.removed == w.room.removed
  }

  function Detach(w: Work, k: Kind): (v: Work)
    ensures StaysOpen(w, v) && v.room.phase == w.room.phase
  {
    if k !in w.room.timers then w
    else w.(room := w.room.(timers := w.room.timers - {k}), detached := w.detached + multiset{w.room.timers[k]})
  }

  function StopCountdown(w: Work): (v: Work)
    ensures StaysOpen(w, v)
  {
    if Countdown !in w.room.timers then w
    else
      w.(room := w.room.(timers := w.room.timers - {Countdown}),
         stopped := w.stopped + multiset{w.room.timers[Countdown]})
  }

  /** When workers may no longer be launched, countdown and gameplay stop the new pair at once, the others detach it. */
  function Arm(w: Work, k: Kind): (v: Work)
    ensures StaysOpen(w, v) && v.room.phase == w.room.phase
  {
    var t := Timer(w.room.ref, k, w.serial);
    var created := w.(armed := w.armed + {t});
    if w.launch then created.(room := w.room.(timers := w.room.timers[k := t]))
    else if k == Countdown || k == Gameplay then
      created.(room := w.room.(timers := w.room.timers - {k}), stopped := w.stopped + multiset{t})
    else created.(room := w.room.(timers := w.room.timers - {k}), detached := w.detached + multiset{t})
  }

  function Participants(ids: seq<nat>, isBot: bool): seq<Participant> {
    seq(|ids|, i requires 0 <= i < |ids| => Participant(ids[i], isBot))
  }

  function Append(w: Work, ids: seq<nat>, isBot: bool): Work {
    w.(room := w.room.(players := w.room.players + Participants(ids, isBot)))
  }

  function ArmBotFill(w: Work): (v: Work)
    ensures StaysOpen(w, v) && v.room.phase == w.room.phase
  {
    if w.room.removed || w.room.ending || w.room.started || w.room.phase != Forming
       || HumanCount(w.room.players) != 1 || BotFill in w.room.timers then w
    else Arm(w, BotFill)
  }

  function ArmAttach(w: Work): (v: Work)
    ensures StaysOpen(w, v) && v.room.phase == w.room.phase
  {
    if w.room.removed || w.room.ending || w.room.phase != Matched
       || HumanCount(w.room.players) == 0 || Attach in w.room.timers then w
    else Arm(w, Attach)
  }

  function ArmReady(w: Work): (v: Work)
    ensures StaysOpen(w, v) && v.room.phase == w.room.phase
  {
    if w.room.removed || w.room.ending || w.room.phase != Loading
       || HumanCount(w.room.players) == 0 || AllReady(w.room) || Ready in w.room.timers then w
    else Arm(w, Ready)
  }

  function MarkMatchedIfFull(w: Work): (v: Work)
    ensures StaysOpen(w, v)
    ensures v.room.phase == if |w.room.players| == w.room.capacity then Matched else w.room.phase
  {
    if |w.room.players| != w.room.capacity then w
    else ArmAttach(w.(room := w.room.(phase := Matched, ready := {})))
  }

  function StartCountdown(w: Work): (v: Work)
    ensures StaysOpen(w, v)
  {
    var quiet := Detach(w, Ready);
    Arm(quiet.(room := quiet.room.(phase := Starting, countdown := COUNTDOWN_SECONDS)), Countdown)
  }

  function AdvanceLoading(w: Work): (v: Work)
    ensures StaysOpen(w, v) && Rank(w.room.phase) <= Rank(v.room.phase)
  {
    if !PreStart(w.room) || w.room.phase != Matched || !AllAttached(w.room) then w
    else
      var loading := Detach(w.(room := w.room.(phase := Loading)), Attach);
      if AllReady(loading.room) then StartCountdown(loading) else ArmReady(loading)
  }

  function StartRoom(w: Work): (v: Work)
    ensures StaysOpen(w, v)
  {
    var quiet := StopCountdown(w);
    var begun := quiet.(room := quiet.room.(started := true, phase := Started, countdown := 0));
    if Gameplay in begun.room.timers then begun else Arm(begun, Gameplay)
  }

  function DetachAll(w: Work): (v: Work)
    ensures StaysOpen(w, v)
  {
    Detach(Detach(Detach(Detach(Detach(w, Countdown), BotFill), Attach), Ready), Gameplay)
  }

  function Remove(w: Work): (v: Work)
    ensures SamePlayers(w, v)
  {
    var bare := DetachAll(w);
    bare.(room := bare.room.(removed := true, clients := map[], reservations := map[]),
          delta := bare.delta - |bare.room.clients|)
  }

  // ---------- The critical sections ----------

  /**
   `admitted` stands for authentication, deadlines and finalized results; `due`, `hard` and `idle` for what
   the clock says; `chosen` for reserving identities and characters without an error.
   */
  datatype Action =
    | AddPlayer(id: nat)
    | Join(id: nat)
    | AddBots(ids: seq<nat>)
    | FillBots(timer: Timer, ids: seq<nat>, chosen: bool)
    | Reserve(player: nat, admitted: bool)
    | Rollback(player: nat, reservation: nat)
    | AttachClient(player: nat, reservation: nat, admitted: bool)
    | ReleaseClient(player: nat, session: nat)
    | MarkReady(player: nat, session: nat, due: bool)
    | CountdownTick(timer: Timer)
    | StartNow
    | GameplayTick(terminal: bool)
    | ExpireAttach(timer: Timer, due: bool)
    | ExpireReady(timer: Timer, due: bool)
    | FinishGameEnd
    | Delete
    | Expire(hard: bool, idle: bool)
    | ShutdownDetach

  predicate CanAcceptMatchmaking(room: Room, debugCapacity: nat) {
    && !room.removed && !room.ending && !room.started && room.phase == Forming
    && |room.players| < debugCapacity && |room.players| < room.capacity
  }

  predicate ReadyExpired(room: Room, timer: Timer, due: bool) {
    && !room.removed && !room.ending && room.phase == Loading
    && Ready in room.timers && room.timers[Ready] == timer && due
  }

  function Begin(room: Room, serial: nat, launch: bool): Work {
    Work(room, serial, launch, {}, multiset{}, multiset{}, 0)
  }

  function Joined(w: Work, id: nat): (v: Work)
    ensures StaysOpen(Append(w, [id], false), v)
  {
    var humans := HumanCount(w.room.players);
    var matched := MarkMatchedIfFull(Append(w, [id], false));
    if humans == 0 then ArmBotFill(matched)
    else if |matched.room.players| == matched.room.capacity then Detach(matched, BotFill)
    else matched
  }

  function BotsAdded(w: Work, ids: seq<nat>): (v: Work)
    ensures StaysOpen(Append(w, ids, true), v)
  {
    var matched := MarkMatchedIfFull(Append(w, ids, true));
    AdvanceLoading(if |matched.room.players| == matched.room.capacity then Detach(matched, BotFill) else matched)
  }

  function FilledUp(w: Work, ids: seq<nat>): (v: Work)
    ensures StaysOpen(Append(w, ids, true), v)
  {
    AdvanceLoading(MarkMatchedIfFull(Append(w, ids, true)))
  }

  function BotsFilled(w: Work, ids: seq<nat>, chosen: bool): (v: Work)
    ensures StaysOpen(w, v) || StaysOpen(Append(w, ids, true), v)
  {
    var remaining := w.room.capacity - |w.room.players|;
    var quiet := Detach(w, BotFill);
    if !chosen || |ids| != (if remaining > 0 then remaining else 0) then quiet
    else FilledUp(quiet, ids)
  }

  function WithClient(room: Room, player: nat, session: nat): Room {
    room.(reservations := room.reservations - {player}, clients := room.clients[player := session])
  }

  function ClientAttached(w: Work, player: nat): (v: Work)
    ensures StaysOpen(w, v)
  {
    AdvanceLoading(w.(room := WithClient(w.room, player, w.serial), delta := w.delta + 1))
  }

  function ClientReleased(w: Work, player: nat): (v: Work)
    ensures SamePlayers(w, v)
  {
    var left := w.(room := w.room.(clients := w.room.clients - {player}, ready := w.room.ready - {player}),
                   delta := w.delta - 1);
    if PreStart(left.room) then Remove(left) else left
  }

  function PlayerReady(w: Work, player: nat): (v: Work)
    ensures StaysOpen(w, v)
  {
    var marked := w.(room := w.room.(ready := w.room.ready + {player}));
    if marked.room.phase == Loading && AllReady(marked.room) then StartCountdown(marked) else marked
  }

  function Newcomers(a: Action): seq<Participant> {
    match a
    case AddPlayer(id) => [Participant(id, false)]
    case Join(id) => [Participant(id, false)]
    case AddBots(ids) => Participants(ids, true)
    case FillBots(_, ids, _) => Participants(ids, true)
    case _ => []
  }

  function Section(room: Room, a: Action, serial: nat, launch: bool, debugCapacity: nat): Work {
    var w := Begin(room, serial, launch);
    match a
    case AddPlayer(id) =>
      if room.removed || room.ending || room.phase != Forming || |room.players| >= debugCapacity then w
      else Append(w, [id], false)
    case Join(id) => if CanAcceptMatchmaking(room, debugCapacity) then Joined(w, id) else w
    case AddBots(ids) =>
      if room.removed || room.ending || room.started || room.phase != Forming
         || |ids| > room.capacity - |room.players| then w
      else BotsAdded(w, ids)
    case FillBots(timer, ids, chosen) =>
      if room.removed || room.ending || room.started || room.phase != Forming
         || BotFill !in room.timers || room.timers[BotFill] != timer then w
      else BotsFilled(w, ids, chosen)
    case Reserve(player, admitted) =>
      if room.removed || room.ending || Participant(player, false) !in room.players || !admitted
         || player in room.clients || player in room.reservations then w
      else w.(room := room.(reservations := room.reservations[player := serial]))
    case Rollback(player, reservation) =>
      if room.removed || player !in room.reservations || room.reservations[player] != reservation then w
      else w.(room := room.(reservations := room.reservations - {player}))
    case AttachClient(player, reservation, admitted) =>
      if room.removed || room.ending || !admitted
         || player !in room.reservations || room.reservations[player] != reservation then w
      else ClientAttached(w, player)
    case ReleaseClient(player, session) =>
      if room.removed || player !in room.clients || room.clients[player] != session then w
      else ClientReleased(w, player)
    case MarkReady(player, session, due) =>
      if room.removed || !PreStart(room) || player !in room.clients || room.clients[player] != session then w
      else if Ready in room.timers && ReadyExpired(room, room.timers[Ready], due) then Remove(w)
      else PlayerReady(w, player)
    case CountdownTick(timer) =>
      if room.removed || Countdown !in room.timers || room.timers[Countdown] != timer || room.phase != Starting then w
      else if room.countdown > 1 then w.(room := room.(countdown := room.countdown - 1))
      else StartRoom(w)
    case StartNow =>
      if room.removed || room.ending || room.players == [] then w
      else StartRoom(Detach(Detach(Detach(w, BotFill), Attach), Ready))
    case GameplayTick(terminal) =>
      if room.removed || room.ending || !room.started || !terminal then w
      else Detach(w.(room := room.(ending := true)), Gameplay)
    case ExpireAttach(timer, due) =>
      if room.removed || room.ending || room.phase != Matched
         || Attach !in room.timers || room.timers[Attach] != timer || !due then w
      else Remove(w)
    case ExpireReady(timer, due) => if ReadyExpired(room, timer, due) then Remove(w) else w
    case FinishGameEnd => if room.removed || !room.ending then w else Remove(w)
    case Delete => if room.removed || room.ending then w else Remove(w)
    case Expire(hard, idle) =>
      if room.removed || room.ending || !(hard || (room.clients == map[] && room.reservations == map[] && idle)) then w
      else Remove(w)
    case ShutdownDetach => if room.removed then w else Remove(w)
  }

  // ---------- What every section keeps ----------

  ghost predicate DistinctIds(players: seq<Participant>) {
    forall i, j :: 0 <= i < j < |players| ==> players[i].id != players[j].id
  }

  ghost predicate Shaped(room: Room) {
    && DistinctIds(room.players)
    && (forall k :: k in room.timers ==> room.timers[k].room == room.ref && room.timers[k].kind == k)
    && (forall id :: id in room.clients || id in room.reservations ==> Participant(id, false) in room.players)
    && room.clients.Keys !! room.reservations.Keys
    && (room.started <==> room.phase == Started)
    && (room.ending ==> room.started)
    && (room.removed ==> room.timers == map[] && room.clients == map[] && room.reservations == map[])
  }

  /** Only a full room leaves the forming phase by itself, and no room waits for something that already holds. */
  ghost predicate Phased(room: Room) {
    && (room.phase in {Matched, Loading, Starting} ==> |room.players| == room.capacity)
    && (!room.removed ==>
          && (room.phase == Matched ==> !AllAttached(room))
          && (room.phase == Loading ==> AllAttached(room) && !AllReady(room))
          && (room.phase == Starting ==> AllAttached(room) && AllReady(room) && 1 <= room.countdown <= COUNTDOWN_SECONDS))
  }

  function PhaseOf(k: Kind): Phase {
    match k
    case BotFill => Forming
    case Attach => Matched
    case Ready => Loading
    case Countdown => Starting
    case Gameplay => Started
  }

  ghost predicate Timed(room: Room) {
    && (forall k :: k in room.timers ==> room.phase == PhaseOf(k))
    && (BotFill in room.timers ==> HumanCount(room.players) > 0)
    && (Gameplay in room.timers ==> !room.ending)
  }

  ghost predicate Sound(room: Room) {
    Shaped(room) && Phased(room) && Timed(room)
  }

  /** While workers can be launched, whatever a live room waits for has its timer running. */
  ghost predicate Guarded(room: Room) {
    !room.removed ==>
      && (room.phase == Matched && HumanCount(room.players) > 0 ==> Attach in room.timers)
      && (room.phase == Loading ==> Ready in room.timers)
      && (room.phase == Starting ==> Countdown in room.timers)
      && (room.phase == Started && !room.ending ==> Gameplay in room.timers)
  }

  function Rank(p: Phase): nat {
    match p
    case Forming => 0
    case Matched => 1
    case Loading => 2
    case Starting => 3
    case Started => 4
  }

  predicate Holds(room: Room, t: Timer) {
    t.kind in room.timers && room.timers[t.kind] == t
  }

  function Count(b: bool): nat {
    if b then 1 else 0
  }

  /** Every pair the room held or the section created is now in exactly one place. */
  ghost predicate Balanced(room: Room, w: Work) {
    forall t ::
      Count(Holds(w.room, t)) + w.detached[t] + w.stopped[t] == Count(Holds(room, t)) + Count(t in w.armed)
  }

  ghost predicate FreshlyArmed(room: Room, w: Work) {
    forall t :: t in w.armed ==> t.room == room.ref && t.serial == w.serial
  }

  ghost predicate SameRoom(before: Room, after: Room) {
    && after.ref == before.ref && after.name == before.name && after.capacity == before.capacity
    && before.players <= after.players
    && (before.removed ==> after == before)
    && Rank(before.phase) <= Rank(after.phase)
  }

  /** The identities a section would append are new to the room. */
  ghost predicate Appendable(room: Room, a: Action) {
    match a
    case AddPlayer(id) => id !in Ids(room)
    case Join(id) => id !in Ids(room)
    case AddBots(ids) => NewIds(room, ids)
    case FillBots(_, ids, _) => NewIds(room, ids)
    case _ => true
  }

  ghost predicate NewIds(room: Room, ids: seq<nat>) {
    && (forall i, j :: 0 <= i < j < |ids| ==> ids[i] != ids[j])
    && (forall i :: 0 <= i < |ids| ==> ids[i] !in Ids(room))
  }

  // ---------- Where the timers go ----------

  /** The timers of a section in progress: typed by their field, created once, and none of them lost. */
  ghost predicate Accounted(room: Room, w: Work) {
    && w.room.ref == room.ref
    && Balanced(room, w) && FreshlyArmed(room, w)
    && TypedTimers(w.room)
  }

  ghost predicate TypedTimers(room: Room) {
    forall k :: k in room.timers ==> room.timers[k].room == room.ref && room.timers[k].kind == k
  }

  ghost predicate Unarmed(w: Work, kinds: set<Kind>) {
    forall t :: t in w.armed ==> t.kind !in kinds
  }

  ghost predicate OnlyTimers(room: Room, kinds: set<Kind>) {
    forall k :: k in room.timers ==> k in kinds
  }

  lemma SameTimers(room: Room, w: Work, v: Work)
    requires Accounted(room, w)
    requires v.room.timers == w.room.timers && v.room.ref == w.room.ref && v.serial == w.serial
    requires v.armed == w.armed && v.detached == w.detached && v.stopped == w.stopped
    ensures Accounted(room, v)
  {
    forall t
      ensures Count(Holds(v.room, t)) + v.detached[t] + v.stopped[t] == Count(Holds(room, t)) + Count(t in v.armed)
    {
      assert Count(Holds(w.room, t)) + w.detached[t] + w.stopped[t] == Count(Holds(room, t)) + Count(t in w.armed);
    }
  }

  lemma DetachAccounts(room: Room, w: Work, k: Kind)
    requires Accounted(room, w)
    ensures Accounted(room, Detach(w, k))
    ensures Detach(w, k) == w.(room := w.room.(timers := w.room.timers - {k}), detached := Detach(w, k).detached)
  {
    var after := Detach(w, k);
    if k !in w.room.timers {
      assert w.room.timers - {k} == w.room.timers;
    }
    forall t
      ensures Count(Holds(after.room, t)) + after.detached[t] + after.stopped[t] == Count(Holds(room, t)) + Count(t in after.armed)
    {
      assert Count(Holds(w.room, t)) + w.detached[t] + w.stopped[t] == Count(Holds(room, t)) + Count(t in w.armed);
    }
  }

  lemma StopAccounts(room: Room, w: Work)
    requires Accounted(room, w)
    ensures Accounted(room, StopCountdown(w))
    ensures StopCountdown(w)
         == w.(room := w.room.(timers := w.room.timers - {Countdown}), stopped := StopCountdown(w).stopped)
  {
    var after := StopCountdown(w);
    if Countdown !in w.room.timers {
      assert w.room.timers - {Countdown} == w.room.timers;
    }
    forall t
      ensures Count(Holds(after.room, t)) + after.detached[t] + after.stopped[t] == Count(Holds(room, t)) + Count(t in after.armed)
    {
      assert Count(Holds(w.room, t)) + w.detached[t] + w.stopped[t] == Count(Holds(room, t)) + Count(t in w.armed);
    }
  }

  /** Creating a pair over a field that is still in use would lose the old one. */
  lemma ArmAccounts(room: Room, w: Work, k: Kind)
    requires Accounted(room, w) && k !in w.room.timers && Unarmed(w, {k})
    ensures Accounted(room, Arm(w, k))
    ensures ArmsOnly(w, Arm(w, k), k)
  {
    hide Balanced, Arm;
    ArmsFresh(w, k);
    ArmBalances(room, w, k);
  }

  lemma ArmsFresh(w: Work, k: Kind)
    requires k !in w.room.timers
    ensures ArmsOnly(w, Arm(w, k), k)
  {
    assert w.room.timers - {k} == w.room.timers;
  }

  lemma ArmBalances(room: Room, w: Work, k: Kind)
    requires Balanced(room, w) && k !in w.room.timers && Unarmed(w, {k}) && TypedTimers(w.room)
    ensures Balanced(room, Arm(w, k))
  {
    hide Holds, Count, Arm, Unarmed, TypedTimers;
    var after := Arm(w, k);
    forall t
      ensures Count(Holds(after.room, t)) + after.detached[t] + after.stopped[t] == Count(Holds(room, t)) + Count(t in after.armed)
    {
      ArmBalancesOne(room, w, k, t);
    }
  }

  ghost predicate ArmsOnly(w: Work, v: Work, k: Kind) {
    && v.room == w.room.(timers := if w.launch then w.room.timers[k := Timer(w.room.ref, k, w.serial)] else w.room.timers)
    && v.armed == w.armed + {Timer(w.room.ref, k, w.serial)}
    && v.delta == w.delta && v.launch == w.launch && v.serial == w.serial
  }

  lemma ArmBalancesOne(room: Room, w: Work, k: Kind, t: Timer)
    requires Count(Holds(w.room, t)) + w.detached[t] + w.stopped[t] == Count(Holds(room, t)) + Count(t in w.armed)
    requires k !in w.room.timers && Unarmed(w, {k})
    requires TypedTimers(w.room)
    ensures var v := Arm(w, k);
      Count(Holds(v.room, t)) + v.detached[t] + v.stopped[t] == Count(Holds(room, t)) + Count(t in v.armed)
  {
    if t == Timer(w.room.ref, k, w.serial) {
      ArmCountsCreated(w, k);
    } else {
      ArmLeavesOthers(w, k, t);
    }
  }

  lemma ArmCountsCreated(w: Work, k: Kind)
    requires k !in w.room.timers && Unarmed(w, {k}) && TypedTimers(w.room)
    ensures var v := Arm(w, k);
      var t := Timer(w.room.ref, k, w.serial);
      && t !in w.armed && t in v.armed && !Holds(w.room, t)
      && Count(Holds(v.room, t)) + v.detached[t] + v.stopped[t] == w.detached[t] + w.stopped[t] + 1
  {
    assert w.room.timers - {k} == w.room.timers;
    assert w.launch ==> Holds(Arm(w, k).room, Timer(w.room.ref, k, w.serial));
  }

  lemma ArmLeavesOthers(w: Work, k: Kind, t: Timer)
    requires k !in w.room.timers && TypedTimers(w.room) && t != Timer(w.room.ref, k, w.serial)
    ensures var v := Arm(w, k);
      (Holds(v.room, t) <==> Holds(w.room, t)) && v.detached[t] == w.detached[t] && v.stopped[t] == w.stopped[t]
      && (t in v.armed <==> t in w.armed)
  {
    assert w.room.timers - {k} == w.room.timers;
  }

  lemma DetachAllAccounts(room: Room, w: Work)
    requires Accounted(room, w)
    ensures Accounted(room, DetachAll(w))
    ensures DetachAll(w) == w.(room := w.room.(timers := map[]), detached := DetachAll(w).detached)
  {
    hide Accounted, Detach;
    var d1 := Detach(w, Countdown);
    var d2 := Detach(d1, BotFill);
    var d3 := Detach(d2, Attach);
    var d4 := Detach(d3, Ready);
    DetachAccounts(room, w, Countdown);
    DetachAccounts(room, d1, BotFill);
    DetachAccounts(room, d2, Attach);
    DetachAccounts(room, d3, Ready);
    DetachAccounts(room, d4, Gameplay);
    assert w.room.timers - {Countdown} - {BotFill} - {Attach} - {Ready} - {Gameplay} == map[] by {
      forall k | k in w.room.timers
        ensures k in {Countdown, BotFill, Attach, Ready, Gameplay}
      {
        match k
        case Countdown =>
        case BotFill =>
        case Attach =>
        case Ready =>
        case Gameplay =>
      }
    }
  }

  lemma RemoveAccounts(room: Room, w: Work)
    requires Accounted(room, w)
    ensures Accounted(room, Remove(w))
    ensures Remove(w).room == w.room.(removed := true, timers := map[], clients := map[], reservations := map[])
    ensures Remove(w).delta == w.delta - |w.room.clients|
  {
    hide Accounted, DetachAll;
    DetachAllAccounts(room, w);
    SameTimers(room, DetachAll(w), Remove(w));
  }

  // ---------- The helpers, step by step ----------

  lemma MarkMatchedAccounts(room: Room, w: Work)
    requires Accounted(room, w) && w.room.phase == Forming && w.armed == {}
    requires !w.room.removed && !w.room.ending && |w.room.players| == w.room.capacity
    requires OnlyTimers(w.room, {BotFill})
    ensures var v := MarkMatchedIfFull(w);
      && Accounted(room, v) && Unarmed(v, {BotFill, Ready, Countdown, Gameplay})
      && v.room == w.room.(phase := Matched, ready := {}, timers := v.room.timers)
      && OnlyTimers(v.room, {BotFill, Attach}) && v.delta == w.delta && v.launch == w.launch && v.serial == w.serial
      && (w.launch && HumanCount(v.room.players) > 0 ==> Attach in v.room.timers)
      && (BotFill in v.room.timers ==> BotFill in w.room.timers)
  {
    hide Accounted, Arm;
    var matched := w.(room := w.room.(phase := Matched, ready := {}));
    SameTimers(room, w, matched);
    if HumanCount(matched.room.players) != 0 {
      ArmAccounts(room, matched, Attach);
    }
  }

  lemma StartCountdownAccounts(room: Room, w: Work)
    requires Accounted(room, w) && OnlyTimers(w.room, {Ready}) && Unarmed(w, {Countdown})
    ensures var v := StartCountdown(w);
      && Accounted(room, v) && v.delta == w.delta && v.launch == w.launch
      && v.room == w.room.(phase := Starting, countdown := COUNTDOWN_SECONDS, timers := v.room.timers)
      && OnlyTimers(v.room, {Countdown}) && (w.launch ==> Countdown in v.room.timers)
  {
    hide Accounted, Arm, Detach;
    DetachAccounts(room, w, Ready);
    var quiet := Detach(w, Ready);
    var starting := quiet.(room := quiet.room.(phase := Starting, countdown := COUNTDOWN_SECONDS));
    SameTimers(room, quiet, starting);
    ArmAccounts(room, starting, Countdown);
  }

  lemma StartRoomAccounts(room: Room, w: Work)
    requires Accounted(room, w) && w.armed == {} && OnlyTimers(w.room, {Countdown, Gameplay})
    ensures var v := StartRoom(w);
      && Accounted(room, v) && v.delta == w.delta && v.launch == w.launch
      && v.room == w.room.(started := true, phase := Started, countdown := 0, timers := v.room.timers)
      && OnlyTimers(v.room, {Gameplay}) && (w.launch ==> Gameplay in v.room.timers)
  {
    hide Accounted, Arm, StopCountdown;
    StopAccounts(room, w);
    var quiet := StopCountdown(w);
    var begun := quiet.(room := quiet.room.(started := true, phase := Started, countdown := 0));
    SameTimers(room, quiet, begun);
    if Gameplay !in begun.room.timers {
      ArmAccounts(room, begun, Gameplay);
    }
  }

  /** What advancing a matched room comes to: it stays, or goes on to Loading, or straight to the countdown. */
  lemma AdvanceAccounts(room: Room, w: Work)
    requires Accounted(room, w) && Unarmed(w, {Ready, Countdown})
    requires w.room.phase == Matched && !w.room.started && !w.room.removed && !w.room.ending
    requires OnlyTimers(w.room, {Attach})
    ensures var v := AdvanceLoading(w);
      && Accounted(room, v) && v.delta == w.delta && v.launch == w.launch
      && (if !AllAttached(w.room) then v == w
          else if AllReady(w.room) then
            && v.room == w.room.(phase := Starting, countdown := COUNTDOWN_SECONDS, timers := v.room.timers)
            && OnlyTimers(v.room, {Countdown}) && (w.launch ==> Countdown in v.room.timers)
          else
            && v.room == w.room.(phase := Loading, timers := v.room.timers)
            && OnlyTimers(v.room, {Ready}) && (w.launch ==> Ready in v.room.timers))
  {
    hide Accounted, Arm, Detach, StartCountdown;
    if AllAttached(w.room) {
      var entered := w.(room := w.room.(phase := Loading));
      SameTimers(room, w, entered);
      DetachAccounts(room, entered, Attach);
      var loading := Detach(entered, Attach);
      assert AllReady(loading.room) <==> AllReady(w.room);
      if AllReady(loading.room) {
        StartCountdownAccounts(room, loading);
      } else {
        ArmAccounts(room, loading, Ready);
      }
    }
  }

  // ---------- What a section makes of the room ----------

  /** A section's result on a live room. */
  ghost predicate Kept(room: Room, w: Work) {
    && Accounted(room, w) && Sound(w.room) && SameRoom(room, w.room)
    && w.delta == |w.room.clients| - |room.clients|
    && (w.launch && Guarded(room) ==> Guarded(w.room))
  }

  lemma AdvanceKeeps(room: Room, w: Work)
    requires Accounted(room, w) && Unarmed(w, {Ready, Countdown}) && Shaped(w.room)
    requires w.room.phase == Matched && |w.room.players| == w.room.capacity
    requires !w.room.removed && !w.room.ending && OnlyTimers(w.room, {Attach})
    ensures Sound(AdvanceLoading(w).room)
    ensures w.launch && (HumanCount(w.room.players) > 0 ==> Attach in w.room.timers) ==> Guarded(AdvanceLoading(w).room)
    ensures var r := AdvanceLoading(w).room;
      r.players == w.room.players && r.clients == w.room.clients && !r.removed && Rank(r.phase) >= 1
      && r.ref == w.room.ref && r.name == w.room.name && r.capacity == w.room.capacity
    ensures Accounted(room, AdvanceLoading(w)) && AdvanceLoading(w).delta == w.delta && AdvanceLoading(w).launch == w.launch
  {
    hide AdvanceLoading, Balanced, FreshlyArmed, DistinctIds;
    AdvanceAccounts(room, w);
  }

  lemma {:induction false} HumansAppended(players: seq<Participant>, more: seq<Participant>)
    ensures HumanCount(players) <= HumanCount(players + more)
    ensures (forall p :: p in more ==> p.isBot) ==> HumanCount(players + more) == HumanCount(players)
    decreases |more|
  {
    if more == [] {
      assert players + more == players;
    } else {
      var init := more[..|more| - 1];
      HumansAppended(players, init);
      assert (players + more)[..|players + more| - 1] == players + init;
      assert forall p :: p in init ==> p in more;
    }
  }

  lemma DistinctAppended(room: Room, ids: seq<nat>, isBot: bool)
    requires DistinctIds(room.players) && NewIds(room, ids)
    ensures DistinctIds(room.players + Participants(ids, isBot))
  {
    var after := room.players + Participants(ids, isBot);
    forall i, j | 0 <= i < j < |after|
      ensures after[i].id != after[j].id
    {
      if i < |room.players| <= j {
        assert ids[j - |room.players|] !in Ids(room);
        assert room.players[i] in room.players;
      }
    }
  }

  lemma AppendKeepsShape(w: Work, ids: seq<nat>, isBot: bool)
    requires Shaped(w.room) && !w.room.removed && NewIds(w.room, ids)
    ensures Shaped(Append(w, ids, isBot).room)
    ensures var r := Append(w, ids, isBot).room;
      && r.players == w.room.players + Participants(ids, isBot)
      && HumanCount(w.room.players) <= HumanCount(r.players)
      && (isBot ==> HumanCount(r.players) == HumanCount(w.room.players))
  {
    DistinctAppended(w.room, ids, isBot);
    HumansAppended(w.room.players, Participants(ids, isBot));
    assert forall p :: p in w.room.players ==> p in w.room.players + Participants(ids, isBot);
    hide DistinctIds, NewIds;
  }

  lemma AppendAccounts(room: Room, w: Work, ids: seq<nat>, isBot: bool)
    requires Accounted(room, w)
    ensures Accounted(room, Append(w, ids, isBot))
  {
    hide Accounted;
    SameTimers(room, w, Append(w, ids, isBot));
  }

  lemma HumansCounted(players: seq<Participant>, i: nat)
    requires i < |players| && !players[i].isBot
    ensures HumanCount(players) > 0
  {
    if i < |players| - 1 {
      HumansCounted(players[..|players| - 1], i);
    }
  }

  lemma BeginAccounts(room: Room, serial: nat, launch: bool)
    requires Shaped(room)
    ensures Accounted(room, Begin(room, serial, launch))
  {
  }

  /** A room that could still form, with players appended. */
  ghost predicate StillForming(room: Room, w: Work) {
    && Sound(room) && !room.removed && !room.ending && room.phase == Forming
    && Accounted(room, w) && Shaped(w.room) && w.armed == {} && w.delta == 0
    && w.room == room.(players := w.room.players, timers := w.room.timers)
    && room.players <= w.room.players && HumanCount(room.players) <= HumanCount(w.room.players)
    && OnlyTimers(w.room, {BotFill}) && w.room.timers.Keys <= room.timers.Keys
  }

  lemma StillFormingKept(room: Room, w: Work)
    requires StillForming(room, w)
    ensures Kept(room, w)
  {
    hide Accounted, DistinctIds;
  }

  lemma HumanAppended(room: Room, serial: nat, launch: bool, id: nat)
    requires Sound(room) && !room.removed && !room.ending && room.phase == Forming && id !in Ids(room)
    ensures var w := Append(Begin(room, serial, launch), [id], false);
      && StillForming(room, w) && w.room.timers == room.timers && Participant(id, false) in w.room.players
      && HumanCount(w.room.players) > 0
  {
    var begin := Begin(room, serial, launch);
    BeginAccounts(room, serial, launch);
    var w := Append(begin, [id], false);
    AppendKeepsShape(begin, [id], false);
    AppendAccounts(room, begin, [id], false);
    assert w.room.players[|room.players|] == Participant(id, false);
    HumansCounted(w.room.players, |room.players|);
    hide Accounted, DistinctIds, HumanCount;
  }

  /** The newcomer is not attached, so a room that its arrival fills waits for it. */
  lemma FullByNewcomer(room: Room, w: Work, id: nat)
    requires StillForming(room, w) && |w.room.players| == w.room.capacity
    requires Participant(id, false) in w.room.players && id !in room.clients
    requires HumanCount(w.room.players) > 0
    requires HumanCount(room.players) == 0 ==> BotFill !in w.room.timers
    ensures var matched := MarkMatchedIfFull(w);
      && matched.room.phase == Matched && |matched.room.players| == matched.room.capacity
      && Kept(room, if HumanCount(room.players) == 0 then matched else Detach(matched, BotFill))
  {
    hide MarkMatchedIfFull, Detach, Accounted, HumanCount, DistinctIds;
    MarkMatchedAccounts(room, w);
    var matched := MarkMatchedIfFull(w);
    DetachAccounts(room, matched, BotFill);
    TypedShape(room, w);
    TypedShape(room, matched);
    TypedShape(room, Detach(matched, BotFill));
  }

  lemma TypedShape(room: Room, w: Work)
    requires Accounted(room, w)
    ensures TypedTimers(w.room)
  {
  }

  lemma JoinedKeeps(room: Room, id: nat, serial: nat, launch: bool)
    requires Sound(room) && !room.removed && !room.ending && room.phase == Forming && id !in Ids(room)
    ensures Kept(room, Joined(Begin(room, serial, launch), id))
  {
    hide Accounted, HumanCount, Kept, Detach, Append, ArmAttach, DistinctIds, Arm, StillForming;
    var w := Append(Begin(room, serial, launch), [id], false);
    HumanAppended(room, serial, launch, id);
    if |w.room.players| == w.room.capacity {
      NewcomerNotAttached(room, id);
      FullByNewcomer(room, w, id);
    } else {
      StillFormingKept(room, w);
      BotFillArmed(room, w);
    }
  }

  lemma BotFillArmed(room: Room, w: Work)
    requires StillForming(room, w)
    ensures Kept(room, ArmBotFill(w))
  {
    hide Arm, Accounted, HumanCount, Sound, Guarded;
    StillFormingKept(room, w);
    if HumanCount(w.room.players) == 1 && BotFill !in w.room.timers {
      ArmAccounts(room, w, BotFill);
      BotFillFits(w.room, Timer(w.room.ref, BotFill, w.serial));
    }
  }

  lemma BotFillFits(room: Room, timer: Timer)
    requires Sound(room) && room.phase == Forming && !room.removed && HumanCount(room.players) > 0
    requires timer.room == room.ref && timer.kind == BotFill
    ensures Sound(room.(timers := room.timers[BotFill := timer])) && Guarded(room.(timers := room.timers[BotFill := timer]))
  {
    hide HumanCount, DistinctIds;
  }

  lemma NewcomerNotAttached(room: Room, id: nat)
    requires Shaped(room) && id !in Ids(room)
    ensures id !in room.clients
  {
    assert id in room.clients ==> Participant(id, false) in room.players;
  }

  lemma BotsAppended(room: Room, w: Work, ids: seq<nat>)
    requires StillForming(room, w) && w.room.players == room.players && NewIds(room, ids)
    ensures var v := Append(w, ids, true);
      StillForming(room, v) && |v.room.players| == |room.players| + |ids| && v.launch == w.launch
      && v.room.timers == w.room.timers
  {
    hide Accounted, DistinctIds, NewIds, HumanCount;
    assert NewIds(w.room, ids) by { SameIds(room, w.room, ids); }
    AppendKeepsShape(w, ids, true);
    AppendAccounts(room, w, ids, true);
  }

  lemma SameIds(room: Room, other: Room, ids: seq<nat>)
    requires NewIds(room, ids) && other.players == room.players
    ensures NewIds(other, ids)
  {
    assert Ids(other) == Ids(room);
  }

  /** A forming room that has just become full: matched, without its bot-fill timer, and advanced at once. */
  lemma FullAdvances(room: Room, w: Work, matched: Work)
    requires StillForming(room, w) && |w.room.players| == w.room.capacity
    requires matched == MarkMatchedIfFull(w) || matched == Detach(MarkMatchedIfFull(w), BotFill)
    requires OnlyTimers(matched.room, {Attach})
    ensures Kept(room, AdvanceLoading(matched))
  {
    hide Accounted, Shaped, Sound, StillForming, HumanCount, AllAttached, AllReady, MarkMatchedIfFull, Detach, AdvanceLoading,
         Guarded, SameRoom, Unarmed, OnlyTimers;
    FullIsMatched(room, w, matched);
    AdvanceKeeps(room, matched);
    MatchedOnward(room, matched, AdvanceLoading(matched));
  }

  /** What is known of the room between becoming full and being advanced. */
  ghost predicate NewlyMatched(room: Room, matched: Work) {
    && matched.room == room.(players := matched.room.players, phase := Matched, ready := {}, timers := matched.room.timers)
    && room.players <= matched.room.players && !room.removed && !room.ending && room.phase == Forming
    && matched.delta == 0
    && (matched.launch && HumanCount(matched.room.players) > 0 ==> Attach in matched.room.timers)
  }

  lemma FullIsMatched(room: Room, w: Work, matched: Work)
    requires StillForming(room, w) && |w.room.players| == w.room.capacity
    requires matched == MarkMatchedIfFull(w) || matched == Detach(MarkMatchedIfFull(w), BotFill)
    requires OnlyTimers(matched.room, {Attach})
    ensures NewlyMatched(room, matched) && |matched.room.players| == matched.room.capacity
    ensures Accounted(room, matched) && Unarmed(matched, {Ready, Countdown}) && Shaped(matched.room)
  {
    hide Accounted, DistinctIds, HumanCount, MarkMatchedIfFull, Detach;
    MarkMatchedAccounts(room, w);
    DetachAccounts(room, MarkMatchedIfFull(w), BotFill);
    TypedShape(room, matched);
  }

  lemma MatchedOnward(room: Room, matched: Work, w: Work)
    requires NewlyMatched(room, matched) && Accounted(room, w) && Sound(w.room)
    requires w.delta == matched.delta && w.launch == matched.launch
    requires w.launch && (HumanCount(matched.room.players) > 0 ==> Attach in matched.room.timers) ==> Guarded(w.room)
    requires w.room.players == matched.room.players && w.room.clients == matched.room.clients && !w.room.removed
    requires Rank(w.room.phase) >= 1 && w.room.ref == room.ref && w.room.name == room.name && w.room.capacity == room.capacity
    ensures Kept(room, w)
  {
    hide Accounted, Sound, Guarded, HumanCount;
  }

  lemma NotMatchedStays(w: Work)
    requires w.room.phase == Forming
    ensures AdvanceLoading(w) == w
  {
  }

  lemma BotsAddedKeeps(room: Room, ids: seq<nat>, serial: nat, launch: bool)
    requires Sound(room) && !room.removed && !room.ending && room.phase == Forming && NewIds(room, ids)
    ensures Kept(room, BotsAdded(Begin(room, serial, launch), ids))
  {
    hide Accounted, DistinctIds, HumanCount, NewIds, Append, Detach, AdvanceLoading, ArmAttach;
    var begin := Begin(room, serial, launch);
    BeginAccounts(room, serial, launch);
    BotsAppended(room, begin, ids);
    var w := Append(begin, ids, true);
    if |w.room.players| == w.room.capacity {
      MarkMatchedAccounts(room, w);
      DetachAccounts(room, MarkMatchedIfFull(w), BotFill);
      FullAdvances(room, w, Detach(MarkMatchedIfFull(w), BotFill));
    } else {
      StillFormingKept(room, w);
      NotMatchedStays(w);
    }
  }

  lemma BotsFilledKeeps(room: Room, ids: seq<nat>, chosen: bool, serial: nat, launch: bool)
    requires Sound(room) && !room.removed && !room.ending && room.phase == Forming && NewIds(room, ids)
    ensures Kept(room, BotsFilled(Begin(room, serial, launch), ids, chosen))
  {
    hide Accounted, DistinctIds, HumanCount, NewIds, Append, Detach, AdvanceLoading, ArmAttach;
    var begin := Begin(room, serial, launch);
    BeginAccounts(room, serial, launch);
    DetachAccounts(room, begin, BotFill);
    var quiet := Detach(begin, BotFill);
    TypedShape(room, quiet);
    StillFormingKept(room, quiet);
    BotsAppended(room, quiet, ids);
    var w := Append(quiet, ids, true);
    if |w.room.players| == w.room.capacity {
      MarkMatchedAccounts(room, w);
      FullAdvances(room, w, MarkMatchedIfFull(w));
    } else {
      StillFormingKept(room, w);
      NotMatchedStays(w);
    }
  }

  lemma WithClientShaped(room: Room, player: nat, session: nat)
    requires Shaped(room) && !room.removed && player in room.reservations
    ensures Shaped(WithClient(room, player, session))
    ensures |WithClient(room, player, session).clients| == |room.clients| + 1
  {
    hide DistinctIds;
    var after := WithClient(room, player, session);
    assert player !in room.clients.Keys;
    AddedKey(room.clients, player, session);
    MovedKey(room.clients, room.reservations, player, session);
  }

  /** A player moves from the reservations to the clients. */
  lemma MovedKey(clients: map<nat, nat>, reservations: map<nat, nat>, k: nat, v: nat)
    requires k in reservations && clients.Keys !! reservations.Keys
    ensures clients[k := v].Keys !! (reservations - {k}).Keys
    ensures forall id :: id in clients[k := v] || id in reservations - {k} ==> id in clients || id in reservations
  {
  }

  lemma AddedKey(m: map<nat, nat>, k: nat, v: nat)
    requires k !in m
    ensures |m[k := v]| == |m| + 1 && m[k := v].Keys == m.Keys + {k}
  {
    assert m[k := v].Keys == m.Keys + {k};
    MapSizes(m, m[k := v]);
  }

  lemma WithClientSound(room: Room, player: nat, session: nat)
    requires Sound(room) && !room.removed && player in room.reservations && room.phase != Matched
    ensures Sound(WithClient(room, player, session)) && (Guarded(room) ==> Guarded(WithClient(room, player, session)))
  {
    hide DistinctIds, HumanCount;
    WithClientShaped(room, player, session);
  }

  lemma ClientAttachedKeeps(room: Room, player: nat, serial: nat, launch: bool)
    requires Sound(room) && !room.removed && !room.ending && player in room.reservations
    ensures Kept(room, ClientAttached(Begin(room, serial, launch), player))
  {
    hide Accounted, DistinctIds, HumanCount, AdvanceLoading;
    var begin := Begin(room, serial, launch);
    BeginAccounts(room, serial, launch);
    var w := begin.(room := WithClient(room, player, serial), delta := 1);
    assert ClientAttached(begin, player) == AdvanceLoading(w);
    SameTimers(room, begin, w);
    WithClientShaped(room, player, serial);
    if room.phase == Matched {
      AdvanceKeeps(room, w);
    } else {
      hide Sound, Guarded, WithClient;
      WithClientSound(room, player, serial);
      StaysPut(w);
    }
  }

  lemma StaysPut(w: Work)
    requires w.room.phase != Matched
    ensures AdvanceLoading(w) == w
  {
  }

  lemma MapSizes(a: map<nat, nat>, b: map<nat, nat>)
    ensures |a| == |a.Keys| && |b| == |b.Keys|
  {
  }

  lemma ClientReleasedKeeps(room: Room, player: nat, serial: nat, launch: bool)
    requires Sound(room) && !room.removed && player in room.clients
    ensures Kept(room, ClientReleased(Begin(room, serial, launch), player))
  {
    hide Accounted, DistinctIds, HumanCount, Remove;
    var begin := Begin(room, serial, launch);
    BeginAccounts(room, serial, launch);
    var left := begin.(room := room.(clients := room.clients - {player}, ready := room.ready - {player}),
                       delta := begin.delta - 1);
    SameTimers(room, begin, left);
    assert left.room.clients.Keys == room.clients.Keys - {player};
    MapSizes(room.clients, left.room.clients);
    assert |left.room.clients| == |room.clients| - 1;
    if PreStart(room) {
      RemoveAccounts(room, left);
    } else {
      assert left.room.phase == Forming || left.room.phase == Started;
    }
  }

  lemma PlayerReadyKeeps(room: Room, player: nat, serial: nat, launch: bool)
    requires Sound(room) && !room.removed && PreStart(room) && player in room.clients
    ensures Kept(room, PlayerReady(Begin(room, serial, launch), player))
  {
    hide Accounted, DistinctIds, HumanCount, StartCountdown;
    var begin := Begin(room, serial, launch);
    BeginAccounts(room, serial, launch);
    var marked := begin.(room := room.(ready := room.ready + {player}));
    SameTimers(room, begin, marked);
    if room.phase == Loading && AllReady(marked.room) {
      StartCountdownAccounts(room, marked);
      TypedShape(room, StartCountdown(marked));
    }
  }

  lemma StartRoomKeeps(room: Room, w: Work)
    requires Sound(room) && !room.removed && !room.ending && Accounted(room, w) && w.armed == {} && w.delta == 0
    requires w.room == room.(timers := w.room.timers) && OnlyTimers(w.room, {Countdown, Gameplay})
    ensures Kept(room, StartRoom(w))
  {
    hide Accounted, DistinctIds, HumanCount, StartRoom;
    StartRoomAccounts(room, w);
    TypedShape(room, StartRoom(w));
  }

  lemma StartNowKeeps(room: Room, serial: nat, launch: bool)
    requires Sound(room) && !room.removed && !room.ending
    ensures Kept(room, StartRoom(Detach(Detach(Detach(Begin(room, serial, launch), BotFill), Attach), Ready)))
  {
    hide Accounted, Sound, Detach, Kept;
    var begin := Begin(room, serial, launch);
    BeginAccounts(room, serial, launch) by { assert Shaped(room) by { OfSound(room); } }
    var d1 := Detach(begin, BotFill);
    var d2 := Detach(d1, Attach);
    var d3 := Detach(d2, Ready);
    DetachAccounts(room, begin, BotFill);
    DetachAccounts(room, d1, Attach);
    DetachAccounts(room, d2, Ready);
    forall k | k in d3.room.timers
      ensures k in {Countdown, Gameplay}
    {
      match k
      case BotFill =>
      case Attach =>
      case Ready =>
      case Countdown =>
      case Gameplay =>
    }
    StartRoomKeeps(room, d3);
  }

  lemma OfSound(room: Room)
    requires Sound(room)
    ensures Shaped(room)
  {
  }

  lemma RemovedKeeps(room: Room, serial: nat, launch: bool)
    requires Sound(room) && !room.removed
    ensures Kept(room, Remove(Begin(room, serial, launch)))
  {
    hide Accounted, DistinctIds, HumanCount, Remove;
    BeginAccounts(room, serial, launch);
    RemoveAccounts(room, Begin(room, serial, launch));
  }

  lemma GameplayEnds(room: Room, serial: nat, launch: bool)
    requires Sound(room) && !room.removed && !room.ending && room.started
    ensures Kept(room, Detach(Begin(room, serial, launch).(room := room.(ending := true)), Gameplay))
  {
    hide Accounted, DistinctIds, HumanCount, Detach;
    var begin := Begin(room, serial, launch);
    BeginAccounts(room, serial, launch);
    var ended := begin.(room := room.(ending := true));
    SameTimers(room, begin, ended);
    DetachAccounts(room, ended, Gameplay);
    TypedShape(room, Detach(ended, Gameplay));
  }

  // ---------- Every section ----------

  lemma UnchangedKeeps(room: Room, serial: nat, launch: bool)
    requires Sound(room)
    ensures Kept(room, Begin(room, serial, launch))
  {
    BeginAccounts(room, serial, launch);
  }

  /** A section that only touches reservations or the countdown. */
  lemma TouchedKeeps(room: Room, after: Room, serial: nat, launch: bool)
    requires Sound(room) && !room.removed
    requires after == room.(reservations := after.reservations, countdown := after.countdown)
    requires after.reservations.Keys !! room.clients.Keys
    requires forall id :: id in after.reservations ==> Participant(id, false) in room.players
    requires after.phase == Starting ==> 1 <= after.countdown <= COUNTDOWN_SECONDS
    ensures Kept(room, Begin(room, serial, launch).(room := after))
  {
    hide Accounted, DistinctIds, HumanCount;
    BeginAccounts(room, serial, launch);
    SameTimers(room, Begin(room, serial, launch), Begin(room, serial, launch).(room := after));
  }

  lemma AppendedHumanKeeps(room: Room, id: nat, serial: nat, launch: bool)
    requires Sound(room) && !room.removed && !room.ending && room.phase == Forming && id !in Ids(room)
    ensures Kept(room, Append(Begin(room, serial, launch), [id], false))
  {
    hide StillForming, Kept, Append, Accounted;
    HumanAppended(room, serial, launch, id);
    StillFormingKept(room, Append(Begin(room, serial, launch), [id], false));
  }

  /**
   Whatever a critical section does, it leaves a sound room: the phase never goes back, the timers are those
   of the phase, none is lost or handed over twice, and the connected-clients counter moves as the clients do.
   */
  lemma SectionKeeps(room: Room, a: Action, serial: nat, launch: bool, debugCapacity: nat)
    requires Sound(room) && Appendable(room, a)
    ensures Kept(room, Section(room, a, serial, launch, debugCapacity))
  {
    hide Section, Kept, Sound;
    if room.removed {
      UnchangedKeeps(room, serial, launch);
      RemovedUnchanged(room, a, serial, launch, debugCapacity);
    } else if a.AddPlayer? || a.Join? || a.AddBots? || a.FillBots? {
      PlayersSectionKeeps(room, a, serial, launch, debugCapacity);
    } else if a.Reserve? || a.Rollback? || a.AttachClient? || a.ReleaseClient? || a.MarkReady? {
      ClientSectionKeeps(room, a, serial, launch, debugCapacity);
    } else {
      TimedSectionKeeps(room, a, serial, launch, debugCapacity);
    }
  }

  lemma PlayersSectionKeeps(room: Room, a: Action, serial: nat, launch: bool, debugCapacity: nat)
    requires Sound(room) && !room.removed && Appendable(room, a)
    requires a.AddPlayer? || a.Join? || a.AddBots? || a.FillBots?
    ensures Kept(room, Section(room, a, serial, launch, debugCapacity))
  {
    hide Kept, Sound, Append, Detach, Joined, BotsAdded, BotsFilled, Ids, Begin;
    UnchangedKeeps(room, serial, launch);
    if !room.ending && room.phase == Forming {
      match a
      case AddPlayer(id) => AppendedHumanKeeps(room, id, serial, launch);
      case Join(id) => JoinedKeeps(room, id, serial, launch);
      case AddBots(ids) => BotsAddedKeeps(room, ids, serial, launch);
      case FillBots(_, ids, chosen) => BotsFilledKeeps(room, ids, chosen, serial, launch);
    }
  }

  lemma ClientSectionKeeps(room: Room, a: Action, serial: nat, launch: bool, debugCapacity: nat)
    requires Sound(room) && !room.removed
    requires a.Reserve? || a.Rollback? || a.AttachClient? || a.ReleaseClient? || a.MarkReady?
    ensures Kept(room, Section(room, a, serial, launch, debugCapacity))
  {
    hide Kept, DistinctIds, HumanCount, AllAttached, AllReady, Remove, ClientAttached, ClientReleased, PlayerReady, Begin;
    UnchangedKeeps(room, serial, launch);
    match a
    case Reserve(player, _) =>
      if Participant(player, false) in room.players && player !in room.clients {
        TouchedKeeps(room, room.(reservations := room.reservations[player := serial]), serial, launch);
      }
    case Rollback(player, _) =>
      TouchedKeeps(room, room.(reservations := room.reservations - {player}), serial, launch);
    case AttachClient(player, _, _) =>
      if !room.ending && player in room.reservations { ClientAttachedKeeps(room, player, serial, launch); }
    case ReleaseClient(player, _) =>
      if player in room.clients { ClientReleasedKeeps(room, player, serial, launch); }
    case MarkReady(player, _, _) =>
      RemovedKeeps(room, serial, launch);
      if PreStart(room) && player in room.clients { PlayerReadyKeeps(room, player, serial, launch); }
  }

  lemma TimedSectionKeeps(room: Room, a: Action, serial: nat, launch: bool, debugCapacity: nat)
    requires Sound(room) && !room.removed
    requires !(a.AddPlayer? || a.Join? || a.AddBots? || a.FillBots?)
    requires !(a.Reserve? || a.Rollback? || a.AttachClient? || a.ReleaseClient? || a.MarkReady?)
    ensures Kept(room, Section(room, a, serial, launch, debugCapacity))
  {
    hide Kept, DistinctIds, HumanCount, AllAttached, AllReady, Remove, StartRoom, Detach, Begin;
    UnchangedKeeps(room, serial, launch);
    RemovedKeeps(room, serial, launch);
    match a
    case CountdownTick(_) =>
      if room.phase == Starting {
        if room.countdown > 1 {
          TouchedKeeps(room, room.(countdown := room.countdown - 1), serial, launch);
        } else {
          StartingStarts(room, serial, launch);
        }
      }
    case StartNow =>
      if !room.ending { StartNowKeeps(room, serial, launch); }
    case GameplayTick(_) =>
      if !room.ending && room.started { GameplayEnds(room, serial, launch); }
    case _ =>
  }

  lemma StartingStarts(room: Room, serial: nat, launch: bool)
    requires Sound(room) && !room.removed && room.phase == Starting
    ensures Kept(room, StartRoom(Begin(room, serial, launch)))
  {
    hide Kept, Accounted, StartRoom;
    BeginAccounts(room, serial, launch);
    StartRoomKeeps(room, Begin(room, serial, launch));
  }

  lemma RemovedUnchanged(room: Room, a: Action, serial: nat, launch: bool, debugCapacity: nat)
    requires Sound(room) && room.removed
    ensures Section(room, a, serial, launch, debugCapacity) == Begin(room, serial, launch)
  {
  }

  /** The players a section leaves: those it found, with at most its own newcomers behind them. */
  lemma SectionPlayers(room: Room, a: Action, serial: nat, launch: bool, debugCapacity: nat)
    ensures var v := Section(room, a, serial, launch, debugCapacity);
      && v.serial == serial && v.launch == launch
      && (v.room.players == room.players || v.room.players == room.players + Newcomers(a))
  {
    hide Detach, Remove, StartRoom, Joined, BotsAdded, BotsFilled, ClientAttached, ClientReleased, PlayerReady,
         CanAcceptMatchmaking, ReadyExpired, Participants;
    assert forall id :: [Participant(id, false)] == Participants([id], false) by {
      forall id ensures [Participant(id, false)] == Participants([id], false) { OneParticipant(id); }
    }
  }

  lemma OneParticipant(id: nat)
    ensures [Participant(id, false)] == Participants([id], false)
  {
  }
}
