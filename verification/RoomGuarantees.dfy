/**
 What the store promises about rooms, over every run of its critical sections.
 */
module RoomGuarantees {
  import opened RoomEffects
  import opened RoomLifecycle
  import opened RoomRegistry

  // ---------- Match status ----------

  /** A room's own story never goes back: status, removal, participants. */
  ghost predicate Onward(before: Room, after: Room) {
    && Rank(before.phase) <= Rank(after.phase)
    && (before.removed ==> after == before)
    && before.players <= after.players
    && after.capacity == before.capacity && after.name == before.name && after.ref == before.ref
  }

  lemma StepOnward(s: State, step: Step, ref: nat)
    requires Inv(s) && ref < |s.rooms|
    ensures ref < |Do(s, step).rooms| && Onward(s.rooms[ref], Do(s, step).rooms[ref])
    ensures step == InRoom(ref, ShutdownDetach) && s.closed ==> Do(s, step).rooms[ref].removed
  {
    hide Inv, Section, Do, DoInRoom, Ids, Admits, Onward;
    OfInv(s);
    OnwardRefl(s.rooms[ref]);
    if step.InRoom? {
      InRoomOnly(s, step.ref, step.action);
      if step.ref < |s.rooms| && s.rooms[step.ref].ref == step.ref && Admits(s, step.ref, step.action) {
        SectionStepOnward(s, step.ref, step.action, ref);
      }
      if step == InRoom(ref, ShutdownDetach) && s.closed {
        ShutdownTurn(s, ref);
      }
    } else {
      ElsewhereUntouched(s, step, ref);
    }
  }

  lemma InRoomOnly(s: State, q: nat, a: Action)
    ensures Do(s, InRoom(q, a))
         == if q < |s.rooms| && s.rooms[q].ref == q && Admits(s, q, a) then DoInRoom(s, q, a) else s
  {
    hide DoInRoom, Admits;
  }

  lemma OnwardRefl(room: Room)
    ensures Onward(room, room)
  {
  }

  lemma SectionStepOnward(s: State, q: nat, a: Action, ref: nat)
    requires Inv(s) && ref < |s.rooms| && q < |s.rooms| && s.rooms[q].ref == q && Admits(s, q, a)
    ensures ref < |DoInRoom(s, q, a).rooms| && Onward(s.rooms[ref], DoInRoom(s, q, a).rooms[ref])
  {
    hide Inv, Section, DoInRoom, Admits, Onward;
    SectionInStore(s, q, a);
    RoomForgotten(s, q, a);
    OnwardRefl(s.rooms[ref]);
    SectionOnward(s.rooms[q], Section(s.rooms[q], a, s.serial, !s.workersClosing, s.debugCapacity));
  }

  lemma ElsewhereUntouched(s: State, step: Step, ref: nat)
    requires !step.InRoom? && ref < |s.rooms|
    ensures ref < |Do(s, step).rooms| && Do(s, step).rooms[ref] == s.rooms[ref]
  {
    hide Joined, Ids;
  }

  lemma RoomForgotten(s: State, ref: nat, a: Action)
    requires ref < |s.rooms| && s.rooms[ref].ref == ref && Admits(s, ref, a)
    ensures var w := Section(s.rooms[ref], a, s.serial, !s.workersClosing, s.debugCapacity);
      DoInRoom(s, ref, a).rooms == if w.room.ref == ref then s.rooms[ref := w.room] else s.rooms
  {
    hide Section, Ids;
  }

  lemma SectionOnward(room: Room, w: Work)
    requires Kept(room, w)
    ensures Onward(room, w.room)
  {
    hide Sound, Accounted;
  }

  lemma ShutdownTurn(s: State, ref: nat)
    requires RoomsSound(s) && ref < |s.rooms| && s.closed
    ensures s.rooms[ref].ref == ref && ref < |DoInRoom(s, ref, ShutdownDetach).rooms|
    ensures DoInRoom(s, ref, ShutdownDetach).rooms[ref].removed
    ensures Do(s, InRoom(ref, ShutdownDetach)) == DoInRoom(s, ref, ShutdownDetach)
  {
    hide Sound, Section, DoInRoom;
    assert s.rooms[ref].ref == ref;
    RoomForgotten(s, ref, ShutdownDetach);
    ShutdownRemoves(s.rooms[ref], s.serial, !s.workersClosing, s.debugCapacity);
  }

  lemma ShutdownRemoves(room: Room, serial: nat, launch: bool, debugCapacity: nat)
    ensures var w := Section(room, ShutdownDetach, serial, launch, debugCapacity);
      w.room.removed && w.room.ref == room.ref
  {
    hide Detach, DetachAll;
  }

  /** Over any run, a room's match status only advances, and a removed room stays exactly as it was. */
  lemma {:induction false} StatusOnlyAdvances(s: State, steps: seq<Step>, ref: nat)
    requires Inv(s) && ref < |s.rooms|
    ensures Inv(Exec(s, steps)) && ref < |Exec(s, steps).rooms| && Onward(s.rooms[ref], Exec(s, steps).rooms[ref])
    decreases |steps|
  {
    hide Inv, Do;
    if steps != [] {
      var init := steps[..|steps| - 1];
      StatusOnlyAdvances(s, init, ref);
      DoKeeps(Exec(s, init), steps[|steps| - 1]);
      StepOnward(Exec(s, init), steps[|steps| - 1], ref);
    }
  }

  /**
   Every room of every reachable state: a match leaves the forming phase only when it is exactly full, it
   loads only with every human attached, and it counts down only with every human attached and ready.
   */
  lemma MatchStatusGuarantees(maxRooms: nat, debugCapacity: nat, steps: seq<Step>, ref: nat)
    requires ref < |Exec(Initial(maxRooms, debugCapacity), steps).rooms|
    ensures var room := Exec(Initial(maxRooms, debugCapacity), steps).rooms[ref];
      && (room.phase in {Matched, Loading, Starting} ==> |room.players| == room.capacity)
      && (room.phase in {Loading, Starting} && !room.removed ==>
            forall p :: p in room.players && !p.isBot ==> p.id in room.clients)
      && (room.phase == Starting && !room.removed ==>
            forall p :: p in room.players && !p.isBot ==> p.id in room.ready)
      && (room.started <==> room.phase == Started)
  {
    ReachableInv(maxRooms, debugCapacity, steps);
    assert Sound(Exec(Initial(maxRooms, debugCapacity), steps).rooms[ref]);
    hide Inv, Exec, Shaped;
    assert Shaped(Exec(Initial(maxRooms, debugCapacity), steps).rooms[ref]);
    StartedIsPhase(Exec(Initial(maxRooms, debugCapacity), steps).rooms[ref]);
  }

  lemma StartedIsPhase(room: Room)
    requires Shaped(room)
    ensures room.started <==> room.phase == Started
  {
  }

  /**
   No room waits for what has already happened, and none waits without a deadline: a timer runs only in the
   phase it belongs to, and as long as workers can be launched, every live room that waits has its timer.
   */
  lemma NoRoomIsStuck(maxRooms: nat, debugCapacity: nat, steps: seq<Step>, ref: nat)
    requires ref < |Exec(Initial(maxRooms, debugCapacity), steps).rooms|
    ensures var s := Exec(Initial(maxRooms, debugCapacity), steps);
      var room := s.rooms[ref];
      && (forall k :: k in room.timers ==> room.phase == PhaseOf(k) && !room.removed)
      && (!room.removed && room.phase == Matched ==> !AllAttached(room))
      && (!room.removed && room.phase == Loading ==> !AllReady(room))
      && (!room.removed && !s.workersClosing ==>
            && (room.phase == Matched && HumanCount(room.players) > 0 ==> Attach in room.timers)
            && (room.phase == Loading ==> Ready in room.timers)
            && (room.phase == Starting ==> Countdown in room.timers)
            && (room.phase == Started && !room.ending ==> Gameplay in room.timers))
  {
    var s := Exec(Initial(maxRooms, debugCapacity), steps);
    ReachableInv(maxRooms, debugCapacity, steps);
    assert Sound(s.rooms[ref]) && (!s.workersClosing ==> Guarded(s.rooms[ref]));
    hide Inv, Exec, HumanCount, AllAttached, AllReady, DistinctIds;
  }

  // ---------- From the last ready message to the countdown ----------

  /** While a loading room goes on loading, nothing takes a ready message away. */
  lemma LoadingKeepsReady(room: Room, a: Action, serial: nat, launch: bool, debugCapacity: nat)
    requires Sound(room) && !room.removed && room.phase == Loading
    ensures var after := Section(room, a, serial, launch, debugCapacity).room;
      !after.removed && after.phase == Loading ==>
        room.ready <= after.ready
        && forall id, session :: a == MarkReady(id, session, false) && FromClient(room, id, session) ==> id in after.ready
  {
    hide Section, Sound;
    LoadingIsOpen(room);
    match a
    case AddPlayer(id) => AddPlayerEffect(room, id, serial, launch, debugCapacity);
    case Join(id) => JoinEffect(room, id, serial, launch, debugCapacity);
    case AddBots(ids) => AddBotsEffect(room, ids, serial, launch, debugCapacity);
    case FillBots(t, ids, chosen) => FillBotsEffect(room, t, ids, chosen, serial, launch, debugCapacity);
    case Reserve(player, admitted) => ReserveEffect(room, player, admitted, serial, launch, debugCapacity);
    case Rollback(player, reservation) => RollbackEffect(room, player, reservation, serial, launch, debugCapacity);
    case AttachClient(player, reservation, admitted) =>
      AttachEffect(room, player, reservation, admitted, serial, launch, debugCapacity);
    case ReleaseClient(player, session) => ReleaseEffect(room, player, session, serial, launch, debugCapacity);
    case MarkReady(player, session, due) => MarkReadyEffect(room, player, session, due, serial, launch, debugCapacity);
    case CountdownTick(t) => CountdownEffect(room, t, serial, launch, debugCapacity);
    case StartNow => StartNowEffect(room, serial, launch, debugCapacity);
    case GameplayTick(terminal) => GameplayEffect(room, terminal, serial, launch, debugCapacity);
    case _ => RemovalEffect(room, a, serial, launch, debugCapacity);
  }

  lemma LoadingIsOpen(room: Room)
    requires Sound(room) && room.phase == Loading
    ensures PreStart(room) && !room.ending
  {
    hide Phased, Timed, DistinctIds;
  }

  /** At step `k` the player's session sends its ready message, in time, to the loading room. */
  ghost predicate ReadyAt(s: State, steps: seq<Step>, k: nat, ref: nat, id: nat)
    requires k < |steps|
  {
    var m := Exec(s, steps[..k]);
    && ref < |m.rooms| && !m.closed && !m.rooms[ref].removed && m.rooms[ref].phase == Loading
    && id in m.rooms[ref].clients && steps[k] == InRoom(ref, MarkReady(id, m.rooms[ref].clients[id], false))
  }

  ghost predicate SentReady(s: State, steps: seq<Step>, ref: nat, id: nat) {
    exists k: nat :: k < |steps| && ReadyAt(s, steps, k, ref, id)
  }

  /** One step of a room that is loading before it and after it. */
  lemma StepKeepsReady(s: State, step: Step, ref: nat)
    requires Inv(s) && ref < |s.rooms| && !s.rooms[ref].removed && s.rooms[ref].phase == Loading
    ensures ref < |Do(s, step).rooms|
    ensures var room, after := s.rooms[ref], Do(s, step).rooms[ref];
      !after.removed && after.phase == Loading ==>
        room.ready <= after.ready
        && forall id :: id in room.clients && !s.closed && step == InRoom(ref, MarkReady(id, room.clients[id], false)) ==>
             id in after.ready
  {
    hide Inv, Section, Do, DoInRoom, Ids, Onward, Admits, FromClient;
    OfInv(s);
    StepOnward(s, step, ref);
    if step.InRoom? {
      InRoomOnly(s, step.ref, step.action);
      if step.ref == ref {
        if Admits(s, ref, step.action) { SectionKeepsReady(s, step.action, ref); }
        if !s.closed && step.action.MarkReady? { ReadyAdmitted(s, ref, step.action); }
      } else if step.ref < |s.rooms| && s.rooms[step.ref].ref == step.ref && Admits(s, step.ref, step.action) {
        RoomForgotten(s, step.ref, step.action);
      }
    } else {
      ElsewhereUntouched(s, step, ref);
    }
  }

  lemma SectionKeepsReady(s: State, a: Action, ref: nat)
    requires Inv(s) && ref < |s.rooms| && !s.rooms[ref].removed && s.rooms[ref].phase == Loading && Admits(s, ref, a)
    ensures s.rooms[ref].ref == ref && ref < |DoInRoom(s, ref, a).rooms|
    ensures var room, after := s.rooms[ref], DoInRoom(s, ref, a).rooms[ref];
      !after.removed && after.phase == Loading ==>
        room.ready <= after.ready
        && forall id :: id in room.clients && a == MarkReady(id, room.clients[id], false) ==> id in after.ready
  {
    RoomOf(s, ref);
    SectionInStore(s, ref, a);
    hide Inv, Section, DoInRoom, Sound, Admits, FromClient, Ids;
    RoomForgotten(s, ref, a);
    var w := Section(s.rooms[ref], a, s.serial, !s.workersClosing, s.debugCapacity);
    KeptRef(s.rooms[ref], w);
    hide Kept;
    assert DoInRoom(s, ref, a).rooms[ref] == w.room;
    LoadingReadyGrows(s.rooms[ref], a, s.serial, !s.workersClosing, s.debugCapacity);
  }

  lemma RoomOf(s: State, ref: nat)
    requires Inv(s) && ref < |s.rooms|
    ensures s.rooms[ref].ref == ref && Sound(s.rooms[ref])
  {
    OfInv(s);
  }

  lemma KeptRef(room: Room, w: Work)
    requires Kept(room, w)
    ensures w.room.ref == room.ref
  {
    hide Sound, Accounted;
  }

  lemma LoadingReadyGrows(room: Room, a: Action, serial: nat, launch: bool, debugCapacity: nat)
    requires Sound(room) && !room.removed && room.phase == Loading
    ensures var after := Section(room, a, serial, launch, debugCapacity).room;
      !after.removed && after.phase == Loading ==>
        room.ready <= after.ready
        && forall id :: id in room.clients && a == MarkReady(id, room.clients[id], false) ==> id in after.ready
  {
    hide Section, Sound;
    LoadingKeepsReady(room, a, serial, launch, debugCapacity);
    forall id | id in room.clients && a == MarkReady(id, room.clients[id], false)
      ensures FromClient(room, id, room.clients[id])
    {
    }
  }

  lemma ReadyAdmitted(s: State, ref: nat, a: Action)
    requires Inv(s) && ref < |s.rooms| && !s.rooms[ref].removed && !s.closed && a.MarkReady?
    ensures Admits(s, ref, a) && s.rooms[ref].ref == ref
  {
    OfInv(s);
    RegisteredHere(s, ref);
    hide Inv;
  }

  lemma RegisteredHere(s: State, ref: nat)
    requires Inv(s) && ref < |s.rooms| && !s.rooms[ref].removed
    ensures IsRegistered(s, ref)
  {
    assert Owning(s, ref);
  }

  lemma {:induction false} ReadyIsKept(s: State, steps: seq<Step>, ref: nat)
    requires Inv(s) && ref < |s.rooms| && !s.rooms[ref].removed && s.rooms[ref].phase == Loading
    ensures ref < |Exec(s, steps).rooms|
    ensures var after := Exec(s, steps).rooms[ref];
      !after.removed && after.phase == Loading ==>
        forall id :: id in s.rooms[ref].ready || SentReady(s, steps, ref, id) ==> id in after.ready
    decreases |steps|
  {
    hide Inv, Do;
    StatusOnlyAdvances(s, steps, ref);
    if steps != [] {
      var init := steps[..|steps| - 1];
      ReadyIsKept(s, init, ref);
      StatusOnlyAdvances(s, init, ref);
      var m := Exec(s, init);
      StepOnward(m, steps[|steps| - 1], ref);
      var after := Exec(s, steps).rooms[ref];
      if !after.removed && after.phase == Loading {
        StepKeepsReady(m, steps[|steps| - 1], ref);
        forall id | SentReady(s, steps, ref, id)
          ensures id in after.ready
        {
          var k: nat :| k < |steps| && ReadyAt(s, steps, k, ref, id);
          if k < |init| {
            assert init[..k] == steps[..k] && ReadyAt(s, init, k, ref, id);
          }
        }
      }
    }
  }

  /**
   Once every human of a loading room has sent its ready message before the deadline, the countdown has started,
   unless the room has been removed.
   */
  lemma ReadyMessagesStart(s: State, steps: seq<Step>, ref: nat)
    requires Inv(s) && ref < |s.rooms| && !s.rooms[ref].removed && s.rooms[ref].phase == Loading
    requires forall p :: p in s.rooms[ref].players && !p.isBot ==> p.id in s.rooms[ref].ready || SentReady(s, steps, ref, p.id)
    ensures ref < |Exec(s, steps).rooms|
    ensures Exec(s, steps).rooms[ref].removed || Rank(Exec(s, steps).rooms[ref].phase) >= Rank(Starting)
  {
    hide Exec, SentReady, Inv, HumansIn;
    StatusOnlyAdvances(s, steps, ref);
    ReadyIsKept(s, steps, ref);
    var room, after := s.rooms[ref], Exec(s, steps).rooms[ref];
    if !after.removed && after.phase == Loading {
      LoadingWaits(s, ref);
      LoadingWaits(Exec(s, steps), ref);
      SamePlayersAfter(room, after);
      HumansInExact(after.players, after.ready);
    }
  }

  lemma SamePlayersAfter(room: Room, after: Room)
    requires Onward(room, after) && |room.players| == room.capacity && |after.players| == after.capacity
    ensures after.players == room.players
  {
  }

  lemma LoadingWaits(s: State, ref: nat)
    requires Inv(s) && ref < |s.rooms| && !s.rooms[ref].removed && s.rooms[ref].phase == Loading
    ensures |s.rooms[ref].players| == s.rooms[ref].capacity && !HumansIn(s.rooms[ref].players, s.rooms[ref].ready)
  {
    OfInv(s);
    assert Sound(s.rooms[ref]);
    hide Inv;
    LoadingReady(s.rooms[ref], s.rooms[ref].ready);
  }

  /** `n` firings of the countdown's timer. */
  function CountedDown(room: Room, t: Timer, serial: nat, launch: bool, debugCapacity: nat, n: nat): Room {
    if n == 0 then room
    else
      Section(CountedDown(room, t, serial, launch, debugCapacity, n - 1), CountdownTick(t), serial, launch, debugCapacity).room
  }

  /** A countdown takes as many seconds as it shows, and then starts the match. */
  lemma {:induction false} CountdownStartsMatch(room: Room, t: Timer, serial: nat, launch: bool, debugCapacity: nat, n: nat)
    requires Sound(room) && !room.removed && room.phase == Starting && Holds(room, t) && t.kind == Countdown
    requires n <= room.countdown
    ensures var after := CountedDown(room, t, serial, launch, debugCapacity, n);
      if n < room.countdown then after == room.(countdown := room.countdown - n)
      else after.phase == Started && after.started && Countdown !in after.timers && (launch ==> Gameplay in after.timers)
  {
    hide Section, Sound, Holds;
    CountdownShows(room);
    if n > 0 {
      CountdownStartsMatch(room, t, serial, launch, debugCapacity, n - 1);
      CountdownOne(room.(countdown := room.countdown - (n - 1)), t, serial, launch, debugCapacity) by {
        StillHolds(room, t, room.countdown - (n - 1));
      }
    }
  }

  lemma CountdownShows(room: Room)
    requires Sound(room) && !room.removed && room.phase == Starting
    ensures room.countdown >= 1
  {
    hide Shaped, AllAttached, AllReady;
  }

  lemma StillHolds(room: Room, t: Timer, countdown: nat)
    requires Holds(room, t) && t.kind == Countdown && Sound(room) && room.phase == Starting
    ensures var r := room.(countdown := countdown); Holds(r, t) && OnlyTimers(r, {Countdown})
  {
    hide Shaped, Phased;
  }

  lemma CountdownOne(room: Room, t: Timer, serial: nat, launch: bool, debugCapacity: nat)
    requires !room.removed && room.phase == Starting && Holds(room, t) && t.kind == Countdown && room.countdown > 0
    requires OnlyTimers(room, {Countdown})
    ensures var after := Section(room, CountdownTick(t), serial, launch, debugCapacity).room;
      if room.countdown > 1 then after == room.(countdown := room.countdown - 1)
      else after.phase == Started && after.started && Countdown !in after.timers && (launch ==> Gameplay in after.timers)
  {
    hide Detach, Remove, Joined, BotsAdded, BotsFilled, ClientAttached, ClientReleased, PlayerReady, Append,
         CanAcceptMatchmaking, ReadyExpired;
  }

  /** Whoever fills a forming room, a human or bots, takes it out of the forming phase in the same section. */
  lemma FillingMatches(room: Room, a: Action, serial: nat, launch: bool, debugCapacity: nat)
    requires Sound(room) && !room.removed && (a.Join? || a.AddBots? || a.FillBots?)
    ensures var after := Section(room, a, serial, launch, debugCapacity).room;
      after.players != room.players && |after.players| == after.capacity ==> Rank(after.phase) >= Rank(Matched)
  {
    hide Sound, HumanCount, Detach, Remove, ArmBotFill, MarkMatchedIfFull, AdvanceLoading, ClientAttached, ClientReleased,
         PlayerReady, StartRoom, CanAcceptMatchmaking, ReadyExpired;
  }

  /** A deadline that is due ends the room: no players can join or attach any more, and nothing of it keeps running. */
  lemma DueDeadlineCancels(room: Room, t: Timer, serial: nat, launch: bool, debugCapacity: nat)
    requires Sound(room) && !room.removed && Holds(room, t)
    ensures t.kind == Attach ==>
              Cancelled(room, Section(room, ExpireAttach(t, true), serial, launch, debugCapacity).room)
    ensures t.kind == Ready ==>
              Cancelled(room, Section(room, ExpireReady(t, true), serial, launch, debugCapacity).room)
  {
    hide Section, Remove, Accounted, Timed, Phased, Shaped;
    var begin := Begin(room, serial, launch);
    OfSound(room);
    BeginAccounts(room, serial, launch);
    RemoveAccounts(room, begin);
    if t.kind == Attach || t.kind == Ready {
      HeldInPhase(room, t);
      DueRemoves(room, t, serial, launch, debugCapacity);
    }
  }

  lemma HeldInPhase(room: Room, t: Timer)
    requires Sound(room) && Holds(room, t)
    ensures room.phase == PhaseOf(t.kind) && (room.ending ==> room.phase == Started)
  {
    hide DistinctIds, AllAttached, AllReady;
  }

  lemma DueRemoves(room: Room, t: Timer, serial: nat, launch: bool, debugCapacity: nat)
    requires !room.removed && !room.ending && Holds(room, t) && room.phase == PhaseOf(t.kind)
    ensures t.kind == Attach ==>
              Section(room, ExpireAttach(t, true), serial, launch, debugCapacity) == Remove(Begin(room, serial, launch))
    ensures t.kind == Ready ==>
              Section(room, ExpireReady(t, true), serial, launch, debugCapacity) == Remove(Begin(room, serial, launch))
  {
    hide Remove, Detach, Joined, BotsAdded, BotsFilled, ClientAttached, ClientReleased, PlayerReady, StartRoom,
         CanAcceptMatchmaking, Append;
  }

  predicate Cancelled(before: Room, after: Room) {
    after == before.(removed := true, timers := map[], clients := map[], reservations := map[])
  }

  // ---------- Conservation ----------

  /** No thread owes anything. */
  ghost predicate Quiescent(s: State) {
    s.loose == {} && s.doomed == {} && s.releasing == {} && s.stopping == multiset{}
  }

  /** A timer's stop channel is closed at most once, and exactly once when nobody holds the timer any more. */
  lemma TimersStopOnce(maxRooms: nat, debugCapacity: nat, steps: seq<Step>, t: Timer)
    ensures var s := Exec(Initial(maxRooms, debugCapacity), steps);
      && s.stopped[t] <= 1
      && (s.stopped[t] == 1 ==> t in s.created && !Held(s, t) && t !in s.stopping)
      && (Quiescent(s) && t in s.created ==> (Held(s, t) <==> s.stopped[t] == 0))
  {
    var s := Exec(Initial(maxRooms, debugCapacity), steps);
    ReachableInv(maxRooms, debugCapacity, steps);
    assert Count(Held(s, t)) + s.stopping[t] + s.stopped[t] == Count(t in s.created);
    hide Inv, Exec;
  }

  /**
   When nobody is in the middle of anything, the identities in use are exactly the disjoint union of the
   registered rooms' participants, the counters agree with the rooms, and every timer that no registered
   room holds has been stopped once.
   */
  lemma QuiescentConservation(maxRooms: nat, debugCapacity: nat, steps: seq<Step>)
    requires Quiescent(Exec(Initial(maxRooms, debugCapacity), steps))
    ensures var s := Exec(Initial(maxRooms, debugCapacity), steps);
      && (forall ref: nat :: IsRegistered(s, ref) <==> ref < |s.rooms| && !s.rooms[ref].removed)
      && (forall id :: id in s.playerIDs <==> exists ref: nat :: IsRegistered(s, ref) && id in Ids(s.rooms[ref]))
      && (forall r: nat, q: nat :: IsRegistered(s, r) && IsRegistered(s, q) && r != q ==> Ids(s.rooms[r]) !! Ids(s.rooms[q]))
      && s.activeRooms == |s.registry|
      && s.connectedClients == Clients(s.rooms)
      && (forall t :: t in s.created ==> s.stopped[t] == if Held(s, t) then 0 else 1)
  {
    var s := Exec(Initial(maxRooms, debugCapacity), steps);
    ReachableInv(maxRooms, debugCapacity, steps);
    OfInv(s);
    RegisteredAreLive(s);
    hide Inv, Exec, Sound, Ids, IsRegistered, Owning;
    forall t | t in s.created
      ensures s.stopped[t] == if Held(s, t) then 0 else 1
    {
      assert Count(Held(s, t)) + s.stopping[t] + s.stopped[t] == Count(t in s.created);
    }
    forall id
      ensures id in s.playerIDs <==> exists ref: nat :: IsRegistered(s, ref) && id in Ids(s.rooms[ref])
    {
      if id in s.playerIDs {
        assert Housed(s, id);
        var ref: nat :| Owning(s, ref) && id in Ids(s.rooms[ref]);
        assert IsRegistered(s, ref);
      } else {
        forall ref: nat | IsRegistered(s, ref)
          ensures id !in Ids(s.rooms[ref])
        {
          assert Owning(s, ref);
        }
      }
    }
    forall r: nat, q: nat | IsRegistered(s, r) && IsRegistered(s, q) && r != q
      ensures Ids(s.rooms[r]) !! Ids(s.rooms[q])
    {
      assert Owning(s, r) && Owning(s, q);
    }
  }

  lemma RegisteredAreLive(s: State)
    requires RegistryExact(s)
    ensures forall ref: nat :: IsRegistered(s, ref) <==> Owning(s, ref)
    ensures s.doomed == {} ==> forall ref: nat :: Owning(s, ref) <==> ref < |s.rooms| && !s.rooms[ref].removed
  {
    forall ref: nat
      ensures IsRegistered(s, ref) <==> Owning(s, ref)
    {
      if IsRegistered(s, ref) {
        assert s.rooms[ref].name in s.registry;
      }
    }
  }

  // ---------- Shutdown ----------

  lemma ClosedShrinks(s: State, step: Step)
    requires s.closed
    ensures Do(s, step).closed
    ensures forall name :: name in Do(s, step).registry ==> name in s.registry && Do(s, step).registry[name] == s.registry[name]
  {
    hide Section, Joined, Ids, Admits;
  }

  /** After the close, every room that was registered and has had its shutdown turn is gone from play. */
  lemma {:induction false} ClosedRun(s: State, steps: seq<Step>)
    requires Inv(s) && s.closed
    ensures var after := Exec(s, steps);
      && Inv(after) && after.closed && |s.rooms| <= |after.rooms|
      && (forall name :: name in after.registry ==> name in s.registry && after.registry[name] == s.registry[name])
      && (forall ref: nat :: ref < |s.rooms| && InRoom(ref, ShutdownDetach) in steps ==> after.rooms[ref].removed)
    decreases |steps|
  {
    hide Inv, Do;
    if steps != [] {
      var init := steps[..|steps| - 1];
      var last := steps[|steps| - 1];
      ClosedRun(s, init);
      var mid := Exec(s, init);
      DoKeeps(mid, last);
      ClosedShrinks(mid, last);
      RoomsNeverLost(mid, last);
      forall ref: nat | ref < |s.rooms| && InRoom(ref, ShutdownDetach) in steps
        ensures Exec(s, steps).rooms[ref].removed
      {
        StepOnward(mid, last, ref);
        if last != InRoom(ref, ShutdownDetach) {
          assert InRoom(ref, ShutdownDetach) in init;
        }
      }
    }
  }

  lemma RoomsNeverLost(s: State, step: Step)
    ensures |s.rooms| <= |Do(s, step).rooms|
  {
    hide Section, Joined, Ids, Admits;
  }

  /**
   Shutdown closes the store, then gives each registered room its turn. However its steps interleave with
   those of other threads, once nobody owes anything the store is empty and every timer is stopped.
   */
  lemma ShutdownEmpties(maxRooms: nat, debugCapacity: nat, before: seq<Step>, steps: seq<Step>)
    requires Exec(Initial(maxRooms, debugCapacity), before).closed
    requires forall ref: nat :: IsRegistered(Exec(Initial(maxRooms, debugCapacity), before), ref) ==>
                                  InRoom(ref, ShutdownDetach) in steps
    requires Quiescent(Exec(Exec(Initial(maxRooms, debugCapacity), before), steps))
    ensures var s := Exec(Exec(Initial(maxRooms, debugCapacity), before), steps);
      && s.registry == map[] && s.playerIDs == {}
      && s.activeRooms == 0 && s.connectedClients == 0
      && (forall t :: t in s.created ==> s.stopped[t] == 1)
  {
    hide Exec, Do;
    var closing := Exec(Initial(maxRooms, debugCapacity), before);
    ReachableInv(maxRooms, debugCapacity, before);
    ClosedRun(closing, steps);
    var s := Exec(closing, steps);
    OfInv(s);
    OfInv(closing);
    hide Inv;
    RegisteredAreLive(s);
    RegisteredBefore(closing, s);
    assert forall ref: nat :: IsRegistered(s, ref) ==> InRoom(ref, ShutdownDetach) in steps;
    assert forall ref: nat :: !Owning(s, ref);
    EmptyRegistry(s);
    NothingLeft(s);
  }

  lemma RegisteredBefore(closing: State, s: State)
    requires RegistryExact(closing)
    requires forall name :: name in s.registry ==> name in closing.registry && closing.registry[name] == s.registry[name]
    ensures forall ref: nat :: IsRegistered(s, ref) ==> IsRegistered(closing, ref)
  {
    forall ref: nat | IsRegistered(s, ref)
      ensures IsRegistered(closing, ref)
    {
      EntryIsRegistered(closing, s.rooms[ref].name);
    }
  }

  lemma EmptyRegistry(s: State)
    requires RegistryExact(s) && forall ref: nat :: !Owning(s, ref)
    ensures s.registry == map[]
  {
    assert forall name :: name in s.registry ==> Owning(s, s.registry[name]);
  }

  lemma EntryIsRegistered(s: State, name: nat)
    requires RegistryExact(s) && name in s.registry
    ensures IsRegistered(s, s.registry[name])
  {
  }

  lemma NothingLeft(s: State)
    requires RoomsSound(s) && RegistryExact(s) && IdentitiesExact(s) && TimersExact(s)
    requires s.connectedClients == Clients(s.rooms) && s.registry == map[] && Quiescent(s)
    ensures s.playerIDs == {} && s.activeRooms == 0 && s.connectedClients == 0
    ensures forall t :: t in s.created ==> s.stopped[t] == 1
  {
    RegisteredAreLive(s);
    assert forall ref: nat :: !IsRegistered(s, ref);
    forall ref: nat | ref < |s.rooms|
      ensures s.rooms[ref].removed && s.rooms[ref].clients == map[] && s.rooms[ref].timers == map[]
    {
      assert !Owning(s, ref) && Sound(s.rooms[ref]);
    }
    hide Sound, Ids, RegistryExact;
    NobodyConnected(s.rooms);
    forall id
      ensures id !in s.playerIDs
    {
      assert !Housed(s, id);
    }
    forall t | t in s.created
      ensures s.stopped[t] == 1
    {
      assert Count(Held(s, t)) + s.stopping[t] + s.stopped[t] == Count(t in s.created);
    }
  }

  lemma {:induction false} NobodyConnected(rooms: seq<Room>)
    requires forall i :: 0 <= i < |rooms| ==> rooms[i].clients == map[]
    ensures Clients(rooms) == 0
  {
    if rooms != [] {
      NobodyConnected(rooms[..|rooms| - 1]);
    }
  }
}
