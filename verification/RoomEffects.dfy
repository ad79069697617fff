/**
 What each critical section does to a room that nobody has removed, section by section and field by field; and
 what follows over a run for the messages that a match waits for.
 */
module RoomEffects {
  import opened RoomLifecycle

  /** A removed room keeps its participants and its status and nothing else. */
  predicate Removed(room: Room, after: Room) {
    after == room.(removed := true, clients := map[], reservations := map[], timers := map[])
  }

  /** The timers of a room that waits for one thing: its own, if a worker could be launched for it. */
  function OneTimer(room: Room, k: Kind, serial: nat, launch: bool): map<Kind, Timer> {
    if launch then map[k := Timer(room.ref, k, serial)] else map[]
  }

  predicate IsHuman(players: seq<Participant>, id: nat) {
    Participant(id, false) in players
  }

  ghost predicate HumansIn(players: seq<Participant>, ids: set<nat>) {
    forall id :: IsHuman(players, id) ==> id in ids
  }

  lemma HumansInExact(players: seq<Participant>, ids: set<nat>)
    ensures HumansIn(players, ids) <==> forall p :: p in players && !p.isBot ==> p.id in ids
  {
    if HumansIn(players, ids) {
      forall p | p in players && !p.isBot
        ensures p.id in ids
      {
        assert IsHuman(players, p.id);
      }
    }
  }

  lemma {:induction false} SomeHuman(players: seq<Participant>)
    ensures HumanCount(players) > 0 <==> exists id :: IsHuman(players, id)
  {
    if players != [] {
      var init := players[..|players| - 1];
      var last := players[|players| - 1];
      SomeHuman(init);
      assert forall id :: IsHuman(players, id) <==> IsHuman(init, id) || last == Participant(id, false);
      if !last.isBot { assert last == Participant(last.id, false) && IsHuman(players, last.id); }
    }
  }

  lemma NoTimersBut(room: Room, k: Kind)
    requires Timed(room) && room.phase == PhaseOf(k)
    ensures room.timers - {k} == map[]
    ensures k !in room.timers ==> room.timers == map[]
  {
    assert forall j :: j in room.timers ==> j == k;
  }

  lemma NoTimers(room: Room)
    requires Timed(room) && room.phase == Forming && BotFill !in room.timers
    ensures room.timers == map[]
  {
    NoTimersBut(room, BotFill);
  }

  lemma NoneLess(k: Kind)
    ensures var none: map<Kind, Timer> := map[]; none - {k} == none
  {
  }

  lemma AttachOnly(timers: map<Kind, Timer>, t: Timer)
    requires timers == map[] || timers.Keys == {BotFill}
    ensures timers[Attach := t] - {BotFill} == map[Attach := t]
    ensures timers - {BotFill} == map[] && timers - {Attach} - {BotFill} == map[] && Attach !in timers
  {
  }

  /**
   A timer is armed if its worker can be launched. Without one, a countdown's or gameplay's ticker is stopped on the
   spot, and any other is handed over to be stopped later; the field stays free.
   */
  lemma ArmEffect(w: Work, k: Kind)
    requires k !in w.room.timers
    ensures var v := Arm(w, k);
      var t := Timer(w.room.ref, k, w.serial);
      && v == w.(room := v.room, armed := w.armed + {t}, stopped := v.stopped, detached := v.detached)
      && v.room == w.room.(timers := if w.launch then w.room.timers[k := t] else w.room.timers)
      && v.stopped == w.stopped + (if !w.launch && k in {Countdown, Gameplay} then multiset{t} else multiset{})
      && v.detached == w.detached + (if !w.launch && k in {BotFill, Attach, Ready} then multiset{t} else multiset{})
  {
    assert w.room.timers - {k} == w.room.timers;
  }

  /** A match that is made and has not started. */
  predicate Pending(room: Room) {
    room.phase == Matched || room.phase == Loading || room.phase == Starting
  }

  lemma PendingIs(room: Room)
    requires Sound(room)
    ensures Pending(room) <==> PreStart(room)
  {
  }

  // ---------- Ready messages ----------

  /** Only the session that the room knows for the player counts. */
  predicate FromClient(room: Room, player: nat, session: nat) {
    player in room.clients && room.clients[player] == session
  }

  /**
   A ready message before the deadline is recorded, and the last one that a loading room waits for starts the
   countdown; one that comes too late cancels the match, and one from nowhere does nothing.
   */
  lemma MarkReadyEffect(room: Room, player: nat, session: nat, due: bool, serial: nat, launch: bool, debugCapacity: nat)
    requires Sound(room) && !room.removed
    ensures var after := Section(room, MarkReady(player, session, due), serial, launch, debugCapacity).room;
      var starts := room.phase == Loading && HumansIn(room.players, room.ready + {player});
      if !Pending(room) || !FromClient(room, player, session) then after == room
      else if room.phase == Loading && Ready in room.timers && due then Removed(room, after)
      else if starts then
        after == room.(ready := room.ready + {player}, phase := Starting, countdown := COUNTDOWN_SECONDS,
                       timers := OneTimer(room, Countdown, serial, launch))
      else after == room.(ready := room.ready + {player})
  {
    MarkReadySection(room, player, session, due, serial, launch, debugCapacity);
    PendingIs(room);
    hide Section, Sound, Pending, PreStart;
    if PreStart(room) && FromClient(room, player, session) {
      RemoveIs(Begin(room, serial, launch));
      PlayerReadyIs(room, player, serial, launch);
    }
  }

  lemma MarkReadySection(room: Room, player: nat, session: nat, due: bool, serial: nat, launch: bool, debugCapacity: nat)
    requires Sound(room) && !room.removed
    ensures Section(room, MarkReady(player, session, due), serial, launch, debugCapacity) ==
            if !PreStart(room) || !FromClient(room, player, session) then Begin(room, serial, launch)
            else if room.phase == Loading && Ready in room.timers && due then Remove(Begin(room, serial, launch))
            else PlayerReady(Begin(room, serial, launch), player)
  {
    hide HumanCount, DistinctIds, Remove, PlayerReady;
  }

  lemma PlayerReadyIs(room: Room, player: nat, serial: nat, launch: bool)
    requires Sound(room) && !room.removed && PreStart(room) && player in room.clients
    ensures PlayerReady(Begin(room, serial, launch), player).room ==
            if room.phase == Loading && HumansIn(room.players, room.ready + {player}) then
              room.(ready := room.ready + {player}, phase := Starting, countdown := COUNTDOWN_SECONDS,
                    timers := OneTimer(room, Countdown, serial, launch))
            else room.(ready := room.ready + {player})
  {
    hide HumanCount, DistinctIds, HumansIn, IsHuman, AllReady, StartCountdown;
    var marked := room.(ready := room.ready + {player});
    if room.phase == Loading {
      NoTimersBut(room, Ready);
      LoadingReady(room, marked.ready);
      StartCountdownIs(Begin(room, serial, launch).(room := marked));
    }
  }

  /** A loading room is full and has a human, so only the ready messages count. */
  lemma LoadingReady(room: Room, ready: set<nat>)
    requires Phased(room) && !room.removed && room.phase == Loading
    ensures AllReady(room.(ready := ready)) <==> HumansIn(room.players, ready)
  {
    HumansInExact(room.players, ready);
    hide HumansIn, HumanCount;
  }

  lemma StartCountdownIs(w: Work)
    requires w.room.timers - {Ready} == map[]
    ensures StartCountdown(w).room == w.room.(phase := Starting, countdown := COUNTDOWN_SECONDS,
                                              timers := OneTimer(w.room, Countdown, w.serial, w.launch))
  {
    DetachIs(w, Ready);
    DetachKeeps(w, Ready);
    NoneLess(Countdown);
    hide Detach;
  }

  lemma RemoveIs(w: Work)
    ensures Remove(w).room == w.room.(removed := true, clients := map[], reservations := map[], timers := map[])
  {
    hide Detach;
    var d1 := Detach(w, Countdown);
    var d2 := Detach(d1, BotFill);
    var d3 := Detach(d2, Attach);
    var d4 := Detach(d3, Ready);
    var d5 := Detach(d4, Gameplay);
    DetachIs(w, Countdown);
    DetachIs(d1, BotFill);
    DetachIs(d2, Attach);
    DetachIs(d3, Ready);
    DetachIs(d4, Gameplay);
    forall k: Kind
      ensures k !in d5.room.timers
    {
      match k
      case BotFill =>
      case Attach =>
      case Ready =>
      case Countdown =>
      case Gameplay =>
    }
    assert d5.room.timers == map[];
  }

  lemma DetachIs(w: Work, k: Kind)
    ensures Detach(w, k).room == w.room.(timers := w.room.timers - {k})
  {
    if k !in w.room.timers { assert w.room.timers - {k} == w.room.timers; }
  }

  // ---------- Reservations, sessions ----------

  /** A reservation is made for a human who has neither a session nor a reservation. */
  lemma ReserveEffect(room: Room, player: nat, admitted: bool, serial: nat, launch: bool, debugCapacity: nat)
    requires Sound(room) && !room.removed
    ensures Section(room, Reserve(player, admitted), serial, launch, debugCapacity).room ==
            if !room.ending && IsHuman(room.players, player) && admitted
               && player !in room.clients && player !in room.reservations
            then room.(reservations := room.reservations[player := serial]) else room
  {
    hide Sound, HumanCount;
  }

  /** A reservation is given up by whoever made it. */
  lemma RollbackEffect(room: Room, player: nat, reservation: nat, serial: nat, launch: bool, debugCapacity: nat)
    requires Sound(room) && !room.removed
    ensures Section(room, Rollback(player, reservation), serial, launch, debugCapacity).room ==
            if player in room.reservations && room.reservations[player] == reservation
            then room.(reservations := room.reservations - {player}) else room
  {
    hide Sound, HumanCount;
  }

  /** The match goes on to the next phase, for which `timers` is the right one. */
  function GoesOn(room: Room, allReady: bool, serial: nat, launch: bool): Room {
    if allReady then
      room.(phase := Starting, countdown := COUNTDOWN_SECONDS, timers := OneTimer(room, Countdown, serial, launch))
    else room.(phase := Loading, timers := OneTimer(room, Ready, serial, launch))
  }

  lemma AdvanceIs(w: Work)
    requires Timed(w.room) && !w.room.removed && !w.room.ending && !w.room.started
    requires w.room.phase == Matched && |w.room.players| == w.room.capacity
    ensures AdvanceLoading(w).room ==
            if HumanCount(w.room.players) > 0 && HumansIn(w.room.players, w.room.clients.Keys)
            then GoesOn(w.room, HumansIn(w.room.players, w.room.ready), w.serial, w.launch)
            else w.room
  {
    HumansInExact(w.room.players, w.room.clients.Keys);
    HumansInExact(w.room.players, w.room.ready);
    hide HumanCount, HumansIn;
    NoTimersBut(w.room, Attach);
    DetachIs(w.(room := w.room.(phase := Loading)), Attach);
    hide Detach;
    NoneLess(Ready);
    NoneLess(Countdown);
    if AllAttached(w.room) { AdvancesTo(w); }
  }

  lemma AdvancesTo(w: Work)
    requires Timed(w.room) && !w.room.removed && !w.room.ending && !w.room.started
    requires w.room.phase == Matched && AllAttached(w.room)
    requires w.room.timers - {Attach} == map[]
    ensures AdvanceLoading(w).room == GoesOn(w.room, AllReady(w.room), w.serial, w.launch)
  {
    hide HumanCount, HumansIn;
    var loading := Detach(w.(room := w.room.(phase := Loading)), Attach);
    DetachIs(w.(room := w.room.(phase := Loading)), Attach);
    assert loading.room.timers == map[];
    assert loading.room.timers - {Ready} == map[] && loading.room.timers - {Countdown} == map[];
    DetachKeeps(w.(room := w.room.(phase := Loading)), Attach);
    hide Detach;
    if AllReady(w.room) {
      DetachIs(loading, Ready);
      DetachKeeps(loading, Ready);
    }
  }

  lemma DetachKeeps(w: Work, k: Kind)
    ensures Detach(w, k).serial == w.serial && Detach(w, k).launch == w.launch
  {
  }

  /** A session takes its reservation's place, and the last one that a matched room waits for takes the match on. */
  lemma AttachEffect(room: Room, player: nat, reservation: nat, admitted: bool, serial: nat, launch: bool, debugCapacity: nat)
    requires Sound(room) && !room.removed
    ensures var w := Section(room, AttachClient(player, reservation, admitted), serial, launch, debugCapacity);
      var attached := room.(reservations := room.reservations - {player}, clients := room.clients[player := serial]);
      if room.ending || !admitted || player !in room.reservations || room.reservations[player] != reservation then
        w.room == room && w.delta == 0
      else
        && w.delta == 1
        && w.room == if room.phase == Matched && HumansIn(room.players, room.clients.Keys + {player})
                     then GoesOn(attached, HumansIn(room.players, room.ready), serial, launch) else attached
  {
    hide HumanCount, HumansIn, DistinctIds, AdvanceLoading;
    var begin := Begin(room, serial, launch);
    if !room.ending && admitted && player in room.reservations && room.reservations[player] == reservation {
      var attached := WithClient(room, player, serial);
      var w := begin.(room := attached, delta := 1);
      assert attached.clients.Keys == room.clients.Keys + {player};
      AttachedSection(room, player, reservation, serial, launch, debugCapacity);
      AdvanceDelta(w);
      if room.phase == Matched {
        AdvanceIs(w);
        SomeHuman(room.players);
        assert IsHuman(room.players, player);
      } else {
        NotMatchedStays(w);
      }
    }
  }

  lemma AttachedSection(room: Room, player: nat, reservation: nat, serial: nat, launch: bool, debugCapacity: nat)
    requires !room.removed && !room.ending && player in room.reservations && room.reservations[player] == reservation
    ensures Section(room, AttachClient(player, reservation, true), serial, launch, debugCapacity)
         == AdvanceLoading(Begin(room, serial, launch).(room := WithClient(room, player, serial), delta := 1))
  {
    hide AdvanceLoading, HumanCount;
  }

  lemma AdvanceDelta(w: Work)
    ensures AdvanceLoading(w).delta == w.delta
  {
    hide HumanCount;
  }

  lemma NotMatchedStays(w: Work)
    requires w.room.phase != Matched
    ensures AdvanceLoading(w) == w
  {
  }

  /** The end of a session forgets its player's connection and ready message, and cancels a match that has not started. */
  lemma ReleaseEffect(room: Room, player: nat, session: nat, serial: nat, launch: bool, debugCapacity: nat)
    requires Sound(room) && !room.removed
    ensures var after := Section(room, ReleaseClient(player, session), serial, launch, debugCapacity).room;
      if !FromClient(room, player, session) then after == room
      else if Pending(room) then Removed(room.(ready := room.ready - {player}), after)
      else after == room.(clients := room.clients - {player}, ready := room.ready - {player})
  {
    PendingIs(room);
    hide HumanCount, DistinctIds, Sound, DetachAll, Pending;
    if FromClient(room, player, session) {
      RemoveIs(Begin(room, serial, launch).(room := room.(clients := room.clients - {player}, ready := room.ready - {player}),
                                            delta := -1));
    }
  }

  // ---------- Participants ----------

  lemma AddPlayerEffect(room: Room, id: nat, serial: nat, launch: bool, debugCapacity: nat)
    requires !room.removed
    ensures Section(room, AddPlayer(id), serial, launch, debugCapacity).room ==
            if !room.ending && room.phase == Forming && |room.players| < debugCapacity
            then room.(players := room.players + [Participant(id, false)]) else room
  {
    hide HumanCount;
    assert Participants([id], false) == [Participant(id, false)];
  }

  /** The room with these participants, which fill it: matched, and waiting for its humans if it has any. */
  function MatchedWith(room: Room, players: seq<Participant>, serial: nat, launch: bool): Room {
    room.(players := players, phase := Matched, ready := {},
          timers := if HumanCount(players) > 0 then OneTimer(room, Attach, serial, launch) else map[])
  }

  lemma MarkIs(w: Work)
    requires w.room.timers == map[] || w.room.timers.Keys == {BotFill}
    requires !w.room.removed && !w.room.ending && |w.room.players| == w.room.capacity
    ensures Detach(MarkMatchedIfFull(w), BotFill).room == MatchedWith(w.room, w.room.players, w.serial, w.launch)
    ensures w.room.timers == map[] ==> MarkMatchedIfFull(w).room == MatchedWith(w.room, w.room.players, w.serial, w.launch)
  {
    hide HumanCount;
    DetachIs(MarkMatchedIfFull(w), BotFill);
    hide Detach;
    NoneLess(Attach);
    NoneLess(BotFill);
    AttachOnly(w.room.timers, Timer(w.room.ref, Attach, w.serial));
    assert w.room.timers - {BotFill} == map[];
    assert Attach !in w.room.timers;
    assert (w.room.timers - {Attach}) - {BotFill} == map[];
  }

  /**
   A human joins a room with a place left: the first one arms the bot-fill timer, and the one that fills the room
   matches it, which discards that timer and arms the attach deadline.
   */
  lemma JoinEffect(room: Room, id: nat, serial: nat, launch: bool, debugCapacity: nat)
    requires Sound(room) && !room.removed
    ensures var after := Section(room, Join(id), serial, launch, debugCapacity).room;
      var players := room.players + [Participant(id, false)];
      if room.ending || room.phase != Forming || |room.players| >= room.capacity || |room.players| >= debugCapacity then after == room
      else if |players| == room.capacity then after == MatchedWith(room, players, serial, launch)
      else if HumanCount(room.players) == 0 then
        after == room.(players := players, timers := OneTimer(room, BotFill, serial, launch))
      else after == room.(players := players)
  {
    hide DistinctIds;
    if CanAcceptMatchmaking(room, debugCapacity) {
      JoinSection(room, id, serial, launch, debugCapacity);
      var w := Begin(room, serial, launch);
      var joined := Append(w, [id], false);
      assert Participants([id], false) == [Participant(id, false)];
      OneMoreHuman(room.players, id);
      hide HumanCount;
      FormingTimers(room);
      if |joined.room.players| == room.capacity {
        MarkIs(joined);
        JoinedFull(w, id);
      } else {
        JoinedOpen(w, id);
      }
    }
  }

  lemma JoinSection(room: Room, id: nat, serial: nat, launch: bool, debugCapacity: nat)
    requires CanAcceptMatchmaking(room, debugCapacity)
    ensures Section(room, Join(id), serial, launch, debugCapacity) == Joined(Begin(room, serial, launch), id)
  {
    hide Joined;
  }

  lemma OneMoreHuman(players: seq<Participant>, id: nat)
    ensures HumanCount(players + [Participant(id, false)]) == HumanCount(players) + 1
  {
    assert (players + [Participant(id, false)])[..|players|] == players;
  }

  lemma FormingTimers(room: Room)
    requires Timed(room) && room.phase == Forming
    ensures room.timers == map[] || room.timers.Keys == {BotFill}
    ensures HumanCount(room.players) == 0 ==> room.timers == map[]
  {
    NoTimersBut(room, BotFill);
    if BotFill in room.timers { assert room.timers.Keys == {BotFill}; }
  }

  lemma JoinedFull(w: Work, id: nat)
    requires |Append(w, [id], false).room.players| == w.room.capacity
    ensures var matched := MarkMatchedIfFull(Append(w, [id], false));
      Joined(w, id).room == if HumanCount(w.room.players) == 0 then matched.room else Detach(matched, BotFill).room
  {
    hide HumanCount, Detach, ArmAttach, Arm;
  }

  lemma JoinedOpen(w: Work, id: nat)
    requires |Append(w, [id], false).room.players| != w.room.capacity && w.room.phase == Forming && !w.room.removed
    requires !w.room.ending && !w.room.started
    requires HumanCount(Append(w, [id], false).room.players) == HumanCount(w.room.players) + 1
    requires HumanCount(w.room.players) == 0 ==> w.room.timers == map[]
    ensures Joined(w, id).room == Append(w, [id], false).room
              .(timers := if HumanCount(w.room.players) == 0 then OneTimer(w.room, BotFill, w.serial, w.launch) else w.room.timers)
  {
    hide HumanCount, Detach;
    NoneLess(BotFill);
  }

  /** The participants after bots have been added. */
  function WithBots(room: Room, ids: seq<nat>): seq<Participant> {
    room.players + Participants(ids, true)
  }

  lemma BotsAreNotHuman(players: seq<Participant>, ids: seq<nat>)
    ensures HumanCount(players + Participants(ids, true)) == HumanCount(players)
    ensures forall id :: IsHuman(players + Participants(ids, true), id) <==> IsHuman(players, id)
  {
    var all := players + Participants(ids, true);
    if ids == [] {
      assert all == players;
    } else {
      var init := ids[..|ids| - 1];
      BotsAreNotHuman(players, init);
      assert all[..|all| - 1] == players + Participants(init, true);
    }
  }

  /** Bots that fill a room match it, and it goes on to loading if every human is attached already. */
  function FilledWith(room: Room, players: seq<Participant>, serial: nat, launch: bool): Room {
    var matched := MatchedWith(room, players, serial, launch);
    if HumanCount(players) > 0 && forall p :: p in players && !p.isBot ==> p.id in room.clients
    then GoesOn(matched, false, serial, launch) else matched
  }

  lemma FilledIs(w: Work, players: seq<Participant>, serial: nat, launch: bool, room: Room)
    requires w.room == MatchedWith(room, players, serial, launch) && w.serial == serial && w.launch == launch
    requires !room.removed && !room.ending && !room.started && |players| == room.capacity
    ensures AdvanceLoading(w).room == FilledWith(room, players, serial, launch)
  {
    hide AdvanceLoading;
    MatchedTimed(w.room, players, room, serial, launch);
    AdvanceIs(w);
    HumansInExact(players, room.clients.Keys);
    if HumanCount(players) > 0 {
      SomeHuman(players);
      var id :| IsHuman(players, id);
      assert id !in w.room.ready;
    }
    hide HumanCount, HumansIn;
  }

  lemma MatchedTimed(after: Room, players: seq<Participant>, room: Room, serial: nat, launch: bool)
    requires after == MatchedWith(room, players, serial, launch)
    ensures Timed(after)
  {
    hide HumanCount;
  }

  lemma AddBotsEffect(room: Room, ids: seq<nat>, serial: nat, launch: bool, debugCapacity: nat)
    requires Sound(room) && !room.removed
    ensures var players := WithBots(room, ids);
      Section(room, AddBots(ids), serial, launch, debugCapacity).room ==
        if room.ending || room.started || room.phase != Forming || |players| > room.capacity then room
        else if |players| == room.capacity then FilledWith(room, players, serial, launch)
        else room.(players := players)
  {
    hide DistinctIds, HumanCount, AllAttached, AllReady;
    var w := Begin(room, serial, launch);
    var players := WithBots(room, ids);
    AddBotsSection(room, ids, serial, launch, debugCapacity);
    if !room.ending && !room.started && room.phase == Forming && |players| <= room.capacity {
      FormingTimers(room);
      var added := Append(w, ids, true);
      if |players| == room.capacity {
        MarkIs(added);
        MarkKeeps(added);
        var quiet := Detach(MarkMatchedIfFull(added), BotFill);
        DetachKeeps(MarkMatchedIfFull(added), BotFill);
        hide Detach, MarkMatchedIfFull, AdvanceLoading;
        FilledIs(quiet, players, serial, launch, room);
      } else {
        hide AdvanceLoading;
        NotMatchedStays(added);
      }
    }
  }

  lemma MarkKeeps(w: Work)
    ensures MarkMatchedIfFull(w).serial == w.serial && MarkMatchedIfFull(w).launch == w.launch
    ensures MarkMatchedIfFull(w).room.players == w.room.players && MarkMatchedIfFull(w).room.capacity == w.room.capacity
  {
  }

  lemma AddBotsSection(room: Room, ids: seq<nat>, serial: nat, launch: bool, debugCapacity: nat)
    requires !room.removed
    ensures Section(room, AddBots(ids), serial, launch, debugCapacity) ==
            if room.ending || room.started || room.phase != Forming || |ids| > room.capacity - |room.players|
            then Begin(room, serial, launch) else BotsAdded(Begin(room, serial, launch), ids)
  {
    hide BotsAdded;
  }

  /** The bot-fill timer fills the room if its bots could be chosen, and is discarded in any case. */
  lemma FillBotsEffect(room: Room, t: Timer, ids: seq<nat>, chosen: bool, serial: nat, launch: bool, debugCapacity: nat)
    requires Sound(room) && !room.removed
    ensures var missing := if room.capacity > |room.players| then room.capacity - |room.players| else 0;
      var players := WithBots(room, ids);
      Section(room, FillBots(t, ids, chosen), serial, launch, debugCapacity).room ==
        if room.phase != Forming || BotFill !in room.timers || room.timers[BotFill] != t then room
        else if !chosen || |ids| != missing then room.(timers := map[])
        else if |players| == room.capacity then FilledWith(room, players, serial, launch)
        else room.(players := players, timers := map[])
  {
    hide Section, Sound, HumanCount, BotsFilled;
    FillBotsSection(room, t, ids, chosen, serial, launch, debugCapacity);
    if room.phase == Forming && BotFill in room.timers && room.timers[BotFill] == t {
      BotsFilledIs(room, ids, chosen, serial, launch);
    }
  }

  lemma BotsFilledIs(room: Room, ids: seq<nat>, chosen: bool, serial: nat, launch: bool)
    requires Sound(room) && !room.removed && room.phase == Forming
    ensures var missing := if room.capacity > |room.players| then room.capacity - |room.players| else 0;
      var players := WithBots(room, ids);
      BotsFilled(Begin(room, serial, launch), ids, chosen).room ==
        if !chosen || |ids| != missing then room.(timers := map[])
        else if |players| == room.capacity then FilledWith(room, players, serial, launch)
        else room.(players := players, timers := map[])
  {
    hide Shaped, Phased, HumanCount, FilledUp, Detach;
    var w := Begin(room, serial, launch);
    NoTimersBut(room, BotFill);
    DetachIs(w, BotFill);
    DetachKeeps(w, BotFill);
    OpenUnended(room);
    FilledUpIs(Detach(w, BotFill), ids, room.(timers := map[]));
    assert room.(timers := map[]).(players := WithBots(room, ids)) == room.(players := WithBots(room, ids), timers := map[]);
  }

  lemma OpenUnended(room: Room)
    requires Shaped(room) && room.phase == Forming
    ensures !room.ending && !room.started
  {
    hide DistinctIds;
  }

  lemma FilledUpIs(w: Work, ids: seq<nat>, room: Room)
    requires w.room == room && room.timers == map[] && room.phase == Forming && !room.removed && !room.ending && !room.started
    ensures var players := WithBots(room, ids);
      FilledUp(w, ids).room ==
        if |players| == room.capacity then FilledWith(room, players, w.serial, w.launch) else room.(players := players)
  {
    hide HumanCount, AllAttached, AllReady, HumansIn;
    var added := Append(w, ids, true);
    if |added.room.players| == room.capacity {
      MarkIs(added);
      MarkKeeps(added);
      hide MarkMatchedIfFull, AdvanceLoading;
      FilledIs(MarkMatchedIfFull(added), WithBots(room, ids), w.serial, w.launch, room);
    } else {
      hide AdvanceLoading;
      NotMatchedStays(added);
    }
  }

  lemma FillBotsSection(room: Room, t: Timer, ids: seq<nat>, chosen: bool, serial: nat, launch: bool, debugCapacity: nat)
    requires Sound(room) && !room.removed
    ensures Section(room, FillBots(t, ids, chosen), serial, launch, debugCapacity) ==
            if room.phase != Forming || BotFill !in room.timers || room.timers[BotFill] != t
            then Begin(room, serial, launch) else BotsFilled(Begin(room, serial, launch), ids, chosen)
  {
    hide BotsFilled, DistinctIds, HumanCount;
  }

  // ---------- Ends of a room ----------

  /** Whatever removes a room removes it entirely, and only in these circumstances. */
  lemma RemovalEffect(room: Room, a: Action, serial: nat, launch: bool, debugCapacity: nat)
    requires Sound(room) && !room.removed
    requires a.ExpireAttach? || a.ExpireReady? || a.FinishGameEnd? || a.Delete? || a.Expire? || a.ShutdownDetach?
    ensures var after := Section(room, a, serial, launch, debugCapacity).room;
      var ends := match a
        case ExpireAttach(timer, due) => room.phase == Matched && Attach in room.timers && room.timers[Attach] == timer && due
        case ExpireReady(timer, due) => room.phase == Loading && Ready in room.timers && room.timers[Ready] == timer && due
        case FinishGameEnd => room.ending
        case Delete => !room.ending
        case Expire(hard, idle) => !room.ending && (hard || (room.clients == map[] && room.reservations == map[] && idle))
        case _ => true;
      if ends then Removed(room, after) else after == room
  {
    hide HumanCount, DistinctIds, DetachAll, HumansIn;
    RemoveIs(Begin(room, serial, launch));
    hide Remove;
  }

  // ---------- The match itself ----------

  /** A started room runs its gameplay timer and nothing else. */
  function Begun(room: Room, serial: nat, launch: bool): Room {
    room.(started := true, phase := Started, countdown := 0,
          timers := if Gameplay in room.timers then room.timers else OneTimer(room, Gameplay, serial, launch))
  }

  lemma StartIs(w: Work)
    requires forall k :: k in w.room.timers ==> k == Gameplay || k == Countdown
    requires Gameplay !in w.room.timers || Countdown !in w.room.timers
    ensures StartRoom(w).room == Begun(w.room, w.serial, w.launch)
  {
    NoneLess(Gameplay);
    assert Gameplay !in w.room.timers ==> w.room.timers - {Countdown} == map[];
  }

  lemma StartNowEffect(room: Room, serial: nat, launch: bool, debugCapacity: nat)
    requires Sound(room) && !room.removed
    ensures Section(room, StartNow, serial, launch, debugCapacity).room
         == if room.ending || room.players == [] then room else Begun(room, serial, launch)
  {
    hide HumanCount, DistinctIds, AllAttached, AllReady, StartRoom, Detach, Shaped, Phased;
    StartNowSection(room, serial, launch, debugCapacity);
    hide Section;
    var quiet := Quieted(Begin(room, serial, launch));
    QuietIs(Begin(room, serial, launch));
    QuietTimers(room);
    StartIs(quiet);
  }

  lemma StartNowSection(room: Room, serial: nat, launch: bool, debugCapacity: nat)
    requires !room.removed
    ensures Section(room, StartNow, serial, launch, debugCapacity) ==
            if room.ending || room.players == [] then Begin(room, serial, launch)
            else StartRoom(Quieted(Begin(room, serial, launch)))
  {
    hide StartRoom, Detach, HumanCount;
  }

  function Quieted(w: Work): Work {
    Detach(Detach(Detach(w, BotFill), Attach), Ready)
  }

  lemma QuietIs(w: Work)
    ensures Quieted(w).serial == w.serial && Quieted(w).launch == w.launch
    ensures Quieted(w).room == w.room.(timers := w.room.timers - {BotFill} - {Attach} - {Ready})
  {
    var w1 := Detach(w, BotFill);
    var w2 := Detach(w1, Attach);
    DetachIs(w, BotFill);
    DetachIs(w1, Attach);
    DetachIs(w2, Ready);
    hide Detach;
  }

  lemma QuietTimers(room: Room)
    requires Timed(room)
    ensures room.timers - {BotFill} - {Attach} - {Ready} == if room.phase in {Starting, Started} then room.timers else map[]
    ensures forall k :: k in room.timers && room.phase in {Starting, Started} ==> k == PhaseTimer(room.phase)
  {
    NoTimersBut(room, PhaseTimer(room.phase));
  }

  /** The countdown's own timer counts down and starts the match with its last tick; any other does nothing. */
  lemma CountdownEffect(room: Room, t: Timer, serial: nat, launch: bool, debugCapacity: nat)
    requires Sound(room) && !room.removed
    ensures Section(room, CountdownTick(t), serial, launch, debugCapacity).room ==
            if room.phase != Starting || Countdown !in room.timers || room.timers[Countdown] != t then room
            else if room.countdown > 1 then room.(countdown := room.countdown - 1)
            else Begun(room, serial, launch)
  {
    hide HumanCount, DistinctIds, AllAttached, AllReady, StartRoom, Remove, Detach;
    if room.phase == Starting { StartIs(Begin(room, serial, launch)); }
  }

  function PhaseTimer(p: Phase): Kind {
    match p
    case Forming => BotFill
    case Matched => Attach
    case Loading => Ready
    case Starting => Countdown
    case Started => Gameplay
  }

  /** Only a tick that ends the game changes a room, and it stops the gameplay timer. */
  lemma GameplayEffect(room: Room, terminal: bool, serial: nat, launch: bool, debugCapacity: nat)
    requires Sound(room) && !room.removed
    ensures Section(room, GameplayTick(terminal), serial, launch, debugCapacity).room ==
            if !room.ending && room.started && terminal then room.(ending := true, timers := map[]) else room
  {
    hide HumanCount, DistinctIds, AllAttached, AllReady, Remove;
    if room.phase == Started { NoTimersBut(room, Gameplay); }
    DetachIs(Begin(room, serial, launch).(room := room.(ending := true)), Gameplay);
    hide Detach;
  }
}
