/**
 What each step of the store does when it succeeds, and that it does nothing otherwise: rooms that open, credentials
 that are issued, sections of a room, and the work that is owed in between.
 */
module StoreEffects {
  import opened RoomLifecycle
  import opened RoomRegistry
  import opened RoomEffects

  /** A room opens exactly while the store is open, below its limit, and the name is free. */
  predicate CanOpen(s: State, name: nat) {
    !s.closed && |s.registry| < s.maxRooms && name !in s.registry
  }

  /** `room` has been created and registered, and no other room is concerned. */
  predicate Opened(s: State, after: State, name: nat, room: Room) {
    && after.rooms == s.rooms + [room] && room.ref == |s.rooms| && room.name == name && !room.removed
    && after.registry.Keys == s.registry.Keys + {name} && IsRegistered(after, |s.rooms|)
    && (forall n :: n in s.registry ==> after.registry[n] == s.registry[n])
    && |after.registry| == |s.registry| + 1 && after.activeRooms == s.activeRooms + 1
    && after.closed == s.closed && after.workersClosing == s.workersClosing
    && after.doomed == s.doomed && after.releasing == s.releasing
  }

  lemma OneName(registry: map<nat, nat>, name: nat, ref: nat)
    requires name !in registry
    ensures registry[name := ref].Keys == registry.Keys + {name} && |registry[name := ref]| == |registry| + 1
  {
    assert registry[name := ref].Keys == registry.Keys + {name};
    assert |registry.Keys| == |registry| && |registry[name := ref].Keys| == |registry[name := ref]|;
  }

  lemma CreateRoomEffect(s: State, name: nat, capacity: nat)
    ensures var after := Do(s, CreateRoom(name, capacity));
      if !CanOpen(s, name) then after == s
      else
        && Opened(s, after, name, NewRoom(|s.rooms|, name, capacity))
        && after.playerIDs == s.playerIDs && after.loose == s.loose && after.created == s.created
        && after.stopping == s.stopping && after.stopped == s.stopped && after.serial == s.serial
  {
    if CanOpen(s, name) {
      OneName(s.registry, name, |s.rooms|);
    }
  }

  /** The new room of a first human: it waits for others and for its bots, or, with one place only, it is matched. */
  function FirstRoom(ref: nat, name: nat, capacity: nat, id: nat, serial: nat, launch: bool): Room {
    var room := NewRoom(ref, name, capacity);
    var players := [Participant(id, false)];
    if capacity == 1 then MatchedWith(room, players, serial, launch)
    else room.(players := players, timers := OneTimer(room, BotFill, serial, launch))
  }

  lemma FirstJoined(room: Room, id: nat, serial: nat, launch: bool)
    requires room == NewRoom(room.ref, room.name, room.capacity)
    ensures Joined(Begin(room, serial, launch), id).room == FirstRoom(room.ref, room.name, room.capacity, id, serial, launch)
  {
    var w := Begin(room, serial, launch);
    var joined := Append(w, [id], false);
    assert Participants([id], false) == [Participant(id, false)];
    OneMoreHuman(room.players, id);
    assert room.players + [Participant(id, false)] == [Participant(id, false)];
    if room.capacity == 1 {
      MarkIs(joined);
      JoinedFull(w, id);
    } else {
      JoinedOpen(w, id);
    }
  }

  /** Opening a match room also moves its first human's identity, issued before or new, into it. */
  lemma CreateMatchRoomEffect(s: State, name: nat, capacity: nat, id: nat, issued: bool)
    ensures var after := Do(s, CreateMatchRoom(name, capacity, id, issued));
      if !CanOpen(s, name) || (if issued then id !in s.loose else id in s.playerIDs) then after == s
      else
        && Opened(s, after, name, FirstRoom(|s.rooms|, name, capacity, id, s.serial, !s.workersClosing))
        && after.playerIDs == s.playerIDs + {id} && after.loose == s.loose - {id}
  {
    hide Joined, FirstRoom, Moved, Do, Opened, Begin;
    if CanOpen(s, name) && (if issued then id in s.loose else id !in s.playerIDs) {
      var room := NewRoom(|s.rooms|, name, capacity);
      var first := FirstRoom(|s.rooms|, name, capacity, id, s.serial, !s.workersClosing);
      FirstJoined(room, id, s.serial, !s.workersClosing);
      FirstRoomIs(|s.rooms|, name, capacity, id, s.serial, !s.workersClosing);
      CreateMatchFields(s, name, capacity, id, issued, first);
      assert (s.rooms + [room])[|s.rooms| := first] == s.rooms + [first];
      OpenedFrom(s, Do(s, CreateMatchRoom(name, capacity, id, issued)), name, first);
    } else {
      CreateMatchRefused(s, name, capacity, id, issued);
    }
  }

  lemma CreateMatchRefused(s: State, name: nat, capacity: nat, id: nat, issued: bool)
    requires !CanOpen(s, name) || (if issued then id !in s.loose else id in s.playerIDs)
    ensures Do(s, CreateMatchRoom(name, capacity, id, issued)) == s
  {
  }

  lemma OpenedFrom(s: State, after: State, name: nat, room: Room)
    requires name !in s.registry && after.rooms == s.rooms + [room]
    requires room.ref == |s.rooms| && room.name == name && !room.removed
    requires after.registry == s.registry[name := |s.rooms|] && after.activeRooms == s.activeRooms + 1
    requires after.closed == s.closed && after.workersClosing == s.workersClosing
    requires after.doomed == s.doomed && after.releasing == s.releasing
    ensures Opened(s, after, name, room)
  {
    OneName(s.registry, name, |s.rooms|);
  }

  lemma CreateMatchFields(s: State, name: nat, capacity: nat, id: nat, issued: bool, first: Room)
    requires Joined(Begin(NewRoom(|s.rooms|, name, capacity), s.serial, !s.workersClosing), id).room == first
    requires first.ref == |s.rooms| && NewRoom(|s.rooms|, name, capacity).ref == |s.rooms|
    requires CanOpen(s, name) && (if issued then id in s.loose else id !in s.playerIDs)
    ensures var after := Do(s, CreateMatchRoom(name, capacity, id, issued));
      && after.rooms == (s.rooms + [NewRoom(|s.rooms|, name, capacity)])[|s.rooms| := first]
      && after.registry == s.registry[name := |s.rooms|] && after.activeRooms == Moved(s.activeRooms, 1)
      && after.playerIDs == s.playerIDs + {id} && after.loose == s.loose - {id}
      && after.closed == s.closed && after.workersClosing == s.workersClosing
      && after.doomed == s.doomed && after.releasing == s.releasing
  {
    hide Joined, NewRoom, Moved;
  }

  lemma FirstRoomIs(ref: nat, name: nat, capacity: nat, id: nat, serial: nat, launch: bool)
    ensures var room := FirstRoom(ref, name, capacity, id, serial, launch);
      room.ref == ref && room.name == name && !room.removed && NewRoom(ref, name, capacity).ref == ref
    ensures forall counter: nat :: Moved(counter, 1) == counter + 1
  {
  }

  lemma IssueEffect(s: State, id: nat)
    ensures Do(s, IssueCredentials(id))
         == if !s.closed && id !in s.playerIDs then s.(playerIDs := s.playerIDs + {id}, loose := s.loose + {id}) else s
  {
  }

  // ---------- Sections of a room ----------

  /**
   While the store is open, a registered room's sections run whenever their arguments are what the callers bring:
   issued credentials for a human, identities not in use for bots.
   */
  lemma OpenStoreAdmits(s: State, ref: nat, a: Action)
    requires !s.closed && IsRegistered(s, ref)
    ensures Admits(s, ref, a) <==>
              if a.AddPlayer? || a.Join? then a.id in s.loose
              else if a.AddBots? || a.FillBots? then
                && (forall i, j :: 0 <= i < j < |a.ids| ==> a.ids[i] != a.ids[j])
                && (forall i :: 0 <= i < |a.ids| ==> a.ids[i] !in s.playerIDs)
              else !a.ShutdownDetach?
  {
  }

  /** Once it is closed, sessions still end, timers still run and rooms still go; no client and no bot comes any more. */
  lemma ClosedStoreAdmits(s: State, ref: nat, a: Action)
    requires s.closed
    ensures Admits(s, ref, a) <==>
              if a.AddPlayer? || a.Join? then a.id in s.loose
              else !(a.AddBots? || a.FillBots? || a.AttachClient? || a.MarkReady? || a.ExpireAttach? || a.ExpireReady?
                     || a.FinishGameEnd?)
  {
  }

  /** The identity of a human that an added player brings to a room which does not take it. */
  function Refused(room: Room, next: Room, a: Action): set<nat> {
    if a.AddPlayer? && next.players == room.players then {a.id} else {}
  }

  /**
   A section changes its own room only; its newcomers' identities move into the room, a refused one is to be released;
   and a room that it removes is deregistered with it or owed to be, its identities to be released with that.
   */
  lemma InRoomEffect(s: State, ref: nat, a: Action)
    requires Inv(s) && ref < |s.rooms|
    ensures var room := s.rooms[ref];
      var after := Do(s, InRoom(ref, a));
      var next := Section(room, a, s.serial, !s.workersClosing, s.debugCapacity).room;
      var added := Ids(next) - Ids(room);
      if !Admits(s, ref, a) then after == s
      else
        && after.rooms == s.rooms[ref := next]
        && after.playerIDs == s.playerIDs + added && after.loose == s.loose - added - Refused(room, next, a)
        && (if !next.removed || room.removed then
              after.registry == s.registry && after.doomed == s.doomed && after.releasing == s.releasing + Refused(room, next, a)
            else if DeregistersAtOnce(a) then
              && after.registry == s.registry - {room.name} && after.doomed == s.doomed
              && after.releasing == s.releasing + Refused(room, next, a) + Ids(next)
            else
              && after.registry == s.registry && after.doomed == s.doomed + {ref}
              && after.releasing == s.releasing + Refused(room, next, a))
  {
    hide Section, Inv, Admits, Kept, Ids, Sound, Refused;
    if Admits(s, ref, a) {
      InStore(s, ref, a);
      SectionFields(s, ref, a);
    }
  }

  lemma InStore(s: State, ref: nat, a: Action)
    requires Inv(s) && ref < |s.rooms| && Admits(s, ref, a)
    ensures var w := Section(s.rooms[ref], a, s.serial, !s.workersClosing, s.debugCapacity);
      s.rooms[ref].ref == ref && w.room.ref == ref && w.room.name == s.rooms[ref].name
  {
    hide Section, Admits, Kept, RegistryExact, IdentitiesExact, TimersExact, RoomsGuarded;
    assert Sound(s.rooms[ref]);
    SectionInStore(s, ref, a);
    SameName(s.rooms[ref], Section(s.rooms[ref], a, s.serial, !s.workersClosing, s.debugCapacity));
  }

  lemma SameName(room: Room, w: Work)
    requires Kept(room, w)
    ensures w.room.ref == room.ref && w.room.name == room.name
  {
  }

  lemma SectionFields(s: State, ref: nat, a: Action)
    requires ref < |s.rooms| && Admits(s, ref, a)
    requires var w := Section(s.rooms[ref], a, s.serial, !s.workersClosing, s.debugCapacity);
      s.rooms[ref].ref == ref && w.room.ref == ref && w.room.name == s.rooms[ref].name
    ensures var room := s.rooms[ref];
      var after := Do(s, InRoom(ref, a));
      var next := Section(room, a, s.serial, !s.workersClosing, s.debugCapacity).room;
      var added := Ids(next) - Ids(room);
      var refused := Refused(room, next, a);
      && after.rooms == s.rooms[ref := next]
      && after.playerIDs == s.playerIDs + added && after.loose == s.loose - added - refused
      && (if !next.removed || room.removed then
            after.registry == s.registry && after.doomed == s.doomed && after.releasing == s.releasing + refused
          else if DeregistersAtOnce(a) then
            && after.registry == s.registry - {room.name} && after.doomed == s.doomed
            && after.releasing == s.releasing + refused + Ids(next)
          else after.registry == s.registry && after.doomed == s.doomed + {ref} && after.releasing == s.releasing + refused)
  {
    hide Section, Admits, Ids, Moved;
  }

  // ---------- Work that is owed ----------

  /** Whoever owes a removed room takes its name from the registry and hands its identities on to be released. */
  lemma DeregisterEffect(s: State, ref: nat)
    requires Inv(s) && ref in s.doomed
    ensures var after := Do(s, Deregister(ref));
      && ref < |s.rooms| && IsRegistered(s, ref)
      && after.registry == s.registry - {s.rooms[ref].name} && after.doomed == s.doomed - {ref}
      && after.releasing == s.releasing + Ids(s.rooms[ref]) && after.playerIDs == s.playerIDs && after.rooms == s.rooms
  {
    hide RoomsSound, RoomsGuarded, IdentitiesExact, TimersExact, Ids, Moved;
    assert Owning(s, ref);
  }

  /** Identities given up are to be released, and released ones are no longer in use. */
  lemma OwedEffect(s: State, id: nat, ids: set<nat>)
    ensures Do(s, GiveUp(id)) == if id in s.loose then s.(loose := s.loose - {id}, releasing := s.releasing + {id}) else s
    ensures Do(s, ReleaseIds(ids))
         == if ids <= s.releasing then s.(playerIDs := s.playerIDs - ids, releasing := s.releasing - ids) else s
    ensures Do(s, Close) == s.(closed := true)
    ensures Do(s, StopLaunching) == s.(workersClosing := s.workersClosing || s.closed)
  {
  }

  /** A handed over timer is stopped once, and no other. */
  lemma StopTimerEffect(s: State, t: Timer)
    ensures var after := Do(s, StopTimer(t));
      if t !in s.stopping then after == s
      else
        && after == s.(stopping := after.stopping, stopped := after.stopped)
        && after.stopping[t] == s.stopping[t] - 1 && after.stopped[t] == s.stopped[t] + 1
        && forall u :: u != t ==> after.stopping[u] == s.stopping[u] && after.stopped[u] == s.stopped[u]
  {
  }
}
