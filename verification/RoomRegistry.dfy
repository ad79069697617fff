/**
 The store around the rooms: the registry, the player identities, the two counters, and the work that
 threads owe between two of their critical sections. Every critical section is one step, and steps of any
 threads interleave freely.
 */
module RoomRegistry {
  import opened RoomLifecycle

  /**
   `rooms` is every room ever created, by reference; `registry` maps the names in use to references. What
   threads owe: identities issued but not yet in a room, removed rooms to deregister, identities to release,
   timers to stop. `created` and `stopped` are history.
   */
  datatype State = State(
    maxRooms: nat,
    debugCapacity: nat,
    rooms: seq<Room>,
    registry: map<nat, nat>,
    playerIDs: set<nat>,
    closed: bool,
    workersClosing: bool,
    activeRooms: nat,
    connectedClients: nat,
    loose: set<nat>,
    doomed: set<nat>,
    releasing: set<nat>,
    stopping: multiset<Timer>,
    stopped: multiset<Timer>,
    created: set<Timer>,
    serial: nat)

  datatype Step =
    | CreateRoom(name: nat, capacity: nat)
    | IssueCredentials(id: nat)
    | CreateMatchRoom(name: nat, capacity: nat, id: nat, issued: bool)
    | InRoom(ref: nat, action: Action)
    | GiveUp(id: nat)
    | ReleaseIds(ids: set<nat>)
    | Deregister(ref: nat)
    | StopTimer(timer: Timer)
    | Close
    | StopLaunching

  function Initial(maxRooms: nat, debugCapacity: nat): State {
    State(maxRooms, debugCapacity, [], map[], {}, false, false, 0, 0, {}, {}, {}, multiset{}, multiset{}, {}, 0)
  }

  function Moved(counter: nat, delta: int): nat {
    if counter + delta < 0 then 0 else counter + delta
  }

  predicate IsRegistered(s: State, ref: nat) {
    ref < |s.rooms| && s.rooms[ref].name in s.registry && s.registry[s.rooms[ref].name] == ref
  }

  predicate FreshIds(s: State, ids: seq<nat>) {
    (forall i, j :: 0 <= i < j < |ids| ==> ids[i] != ids[j]) && (forall i :: 0 <= i < |ids| ==> ids[i] !in s.playerIDs)
  }

  /** What a section that also holds the store's mutex finds there; AddPlayer and Join bring issued credentials. */
  predicate Admits(s: State, ref: nat, a: Action) {
    match a
    case AddPlayer(id) => id in s.loose
    case Join(id) => id in s.loose
    case AddBots(ids) => !s.closed && IsRegistered(s, ref) && FreshIds(s, ids)
    case FillBots(_, ids, _) => !s.closed && IsRegistered(s, ref) && FreshIds(s, ids)
    case AttachClient(_, _, _) => !s.closed
    case MarkReady(_, _, _) => !s.closed && IsRegistered(s, ref)
    case ExpireAttach(_, _) => !s.closed && IsRegistered(s, ref)
    case ExpireReady(_, _) => !s.closed && IsRegistered(s, ref)
    case FinishGameEnd => !s.closed && IsRegistered(s, ref)
    case ShutdownDetach => s.closed
    case _ => true
  }

  /** Sections that hold the store's mutex deregister the room they remove; the others owe it. */
  predicate DeregistersAtOnce(a: Action) {
    a.ExpireAttach? || a.ExpireReady? || a.MarkReady? || a.FinishGameEnd?
  }

  function Enter(s: State, w: Work): State
    requires w.room.ref < |s.rooms|
  {
    s.(rooms := s.rooms[w.room.ref := w.room],
       connectedClients := Moved(s.connectedClients, w.delta),
       stopping := s.stopping + w.detached,
       stopped := s.stopped + w.stopped,
       created := s.created + w.armed,
       serial := s.serial + 1)
  }

  /** The work enters, `added` identities move into the room, and `refused` ones go back. */
  function Settle(s: State, w: Work, added: set<nat>, refused: set<nat>): State
    requires w.room.ref < |s.rooms|
  {
    Enter(s, w).(playerIDs := s.playerIDs + added,
                 loose := s.loose - added - refused,
                 releasing := s.releasing + refused)
  }

  function Forget(s: State, room: Room): State {
    s.(registry := s.registry - {room.name}, activeRooms := Moved(s.activeRooms, -1),
       releasing := s.releasing + Ids(room))
  }

  function DoInRoom(s: State, ref: nat, a: Action): State
    requires ref < |s.rooms| && s.rooms[ref].ref == ref
  {
    var room := s.rooms[ref];
    var w := Section(room, a, s.serial, !s.workersClosing, s.debugCapacity);
    if w.room.ref != ref then s
    else
      var added := Ids(w.room) - Ids(room);
      var refused := if a.AddPlayer? && w.room.players == room.players then {a.id} else {};
      var after := Settle(s, w, added, refused);
      if !w.room.removed || room.removed then after
      else if DeregistersAtOnce(a) then Forget(after, w.room)
      else after.(doomed := s.doomed + {ref})
  }

  function Do(s: State, step: Step): State {
    match step
    case CreateRoom(name, capacity) =>
      if s.closed || |s.registry| >= s.maxRooms || name in s.registry then s
      else
        s.(rooms := s.rooms + [NewRoom(|s.rooms|, name, capacity)], registry := s.registry[name := |s.rooms|],
           activeRooms := Moved(s.activeRooms, 1))
    case IssueCredentials(id) =>
      if s.closed || id in s.playerIDs then s
      else s.(playerIDs := s.playerIDs + {id}, loose := s.loose + {id})
    case CreateMatchRoom(name, capacity, id, issued) =>
      if s.closed || |s.registry| >= s.maxRooms || name in s.registry
         || (if issued then id !in s.loose else id in s.playerIDs) then s
      else
        var room := NewRoom(|s.rooms|, name, capacity);
        var w := Joined(Begin(room, s.serial, !s.workersClosing), id);
        if w.room.ref != room.ref then s
        else
          Enter(s.(rooms := s.rooms + [room]), w)
            .(registry := s.registry[name := |s.rooms|], activeRooms := Moved(s.activeRooms, 1),
              playerIDs := s.playerIDs + {id}, loose := s.loose - {id})
    case InRoom(ref, a) =>
      if ref >= |s.rooms| || s.rooms[ref].ref != ref || !Admits(s, ref, a) then s else DoInRoom(s, ref, a)
    case GiveUp(id) => if id !in s.loose then s else s.(loose := s.loose - {id}, releasing := s.releasing + {id})
    case ReleaseIds(ids) =>
      if !(ids <= s.releasing) then s else s.(playerIDs := s.playerIDs - ids, releasing := s.releasing - ids)
    case Deregister(ref) =>
      if ref !in s.doomed || ref >= |s.rooms| then s
      else
        var paid := s.(doomed := s.doomed - {ref});
        if IsRegistered(s, ref) then Forget(paid, s.rooms[ref]) else paid
    case StopTimer(t) =>
      if t !in s.stopping then s else s.(stopping := s.stopping - multiset{t}, stopped := s.stopped + multiset{t})
    case Close => s.(closed := true)
    case StopLaunching => if s.closed then s.(workersClosing := true) else s
  }

  function Exec(s: State, steps: seq<Step>): State {
    if steps == [] then s else Do(Exec(s, steps[..|steps| - 1]), steps[|steps| - 1])
  }

  // ---------- What every interleaving keeps ----------

  /** The registry owes its entry to these rooms: live ones, and removed ones somebody has yet to deregister. */
  predicate Owning(s: State, ref: nat): (owning: bool)
    ensures owning ==> ref < |s.rooms|
  {
    ref < |s.rooms| && (!s.rooms[ref].removed || ref in s.doomed)
  }

  ghost predicate RoomsSound(s: State) {
    forall ref :: 0 <= ref < |s.rooms| ==> Sound(s.rooms[ref]) && s.rooms[ref].ref == ref
  }

  ghost predicate RoomsGuarded(s: State) {
    !s.workersClosing ==> forall ref :: 0 <= ref < |s.rooms| ==> Guarded(s.rooms[ref])
  }

  ghost predicate RegistryExact(s: State) {
    && (forall ref: nat :: Owning(s, ref) ==> IsRegistered(s, ref))
    && (forall name :: name in s.registry ==>
          Owning(s, s.registry[name]) && s.rooms[s.registry[name]].name == name)
    && (forall ref :: ref in s.doomed ==> ref < |s.rooms| && s.rooms[ref].removed)
    && s.activeRooms == |s.registry|
  }

  ghost predicate IdentitiesExact(s: State) {
    && s.loose <= s.playerIDs && s.releasing <= s.playerIDs && s.loose !! s.releasing
    && (forall ref: nat :: Owning(s, ref) ==>
          Ids(s.rooms[ref]) <= s.playerIDs && Ids(s.rooms[ref]) !! s.loose && Ids(s.rooms[ref]) !! s.releasing)
    && (forall r: nat, q: nat :: Owning(s, r) && Owning(s, q) && r != q ==> Ids(s.rooms[r]) !! Ids(s.rooms[q]))
    && (forall id :: id in s.playerIDs ==> id in s.loose || id in s.releasing || Housed(s, id))
  }

  ghost predicate Housed(s: State, id: nat) {
    exists ref: nat :: Owning(s, ref) && id in Ids(s.rooms[ref])
  }

  predicate Held(s: State, t: Timer) {
    t.room < |s.rooms| && Holds(s.rooms[t.room], t)
  }

  ghost predicate TimersExact(s: State) {
    && (forall t :: Count(Held(s, t)) + s.stopping[t] + s.stopped[t] == Count(t in s.created))
    && (forall t :: t in s.created ==> t.serial < s.serial)
  }

  function Clients(rooms: seq<Room>): nat {
    if rooms == [] then 0 else Clients(rooms[..|rooms| - 1]) + |rooms[|rooms| - 1].clients|
  }

  ghost predicate Inv(s: State) {
    && RoomsSound(s) && RoomsGuarded(s) && RegistryExact(s) && IdentitiesExact(s) && TimersExact(s)
    && s.connectedClients == Clients(s.rooms)
    && (s.workersClosing ==> s.closed)
  }

  // ---------- A section's work enters the store ----------

  lemma {:induction false} ClientsUpdated(rooms: seq<Room>, ref: nat, room: Room)
    requires ref < |rooms|
    ensures Clients(rooms[ref := room]) == Clients(rooms) - |rooms[ref].clients| + |room.clients|
  {
    var n := |rooms| - 1;
    var after := rooms[ref := room];
    if ref < n {
      ClientsUpdated(rooms[..n], ref, room);
      assert after[..n] == rooms[..n][ref := room];
    } else {
      assert after[..n] == rooms[..n];
    }
  }

  lemma {:induction false} ClientsCover(rooms: seq<Room>, ref: nat)
    requires ref < |rooms|
    ensures Clients(rooms) >= |rooms[ref].clients|
  {
    if ref < |rooms| - 1 {
      ClientsCover(rooms[..|rooms| - 1], ref);
    }
  }

  lemma EnterCounts(s: State, w: Work)
    requires w.room.ref < |s.rooms| && s.connectedClients == Clients(s.rooms)
    requires w.delta == |w.room.clients| - |s.rooms[w.room.ref].clients|
    ensures Enter(s, w).connectedClients == Clients(Enter(s, w).rooms)
  {
    ClientsUpdated(s.rooms, w.room.ref, w.room);
    ClientsCover(s.rooms, w.room.ref);
  }

  /** A section creates timers under its own serial number, so they are new. */
  lemma EnterTimers(s: State, w: Work)
    requires w.room.ref < |s.rooms| && TimersExact(s) && RoomsSound(s)
    requires Accounted(s.rooms[w.room.ref], w) && w.serial == s.serial
    ensures TimersExact(Enter(s, w))
  {
    hide Sound;
    var ref := w.room.ref;
    var after := Enter(s, w);
    forall t
      ensures Count(Held(after, t)) + after.stopping[t] + after.stopped[t] == Count(t in after.created)
    {
      var room := s.rooms[ref];
      assert Count(Holds(w.room, t)) + w.detached[t] + w.stopped[t] == Count(Holds(room, t)) + Count(t in w.armed);
      assert Count(Held(s, t)) + s.stopping[t] + s.stopped[t] == Count(t in s.created);
      assert t in w.armed ==> t !in s.created;
      if t.room != ref {
        HeldAtHome(s, t, ref);
        assert !Holds(w.room, t) && !Holds(room, t);
      }
    }
  }

  lemma HeldAtHome(s: State, t: Timer, ref: nat)
    requires RoomsSound(s) && ref < |s.rooms| && t.room != ref
    ensures !Holds(s.rooms[ref], t)
  {
    assert Sound(s.rooms[ref]);
  }

  // ---------- Registry and identities ----------

  /** `after` is `s` with one room replaced; players may have come to it, and no ownership has changed. */
  ghost predicate Replaced(s: State, after: State, ref: nat) {
    && ref < |s.rooms| && |after.rooms| == |s.rooms|
    && after.rooms == s.rooms[ref := after.rooms[ref]]
    && after.rooms[ref].name == s.rooms[ref].name
    && (forall q: nat :: Owning(after, q) <==> Owning(s, q))
  }

  lemma RegistryReplaced(s: State, after: State, ref: nat)
    requires RegistryExact(s) && Replaced(s, after, ref)
    requires after.registry == s.registry && after.activeRooms == s.activeRooms
    requires s.doomed <= after.doomed <= s.doomed + {ref} && (ref in after.doomed ==> after.rooms[ref].removed)
    ensures RegistryExact(after)
  {
    forall q: nat | Owning(after, q)
      ensures IsRegistered(after, q)
    {
      assert IsRegistered(s, q);
    }
    forall name | name in after.registry
      ensures Owning(after, after.registry[name]) && after.rooms[after.registry[name]].name == name
    {
      assert Owning(s, s.registry[name]);
    }
  }

  lemma IdentitiesReplaced(s: State, after: State, ref: nat, added: set<nat>, refused: set<nat>)
    requires IdentitiesExact(s) && Replaced(s, after, ref)
    requires Ids(after.rooms[ref]) == Ids(s.rooms[ref]) + added && (Owning(s, ref) || added == {})
    requires added <= s.loose || added !! s.playerIDs
    requires refused <= s.loose - added
    requires after.playerIDs == s.playerIDs + added && after.loose == s.loose - added - refused
    requires after.releasing == s.releasing + refused
    ensures IdentitiesExact(after)
  {
    hide Ids, Owning;
    forall q: nat | Owning(after, q)
      ensures Ids(after.rooms[q]) <= after.playerIDs && Ids(after.rooms[q]) !! after.loose && Ids(after.rooms[q]) !! after.releasing
    {
      assert Owning(s, q);
      assert Ids(s.rooms[q]) !! s.loose;
      if q != ref { assert after.rooms[q] == s.rooms[q]; }
    }
    forall r: nat, q: nat | Owning(after, r) && Owning(after, q) && r != q
      ensures Ids(after.rooms[r]) !! Ids(after.rooms[q])
    {
      assert Owning(s, r) && Owning(s, q);
      assert Ids(s.rooms[r]) !! Ids(s.rooms[q]);
      assert Ids(s.rooms[r]) <= s.playerIDs && Ids(s.rooms[r]) !! s.loose;
      assert Ids(s.rooms[q]) <= s.playerIDs && Ids(s.rooms[q]) !! s.loose;
    }
    forall id | id in after.playerIDs
      ensures id in after.loose || id in after.releasing || Housed(after, id)
    {
      if id in added {
        assert Owning(after, ref) && id in Ids(after.rooms[ref]);
      } else if Housed(s, id) {
        var q: nat :| Owning(s, q) && id in Ids(s.rooms[q]);
        assert Owning(after, q) && id in Ids(after.rooms[q]);
      }
    }
  }

  lemma RegistryForgotten(s: State, after: State, ref: nat)
    requires RegistryExact(s) && Owning(s, ref) && after.rooms == s.rooms
    requires after.registry == s.registry - {s.rooms[ref].name} && after.activeRooms == Moved(s.activeRooms, -1)
    requires after.doomed == s.doomed - {ref} && s.rooms[ref].removed
    ensures RegistryExact(after)
    ensures forall q: nat :: Owning(after, q) <==> Owning(s, q) && q != ref
  {
    assert IsRegistered(s, ref);
    assert after.registry.Keys == s.registry.Keys - {s.rooms[ref].name};
    assert |s.registry| == |s.registry.Keys| && |after.registry| == |after.registry.Keys|;
    forall name | name in after.registry
      ensures Owning(after, after.registry[name]) && after.rooms[after.registry[name]].name == name
    {
      assert Owning(s, s.registry[name]) && s.registry[name] != ref;
    }
    forall q: nat | Owning(after, q)
      ensures IsRegistered(after, q)
    {
      assert Owning(s, q) && IsRegistered(s, q);
    }
  }

  /** Only its remover deregisters a removed room, so the entry is still there, and its identities are released. */
  lemma DeregisterKeeps(s: State, ref: nat)
    requires Inv(s) && ref in s.doomed
    ensures IsRegistered(s, ref) && Inv(Do(s, Deregister(ref)))
  {
    hide Ids, Sound, Guarded, TimersExact, RegistryExact, IdentitiesExact, Owning;
    var after := Do(s, Deregister(ref));
    DoomedOwns(s, ref);
    RegistryForgotten(s, after, ref);
    SameTimersExact(s, after);
    IdentitiesForgotten(s, after, ref);
  }

  lemma DoomedOwns(s: State, ref: nat)
    requires RegistryExact(s) && ref in s.doomed
    ensures Owning(s, ref) && IsRegistered(s, ref) && s.rooms[ref].removed
  {
    assert Owning(s, ref);
  }

  lemma SameTimersExact(s: State, after: State)
    requires TimersExact(s) && after.rooms == s.rooms && after.stopping == s.stopping && after.stopped == s.stopped
    requires after.created == s.created && after.serial >= s.serial
    ensures TimersExact(after)
  {
    forall t
      ensures Count(Held(after, t)) + after.stopping[t] + after.stopped[t] == Count(t in after.created)
    {
      assert Count(Held(s, t)) + s.stopping[t] + s.stopped[t] == Count(t in s.created);
    }
  }

  lemma IdentitiesForgotten(s: State, after: State, ref: nat)
    requires IdentitiesExact(s) && Owning(s, ref) && after.rooms == s.rooms
    requires forall q: nat :: Owning(after, q) <==> Owning(s, q) && q != ref
    requires after.playerIDs == s.playerIDs && after.loose == s.loose
    requires after.releasing == s.releasing + Ids(s.rooms[ref])
    ensures IdentitiesExact(after)
  {
    hide Ids, Owning;
    forall q: nat | Owning(after, q)
      ensures Ids(after.rooms[q]) <= after.playerIDs && Ids(after.rooms[q]) !! after.loose && Ids(after.rooms[q]) !! after.releasing
    {
      assert Owning(s, q) && q != ref;
      assert Ids(s.rooms[q]) !! Ids(s.rooms[ref]);
    }
    forall r: nat, q: nat | Owning(after, r) && Owning(after, q) && r != q
      ensures Ids(after.rooms[r]) !! Ids(after.rooms[q])
    {
      assert Owning(s, r) && Owning(s, q);
    }
    forall id | id in after.playerIDs
      ensures id in after.loose || id in after.releasing || Housed(after, id)
    {
      if Housed(s, id) {
        var q: nat :| Owning(s, q) && id in Ids(s.rooms[q]);
        if q != ref {
          assert Owning(after, q);
        }
      }
    }
  }

  // ---------- Every step ----------

  lemma NewcomersAdded(room: Room, a: Action, after: Room)
    requires after.players == room.players || after.players == room.players + Newcomers(a)
    ensures Ids(room) <= Ids(after)
    ensures forall id :: id in Ids(after) - Ids(room) ==> exists p :: p in Newcomers(a) && p.id == id
  {
  }

  lemma AddedIdentities(s: State, ref: nat, a: Action, after: Room)
    requires Inv(s) && ref < |s.rooms| && Admits(s, ref, a)
    requires after.players == s.rooms[ref].players || after.players == s.rooms[ref].players + Newcomers(a)
    ensures var added := Ids(after) - Ids(s.rooms[ref]); added <= s.loose || added !! s.playerIDs
    ensures Ids(s.rooms[ref]) <= Ids(after)
  {
    hide Inv, Ids;
    NewcomersAdded(s.rooms[ref], a, after);
  }

  lemma AdmittedAppend(s: State, ref: nat, a: Action)
    requires IdentitiesExact(s) && Owning(s, ref) && Admits(s, ref, a)
    ensures Appendable(s.rooms[ref], a)
  {
    assert Ids(s.rooms[ref]) <= s.playerIDs && Ids(s.rooms[ref]) !! s.loose;
    hide Ids, IdentitiesExact;
  }

  /** What a section does to its room, whether or not the room is still there. */
  lemma SectionInStore(s: State, ref: nat, a: Action)
    requires Inv(s) && ref < |s.rooms| && Admits(s, ref, a)
    ensures Kept(s.rooms[ref], Section(s.rooms[ref], a, s.serial, !s.workersClosing, s.debugCapacity))
  {
    hide Kept, Section, Admits;
    var room := s.rooms[ref];
    assert Sound(room);
    if room.removed {
      RemovedUnchanged(room, a, s.serial, !s.workersClosing, s.debugCapacity);
      UnchangedKeeps(room, s.serial, !s.workersClosing);
    } else {
      assert Owning(s, ref);
      AdmittedAppend(s, ref, a);
      SectionKeeps(room, a, s.serial, !s.workersClosing, s.debugCapacity);
    }
  }

  lemma RoomsEntered(s: State, w: Work)
    requires Inv(s) && w.room.ref < |s.rooms| && Kept(s.rooms[w.room.ref], w) && w.launch == !s.workersClosing
    ensures RoomsSound(Enter(s, w)) && RoomsGuarded(Enter(s, w))
  {
    hide Sound, Guarded, Accounted, SameRoom, IdentitiesExact, TimersExact, RegistryExact, Clients;
  }

  function Settled(s: State, w: Work, added: set<nat>, refused: set<nat>): State
    requires w.room.ref < |s.rooms|
  {
    var settled := Settle(s, w, added, refused);
    if w.room.removed && !s.rooms[w.room.ref].removed then settled.(doomed := s.doomed + {w.room.ref}) else settled
  }

  lemma SettledReplaces(s: State, w: Work, added: set<nat>, refused: set<nat>)
    requires RegistryExact(s) && w.room.ref < |s.rooms| && SameRoom(s.rooms[w.room.ref], w.room)
    ensures var after := Settled(s, w, added, refused);
      Replaced(s, after, w.room.ref) && RegistryExact(after)
      && (!Owning(s, w.room.ref) ==> w.room == s.rooms[w.room.ref])
  {
    hide RegistryExact;
    DoomedRemoved(s);
    RegistryReplaced(s, Settled(s, w, added, refused), w.room.ref);
  }

  lemma OfKept(room: Room, w: Work)
    requires Kept(room, w)
    ensures SameRoom(room, w.room) && Accounted(room, w) && w.delta == |w.room.clients| - |room.clients|
  {
  }

  lemma OfInv(s: State)
    requires Inv(s)
    ensures RegistryExact(s) && IdentitiesExact(s) && TimersExact(s) && RoomsSound(s)
    ensures s.connectedClients == Clients(s.rooms) && (s.workersClosing ==> s.closed)
  {
  }

  lemma SettleKeeps(s: State, w: Work, added: set<nat>, refused: set<nat>)
    requires Inv(s) && w.room.ref < |s.rooms| && w.launch == !s.workersClosing && w.serial == s.serial
    requires Kept(s.rooms[w.room.ref], w)
    requires Ids(w.room) == Ids(s.rooms[w.room.ref]) + added && Ids(s.rooms[w.room.ref]) !! added
    requires added <= s.loose || added !! s.playerIDs
    requires refused <= s.loose - added
    ensures Inv(Settled(s, w, added, refused))
  {
    hide Inv, Kept, Owning, Replaced, SameRoom, Ids, Sound, Guarded, Accounted, IdentitiesExact, TimersExact, RegistryExact,
         RoomsSound, RoomsGuarded, Clients;
    var ref := w.room.ref;
    var after := Settled(s, w, added, refused);
    OfInv(s);
    OfKept(s.rooms[ref], w);
    RoomsEntered(s, w);
    EnterCounts(s, w);
    EnterTimers(s, w);
    SameTimersExact(Enter(s, w), after);
    SettledReplaces(s, w, added, refused);
    IdentitiesReplaced(s, after, ref, added, refused);
    FromParts(Enter(s, w), after);
  }

  lemma FromParts(entered: State, after: State)
    requires RoomsSound(entered) && RoomsGuarded(entered) && entered.connectedClients == Clients(entered.rooms)
    requires after.rooms == entered.rooms && after.workersClosing == entered.workersClosing
    requires after.connectedClients == entered.connectedClients
    requires RegistryExact(after) && IdentitiesExact(after) && TimersExact(after) && (after.workersClosing ==> after.closed)
    ensures Inv(after)
  {
    hide Sound, Guarded, RegistryExact, IdentitiesExact, TimersExact;
  }

  lemma DoomedRemoved(s: State)
    requires RegistryExact(s)
    ensures forall ref :: ref in s.doomed ==> ref < |s.rooms| && s.rooms[ref].removed
  {
  }

  /** The two ways in which a section's result becomes the next state. */
  lemma InRoomSettles(s: State, ref: nat, a: Action, w: Work, added: set<nat>, refused: set<nat>)
    requires ref < |s.rooms| && s.rooms[ref].ref == ref && w.room.ref == ref && ref !in s.doomed
    requires w == Section(s.rooms[ref], a, s.serial, !s.workersClosing, s.debugCapacity)
    requires added == Ids(w.room) - Ids(s.rooms[ref])
    requires refused == if a.AddPlayer? && w.room.players == s.rooms[ref].players then {a.id} else {}
    requires w.room.removed && !s.rooms[ref].removed && DeregistersAtOnce(a)
    requires IsRegistered(Settled(s, w, added, refused), ref)
    ensures ref in Settled(s, w, added, refused).doomed
    ensures DoInRoom(s, ref, a) == Do(Settled(s, w, added, refused), Deregister(ref))
  {
    hide Section, Ids, IsRegistered;
    assert s.doomed + {ref} - {ref} == s.doomed;
  }

  lemma InRoomKeeps(s: State, ref: nat, a: Action)
    requires Inv(s) && ref < |s.rooms| && s.rooms[ref].ref == ref && Admits(s, ref, a)
    ensures Inv(DoInRoom(s, ref, a))
  {
    hide Inv, Kept, Section, Ids, RegistryExact, SameRoom, Owning, Admits, Do, Settle, IsRegistered;
    var room := s.rooms[ref];
    var w := Section(room, a, s.serial, !s.workersClosing, s.debugCapacity);
    SectionInStore(s, ref, a);
    SectionPlayers(room, a, s.serial, !s.workersClosing, s.debugCapacity);
    AddedIdentities(s, ref, a, w.room);
    SameReference(room, w);
    var added := Ids(w.room) - Ids(room);
    var refused := if a.AddPlayer? && w.room.players == room.players then {a.id} else {};
    if refused != {} { RefusedIsLoose(s, ref, a, w.room); }
    assert Ids(w.room) == Ids(room) + added;
    SettleKeeps(s, w, added, refused);
    var settled := Settled(s, w, added, refused);
    if w.room.removed && !room.removed && DeregistersAtOnce(a) {
      OfInv(s);
      DoomedRemoved(s);
      assert ref in settled.doomed;
      DeregisterKeeps(settled, ref);
      InRoomSettles(s, ref, a, w, added, refused);
    }
  }

  lemma RefusedIsLoose(s: State, ref: nat, a: Action, after: Room)
    requires ref < |s.rooms| && Admits(s, ref, a)
    requires a.AddPlayer? && after.players == s.rooms[ref].players
    ensures a.id in s.loose && Ids(after) == Ids(s.rooms[ref])
  {
  }

  lemma SameReference(room: Room, w: Work)
    requires Kept(room, w)
    ensures w.room.ref == room.ref
  {
  }

  lemma CreateRoomKeeps(s: State, name: nat, capacity: nat)
    requires Inv(s)
    ensures Inv(Do(s, CreateRoom(name, capacity)))
  {
    hide TimersExact, RegistryExact, IdentitiesExact, Sound, Ids, Clients, Owning;
    if !s.closed && |s.registry| < s.maxRooms && name !in s.registry {
      var after := Do(s, CreateRoom(name, capacity));
      assert after.rooms[..|s.rooms|] == s.rooms;
      ClientsExtended(s.rooms, NewRoom(|s.rooms|, name, capacity));
      RoomAdded(s, after, name, capacity);
      NewRoomSound(|s.rooms|, name, capacity);
    }
  }

  lemma ClientsExtended(rooms: seq<Room>, room: Room)
    ensures Clients(rooms + [room]) == Clients(rooms) + |room.clients|
  {
    assert (rooms + [room])[..|rooms|] == rooms;
  }

  lemma NewRoomSound(ref: nat, name: nat, capacity: nat)
    ensures Sound(NewRoom(ref, name, capacity)) && Guarded(NewRoom(ref, name, capacity))
  {
  }

  lemma RoomAdded(s: State, after: State, name: nat, capacity: nat)
    requires RegistryExact(s) && IdentitiesExact(s) && TimersExact(s) && name !in s.registry
    requires after == Do(s, CreateRoom(name, capacity)) && after != s
    ensures RegistryExact(after) && IdentitiesExact(after) && TimersExact(after)
  {
    hide RegistryExact, IdentitiesExact, TimersExact;
    NamedRoomAdded(s, after, name, capacity);
    EmptyRoomAdded(s, after, name, capacity);
    UntimedRoomAdded(s, after, name, capacity);
  }

  lemma NamedRoomAdded(s: State, after: State, name: nat, capacity: nat)
    requires RegistryExact(s) && name !in s.registry
    requires after == Do(s, CreateRoom(name, capacity)) && after != s
    ensures RegistryExact(after)
    ensures forall q: nat :: Owning(after, q) <==> Owning(s, q) || q == |s.rooms|
  {
    var n := |s.rooms|;
    assert after.registry.Keys == s.registry.Keys + {name};
    assert |s.registry| == |s.registry.Keys| && |after.registry| == |after.registry.Keys|;
    assert n !in s.doomed;
    forall q: nat | Owning(after, q)
      ensures IsRegistered(after, q)
    {
      if q != n { assert Owning(s, q) && IsRegistered(s, q); }
    }
    forall m | m in after.registry
      ensures Owning(after, after.registry[m]) && after.rooms[after.registry[m]].name == m
    {
      if m != name { assert Owning(s, s.registry[m]); }
    }
  }

  lemma EmptyRoomAdded(s: State, after: State, name: nat, capacity: nat)
    requires IdentitiesExact(s)
    requires after == Do(s, CreateRoom(name, capacity)) && after != s
    requires forall q: nat :: Owning(after, q) <==> Owning(s, q) || q == |s.rooms|
    ensures IdentitiesExact(after)
  {
    hide Owning, Ids;
    NewRoomEmpty(NewRoom(|s.rooms|, name, capacity));
    forall id | id in after.playerIDs
      ensures id in after.loose || id in after.releasing || Housed(after, id)
    {
      if Housed(s, id) {
        var q: nat :| Owning(s, q) && id in Ids(s.rooms[q]);
        assert Owning(after, q) && id in Ids(after.rooms[q]);
      }
    }
  }

  lemma UntimedRoomAdded(s: State, after: State, name: nat, capacity: nat)
    requires TimersExact(s)
    requires after == Do(s, CreateRoom(name, capacity)) && after != s
    ensures TimersExact(after)
  {
    forall t
      ensures Count(Held(after, t)) + after.stopping[t] + after.stopped[t] == Count(t in after.created)
    {
      assert Count(Held(s, t)) + s.stopping[t] + s.stopped[t] == Count(t in s.created);
    }
  }

  /** Opening a match room is opening an empty room and joining it, within one section. */
  lemma CreateMatchSettles(s: State, name: nat, capacity: nat, id: nat, issued: bool)
    requires Do(s, CreateMatchRoom(name, capacity, id, issued)) != s
    ensures var extended := Do(s, CreateRoom(name, capacity));
      var w := Joined(Begin(NewRoom(|s.rooms|, name, capacity), s.serial, !s.workersClosing), id);
      && !s.closed && |s.registry| < s.maxRooms && name !in s.registry
      && extended.rooms == s.rooms + [NewRoom(|s.rooms|, name, capacity)] && w.room.ref == |s.rooms|
      && extended.serial == s.serial && extended.workersClosing == s.workersClosing
      && extended.loose == s.loose && extended.playerIDs == s.playerIDs
      && (if issued then id in s.loose else id !in s.playerIDs)
      && (!w.room.removed ==> Do(s, CreateMatchRoom(name, capacity, id, issued)) == Settled(extended, w, {id}, {}))
  {
    hide DoInRoom, Admits, Joined, IsRegistered, Moved;
    var extended := Do(s, CreateRoom(name, capacity));
    assert extended.loose - {id} - {} == extended.loose - {id};
    assert extended.releasing + {} == extended.releasing;
  }

  lemma CreateMatchRoomKeeps(s: State, name: nat, capacity: nat, id: nat, issued: bool)
    requires Inv(s)
    ensures Inv(Do(s, CreateMatchRoom(name, capacity, id, issued)))
  {
    hide Inv, Kept, Joined, Ids, Do, Sound, Settled;
    if Do(s, CreateMatchRoom(name, capacity, id, issued)) != s {
      var extended := Do(s, CreateRoom(name, capacity));
      CreateRoomKeeps(s, name, capacity);
      CreateMatchSettles(s, name, capacity, id, issued);
      var room := NewRoom(|s.rooms|, name, capacity);
      var w := Joined(Begin(room, s.serial, !s.workersClosing), id);
      NewRoomSound(|s.rooms|, name, capacity);
      NewRoomEmpty(room);
      JoinedKeeps(room, id, s.serial, !s.workersClosing);
      NewRoomJoined(room, s.serial, !s.workersClosing, id);
      SettleKeeps(extended, w, {id}, {});
    }
  }

  lemma NewRoomEmpty(room: Room)
    requires room.players == []
    ensures Ids(room) == {}
  {
  }

  lemma NewRoomJoined(room: Room, serial: nat, launch: bool, id: nat)
    requires room.players == [] && !room.removed
    ensures var w := Joined(Begin(room, serial, launch), id);
      Ids(w.room) == {id} && w.serial == serial && w.launch == launch && !w.room.removed
  {
    hide Joined;
    var w := Joined(Begin(room, serial, launch), id);
    assert w.room.players == [Participant(id, false)] by { OneParticipant(id); }
  }

  /** The steps outside every room. */
  lemma ObligationKeeps(s: State, step: Step)
    requires Inv(s) && IsObligation(step)
    ensures Inv(Do(s, step))
  {
    hide Do, Inv, Ids, RegistryExact, TimersExact, IdentitiesExact, RoomsSound, RoomsGuarded, Owning, Clients;
    var after := Do(s, step);
    OfInv(s);
    ObligationFrame(s, step);
    ObligationIdentities(s, step);
    OwningSame(s, after);
    if step.StopTimer? {
      TimerStopped(s, after, step.timer);
    } else {
      SameTimersExact(s, after);
    }
    LooseEnds(s, after);
    SameRoomsSound(s, after);
  }

  predicate IsObligation(step: Step) {
    step.IssueCredentials? || step.GiveUp? || step.ReleaseIds? || step.StopTimer? || step.Close? || step.StopLaunching?
  }

  lemma ObligationFrame(s: State, step: Step)
    requires IsObligation(step) && (s.workersClosing ==> s.closed)
    ensures var after := Do(s, step);
      && after == s.(playerIDs := after.playerIDs, loose := after.loose, releasing := after.releasing,
                     stopping := after.stopping, stopped := after.stopped,
                     closed := after.closed, workersClosing := after.workersClosing)
      && (!step.StopTimer? ==> after.stopping == s.stopping && after.stopped == s.stopped)
      && (s.workersClosing ==> after.workersClosing) && (after.workersClosing ==> after.closed)
  {
    hide DoInRoom, Forget, Admits, Joined, Enter, IsRegistered, Moved;
  }

  lemma ObligationIdentities(s: State, step: Step)
    requires IsObligation(step) && IdentitiesExact(s)
    ensures var after := Do(s, step);
      && after.loose <= after.playerIDs && after.releasing <= after.playerIDs && after.loose !! after.releasing
      && after.playerIDs - after.loose - after.releasing == s.playerIDs - s.loose - s.releasing
  {
    hide IdentitiesExact, Do;
    LooseIdentities(s);
    match step {
      case IssueCredentials(id) =>
        AfterIssue(s, id);
        if id !in s.playerIDs { IdIssued(s.playerIDs, s.loose, s.releasing, id); }
      case GiveUp(id) =>
        AfterGiveUp(s, id);
        if id in s.loose { IdGivenUp(s.playerIDs, s.loose, s.releasing, id); }
      case ReleaseIds(ids) =>
        AfterRelease(s, ids);
        if ids <= s.releasing { IdsReleased(s.playerIDs, s.loose, s.releasing, ids); }
      case StopTimer(t) => AfterStop(s, t);
      case Close => AfterClose(s);
      case StopLaunching => AfterStopLaunching(s);
    }
  }

  lemma AfterIssue(s: State, id: nat)
    ensures var after := Do(s, IssueCredentials(id));
      after == if s.closed || id in s.playerIDs then s else s.(playerIDs := s.playerIDs + {id}, loose := s.loose + {id})
  {
  }

  lemma AfterGiveUp(s: State, id: nat)
    ensures var after := Do(s, GiveUp(id));
      after == if id !in s.loose then s else s.(loose := s.loose - {id}, releasing := s.releasing + {id})
  {
  }

  lemma AfterRelease(s: State, ids: set<nat>)
    ensures var after := Do(s, ReleaseIds(ids));
      after == if !(ids <= s.releasing) then s else s.(playerIDs := s.playerIDs - ids, releasing := s.releasing - ids)
  {
  }

  lemma AfterStop(s: State, t: Timer)
    ensures var after := Do(s, StopTimer(t));
      after == s.(stopping := after.stopping, stopped := after.stopped)
  {
  }

  lemma AfterClose(s: State)
    ensures Do(s, Close) == s.(closed := true)
  {
  }

  lemma AfterStopLaunching(s: State)
    ensures Do(s, StopLaunching) == if s.closed then s.(workersClosing := true) else s
  {
  }

  lemma IdIssued(ids: set<nat>, loose: set<nat>, releasing: set<nat>, id: nat)
    requires loose <= ids && releasing <= ids && loose !! releasing && id !in ids
    ensures loose + {id} <= ids + {id} && releasing <= ids + {id} && loose + {id} !! releasing
    ensures ids + {id} - (loose + {id}) - releasing == ids - loose - releasing
  {
  }

  lemma IdGivenUp(ids: set<nat>, loose: set<nat>, releasing: set<nat>, id: nat)
    requires loose <= ids && releasing <= ids && loose !! releasing && id in loose
    ensures loose - {id} <= ids && releasing + {id} <= ids && loose - {id} !! releasing + {id}
    ensures ids - (loose - {id}) - (releasing + {id}) == ids - loose - releasing
  {
  }

  lemma IdsReleased(ids: set<nat>, loose: set<nat>, releasing: set<nat>, gone: set<nat>)
    requires loose <= ids && releasing <= ids && loose !! releasing && gone <= releasing
    ensures loose <= ids - gone && releasing - gone <= ids - gone && loose !! releasing - gone
    ensures ids - gone - loose - (releasing - gone) == ids - loose - releasing
  {
  }

  lemma LooseIdentities(s: State)
    requires IdentitiesExact(s)
    ensures s.loose <= s.playerIDs && s.releasing <= s.playerIDs && s.loose !! s.releasing
  {
  }

  lemma SameRoomsSound(s: State, after: State)
    requires Inv(s) && after.rooms == s.rooms && after.connectedClients == s.connectedClients
    requires RegistryExact(after) && IdentitiesExact(after) && TimersExact(after)
    requires (s.workersClosing ==> after.workersClosing) && (after.workersClosing ==> after.closed)
    ensures Inv(after)
  {
    hide Sound, Guarded, RegistryExact, IdentitiesExact, TimersExact;
  }

  lemma OwningSame(s: State, after: State)
    requires after.rooms == s.rooms && after.doomed == s.doomed
    ensures forall q: nat :: Owning(after, q) <==> Owning(s, q)
    ensures RegistryExact(s) && after.registry == s.registry && after.activeRooms == s.activeRooms ==> RegistryExact(after)
  {
    if RegistryExact(s) && after.registry == s.registry && after.activeRooms == s.activeRooms {
      forall q: nat | Owning(after, q) ensures IsRegistered(after, q) { assert Owning(s, q) && IsRegistered(s, q); }
      forall m | m in after.registry ensures Owning(after, after.registry[m]) && after.rooms[after.registry[m]].name == m {
        assert Owning(s, s.registry[m]);
      }
    }
  }

  lemma TimerStopped(s: State, after: State, t: Timer)
    requires TimersExact(s) && after == Do(s, StopTimer(t))
    ensures TimersExact(after)
  {
    forall u
      ensures Count(Held(after, u)) + after.stopping[u] + after.stopped[u] == Count(u in after.created)
    {
      assert Count(Held(s, u)) + s.stopping[u] + s.stopped[u] == Count(u in s.created);
    }
  }

  lemma LooseEnds(s: State, after: State)
    requires IdentitiesExact(s) && after.rooms == s.rooms && after.doomed == s.doomed
    requires after.loose <= after.playerIDs && after.releasing <= after.playerIDs && after.loose !! after.releasing
    requires after.playerIDs - after.loose - after.releasing == s.playerIDs - s.loose - s.releasing
    ensures IdentitiesExact(after)
  {
    hide Ids, Owning;
    OwningSame(s, after);
    var housed := s.playerIDs - s.loose - s.releasing;
    forall q: nat | Owning(after, q)
      ensures Ids(after.rooms[q]) <= housed
    {
      assert Owning(s, q);
    }
    forall r: nat, q: nat | Owning(after, r) && Owning(after, q) && r != q
      ensures Ids(after.rooms[r]) !! Ids(after.rooms[q])
    {
      assert Owning(s, r) && Owning(s, q);
    }
    forall id | id in housed
      ensures Housed(after, id)
    {
      var q: nat :| Owning(s, q) && id in Ids(s.rooms[q]);
      assert Owning(after, q);
    }
  }

  lemma DoKeeps(s: State, step: Step)
    requires Inv(s)
    ensures Inv(Do(s, step))
  {
    hide Inv, DoInRoom;
    match step
    case CreateRoom(name, capacity) => CreateRoomKeeps(s, name, capacity);
    case CreateMatchRoom(name, capacity, id, issued) => CreateMatchRoomKeeps(s, name, capacity, id, issued);
    case InRoom(ref, a) =>
      if ref < |s.rooms| && s.rooms[ref].ref == ref && Admits(s, ref, a) { InRoomKeeps(s, ref, a); }
    case Deregister(ref) => if ref in s.doomed { DeregisterKeeps(s, ref); }
    case _ => ObligationKeeps(s, step);
  }

  lemma {:induction false} ReachableInv(maxRooms: nat, debugCapacity: nat, steps: seq<Step>)
    ensures Inv(Exec(Initial(maxRooms, debugCapacity), steps))
  {
    if steps != [] {
      ReachableInv(maxRooms, debugCapacity, steps[..|steps| - 1]);
      DoKeeps(Exec(Initial(maxRooms, debugCapacity), steps[..|steps| - 1]), steps[|steps| - 1]);
    }
  }
}