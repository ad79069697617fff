/**
 The connected and disconnected publications of one session: a queue in which an entry may be prepared
 before it is ready, drained by whichever thread finds its head ready and nobody draining. Every critical
 section, every callback and every return is one step of some thread.
 */
module LifecycleQueue {
  import opened Wrappers

  /** `owner` is the thread that has made the entry ready and is inside its publish call. */
  datatype Entry = Entry(id: nat, owner: Option<nat>)

  datatype Pc = Ready | Waiting(closed: bool) | Looping | Calling(entry: Entry)

  /** `enqueued` and `published` are history. */
  datatype State = State(queue: seq<Entry>, draining: bool, threads: map<nat, Pc>, enqueued: seq<nat>, published: seq<nat>)

  datatype Action =
    | Prepare(thread: nat)
    | Enqueue(thread: nat)
    | MakeReady(thread: nat, id: nat)
    | Drain(thread: nat)
    | Publish(thread: nat)
    | Return(thread: nat)

  const INITIAL: State := State([], false, map[], [], [])

  function PcOf(s: State, t: nat): Pc {
    if t in s.threads then s.threads[t] else Ready
  }

  predicate HeadReady(queue: seq<Entry>) {
    queue != [] && queue[0].owner.Some?
  }

  /** Having made an entry ready, a thread drains if it may, and waits for its entry otherwise. */
  function StartOrWait(s: State, t: nat): State {
    if !s.draining && HeadReady(s.queue) then s.(draining := true, threads := s.threads[t := Looping])
    else s.(threads := s.threads[t := Waiting(false)])
  }

  function IndexOf(queue: seq<Entry>, id: nat): (i: nat)
    ensures i <= |queue| && (i < |queue| ==> queue[i].id == id)
  {
    if queue == [] then 0 else if queue[0].id == id then 0 else 1 + IndexOf(queue[1..], id)
  }

  function Do(s: State, a: Action): State {
    var t := a.thread;
    match a
    case Prepare(_) =>
      if PcOf(s, t) != Ready then s
      else s.(queue := s.queue + [Entry(|s.enqueued|, None)], enqueued := s.enqueued + [|s.enqueued|])
    case Enqueue(_) =>
      if PcOf(s, t) != Ready then s
      else StartOrWait(s.(queue := s.queue + [Entry(|s.enqueued|, Some(t))], enqueued := s.enqueued + [|s.enqueued|]), t)
    case MakeReady(_, id) =>
      var i := IndexOf(s.queue, id);
      if PcOf(s, t) != Ready || i == |s.queue| || s.queue[i].owner.Some? then s
      else StartOrWait(s.(queue := s.queue[i := Entry(id, Some(t))]), t)
    case Drain(_) =>
      if PcOf(s, t) != Looping then s
      else if !HeadReady(s.queue) then s.(draining := false, threads := s.threads[t := Ready])
      else s.(queue := s.queue[1..], threads := s.threads[t := Calling(s.queue[0])])
    case Publish(_) =>
      if !PcOf(s, t).Calling? then s
      else
        var entry := PcOf(s, t).entry;
        var called := s.(published := s.published + [entry.id], threads := s.threads[t := Looping]);
        if entry.owner.Some? && PcOf(called, entry.owner.value).Waiting? then
          called.(threads := called.threads[entry.owner.value := Waiting(true)])
        else called
    case Return(_) => if PcOf(s, t) != Waiting(true) then s else s.(threads := s.threads[t := Ready])
  }

  function Exec(s: State, actions: seq<Action>): State {
    if actions == [] then s else Do(Exec(s, actions[..|actions| - 1]), actions[|actions| - 1])
  }

  // ---------- What every interleaving keeps ----------

  predicate Drains(s: State, t: nat) {
    PcOf(s, t) == Looping || PcOf(s, t).Calling?
  }

  ghost predicate OneDrainer(s: State) {
    && (forall t, u :: Drains(s, t) && Drains(s, u) ==> t == u)
    && (s.draining <==> exists t :: Drains(s, t))
    && (HeadReady(s.queue) ==> s.draining)
  }

  /** An owner waits for its entry, or is the drainer that is about to take it. */
  ghost predicate OwnersInside(s: State) {
    && (forall i, t :: 0 <= i < |s.queue| && s.queue[i].owner == Some(t) ==>
          PcOf(s, t) == Waiting(false) || (i == 0 && PcOf(s, t) == Looping))
    && (forall i, j :: 0 <= i < j < |s.queue| && s.queue[i].owner.Some? ==> s.queue[i].owner != s.queue[j].owner)
    && (forall t :: PcOf(s, t).Calling? ==>
          && PcOf(s, t).entry.owner.Some?
          && (PcOf(s, t).entry.owner.value == t || PcOf(s, PcOf(s, t).entry.owner.value) == Waiting(false))
          && forall i :: 0 <= i < |s.queue| ==> s.queue[i].owner != PcOf(s, t).entry.owner)
  }

  function QueueIds(queue: seq<Entry>): seq<nat> {
    seq(|queue|, i requires 0 <= i < |queue| => queue[i].id)
  }

  /** What has been published, what is being published, and the queue are together what was enqueued, in order. */
  ghost predicate InOrder(s: State) {
    && ((forall t :: !PcOf(s, t).Calling?) ==> s.enqueued == s.published + QueueIds(s.queue))
    && (forall t :: PcOf(s, t).Calling? ==> s.enqueued == s.published + [PcOf(s, t).entry.id] + QueueIds(s.queue))
    && (forall i :: 0 <= i < |s.enqueued| ==> s.enqueued[i] == i)
  }

  ghost predicate Inv(s: State) {
    OneDrainer(s) && OwnersInside(s) && InOrder(s)
  }

  lemma PrepareKeeps(s: State, t: nat)
    requires Inv(s) && PcOf(s, t) == Ready
    ensures Inv(Do(s, Prepare(t)))
  {
    var s' := Do(s, Prepare(t));
    assert forall u :: PcOf(s', u) == PcOf(s, u);
    assert forall u :: Drains(s', u) <==> Drains(s, u);
    assert QueueIds(s'.queue) == QueueIds(s.queue) + [|s.enqueued|];
  }

  /** Thread `t` has just made the entry at index `i` ready. */
  ghost predicate JustReady(s: State, mid: State, t: nat, i: nat) {
    && PcOf(s, t) == Ready && i < |mid.queue| && |s.queue| <= |mid.queue|
    && mid == s.(queue := mid.queue, enqueued := mid.enqueued) && mid.queue[i].owner == Some(t)
    && (forall j :: 0 <= j < |mid.queue| && j != i ==> j < |s.queue| && mid.queue[j] == s.queue[j])
    && (i < |s.queue| ==> s.queue[i].owner.None?)
  }

  /** It drains exactly if its entry is the head and nobody drains. */
  lemma ReadyKeeps(s: State, mid: State, t: nat, i: nat)
    requires Inv(s) && JustReady(s, mid, t, i) && InOrder(mid)
    ensures Inv(StartOrWait(mid, t))
  {
    hide InOrder, OneDrainer, OwnersInside;
    var s' := StartOrWait(mid, t);
    assert forall u :: PcOf(mid, u) == PcOf(s, u);
    assert forall u :: u != t ==> PcOf(s', u) == PcOf(mid, u);
    CallsKeepOrder(mid, s');
    ReadyDrainer(s, mid, t, i);
    ReadyOwners(s, mid, t, i);
  }

  lemma ReadyDrainer(s: State, mid: State, t: nat, i: nat)
    requires OneDrainer(s) && JustReady(s, mid, t, i)
    ensures OneDrainer(StartOrWait(mid, t))
  {
    var s' := StartOrWait(mid, t);
    assert forall u :: u != t ==> PcOf(s', u) == PcOf(s, u);
    assert forall u :: u != t ==> (Drains(s', u) <==> Drains(s, u));
    assert Drains(s', t) <==> !s.draining && HeadReady(mid.queue);
    if s.draining {
      var u :| Drains(s, u);
      assert Drains(s', u);
    }
  }

  lemma ReadyOwners(s: State, mid: State, t: nat, i: nat)
    requires OneDrainer(s) && OwnersInside(s) && JustReady(s, mid, t, i)
    ensures OwnersInside(StartOrWait(mid, t))
  {
    var s' := StartOrWait(mid, t);
    assert forall u :: u != t ==> PcOf(s', u) == PcOf(s, u);
    assert forall j :: 0 <= j < |s.queue| ==> s.queue[j].owner != Some(t);
    assert !s.draining && HeadReady(mid.queue) ==> i == 0;
  }

  lemma CallsKeepOrder(s: State, s': State)
    requires InOrder(s) && s'.queue == s.queue && s'.enqueued == s.enqueued && s'.published == s.published
    requires forall u :: PcOf(s', u).Calling? || PcOf(s, u).Calling? ==> PcOf(s', u) == PcOf(s, u)
    ensures InOrder(s')
  {
    if u :| PcOf(s, u).Calling? {
      assert PcOf(s', u).Calling?;
    }
  }

  lemma EnqueueKeeps(s: State, t: nat)
    requires Inv(s) && PcOf(s, t) == Ready
    ensures Inv(Do(s, Enqueue(t)))
  {
    var mid := s.(queue := s.queue + [Entry(|s.enqueued|, Some(t))], enqueued := s.enqueued + [|s.enqueued|]);
    assert forall u :: PcOf(mid, u) == PcOf(s, u);
    assert QueueIds(mid.queue) == QueueIds(s.queue) + [|s.enqueued|];
    assert InOrder(mid);
    hide Inv, StartOrWait;
    ReadyKeeps(s, mid, t, |s.queue|);
  }

  lemma MakeReadyKeeps(s: State, t: nat, id: nat)
    requires Inv(s) && PcOf(s, t) == Ready
    requires IndexOf(s.queue, id) < |s.queue| && s.queue[IndexOf(s.queue, id)].owner.None?
    ensures Inv(Do(s, MakeReady(t, id)))
  {
    var i := IndexOf(s.queue, id);
    var mid := s.(queue := s.queue[i := Entry(id, Some(t))]);
    assert forall u :: PcOf(mid, u) == PcOf(s, u);
    assert QueueIds(mid.queue) == QueueIds(s.queue);
    assert InOrder(mid);
    hide Inv, StartOrWait;
    ReadyKeeps(s, mid, t, i);
  }

  lemma OnlyDrainer(s: State, t: nat)
    requires OneDrainer(s) && Drains(s, t)
    ensures forall u :: u != t ==> PcOf(s, u) != Looping && !PcOf(s, u).Calling?
  {
    forall u | u != t
      ensures PcOf(s, u) != Looping && !PcOf(s, u).Calling?
    {
      assert !Drains(s, u);
    }
  }

  lemma DrainKeeps(s: State, t: nat)
    requires Inv(s) && PcOf(s, t) == Looping
    ensures Inv(Do(s, Drain(t)))
  {
    var s' := Do(s, Drain(t));
    OnlyDrainer(s, t);
    assert forall u :: u != t ==> PcOf(s', u) == PcOf(s, u);
    if HeadReady(s.queue) {
      assert forall i :: 0 <= i < |s'.queue| ==> s'.queue[i] == s.queue[i + 1];
      assert QueueIds(s.queue) == [s.queue[0].id] + QueueIds(s'.queue);
      assert s.published + QueueIds(s.queue) == s.published + [s.queue[0].id] + QueueIds(s'.queue);
      assert Drains(s', t);
      assert forall i :: 0 <= i < |s'.queue| ==> s'.queue[i].owner != s.queue[0].owner;
    } else {
      assert forall u :: !Drains(s', u);
    }
  }

  lemma PublishKeeps(s: State, t: nat)
    requires Inv(s) && PcOf(s, t).Calling?
    ensures Inv(Do(s, Publish(t)))
  {
    var s' := Do(s, Publish(t));
    var owner := PcOf(s, t).entry.owner.value;
    OnlyDrainer(s, t);
    assert Drains(s, t) && PcOf(s', t) == Looping && Drains(s', t);
    assert forall u :: u != t && u != owner ==> PcOf(s', u) == PcOf(s, u);
    assert owner != t ==> PcOf(s', owner) == Waiting(true);
    assert forall u :: !PcOf(s', u).Calling?;
  }

  lemma ReturnKeeps(s: State, t: nat)
    requires Inv(s) && PcOf(s, t) == Waiting(true)
    ensures Inv(Do(s, Return(t)))
  {
    var s' := Do(s, Return(t));
    assert forall u :: u != t ==> PcOf(s', u) == PcOf(s, u);
    assert forall u :: Drains(s', u) <==> Drains(s, u);
  }

  lemma DoKeeps(s: State, a: Action)
    requires Inv(s)
    ensures Inv(Do(s, a))
  {
    hide Inv;
    if Do(s, a) != s {
      match a
      case Prepare(t) => PrepareKeeps(s, t);
      case Enqueue(t) => EnqueueKeeps(s, t);
      case MakeReady(t, id) => MakeReadyKeeps(s, t, id);
      case Drain(t) => DrainKeeps(s, t);
      case Publish(t) => PublishKeeps(s, t);
      case Return(t) => ReturnKeeps(s, t);
    }
  }

  lemma {:induction false} ReachableInv(actions: seq<Action>)
    ensures Inv(Exec(INITIAL, actions))
  {
    hide Inv;
    if actions == [] {
      assert Inv(INITIAL) by { InitialInv(); }
    } else {
      ReachableInv(actions[..|actions| - 1]);
      DoKeeps(Exec(INITIAL, actions[..|actions| - 1]), actions[|actions| - 1]);
    }
  }

  lemma InitialInv()
    ensures Inv(INITIAL)
  {
    assert forall t :: !Drains(INITIAL, t);
    assert QueueIds([]) == [];
  }

  /**
   In every interleaving publications come out in the order in which they were enqueued, so what was prepared
   first, the connection, is published before its disconnection, even if it becomes ready last; a ready head
   always has a drainer, and nobody is back from a publish call whose entry is still queued or being published.
   */
  lemma LifecycleOrder(actions: seq<Action>)
    ensures var s := Exec(INITIAL, actions);
      && s.published <= s.enqueued
      && (forall i :: 0 <= i < |s.published| ==> s.published[i] == i)
      && (HeadReady(s.queue) ==> exists t :: Drains(s, t))
      && (forall t, u :: Drains(s, t) && Drains(s, u) ==> t == u)
      && (forall t: nat, i :: PcOf(s, t) == Ready && 0 <= i < |s.queue| ==> s.queue[i].owner != Some(t))
      && (forall t: nat, u: nat :: PcOf(s, t).Calling? && PcOf(s, u) == Ready ==> PcOf(s, t).entry.owner != Some(u))
  {
    ReachableInv(actions);
    var s := Exec(INITIAL, actions);
    hide Exec, Do;
    if t :| PcOf(s, t).Calling? {
      assert s.enqueued == s.published + [PcOf(s, t).entry.id] + QueueIds(s.queue);
    }
    forall i | 0 <= i < |s.published|
      ensures s.published[i] == i
    {
      assert s.published[i] == s.enqueued[i];
    }
  }

  /** When nobody is inside a publish call, only entries from the first unready one on are left. */
  lemma QuiescentQueue(actions: seq<Action>)
    requires var s := Exec(INITIAL, actions); forall t :: PcOf(s, t) == Ready
    ensures var s := Exec(INITIAL, actions);
      && s.enqueued == s.published + QueueIds(s.queue)
      && forall i :: 0 <= i < |s.queue| ==> s.queue[i].owner.None?
  {
    ReachableInv(actions);
    var s := Exec(INITIAL, actions);
    forall i | 0 <= i < |s.queue|
      ensures s.queue[i].owner.None?
    {
      forall t: nat
        ensures s.queue[i].owner != Some(t)
      {
        assert PcOf(s, t) == Ready;
      }
    }
  }

  // ---------- What each call comes to ----------

  /** A publication that is prepared waits in the queue for whoever makes it ready, and blocks nobody. */
  lemma PrepareEffect(s: State, t: nat)
    requires PcOf(s, t) == Ready
    ensures Do(s, Prepare(t)) == s.(queue := s.queue + [Entry(|s.enqueued|, None)], enqueued := s.enqueued + [|s.enqueued|])
  {
  }

  /** A ready publication joins the queue; its thread drains exactly if the queue was empty, and otherwise waits for it. */
  lemma EnqueueEffect(s: State, t: nat)
    requires Inv(s) && PcOf(s, t) == Ready
    ensures var after := Do(s, Enqueue(t));
      && after.queue == s.queue + [Entry(|s.enqueued|, Some(t))] && after.enqueued == s.enqueued + [|s.enqueued|]
      && PcOf(after, t) == (if !s.draining && s.queue == [] then Looping else Waiting(false))
      && after.draining == (s.draining || s.queue == []) && after.published == s.published
      && forall u :: u != t ==> PcOf(after, u) == PcOf(s, u)
  {
    hide OwnersInside, InOrder;
  }

  /** The thread that makes a prepared publication ready drains exactly if it is the head and nobody drains yet. */
  lemma MakeReadyEffect(s: State, t: nat, i: nat)
    requires Inv(s) && PcOf(s, t) == Ready && i < |s.queue| && s.queue[i].owner.None?
    ensures var after := Do(s, MakeReady(t, s.queue[i].id));
      && after.queue == s.queue[i := Entry(s.queue[i].id, Some(t))]
      && PcOf(after, t) == (if !s.draining && i == 0 then Looping else Waiting(false))
      && after.draining == (s.draining || i == 0) && after.published == s.published && after.enqueued == s.enqueued
      && forall u :: u != t ==> PcOf(after, u) == PcOf(s, u)
  {
    IdsDiffer(s);
    IndexExact(s.queue, i);
    hide OwnersInside, InOrder, IndexOf;
  }

  lemma IdsDiffer(s: State)
    requires Inv(s)
    ensures forall i, j :: 0 <= i < j < |s.queue| ==> s.queue[i].id != s.queue[j].id
  {
    hide OwnersInside, OneDrainer;
    var before := |s.enqueued| - |s.queue|;
    forall i | 0 <= i < |s.queue|
      ensures before + i >= 0 && s.queue[i].id == before + i
    {
      QueueAt(s, i);
    }
  }

  lemma QueueAt(s: State, i: nat)
    requires InOrder(s) && i < |s.queue|
    ensures |s.enqueued| >= |s.queue| && s.queue[i].id == |s.enqueued| - |s.queue| + i
  {
    assert QueueIds(s.queue)[i] == s.queue[i].id;
    if t :| PcOf(s, t).Calling? {
      assert s.enqueued[|s.published| + 1 + i] == s.queue[i].id;
    } else {
      assert s.enqueued[|s.published| + i] == s.queue[i].id;
    }
  }

  lemma {:induction false} IndexExact(queue: seq<Entry>, i: nat)
    requires i < |queue| && forall j, k :: 0 <= j < k < |queue| ==> queue[j].id != queue[k].id
    ensures IndexOf(queue, queue[i].id) == i
  {
    if i > 0 {
      assert queue[1..][i - 1] == queue[i];
      IndexExact(queue[1..], i - 1);
    }
  }

  /**
   The drainer publishes the head if it is ready and gives up draining otherwise; the thread whose publication it was
   may return, and comes back to where it can publish again.
   */
  lemma DrainEffect(s: State, t: nat)
    requires Inv(s)
    ensures PcOf(s, t) == Looping ==>
      var after := Do(s, Drain(t));
      if HeadReady(s.queue) then after == s.(queue := s.queue[1..], threads := s.threads[t := Calling(s.queue[0])])
      else after == s.(draining := false, threads := s.threads[t := Ready])
    ensures PcOf(s, t).Calling? ==>
      var after := Do(s, Publish(t));
      var entry := PcOf(s, t).entry;
      && after.published == s.published + [entry.id] && PcOf(after, t) == Looping
      && entry.owner.Some? && (entry.owner.value != t ==> PcOf(after, entry.owner.value) == Waiting(true))
    ensures PcOf(s, t) == Waiting(true) ==> Do(s, Return(t)) == s.(threads := s.threads[t := Ready])
  {
    hide InOrder, OneDrainer;
  }

  // ---------- Nobody waits in vain ----------

  ghost predicate Queued(s: State, t: nat) {
    exists i :: 0 <= i < |s.queue| && s.queue[i].owner == Some(t)
  }

  predicate PublishesFor(s: State, u: nat, t: nat) {
    PcOf(s, u).Calling? && PcOf(s, u).entry.owner == Some(t)
  }

  /** Whoever waits has its own entry in the queue or in the drainer's hands. */
  ghost predicate WaitersServed(s: State) {
    forall t :: PcOf(s, t) == Waiting(false) ==> Queued(s, t) || exists u :: PublishesFor(s, u, t)
  }

  lemma KeptServed(s: State, s': State)
    requires WaitersServed(s) && |s.queue| <= |s'.queue|
    requires forall i :: 0 <= i < |s.queue| && s.queue[i].owner.Some? ==> s'.queue[i].owner == s.queue[i].owner
    requires forall u :: PcOf(s, u).Calling? ==> PcOf(s', u) == PcOf(s, u)
    requires forall t :: PcOf(s', t) == Waiting(false) ==> PcOf(s, t) == Waiting(false) || Queued(s', t)
    ensures WaitersServed(s')
  {
    forall t: nat | PcOf(s', t) == Waiting(false)
      ensures Queued(s', t) || exists u :: PublishesFor(s', u, t)
    {
      if i :| 0 <= i < |s.queue| && s.queue[i].owner == Some(t) { assert s'.queue[i].owner == Some(t); }
      if u :| PublishesFor(s, u, t) { assert PublishesFor(s', u, t); }
    }
  }

  lemma EntryServes(s: State, t: nat, a: Action)
    requires WaitersServed(s) && PcOf(s, t) == Ready && a.thread == t && (a.Prepare? || a.Enqueue? || a.MakeReady?)
    ensures WaitersServed(Do(s, a))
  {
    var s' := Do(s, a);
    assert forall u :: u != t ==> PcOf(s', u) == PcOf(s, u);
    if a.Enqueue? { assert s'.queue[|s.queue|].owner == Some(t); }
    if a.MakeReady? && s' != s { assert s'.queue[IndexOf(s.queue, a.id)].owner == Some(t); }
    KeptServed(s, s');
  }

  lemma DrainServes(s: State, t: nat)
    requires WaitersServed(s) && OneDrainer(s) && PcOf(s, t) == Looping
    ensures WaitersServed(Do(s, Drain(t)))
  {
    var s' := Do(s, Drain(t));
    OnlyDrainer(s, t);
    assert forall u :: u != t ==> PcOf(s', u) == PcOf(s, u);
    forall u: nat | PcOf(s', u) == Waiting(false)
      ensures Queued(s', u) || exists v :: PublishesFor(s', v, u)
    {
      assert forall v :: !PublishesFor(s, v, u);
      var i :| 0 <= i < |s.queue| && s.queue[i].owner == Some(u);
      if HeadReady(s.queue) {
        if i == 0 {
          assert PublishesFor(s', t, u);
        } else {
          assert s'.queue[i - 1].owner == Some(u);
        }
      }
    }
  }

  lemma PublishServes(s: State, t: nat)
    requires Inv(s) && WaitersServed(s) && PcOf(s, t).Calling?
    ensures WaitersServed(Do(s, Publish(t)))
  {
    var s' := Do(s, Publish(t));
    var owner := PcOf(s, t).entry.owner.value;
    OnlyDrainer(s, t);
    assert forall u :: u != t && u != owner ==> PcOf(s', u) == PcOf(s, u);
    forall u | PcOf(s', u) == Waiting(false)
      ensures Queued(s', u)
    {
      assert forall v :: PublishesFor(s, v, u) ==> v == t;
    }
  }

  lemma DoServes(s: State, a: Action)
    requires Inv(s) && WaitersServed(s)
    ensures WaitersServed(Do(s, a))
  {
    hide WaitersServed, OwnersInside, InOrder;
    if Do(s, a) != s {
      match a
      case Prepare(t) => EntryServes(s, t, a);
      case Enqueue(t) => EntryServes(s, t, a);
      case MakeReady(t, id) => EntryServes(s, t, a);
      case Drain(t) => DrainServes(s, t);
      case Publish(t) => PublishServes(s, t);
      case Return(t) => ReturnServes(s, t);
    }
  }

  lemma ReturnServes(s: State, t: nat)
    requires WaitersServed(s) && PcOf(s, t) == Waiting(true)
    ensures WaitersServed(Do(s, Return(t)))
  {
    assert forall u :: u != t ==> PcOf(Do(s, Return(t)), u) == PcOf(s, u);
    KeptServed(s, Do(s, Return(t)));
  }

  lemma {:induction false} ReachableServed(actions: seq<Action>)
    ensures Inv(Exec(INITIAL, actions)) && WaitersServed(Exec(INITIAL, actions))
  {
    ReachableInv(actions);
    if actions != [] {
      hide Inv, Do;
      ReachableServed(actions[..|actions| - 1]);
      DoServes(Exec(INITIAL, actions[..|actions| - 1]), actions[|actions| - 1]);
    }
  }

  /** The drainer's own next steps, with nobody else moving. */
  function Alone(s: State, u: nat, n: nat): State
    decreases n
  {
    if n == 0 then s else Alone(Do(s, NextStep(s, u)), u, n - 1)
  }

  function NextStep(s: State, u: nat): Action {
    if PcOf(s, u).Calling? then Publish(u) else Drain(u)
  }

  /** The entry of `t` is being published, or at index `i` with nothing unready before it. */
  ghost predicate Reached(s: State, t: nat, u: nat, i: nat) {
    PublishesFor(s, u, t) || (i < |s.queue| && s.queue[i].owner == Some(t) && forall j :: 0 <= j < i ==> s.queue[j].owner.Some?)
  }

  /** A waiting thread is released after two steps of the drainer for every entry up to its own. */
  lemma {:induction false} WaiterIsReleased(s: State, t: nat, u: nat, i: nat) returns (n: nat)
    requires Inv(s) && PcOf(s, t) == Waiting(false) && Drains(s, u) && Reached(s, t, u, i)
    ensures n <= 2 * i + 3 && PcOf(Alone(s, u, n), t) == Waiting(true)
    ensures PublishesFor(s, u, t) ==> n == 1
    ensures PcOf(s, u) == Looping ==> n <= 2 * i + 2
    decreases i, if PcOf(s, u).Calling? then 1 else 0
  {
    hide OneDrainer, InOrder;
    var s' := Do(s, NextStep(s, u));
    DoKeeps(s, NextStep(s, u));
    if PublishesFor(s, u, t) {
      n := 1;
      assert Alone(s', u, 0) == s';
    } else if PcOf(s, u).Calling? {
      var m := WaiterIsReleased(s', t, u, i);
      n := m + 1;
    } else if i == 0 {
      assert PublishesFor(s', u, t);
      n := 2;
      assert Alone(Do(s', NextStep(s', u)), u, 0) == Do(s', NextStep(s', u));
      assert Alone(s', u, 1) == Do(s', NextStep(s', u));
    } else {
      assert s'.queue[i - 1] == s.queue[i];
      var m := WaiterIsReleased(s', t, u, i - 1);
      n := m + 1;
    }
  }

  /**
   No waiter is stranded: in every reachable state a thread that waits has its own entry queued or being
   published, and once nothing before that entry is unready there is a drainer whose own next steps release the
   thread.
   */
  lemma NobodyStranded(actions: seq<Action>, t: nat) returns (u: nat, i: nat, n: nat)
    requires PcOf(Exec(INITIAL, actions), t) == Waiting(false)
    ensures var s := Exec(INITIAL, actions);
      && (PublishesFor(s, u, t) || (i < |s.queue| && s.queue[i].owner == Some(t)))
      && (Reached(s, t, u, i) ==> Drains(s, u) && n <= 2 * i + 3 && PcOf(Alone(s, u, n), t) == Waiting(true))
  {
    ReachableServed(actions);
    var s := Exec(INITIAL, actions);
    hide Exec, Do;
    if v :| PublishesFor(s, v, t) {
      assert Drains(s, v);
      u, i := v, 0;
      n := WaiterIsReleased(s, t, u, i);
    } else {
      i :| 0 <= i < |s.queue| && s.queue[i].owner == Some(t);
      if v :| Drains(s, v) { u := v; } else { u := 0; }
      if Reached(s, t, u, i) {
        assert HeadReady(s.queue);
        n := WaiterIsReleased(s, t, u, i);
      } else {
        n := 0;
      }
    }
  }
}
