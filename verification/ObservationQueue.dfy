/**
 The store's metrics publication: counters committed under one lock, a queue drained by whichever
 publisher finds it idle, and observer calls made outside every lock. Every critical section and every
 observer call is one step of some thread.
 */
module ObservationQueue {
  import opened Wrappers

  datatype Kind = ActiveRooms | ConnectedClients

  datatype Transition = Transition(kind: Kind, value: nat, sequence: nat)

  datatype Publication = Publication(owner: nat, transition: Transition)

  /** Waiting threads are blocked on their own publication's done channel; the other busy ones own the drain loop. */
  datatype Pc =
    | Ready
    | Waiting(closed: bool)
    | Looping
    | Calling(publication: Publication, stale: bool)

  /** A thread holds the transitions it has committed and will publish, oldest first. */
  datatype Thread = Thread(held: seq<Transition>, pc: Pc)

  /** `commits` and `delivered` are history. */
  datatype State = State(
    counters: map<Kind, nat>,
    publishedSequence: map<Kind, nat>,
    pending: seq<Publication>,
    draining: bool,
    gauges: map<Kind, Option<nat>>,
    threads: map<nat, Thread>,
    commits: seq<Transition>,
    delivered: seq<Transition>)

  datatype Action =
    | Commit(thread: nat, kind: Kind, delta: int)
    | Publish(thread: nat)
    | Drain(thread: nat)
    | Deliver(thread: nat)
    | Return(thread: nat)

  const IDLE: Thread := Thread([], Ready)

  function Initial(): State {
    State(map[ActiveRooms := 0, ConnectedClients := 0], map[ActiveRooms := 0, ConnectedClients := 0], [], false,
          map[ActiveRooms := None, ConnectedClients := None], map[], [], [])
  }

  function ThreadOf(s: State, t: nat): Thread {
    if t in s.threads then s.threads[t] else IDLE
  }

  function Counter(s: State, k: Kind): nat {
    if k in s.counters then s.counters[k] else 0
  }

  function Published(s: State, k: Kind): nat {
    if k in s.publishedSequence then s.publishedSequence[k] else 0
  }

  function Gauge(s: State, k: Kind): Option<nat> {
    if k in s.gauges then s.gauges[k] else None
  }

  function Moved(counter: nat, delta: int): nat {
    if counter + delta < 0 then 0 else counter + delta
  }

  /** The drainer calls the observer, unless the transition is stale, and goes on with its loop. */
  function Called(s: State, t: nat): State
    requires ThreadOf(s, t).pc.Calling?
  {
    var pc := ThreadOf(s, t).pc;
    var x := pc.publication.transition;
    var looping := s.threads[t := ThreadOf(s, t).(pc := Looping)];
    if pc.stale then s.(threads := looping)
    else s.(gauges := s.gauges[x.kind := Some(x.value)], delivered := s.delivered + [x], threads := looping)
  }

  /** Closing the done channel on which the owner of a publication may be waiting. */
  function Released(s: State, owner: nat): State {
    var thread := ThreadOf(s, owner);
    if thread.pc.Waiting? then s.(threads := s.threads[owner := thread.(pc := Waiting(true))]) else s
  }

  function Do(s: State, a: Action): State {
    var t := a.thread;
    var thread := ThreadOf(s, t);
    match a
    case Commit(_, kind, delta) =>
      if thread.pc != Ready then s
      else
        var value := Moved(Counter(s, kind), delta);
        var transition := Transition(kind, value, |s.commits| + 1);
        s.(counters := s.counters[kind := value], commits := s.commits + [transition],
           threads := s.threads[t := thread.(held := thread.held + [transition])])
    case Publish(_) =>
      if thread.pc != Ready || thread.held == [] then s
      else
        var publication := Publication(t, thread.held[0]);
        s.(pending := s.pending + [publication], draining := true,
           threads := s.threads[t := Thread(thread.held[1..], if s.draining then Waiting(false) else Looping)])
    case Drain(_) =>
      if thread.pc != Looping then s
      else if s.pending == [] then s.(draining := false, threads := s.threads[t := thread.(pc := Ready)])
      else
        var publication := s.pending[0];
        var kind := publication.transition.kind;
        var stale := publication.transition.sequence <= Published(s, kind);
        s.(pending := s.pending[1..],
           publishedSequence := if stale then s.publishedSequence else s.publishedSequence[kind := publication.transition.sequence],
           threads := s.threads[t := thread.(pc := Calling(publication, stale))])
    case Deliver(_) =>
      if !thread.pc.Calling? then s else Released(Called(s, t), thread.pc.publication.owner)
    case Return(_) =>
      if thread.pc != Waiting(true) then s else s.(threads := s.threads[t := thread.(pc := Ready)])
  }

  function Exec(s: State, actions: seq<Action>): State {
    if actions == [] then s else Do(Exec(s, actions[..|actions| - 1]), actions[|actions| - 1])
  }

  // ---------- What every interleaving keeps ----------

  predicate Drains(s: State, t: nat) {
    ThreadOf(s, t).pc == Looping || ThreadOf(s, t).pc.Calling?
  }

  /** At most one drainer, there is one exactly while the flag is set, and work never waits without one. */
  ghost predicate OneDrainer(s: State) {
    && (forall t, u :: Drains(s, t) && Drains(s, u) ==> t == u)
    && (s.draining <==> exists t :: Drains(s, t))
    && (s.pending != [] ==> s.draining)
  }

  /** A queued publication keeps its owner inside `publish`: waiting, or draining itself. */
  ghost predicate OwnersInside(s: State) {
    && (forall i :: 0 <= i < |s.pending| ==>
          ThreadOf(s, s.pending[i].owner).pc == Waiting(false) || Drains(s, s.pending[i].owner))
    && (forall t :: ThreadOf(s, t).pc.Calling? ==>
          var owner := ThreadOf(s, t).pc.publication.owner;
          owner == t || ThreadOf(s, owner).pc == Waiting(false))
    && (forall i, j :: 0 <= i < j < |s.pending| ==> s.pending[i].owner != s.pending[j].owner)
    && (forall t, i :: 0 <= i < |s.pending| && ThreadOf(s, t).pc.Calling? ==>
          s.pending[i].owner != ThreadOf(s, t).pc.publication.owner)
  }

  predicate Genuine(s: State, x: Transition) {
    1 <= x.sequence <= |s.commits| && s.commits[x.sequence - 1] == x
  }

  ghost predicate AllGenuine(s: State) {
    && (forall i :: 0 <= i < |s.commits| ==> s.commits[i].sequence == i + 1)
    && (forall i :: 0 <= i < |s.pending| ==> Genuine(s, s.pending[i].transition))
    && (forall t, i :: 0 <= i < |ThreadOf(s, t).held| ==> Genuine(s, ThreadOf(s, t).held[i]))
    && (forall t :: ThreadOf(s, t).pc.Calling? ==> Genuine(s, ThreadOf(s, t).pc.publication.transition))
  }

  /** A commit is still held, or queued, or its kind has been published at least as far. */
  ghost predicate Tracked(s: State, i: nat)
    requires i < |s.commits|
  {
    || (exists t, j :: 0 <= j < |ThreadOf(s, t).held| && ThreadOf(s, t).held[j] == s.commits[i])
    || (exists j :: 0 <= j < |s.pending| && s.pending[j].transition == s.commits[i])
    || i + 1 <= Published(s, s.commits[i].kind)
  }

  ghost predicate AllTracked(s: State) {
    forall i: nat :: i < |s.commits| ==> Tracked(s, i)
  }

  /** The sequence last published is a commit of that kind; its value is the gauge, or is about to be. */
  ghost predicate GaugesFollow(s: State) {
    forall k :: var p := Published(s, k);
      && p <= |s.commits|
      && (p > 0 ==> s.commits[p - 1].kind == k)
      && ((forall t :: !CallsFresh(s, t, k)) ==> Gauge(s, k) == if p == 0 then None else Some(s.commits[p - 1].value))
      && (forall t :: CallsFresh(s, t, k) ==> ThreadOf(s, t).pc.publication.transition.sequence == p)
  }

  predicate CallsFresh(s: State, t: nat, k: Kind) {
    var pc := ThreadOf(s, t).pc;
    pc.Calling? && !pc.stale && pc.publication.transition.kind == k
  }

  /** Per kind the delivered sequences strictly increase and stay behind the one being delivered. */
  ghost predicate DeliveriesIncrease(s: State) {
    && (forall i, j :: 0 <= i < j < |s.delivered| && s.delivered[i].kind == s.delivered[j].kind
          ==> s.delivered[i].sequence < s.delivered[j].sequence)
    && (forall i :: 0 <= i < |s.delivered| ==> s.delivered[i].sequence <= Published(s, s.delivered[i].kind))
    && (forall t, i :: 0 <= i < |s.delivered| && CallsFresh(s, t, s.delivered[i].kind)
          ==> s.delivered[i].sequence < Published(s, s.delivered[i].kind))
  }

  /** The counter is the value of the last commit of its kind. */
  ghost predicate CountersFollow(s: State) {
    && (forall i: nat :: i < |s.commits| && (forall j :: i < j < |s.commits| ==> s.commits[j].kind != s.commits[i].kind)
          ==> s.commits[i].value == Counter(s, s.commits[i].kind))
  }

  ghost predicate Inv(s: State) {
    && OneDrainer(s) && OwnersInside(s) && AllGenuine(s) && AllTracked(s)
    && GaugesFollow(s) && DeliveriesIncrease(s) && CountersFollow(s)
  }

  // ---------- Each kind of step ----------

  /** What a step does to the threads: its own becomes `self`, a released owner is marked, the rest stay. */
  ghost predicate ThreadsMove(s: State, s': State, t: nat, self: Thread, released: nat) {
    && ThreadOf(s', t) == self
    && (forall u :: u != t && u != released ==> ThreadOf(s', u) == ThreadOf(s, u))
    && (released != t ==>
          || ThreadOf(s', released) == ThreadOf(s, released)
          || (ThreadOf(s, released).pc.Waiting?
              && ThreadOf(s', released) == ThreadOf(s, released).(pc := Waiting(true))))
  }

  ghost predicate SameCalls(s: State, s': State) {
    forall u :: (ThreadOf(s', u).pc.Calling? || ThreadOf(s, u).pc.Calling?) ==> ThreadOf(s', u).pc == ThreadOf(s, u).pc
  }

  /** Gauges and deliveries only look at the calls, the published sequences and the commits they point to. */
  lemma SameCallsKeep(s: State, s': State)
    requires GaugesFollow(s) && DeliveriesIncrease(s)
    requires SameCalls(s, s') && s'.delivered == s.delivered && s.commits <= s'.commits
    requires forall k :: Published(s', k) == Published(s, k) && Gauge(s', k) == Gauge(s, k)
    ensures GaugesFollow(s') && DeliveriesIncrease(s')
  {
    assert forall u, k :: CallsFresh(s', u, k) <==> CallsFresh(s, u, k);
    assert forall i :: 0 <= i < |s.commits| ==> s'.commits[i] == s.commits[i];
  }

  lemma SameControlKeeps(s: State, s': State)
    requires OneDrainer(s) && OwnersInside(s)
    requires s'.pending == s.pending && s'.draining == s.draining
    requires forall u :: ThreadOf(s', u).pc == ThreadOf(s, u).pc
    ensures OneDrainer(s') && OwnersInside(s')
  {
    assert forall u :: Drains(s', u) <==> Drains(s, u);
  }

  lemma CommitKeeps(s: State, t: nat, kind: Kind, delta: int)
    requires Inv(s) && ThreadOf(s, t).pc == Ready
    ensures Inv(Do(s, Commit(t, kind, delta)))
  {
    var s' := Do(s, Commit(t, kind, delta));
    var thread := ThreadOf(s, t);
    var x := Transition(kind, Moved(Counter(s, kind), delta), |s.commits| + 1);
    assert s'.commits == s.commits + [x];
    assert ThreadsMove(s, s', t, thread.(held := thread.held + [x]), t);
    assert forall u :: ThreadOf(s', u).pc == ThreadOf(s, u).pc;
    assert forall k :: Published(s', k) == Published(s, k) && Gauge(s', k) == Gauge(s, k);
    assert forall k :: Counter(s', k) == if k == kind then x.value else Counter(s, k);
    hide Do, OneDrainer, OwnersInside, AllGenuine, AllTracked, GaugesFollow, DeliveriesIncrease, CountersFollow;
    SameControlKeeps(s, s');
    SameCallsKeep(s, s');
    CommitGenuine(s, s', t, x);
    CommitTracked(s, s', t, x);
    CommitCounters(s, s', x);
  }

  lemma CommitGenuine(s: State, s': State, t: nat, x: Transition)
    requires AllGenuine(s) && s'.commits == s.commits + [x] && s'.pending == s.pending && x.sequence == |s.commits| + 1
    requires ThreadsMove(s, s', t, ThreadOf(s, t).(held := ThreadOf(s, t).held + [x]), t)
    ensures AllGenuine(s')
  {
    assert forall y :: Genuine(s, y) ==> Genuine(s', y);
    assert Genuine(s', x);
  }

  lemma CommitTracked(s: State, s': State, t: nat, x: Transition)
    requires AllTracked(s) && s'.commits == s.commits + [x] && s'.pending == s.pending
    requires ThreadsMove(s, s', t, ThreadOf(s, t).(held := ThreadOf(s, t).held + [x]), t)
    requires forall k :: Published(s', k) == Published(s, k)
    ensures AllTracked(s')
  {
    forall i: nat | i < |s'.commits|
      ensures Tracked(s', i)
    {
      if i == |s.commits| {
        assert ThreadOf(s', t).held[|ThreadOf(s, t).held|] == x;
      } else {
        assert Tracked(s, i);
        if u, j :| 0 <= j < |ThreadOf(s, u).held| && ThreadOf(s, u).held[j] == s.commits[i] {
          assert ThreadOf(s', u).held[j] == s'.commits[i];
        }
      }
    }
  }

  lemma CommitCounters(s: State, s': State, x: Transition)
    requires CountersFollow(s) && s'.commits == s.commits + [x]
    requires forall k :: Counter(s', k) == if k == x.kind then x.value else Counter(s, k)
    ensures CountersFollow(s')
  {
    forall i: nat | i < |s'.commits| && (forall j :: i < j < |s'.commits| ==> s'.commits[j].kind != s'.commits[i].kind)
      ensures s'.commits[i].value == Counter(s', s'.commits[i].kind)
    {
      if i < |s.commits| {
        assert s'.commits[|s.commits|].kind == x.kind;
        assert forall j :: i < j < |s.commits| ==> s'.commits[j] == s.commits[j];
      }
    }
  }

  lemma PublishKeeps(s: State, t: nat)
    requires Inv(s) && ThreadOf(s, t).pc == Ready && ThreadOf(s, t).held != []
    ensures Inv(Do(s, Publish(t)))
  {
    var s' := Do(s, Publish(t));
    var thread := ThreadOf(s, t);
    var publication := Publication(t, thread.held[0]);
    assert s'.pending == s.pending + [publication];
    assert ThreadsMove(s, s', t, Thread(thread.held[1..], if s.draining then Waiting(false) else Looping), t);
    assert forall k :: Published(s', k) == Published(s, k) && Gauge(s', k) == Gauge(s, k) && Counter(s', k) == Counter(s, k);
    PublishControl(s, s', t);
    SameCallsKeep(s, s');
    assert CountersFollow(s');
    hide Do, OneDrainer, OwnersInside, GaugesFollow, DeliveriesIncrease, CountersFollow;
    PublishTracked(s, s', t);
    PublishGenuine(s, s', t);
  }

  lemma PublishControl(s: State, s': State, t: nat)
    requires OneDrainer(s) && OwnersInside(s) && ThreadOf(s, t).pc == Ready && ThreadOf(s, t).held != []
    requires s'.pending == s.pending + [Publication(t, ThreadOf(s, t).held[0])] && s'.draining
    requires forall u :: u != t ==> ThreadOf(s', u) == ThreadOf(s, u)
    requires ThreadOf(s', t).pc == if s.draining then Waiting(false) else Looping
    ensures OneDrainer(s') && OwnersInside(s')
  {
    assert forall u :: u != t ==> (Drains(s', u) <==> Drains(s, u));
    assert Drains(s', t) <==> !s.draining;
    if s.draining {
      var u :| Drains(s, u);
      assert Drains(s', u);
    }
    assert forall i :: 0 <= i < |s.pending| ==> s.pending[i].owner != t;
    assert forall i :: 0 <= i < |s.pending| ==> s'.pending[i] == s.pending[i];
  }

  lemma PublishGenuine(s: State, s': State, t: nat)
    requires AllGenuine(s) && s'.commits == s.commits && ThreadOf(s, t).held != []
    requires s'.pending == s.pending + [Publication(t, ThreadOf(s, t).held[0])]
    requires forall u :: u != t ==> ThreadOf(s', u) == ThreadOf(s, u)
    requires ThreadOf(s', t).held == ThreadOf(s, t).held[1..] && !ThreadOf(s', t).pc.Calling?
    ensures AllGenuine(s')
  {
    assert forall y :: Genuine(s, y) <==> Genuine(s', y);
    assert Genuine(s, ThreadOf(s, t).held[0]);
  }

  lemma PublishTracked(s: State, s': State, t: nat)
    requires AllTracked(s) && s'.commits == s.commits && ThreadOf(s, t).held != []
    requires s'.pending == s.pending + [Publication(t, ThreadOf(s, t).held[0])]
    requires forall u :: u != t ==> ThreadOf(s', u) == ThreadOf(s, u)
    requires ThreadOf(s', t).held == ThreadOf(s, t).held[1..]
    requires forall k :: Published(s', k) == Published(s, k)
    ensures AllTracked(s')
  {
    forall i: nat | i < |s'.commits|
      ensures Tracked(s', i)
    {
      assert Tracked(s, i);
      if u, j :| 0 <= j < |ThreadOf(s, u).held| && ThreadOf(s, u).held[j] == s.commits[i] {
        if u != t {
          assert ThreadOf(s', u).held[j] == s'.commits[i];
        } else if j > 0 {
          assert ThreadOf(s', u).held[j - 1] == s'.commits[i];
        } else {
          assert s'.pending[|s.pending|].transition == s'.commits[i];
        }
      } else if j :| 0 <= j < |s.pending| && s.pending[j].transition == s.commits[i] {
        assert s'.pending[j].transition == s'.commits[i];
      }
    }
  }

  lemma OnlyDrainer(s: State, t: nat)
    requires OneDrainer(s) && Drains(s, t)
    ensures forall u :: u != t ==> ThreadOf(s, u).pc != Looping && !ThreadOf(s, u).pc.Calling?
  {
    forall u | u != t
      ensures ThreadOf(s, u).pc != Looping && !ThreadOf(s, u).pc.Calling?
    {
      assert !Drains(s, u);
    }
  }

  lemma StopKeeps(s: State, t: nat)
    requires Inv(s) && ThreadOf(s, t).pc == Looping && s.pending == []
    ensures Inv(Do(s, Drain(t)))
  {
    var s' := Do(s, Drain(t));
    assert ThreadsMove(s, s', t, ThreadOf(s, t).(pc := Ready), t);
    assert forall u :: ThreadOf(s', u).held == ThreadOf(s, u).held;
    OnlyDrainer(s, t);
    assert forall u :: !Drains(s', u);
    hide Do, OneDrainer, OwnersInside, AllGenuine, AllTracked, GaugesFollow, DeliveriesIncrease, CountersFollow;
    StopControl(s, s');
    SameBooks(s, s');
  }

  lemma StopControl(s: State, s': State)
    requires OneDrainer(s) && OwnersInside(s) && s.pending == s'.pending == [] && !s'.draining
    requires forall u :: !Drains(s', u)
    ensures OneDrainer(s') && OwnersInside(s')
  {
    forall u
      ensures !ThreadOf(s', u).pc.Calling?
    {
      assert !Drains(s', u);
    }
  }

  /** A step that only moves a thread out of `publish` leaves everything else as it was. */
  lemma SameBooks(s: State, s': State)
    requires AllGenuine(s) && AllTracked(s) && GaugesFollow(s) && DeliveriesIncrease(s) && CountersFollow(s)
    requires SameCalls(s, s') && forall u :: ThreadOf(s', u).held == ThreadOf(s, u).held
    requires s'.commits == s.commits && s'.pending == s.pending && s'.delivered == s.delivered
    requires s'.counters == s.counters && s'.publishedSequence == s.publishedSequence && s'.gauges == s.gauges
    ensures AllGenuine(s') && AllTracked(s') && GaugesFollow(s') && DeliveriesIncrease(s') && CountersFollow(s')
  {
    hide AllGenuine, AllTracked, GaugesFollow, DeliveriesIncrease, CountersFollow;
    assert forall k :: Published(s', k) == Published(s, k) && Gauge(s', k) == Gauge(s, k);
    SameCallsKeep(s, s');
    SameHeldTracked(s, s');
    SameGenuine(s, s');
    SameCounters(s, s');
  }

  lemma SameGenuine(s: State, s': State)
    requires AllGenuine(s) && SameCalls(s, s') && s'.commits == s.commits && s'.pending == s.pending
    requires forall u :: ThreadOf(s', u).held == ThreadOf(s, u).held
    ensures AllGenuine(s')
  {
    assert forall y :: Genuine(s', y) <==> Genuine(s, y);
    hide Genuine;
  }

  lemma SameCounters(s: State, s': State)
    requires CountersFollow(s) && s'.commits == s.commits && s'.counters == s.counters
    ensures CountersFollow(s')
  {
    assert forall k :: Counter(s', k) == Counter(s, k);
  }

  lemma SameHeldTracked(s: State, s': State)
    requires AllTracked(s) && s'.commits == s.commits && s'.pending == s.pending
    requires forall u :: ThreadOf(s', u).held == ThreadOf(s, u).held
    requires forall k :: Published(s', k) == Published(s, k)
    ensures AllTracked(s')
  {
    forall i: nat | i < |s'.commits|
      ensures Tracked(s', i)
    {
      assert Tracked(s, i);
      if u, j :| 0 <= j < |ThreadOf(s, u).held| && ThreadOf(s, u).held[j] == s.commits[i] {
        assert ThreadOf(s', u).held[j] == s'.commits[i];
      }
    }
  }

  /** The drainer takes the head of the queue. */
  ghost predicate Pops(s: State, s': State, t: nat) {
    && s.pending != [] && ThreadOf(s, t).pc == Looping
    && var publication := s.pending[0];
       var x := publication.transition;
       var stale := x.sequence <= Published(s, x.kind);
       && s'.pending == s.pending[1..] && s'.draining == s.draining
       && s'.commits == s.commits && s'.delivered == s.delivered
       && (forall u :: u != t ==> ThreadOf(s', u) == ThreadOf(s, u))
       && ThreadOf(s', t) == ThreadOf(s, t).(pc := Calling(publication, stale))
       && (forall k :: Published(s', k) == if !stale && k == x.kind then x.sequence else Published(s, k))
       && (forall k :: Gauge(s', k) == Gauge(s, k) && Counter(s', k) == Counter(s, k))
  }

  lemma PopKeeps(s: State, t: nat)
    requires Inv(s) && ThreadOf(s, t).pc == Looping && s.pending != []
    ensures Inv(Do(s, Drain(t)))
  {
    hide Do, OneDrainer, OwnersInside, AllGenuine, AllTracked, GaugesFollow, DeliveriesIncrease, CountersFollow, Pops;
    var s' := Do(s, Drain(t));
    PopIsPops(s, t);
    PopCounters(s, s', t);
    PopControl(s, s', t);
    PopGenuine(s, s', t);
    PopTracked(s, s', t);
    PopGauges(s, s', t);
  }

  lemma PopIsPops(s: State, t: nat)
    requires ThreadOf(s, t).pc == Looping && s.pending != []
    ensures Pops(s, Do(s, Drain(t)), t)
  {
  }

  lemma PopCounters(s: State, s': State, t: nat)
    requires CountersFollow(s) && Pops(s, s', t)
    ensures CountersFollow(s')
  {
  }

  lemma PopControl(s: State, s': State, t: nat)
    requires OneDrainer(s) && OwnersInside(s) && Pops(s, s', t)
    ensures OneDrainer(s') && OwnersInside(s')
  {
    OnlyDrainer(s, t);
    assert forall u :: Drains(s', u) <==> Drains(s, u);
    assert forall i :: 0 <= i < |s'.pending| ==> s'.pending[i] == s.pending[i + 1];
  }

  lemma PopGenuine(s: State, s': State, t: nat)
    requires AllGenuine(s) && Pops(s, s', t)
    ensures AllGenuine(s')
  {
    assert forall y :: Genuine(s', y) <==> Genuine(s, y);
    assert forall i :: 0 <= i < |s'.pending| ==> s'.pending[i] == s.pending[i + 1];
    assert forall u :: ThreadOf(s', u).held == ThreadOf(s, u).held;
  }

  lemma PopTracked(s: State, s': State, t: nat)
    requires AllGenuine(s) && AllTracked(s) && Pops(s, s', t)
    ensures AllTracked(s')
  {
    forall i: nat | i < |s'.commits|
      ensures Tracked(s', i)
    {
      assert Tracked(s, i);
      if u, j :| 0 <= j < |ThreadOf(s, u).held| && ThreadOf(s, u).held[j] == s.commits[i] {
        assert ThreadOf(s', u).held[j] == s'.commits[i];
      } else if j :| 0 <= j < |s.pending| && s.pending[j].transition == s.commits[i] {
        if j > 0 {
          assert s'.pending[j - 1].transition == s'.commits[i];
        }
      }
    }
  }

  lemma PopGauges(s: State, s': State, t: nat)
    requires OneDrainer(s) && AllGenuine(s) && GaugesFollow(s) && DeliveriesIncrease(s) && Pops(s, s', t)
    ensures GaugesFollow(s') && DeliveriesIncrease(s')
  {
    OnlyDrainer(s, t);
    assert forall u, k :: !CallsFresh(s, u, k);
    assert forall u, k :: CallsFresh(s', u, k) ==> u == t && k == s.pending[0].transition.kind;
    assert Genuine(s, s.pending[0].transition);
    var x := s.pending[0].transition;
    assert x.sequence > Published(s, x.kind) ==> CallsFresh(s', t, x.kind);
  }

  /** The drainer has made its call, if any, and closes the publication's done channel. */
  ghost predicate Delivers(s: State, s': State, t: nat) {
    && ThreadOf(s, t).pc.Calling?
    && var publication := ThreadOf(s, t).pc.publication;
       var x := publication.transition;
       && s'.pending == s.pending && s'.draining == s.draining && s'.commits == s.commits
       && s'.delivered == (if ThreadOf(s, t).pc.stale then s.delivered else s.delivered + [x])
       && (forall u :: u != t && u != publication.owner ==> ThreadOf(s', u) == ThreadOf(s, u))
       && ThreadOf(s', t) == ThreadOf(s, t).(pc := Looping)
       && (publication.owner != t ==>
             ThreadOf(s', publication.owner)
             == if ThreadOf(s, publication.owner).pc.Waiting? then ThreadOf(s, publication.owner).(pc := Waiting(true))
                else ThreadOf(s, publication.owner))
       && (forall k :: Published(s', k) == Published(s, k) && Counter(s', k) == Counter(s, k))
       && (forall k :: Gauge(s', k) == if !ThreadOf(s, t).pc.stale && k == x.kind then Some(x.value) else Gauge(s, k))
  }

  lemma DeliverIsDelivers(s: State, t: nat)
    requires ThreadOf(s, t).pc.Calling?
    ensures Delivers(s, Do(s, Deliver(t)), t)
  {
    hide Called, Released;
    var s' := Do(s, Deliver(t));
    assert s' == Released(Called(s, t), ThreadOf(s, t).pc.publication.owner);
    CallMakes(s, t);
    ReleaseMakes(Called(s, t), ThreadOf(s, t).pc.publication.owner);
    assert forall k :: Published(s', k) == Published(s, k) && Counter(s', k) == Counter(s, k);
    assert forall k :: Gauge(s', k) == Gauge(Called(s, t), k);
  }

  lemma CallMakes(s: State, t: nat)
    requires ThreadOf(s, t).pc.Calling?
    ensures var s' := Called(s, t);
      var pc := ThreadOf(s, t).pc;
      && s' == s.(gauges := s'.gauges, delivered := s'.delivered, threads := s'.threads)
      && s'.delivered == (if pc.stale then s.delivered else s.delivered + [pc.publication.transition])
      && ThreadOf(s', t) == ThreadOf(s, t).(pc := Looping)
      && (forall u :: u != t ==> ThreadOf(s', u) == ThreadOf(s, u))
      && (forall k :: Gauge(s', k) == if !pc.stale && k == pc.publication.transition.kind
                                      then Some(pc.publication.transition.value) else Gauge(s, k))
  {
  }

  lemma ReleaseMakes(s: State, owner: nat)
    ensures var s' := Released(s, owner);
      && s' == s.(threads := s'.threads)
      && ThreadOf(s', owner) == (if ThreadOf(s, owner).pc.Waiting? then ThreadOf(s, owner).(pc := Waiting(true)) else ThreadOf(s, owner))
      && (forall u :: u != owner ==> ThreadOf(s', u) == ThreadOf(s, u))
  {
  }

  lemma DeliverKeeps(s: State, t: nat)
    requires Inv(s) && ThreadOf(s, t).pc.Calling?
    ensures Inv(Do(s, Deliver(t)))
  {
    var s' := Do(s, Deliver(t));
    DeliverIsDelivers(s, t);
    assert CountersFollow(s');
    hide Do, OneDrainer, OwnersInside, AllGenuine, AllTracked, GaugesFollow, DeliveriesIncrease, CountersFollow;
    assert forall u :: ThreadOf(s', u).held == ThreadOf(s, u).held;
    DeliverControl(s, s', t);
    DeliverGenuine(s, s', t);
    SameHeldTracked(s, s');
    DeliverGauges(s, s', t);
  }

  lemma DeliverControl(s: State, s': State, t: nat)
    requires OneDrainer(s) && OwnersInside(s) && Delivers(s, s', t)
    ensures OneDrainer(s') && OwnersInside(s')
  {
    OnlyDrainer(s, t);
    assert forall u :: Drains(s', u) <==> Drains(s, u);
  }

  lemma DeliverGenuine(s: State, s': State, t: nat)
    requires OneDrainer(s) && AllGenuine(s) && Delivers(s, s', t)
    requires forall u :: ThreadOf(s', u).held == ThreadOf(s, u).held
    ensures AllGenuine(s')
  {
    assert forall y :: Genuine(s', y) <==> Genuine(s, y);
    OnlyDrainer(s, t);
  }

  lemma DeliverGauges(s: State, s': State, t: nat)
    requires OneDrainer(s) && AllGenuine(s) && GaugesFollow(s) && DeliveriesIncrease(s) && Delivers(s, s', t)
    ensures GaugesFollow(s') && DeliveriesIncrease(s')
  {
    hide GaugesFollow, DeliveriesIncrease;
    OnlyDrainer(s, t);
    assert forall u, k :: CallsFresh(s, u, k) ==> u == t;
    assert forall u, k :: !CallsFresh(s', u, k);
    GaugeShows(s, s', t);
    DeliveryIsNewest(s, s', t);
  }

  lemma GaugeShows(s: State, s': State, t: nat)
    requires AllGenuine(s) && GaugesFollow(s) && Delivers(s, s', t)
    requires forall u, k :: CallsFresh(s, u, k) ==> u == t
    requires forall u, k :: !CallsFresh(s', u, k)
    ensures GaugesFollow(s')
  {
    var pc := ThreadOf(s, t).pc;
    assert Genuine(s, pc.publication.transition);
    if !pc.stale {
      assert CallsFresh(s, t, pc.publication.transition.kind);
    }
  }

  lemma DeliveryIsNewest(s: State, s': State, t: nat)
    requires GaugesFollow(s) && DeliveriesIncrease(s) && Delivers(s, s', t)
    requires forall u, k :: !CallsFresh(s', u, k)
    ensures DeliveriesIncrease(s')
  {
    var pc := ThreadOf(s, t).pc;
    if !pc.stale {
      assert CallsFresh(s, t, pc.publication.transition.kind);
    }
  }

  lemma ReturnKeeps(s: State, t: nat)
    requires Inv(s) && ThreadOf(s, t).pc == Waiting(true)
    ensures Inv(Do(s, Return(t)))
  {
    var s' := Do(s, Return(t));
    assert ThreadsMove(s, s', t, ThreadOf(s, t).(pc := Ready), t);
    assert forall u :: Drains(s', u) <==> Drains(s, u);
    hide Do, AllGenuine, AllTracked, GaugesFollow, DeliveriesIncrease, CountersFollow;
    SameBooks(s, s');
  }

  lemma DoKeeps(s: State, a: Action)
    requires Inv(s)
    ensures Inv(Do(s, a))
  {
    hide Inv;
    var t := a.thread;
    if Do(s, a) != s {
      match a {
        case Commit(_, kind, delta) => CommitKeeps(s, t, kind, delta);
        case Publish(_) => PublishKeeps(s, t);
        case Drain(_) =>
          if s.pending == [] {
            StopKeeps(s, t);
          } else {
            PopKeeps(s, t);
          }
        case Deliver(_) => DeliverKeeps(s, t);
        case Return(_) => ReturnKeeps(s, t);
      }
    }
  }

  lemma {:induction false} ReachableInv(actions: seq<Action>)
    ensures Inv(Exec(Initial(), actions))
  {
    if actions != [] {
      hide Inv;
      ReachableInv(actions[..|actions| - 1]);
      DoKeeps(Exec(Initial(), actions[..|actions| - 1]), actions[|actions| - 1]);
    }
  }

  // ---------- The guarantees ----------

  /**
   In every interleaving there is at most one drainer, queued work always has one, no thread is back from
   `publish` while its publication is queued or being delivered, and per kind the observer sees strictly
   newer sequences.
   */
  lemma PublicationGuarantees(actions: seq<Action>)
    ensures var s := Exec(Initial(), actions);
            && (forall t, u :: Drains(s, t) && Drains(s, u) ==> t == u)
            && (s.pending != [] ==> exists t :: Drains(s, t))
            && (forall t, i :: 0 <= i < |s.pending| && ThreadOf(s, t).pc == Ready ==> s.pending[i].owner != t)
            && (forall t, u :: ThreadOf(s, t).pc.Calling? && ThreadOf(s, u).pc == Ready
                  ==> ThreadOf(s, t).pc.publication.owner != u)
            && (forall i, j :: 0 <= i < j < |s.delivered| && s.delivered[i].kind == s.delivered[j].kind
                  ==> s.delivered[i].sequence < s.delivered[j].sequence)
  {
    ReachableInv(actions);
  }

  /** Once every committed transition has been published, each gauge shows its counter. */
  lemma GaugesSettle(actions: seq<Action>, k: Kind)
    requires var s := Exec(Initial(), actions); forall t :: ThreadOf(s, t) == IDLE
    ensures var s := Exec(Initial(), actions);
            (exists i :: 0 <= i < |s.commits| && s.commits[i].kind == k) ==> Gauge(s, k) == Some(Counter(s, k))
  {
    ReachableInv(actions);
    var s := Exec(Initial(), actions);
    if i: nat :| i < |s.commits| && s.commits[i].kind == k {
      var last := LastOfKind(s, i);
      assert Tracked(s, last);
      assert forall t :: !Drains(s, t);
      assert s.pending == [];
      assert forall t :: !CallsFresh(s, t, k);
      assert Published(s, k) >= last + 1;
      assert s.commits[Published(s, k) - 1].kind == k;
    }
  }

  lemma {:induction false} LastOfKind(s: State, i: nat) returns (last: nat)
    requires i < |s.commits|
    ensures i <= last < |s.commits| && s.commits[last].kind == s.commits[i].kind
    ensures forall j :: last < j < |s.commits| ==> s.commits[j].kind != s.commits[i].kind
    decreases |s.commits| - i
  {
    if j: nat :| i < j < |s.commits| && s.commits[j].kind == s.commits[i].kind {
      last := LastOfKind(s, j);
    } else {
      last := i;
    }
  }

  /** A thread that commits moves its counter, never below zero, and holds a transition that says so. */
  lemma CommitEffect(s: State, t: nat, kind: Kind, delta: int)
    requires ThreadOf(s, t).pc == Ready
    ensures var s' := Do(s, Commit(t, kind, delta));
      var moved := Counter(s, kind) + delta;
      && Counter(s', kind) == (if moved < 0 then 0 else moved)
      && (forall k :: k != kind ==> Counter(s', k) == Counter(s, k))
      && ThreadOf(s', t).held == ThreadOf(s, t).held + [Transition(kind, Counter(s', kind), |s.commits| + 1)]
  {
  }

  // ---------- Nobody waits in vain ----------

  ghost predicate Queued(s: State, t: nat) {
    exists i :: 0 <= i < |s.pending| && s.pending[i].owner == t
  }

  ghost predicate BeingDelivered(s: State, t: nat) {
    exists u :: DeliversFor(s, u, t)
  }

  predicate DeliversFor(s: State, u: nat, t: nat) {
    ThreadOf(s, u).pc.Calling? && ThreadOf(s, u).pc.publication.owner == t
  }

  /** Whoever waits has its own publication in the queue or in the drainer's hands. */
  ghost predicate WaitersServed(s: State) {
    forall t :: ThreadOf(s, t).pc == Waiting(false) ==> Queued(s, t) || BeingDelivered(s, t)
  }

  lemma SameServed(s: State, s': State)
    requires WaitersServed(s) && s.pending <= s'.pending && SameCalls(s, s')
    requires forall t :: ThreadOf(s', t).pc == Waiting(false) ==> ThreadOf(s, t).pc == Waiting(false) || Queued(s', t)
    ensures WaitersServed(s')
  {
    forall t | ThreadOf(s', t).pc == Waiting(false)
      ensures Queued(s', t) || BeingDelivered(s', t)
    {
      if i :| 0 <= i < |s.pending| && s.pending[i].owner == t { assert s'.pending[i] == s.pending[i]; }
      if u :| DeliversFor(s, u, t) { assert DeliversFor(s', u, t); }
    }
  }

  lemma PublishServes(s: State, t: nat)
    requires WaitersServed(s) && ThreadOf(s, t).pc == Ready && ThreadOf(s, t).held != []
    ensures WaitersServed(Do(s, Publish(t)))
  {
    var s' := Do(s, Publish(t));
    assert s'.pending[|s.pending|].owner == t;
    assert forall u :: u != t ==> ThreadOf(s', u) == ThreadOf(s, u);
    SameServed(s, s');
  }

  lemma StopServes(s: State, t: nat)
    requires WaitersServed(s) && OneDrainer(s) && ThreadOf(s, t).pc == Looping && s.pending == []
    ensures WaitersServed(Do(s, Drain(t)))
  {
    OnlyDrainer(s, t);
    assert forall u :: !BeingDelivered(s, u);
    assert forall u :: u != t ==> ThreadOf(Do(s, Drain(t)), u) == ThreadOf(s, u);
  }

  lemma PopServes(s: State, s': State, t: nat)
    requires WaitersServed(s) && OneDrainer(s) && Pops(s, s', t)
    ensures WaitersServed(s')
  {
    OnlyDrainer(s, t);
    assert DeliversFor(s', t, s.pending[0].owner);
    forall u | ThreadOf(s', u).pc == Waiting(false)
      ensures Queued(s', u) || BeingDelivered(s', u)
    {
      if i :| 0 <= i < |s.pending| && s.pending[i].owner == u {
        if i > 0 { assert s'.pending[i - 1].owner == u; }
      }
    }
  }

  lemma DeliverServes(s: State, s': State, t: nat)
    requires WaitersServed(s) && OneDrainer(s) && Delivers(s, s', t)
    ensures WaitersServed(s')
  {
    OnlyDrainer(s, t);
    forall u | ThreadOf(s', u).pc == Waiting(false)
      ensures Queued(s', u)
    {
      assert forall v :: DeliversFor(s, v, u) ==> v == t;
    }
  }

  lemma DoServes(s: State, a: Action)
    requires Inv(s) && WaitersServed(s)
    ensures WaitersServed(Do(s, a))
  {
    hide WaitersServed, OneDrainer, OwnersInside, AllGenuine, AllTracked, GaugesFollow, DeliveriesIncrease, CountersFollow;
    var t := a.thread;
    if Do(s, a) != s {
      match a {
        case Commit(_, _, _) => SameServed(s, Do(s, a));
        case Publish(_) => PublishServes(s, t);
        case Drain(_) =>
          if s.pending == [] {
            StopServes(s, t);
          } else {
            PopIsPops(s, t);
            PopServes(s, Do(s, a), t);
          }
        case Deliver(_) =>
          DeliverIsDelivers(s, t);
          DeliverServes(s, Do(s, a), t);
        case Return(_) => SameServed(s, Do(s, a));
      }
    }
  }

  lemma {:induction false} ReachableServed(actions: seq<Action>)
    ensures Inv(Exec(Initial(), actions)) && WaitersServed(Exec(Initial(), actions))
  {
    ReachableInv(actions);
    if actions != [] {
      hide Inv, Do;
      ReachableServed(actions[..|actions| - 1]);
      DoServes(Exec(Initial(), actions[..|actions| - 1]), actions[|actions| - 1]);
    }
  }

  /** What the drainer does next. */
  function NextStep(s: State, u: nat): Action {
    if ThreadOf(s, u).pc.Calling? then Deliver(u) else Drain(u)
  }

  /** The drainer's own next steps, with nobody else moving. */
  function Alone(s: State, u: nat, n: nat): State
    decreases n
  {
    if n == 0 then s else Alone(Do(s, NextStep(s, u)), u, n - 1)
  }

  function WorkLeft(s: State, u: nat): nat {
    2 * |s.pending| + if ThreadOf(s, u).pc.Calling? then 1 else 0
  }

  /** While somebody waits the drainer has work, and does it. */
  lemma DrainerWorks(s: State, t: nat, u: nat)
    requires Inv(s) && WaitersServed(s) && ThreadOf(s, t).pc == Waiting(false) && Drains(s, u)
    ensures var s' := Do(s, NextStep(s, u));
      && Drains(s', u) && WorkLeft(s', u) < WorkLeft(s, u)
      && (ThreadOf(s', t).pc == Waiting(false) || ThreadOf(s', t).pc == Waiting(true))
  {
    OnlyDrainer(s, u);
    assert forall v :: DeliversFor(s, v, t) ==> v == u;
    if ThreadOf(s, u).pc.Calling? {
      DeliverIsDelivers(s, u);
    } else {
      PopIsPops(s, u);
    }
  }

  /** A waiting thread is released after at most two steps of the drainer for every publication still to come. */
  lemma {:induction false} WaiterIsReleased(s: State, t: nat, u: nat) returns (n: nat)
    requires Inv(s) && WaitersServed(s) && ThreadOf(s, t).pc == Waiting(false) && Drains(s, u)
    ensures n <= WorkLeft(s, u) && ThreadOf(Alone(s, u, n), t).pc == Waiting(true)
    decreases WorkLeft(s, u)
  {
    hide Inv, WaitersServed, Do, WorkLeft, Drains;
    var s' := Do(s, NextStep(s, u));
    DrainerWorks(s, t, u);
    DoKeeps(s, NextStep(s, u));
    DoServes(s, NextStep(s, u));
    if ThreadOf(s', t).pc == Waiting(true) {
      n := 1;
      assert Alone(s', u, 0) == s';
    } else {
      var m := WaiterIsReleased(s', t, u);
      n := m + 1;
    }
  }

  /**
   No waiter is stranded: in every reachable state a thread that waits has its own publication queued or in
   delivery, there is a drainer, and that drainer's own next steps release the thread.
   */
  lemma NobodyStranded(actions: seq<Action>, t: nat) returns (u: nat, n: nat)
    requires ThreadOf(Exec(Initial(), actions), t).pc == Waiting(false)
    ensures var s := Exec(Initial(), actions);
      && (Queued(s, t) || BeingDelivered(s, t)) && Drains(s, u)
      && n <= 2 * |s.pending| + 1 && ThreadOf(Alone(s, u, n), t).pc == Waiting(true)
  {
    ReachableServed(actions);
    var s := Exec(Initial(), actions);
    if v :| DeliversFor(s, v, t) { assert Drains(s, v); }
    u :| Drains(s, u);
    hide Inv;
    n := WaiterIsReleased(s, t, u);
  }
}
