/**
 The store's observation state updated in place: committing a counter's new value, and the drain loop of a
 publisher that no other one disturbs.
 */
module LiveObservation {
  import Q = ObservationQueue

  /** The published sequences once these transitions have been drained. */
  function PublishedAfter(ts: seq<Q.Transition>, published: map<Q.Kind, nat>): map<Q.Kind, nat>
    decreases |ts|
  {
    if ts == [] then published
    else
      var before := PublishedAfter(ts[..|ts| - 1], published);
      var t := ts[|ts| - 1];
      if Stale(t, before) then before else before[t.kind := t.sequence]
  }

  predicate Stale(t: Q.Transition, published: map<Q.Kind, nat>) {
    t.kind in published && t.sequence <= published[t.kind]
  }

  /** The transitions that the observer is told about, in order. */
  function Told(ts: seq<Q.Transition>, published: map<Q.Kind, nat>): seq<Q.Transition>
    decreases |ts|
  {
    if ts == [] then []
    else
      var t := ts[|ts| - 1];
      Told(ts[..|ts| - 1], published) + if Stale(t, PublishedAfter(ts[..|ts| - 1], published)) then [] else [t]
  }

  /**
   Whatever the order in which transitions were queued, per kind the observer hears only newer ones, and in
   the end has heard, or had heard before, of the newest.
   */
  lemma {:induction false} ToldOnlyNewer(ts: seq<Q.Transition>, published: map<Q.Kind, nat>)
    ensures forall i, j :: 0 <= i < j < |Told(ts, published)| && Told(ts, published)[i].kind == Told(ts, published)[j].kind ==>
              Told(ts, published)[i].sequence < Told(ts, published)[j].sequence
    ensures forall t :: t in Told(ts, published) ==>
              t.kind in PublishedAfter(ts, published) && t.sequence <= PublishedAfter(ts, published)[t.kind]
    ensures forall t :: t in ts ==>
              t.kind in PublishedAfter(ts, published) && t.sequence <= PublishedAfter(ts, published)[t.kind]
    ensures forall k :: k in published ==> k in PublishedAfter(ts, published) && published[k] <= PublishedAfter(ts, published)[k]
    decreases |ts|
  {
    if ts != [] {
      var init := ts[..|ts| - 1];
      ToldOnlyNewer(init, published);
      assert forall t :: t in ts <==> t in init || t == ts[|ts| - 1];
      var told := Told(init, published);
      assert forall i :: 0 <= i < |told| ==> told[i] in told;
    }
  }

  /** What it hears is among what was queued, and the newest of every kind is heard of, unless it was before. */
  lemma {:induction false} NewestIsTold(ts: seq<Q.Transition>, published: map<Q.Kind, nat>)
    ensures forall t :: t in Told(ts, published) ==> t in ts
    ensures forall k :: k in PublishedAfter(ts, published) ==>
              || (k in published && PublishedAfter(ts, published)[k] == published[k])
              || HasHeard(Told(ts, published), k, PublishedAfter(ts, published)[k])
    decreases |ts|
  {
    hide HasHeard;
    if ts != [] {
      var init := ts[..|ts| - 1];
      var last := ts[|ts| - 1];
      var told := Told(init, published);
      NewestIsTold(init, published);
      assert forall t :: t in ts <==> t in init || t == last;
      forall k, n | HasHeard(told, k, n)
        ensures HasHeard(Told(ts, published), k, n)
      {
        StillHeard(told, Told(ts, published), k, n);
      }
      if !Stale(last, PublishedAfter(init, published)) {
        JustHeard(told, last);
      }
    }
  }

  lemma StillHeard(told: seq<Q.Transition>, more: seq<Q.Transition>, kind: Q.Kind, sequence: nat)
    requires HasHeard(told, kind, sequence) && told <= more
    ensures HasHeard(more, kind, sequence)
  {
  }

  lemma JustHeard(told: seq<Q.Transition>, t: Q.Transition)
    ensures HasHeard(told + [t], t.kind, t.sequence)
  {
    assert t in told + [t];
  }

  /** The observer has been told of this sequence. */
  ghost predicate HasHeard(told: seq<Q.Transition>, kind: Q.Kind, sequence: nat) {
    exists t :: t in told && t.kind == kind && t.sequence == sequence
  }

  class ObservationState {
    var activeRooms: nat
    var connectedClients: nat
    var sequence: nat
    var publishedSequence: map<Q.Kind, nat>
    var pending: seq<Q.Transition>
    var draining: bool
    /** The observer's calls. */
    ghost var delivered: seq<Q.Transition>

    constructor ()
      ensures activeRooms == 0 && connectedClients == 0 && sequence == 0 && pending == [] && !draining && delivered == []
    {
      activeRooms, connectedClients, sequence, pending, draining, delivered := 0, 0, 0, [], false, [];
      publishedSequence := map[Q.ActiveRooms := 0, Q.ConnectedClients := 0];
    }

    method Transition(kind: Q.Kind, delta: int) returns (t: Q.Transition)
      modifies `activeRooms, `connectedClients, `sequence
      ensures sequence == old(sequence) + 1 && t.kind == kind && t.sequence == sequence
      ensures kind.ActiveRooms? ==>
                activeRooms == t.value == (if old(activeRooms) + delta < 0 then 0 else old(activeRooms) + delta) && connectedClients == old(connectedClients)
      ensures kind.ConnectedClients? ==>
                connectedClients == t.value == (if old(connectedClients) + delta < 0 then 0 else old(connectedClients) + delta) && activeRooms == old(activeRooms)
    {
      var value := (if kind.ConnectedClients? then connectedClients else activeRooms) + delta;
      if value < 0 {
        value := 0;
      }
      if kind.ConnectedClients? {
        connectedClients := value;
      } else {
        activeRooms := value;
      }
      sequence := sequence + 1;
      t := Q.Transition(kind, value, sequence);
    }

    /** The publisher that finds the queue idle drains it; afterwards it is idle again. */
    method Publish(t: Q.Transition)
      requires !draining
      modifies `pending, `draining, `publishedSequence, `delivered
      ensures !draining && pending == []
      ensures publishedSequence == PublishedAfter(old(pending) + [t], old(publishedSequence))
      ensures delivered == old(delivered) + Told(old(pending) + [t], old(publishedSequence))
    {
      pending := pending + [t];
      draining := true;
      ghost var all := pending;
      ghost var k := 0;
      while pending != []
        invariant 0 <= k <= |all| && pending == all[k..]
        invariant publishedSequence == PublishedAfter(all[..k], old(publishedSequence))
        invariant delivered == old(delivered) + Told(all[..k], old(publishedSequence))
        decreases |pending|
      {
        var head := pending[0];
        assert head == all[k] && all[..k + 1][..k] == all[..k];
        pending := pending[1..];
        var stale := Stale(head, publishedSequence);
        if !stale {
          publishedSequence := publishedSequence[head.kind := head.sequence];
          delivered := delivered + [head];
        }
        k := k + 1;
      }
      assert all[..k] == all;
      draining := false;
    }
  }
}
