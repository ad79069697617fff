/**
 A client session as the object that its producers update in place. Each method is one critical section run
 without another thread in between, and proved to be that section of SessionProtocol from its first channel
 operation to its unlock.
 */
module LiveSession {
  import opened Wrappers
  import P = SessionProtocol

  /** A section takes at most three channel operations. */
  function Uninterrupted(s: P.State): P.State {
    P.StepSection(P.StepSection(P.StepSection(s)))
  }

  /** A skill approval's section, run through. */
  lemma ApprovalRun(s: P.State, tick: nat)
    requires s.section == P.Free && tick > s.newest
    ensures Uninterrupted(P.Begin(s, P.EnqueueApproval(tick))) ==
            if s.terminal || s.done then s
            else
              var cleared := s.(newest := tick, snapshots := None, deferredLatest := None);
              if |s.control| < P.CONTROL_CAPACITY then
                cleared.(lost := false, control := s.control + [P.Approval(tick)], reliablePending := s.reliablePending + 1,
                         accepted := s.accepted + [P.Approval(tick)])
              else cleared.(lost := true)
  {
  }

  /** The writer's section after a skill approval, run through. */
  lemma CompletionRun(s: P.State, next: P.Then)
    requires s.section == P.Free && s.writer == P.Completing(next)
    ensures Uninterrupted(P.Complete(s, next)) ==
            var resumed := s.(writer := P.Resume(next));
            if s.reliablePending == 0 then resumed
            else
              var counted := resumed.(reliablePending := s.reliablePending - 1);
              if s.reliablePending > 1 || s.deferredLatest.None? then counted
              else
                var freed := counted.(deferredLatest := None);
                if s.terminal || s.done then freed else freed.(snapshots := s.deferredLatest)
  {
  }

  class ClientSession {
    /** The one-slot snapshot channel, the control channel, the terminal handoff channel and the done channel. */
    var snapshots: Option<nat>
    var control: seq<P.Command>
    var handoff: Option<P.Terminal>
    var done: bool
    var terminal: bool
    var reliablePending: nat
    var deferredLatest: Option<nat>
    /** The writer goroutine, what it has written, and the producers' history. */
    ghost var writer: P.Writer
    ghost var output: seq<P.Output>
    ghost var newest: nat
    ghost var accepted: seq<P.Command>
    ghost var lost: bool

    /** Nobody is inside a critical section. */
    ghost function View(): P.State
      reads this
    {
      P.State(snapshots, control, handoff, done, terminal, reliablePending, deferredLatest, P.Free, writer, output,
              newest, accepted, lost)
    }

    /** The handoff slot is used once. */
    predicate Valid()
      reads this
    {
      !terminal ==> handoff.None?
    }

    constructor ()
      ensures Valid() && View() == P.INITIAL
    {
      snapshots, control, handoff, done, terminal := None, [], None, false, false;
      reliablePending, deferredLatest := 0, None;
      writer, output, newest, accepted, lost := P.Top, [], 0, [], false;
    }

    method EnqueueSnapshot(tick: nat)
      requires Valid() && tick > newest
      modifies this
      ensures Valid() && View() == Uninterrupted(P.Begin(old(View()), P.EnqueueSnapshot(tick)))
      ensures control == old(control) && handoff == old(handoff) && reliablePending == old(reliablePending)
      ensures if old(terminal) || old(done) then snapshots == old(snapshots) && deferredLatest == old(deferredLatest)
              else if reliablePending > 0 then snapshots == old(snapshots) && deferredLatest == Some(tick)
              else snapshots == Some(tick) && deferredLatest == old(deferredLatest)
      ensures !old(terminal) && !old(done) ==> newest == tick && !lost
    {
      if terminal || done {
        return;
      }
      newest, lost := tick, false;
      if reliablePending > 0 {
        deferredLatest := Some(tick);
        return;
      }
      EnqueueLatestSnapshotLocked(tick);
    }

    /** The newest snapshot takes the slot, whatever was there. */
    method EnqueueLatestSnapshotLocked(tick: nat)
      modifies `snapshots
      ensures snapshots == Some(tick)
    {
      if snapshots.None? {
        snapshots := Some(tick);
      } else {
        snapshots := None;
        snapshots := Some(tick);
      }
    }

    method EnqueueSkillApprovalSnapshot(tick: nat) returns (queued: bool, shouldClose: bool)
      requires Valid() && tick > newest
      modifies this
      ensures Valid() && View() == Uninterrupted(P.Begin(old(View()), P.EnqueueApproval(tick)))
      ensures queued == (!old(terminal) && !old(done) && |old(control)| < P.CONTROL_CAPACITY)
      ensures shouldClose == (!old(terminal) && !old(done) && |old(control)| >= P.CONTROL_CAPACITY)
      ensures control == if queued then old(control) + [P.Approval(tick)] else old(control)
      ensures reliablePending == old(reliablePending) + if queued then 1 else 0
      ensures queued || shouldClose ==> snapshots.None? && deferredLatest.None? && newest == tick && lost == shouldClose
    {
      ApprovalRun(View(), tick);
      hide Uninterrupted, P.Begin, P.StepSection, P.Leave;
      if terminal || done {
        return false, false;
      }
      newest, snapshots, deferredLatest := tick, None, None;
      queued := |control| < P.CONTROL_CAPACITY;
      shouldClose := !queued;
      if queued {
        control := control + [P.Approval(tick)];
        reliablePending := reliablePending + 1;
        accepted := accepted + [P.Approval(tick)];
      }
      lost := !queued;
    }

    method TryEnqueueControl(id: nat) returns (queued: bool, shouldClose: bool)
      requires Valid()
      modifies this
      ensures Valid() && View() == Uninterrupted(P.Begin(old(View()), P.EnqueueControl(id)))
      ensures control == if queued then old(control) + [P.Other(id)] else old(control)
      ensures snapshots == old(snapshots) && deferredLatest == old(deferredLatest) && reliablePending == old(reliablePending)
      ensures queued == (!old(terminal) && !old(done) && |old(control)| < P.CONTROL_CAPACITY)
      ensures shouldClose == (!old(terminal) && !old(done) && |old(control)| >= P.CONTROL_CAPACITY)
    {
      if terminal || done {
        return false, false;
      }
      if |control| < P.CONTROL_CAPACITY {
        control := control + [P.Other(id)];
        accepted := accepted + [P.Other(id)];
        return true, false;
      }
      return false, true;
    }

    method EnqueueTerminal(t: P.Terminal) returns (accepted: bool)
      requires Valid() && t.tick > newest
      modifies this
      ensures Valid() && View() == Uninterrupted(P.Begin(old(View()), P.EnqueueTerminal(t)))
      ensures accepted == (!old(terminal) && !old(done))
      ensures control == old(control) && handoff == if accepted then Some(t) else old(handoff)
      ensures accepted ==> terminal && snapshots.None? && deferredLatest.None? && newest == t.tick && !lost
    {
      if terminal || done {
        return false;
      }
      newest, lost := t.tick, false;
      terminal := true;
      snapshots := None;
      deferredLatest := None;
      handoff := Some(t);
      return true;
    }

    /** The writer has written a skill approval; the last one outstanding releases the deferred snapshot. */
    method CompleteReliableSnapshot(ghost next: P.Then)
      requires Valid() && writer == P.Completing(next)
      modifies this
      ensures Valid() && View() == Uninterrupted(P.Complete(old(View()), next))
      ensures control == old(control) && reliablePending == if old(reliablePending) > 0 then old(reliablePending) - 1 else 0
      ensures snapshots == if old(reliablePending) == 1 && old(deferredLatest).Some? && !terminal && !done
                           then old(deferredLatest) else old(snapshots)
    {
      CompletionRun(View(), next);
      hide Uninterrupted, P.Complete, P.StepSection, P.Leave, P.Resume;
      writer := P.Resume(next);
      if reliablePending == 0 {
        return;
      }
      reliablePending := reliablePending - 1;
      if reliablePending == 0 && deferredLatest.Some? {
        ReleaseDeferred();
      }
    }

    /** The deferred snapshot takes the slot, or is dropped if the session is ending. */
    method ReleaseDeferred()
      requires deferredLatest.Some?
      modifies `deferredLatest, `snapshots
      ensures deferredLatest == None
      ensures snapshots == if terminal || done then old(snapshots) else old(deferredLatest)
    {
      var tick := deferredLatest.value;
      deferredLatest := None;
      if terminal || done {
        return;
      }
      EnqueueLatestSnapshotLocked(tick);
    }
  }
}
