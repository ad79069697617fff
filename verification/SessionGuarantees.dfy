/** What a client can rely on: the order of what is written, and the exact ending of a session. */
module SessionGuarantees {
  import opened Wrappers
  import opened SessionProtocol
  import opened SessionSafety

  lemma PrefixIncreases(a: seq<nat>, b: seq<nat>, bound: nat)
    requires IncreasingTo(a + b, bound)
    ensures IncreasingTo(a, bound)
  {
    assert forall i :: 0 <= i < |a| ==> (a + b)[i] == a[i];
  }

  /**
   In every interleaving: the gameplay ticks written so far strictly increase; while the writer lives the
   commands accepted by the control queue, approvals and other messages alike, are those written, in flight and
   queued, in that order, and the pending count counts the approvals not yet accounted for; while any is pending the snapshot slot is empty; and the newest tick is
   the last one of everything written and on its way, unless the session is closing or the newest was an
   approval that found the control queue full.
   */
  lemma SessionOrdering(actions: seq<Action>)
    ensures var s := Exec(INITIAL, actions);
            && IncreasingTo(Ticks(Written(s.output)), s.newest)
            && (s.writer != Exited ==>
                  && s.accepted == FromQueue(Written(s.output)) + FromQueue(InFlight(s.writer)) + s.control
                  && s.reliablePending == |Approvals(s.control)| + InFlightApprovals(s.writer))
            && (s.reliablePending > 0 ==> s.snapshots.None?)
            && (s.newest > 0 && !s.done && !s.lost ==> EndsWith(Pipeline(s), s.newest))
  {
    hide Exec, Do, Ticks, Written, Approvals, FromQueue, EndsWith, IncreasingTo, Queues, Handover;
    ReachableInv(actions);
    var s := Exec(INITIAL, actions);
    var w := Ticks(Written(s.output));
    var rest := Ticks(InFlight(s.writer)) + Ticks(s.control) + Opt(s.snapshots) + Opt(s.deferredLatest)
                + SectionTicks(s.section) + TerminalTicks(s);
    assert Pipeline(s) == w + rest;
    PrefixIncreases(w, rest, s.newest);
  }

  /** What a step adds to the accepted commands: the one that a section sends, exactly if there is room for it. */
  lemma AcceptedGrows(s: State, a: Action)
    ensures Do(s, a).accepted == s.accepted
            + if a == SectionStep && s.section.ControlSend? && |s.control| < CONTROL_CAPACITY then [Other(s.section.id)]
              else if a == SectionStep && s.section.ApprovalSend? && |s.control| < CONTROL_CAPACITY then [Approval(s.section.tick)]
              else []
  {
    assert s.accepted + [] == s.accepted;
  }

  /** No send made under the mutex ever has to wait, and the queues never exceed their capacities. */
  lemma SendsNeverWait(actions: seq<Action>)
    ensures var s := Exec(INITIAL, actions); !SectionBlocked(s) && |s.control| <= CONTROL_CAPACITY
  {
    ReachableInv(actions);
    SectionKeepsStructure(Exec(INITIAL, actions));
  }

  // ---------- The ending ----------

  function Outputs(cs: seq<Command>): (r: seq<Output>)
    ensures |r| == |cs|
  {
    seq(|cs|, i requires 0 <= i < |cs| => Wrote(cs[i]))
  }

  /** The last commands from the `k`-th on: the terminal snapshot, the result, the close. */
  function Ending(t: Terminal, k: nat): seq<Output>
    requires k <= 3
  {
    [Wrote(Latest(t.tick)), Wrote(GameEnd(t.gameEnd)), ClosedNormally][k..]
  }

  /** The terminal command has left its producer. */
  predicate HandedOver(s: State) {
    s.handoff.Some? || InTerminal(s.writer)
  }

  function Rest(s: State, next: Then): seq<Output> {
    match next
    case Loop => Outputs(s.control) + (if s.handoff.Some? then Ending(s.handoff.value, 0) else [])
    case Drain(t) => Outputs(s.control) + Ending(t, 0)
    case Finish(t, k) => if k <= 2 then Ending(t, k + 1) else []
  }

  /** What is still to be written: the command in flight, the queued controls, the last commands. */
  function Remaining(s: State): seq<Output> {
    match s.writer
    case Check(c, next) => [Wrote(c)] + Rest(s, next)
    case Send(c, next) => [Wrote(c)] + Rest(s, next)
    case Completing(next) => Rest(s, next)
    case InCompletion(next) => Rest(s, next)
    case Draining(t) => Rest(s, Drain(t))
    case Last(t, k) => if k <= 3 then Ending(t, k) else []
    case Exited => []
    case _ => Rest(s, Loop)
  }

  /** The session is not closed by anybody but its own writer, and no write fails. */
  predicate Undisturbed(a: Action) {
    a != CloseSession && a != WriteFails
  }

  function WriterRank(w: Writer): nat {
    match w
    case Completing(_) => 12
    case Top => 10
    case TryControl => 9
    case TryTerminal => 8
    case Wait => 7
    case Draining(_) => 6
    case Last(_, _) => 5
    case Check(_, _) => 4
    case Send(_, _) => 3
    case _ => 0
  }

  function Rank(s: State): nat {
    20 * |Remaining(s)| + WriterRank(s.writer)
  }

  /** Either the step changes nothing, or it follows the script: what was written plus what remains stays the same. */
  ghost predicate OnScript(s: State, s': State) {
    && s'.output + Remaining(s') == s.output + Remaining(s)
    && (s' != s ==> Rank(s') < Rank(s))
    && (if s'.done then s'.writer == Exited else HandedOver(s'))
  }

  lemma TakeControlOnScript(s: State, next: Then)
    requires s.control != []
    requires if next == Loop then s.writer == TryControl || s.writer == Wait else next.Drain? && s.writer == Draining(next.t)
    ensures Remaining(TakeControl(s, next)) == Remaining(s)
  {
    var s' := TakeControl(s, next);
    assert Outputs(s.control) == [Wrote(s.control[0])] + Outputs(s'.control);
  }

  lemma StepOnScript(s: State, a: Action)
    requires Inv(s) && HandedOver(s) && !s.done && Undisturbed(a)
    ensures OnScript(s, Do(s, a))
  {
    hide Ordered, Fresh, Accounted, Ticks, Approvals, FromQueue, Written, Pipeline;
    var s' := Do(s, a);
    if s' != s {
      match a {
        case WriterStep => WriterOnScript(s);
        case WriterReceives(source) =>
          if source == FromControl {
            TakeControlOnScript(s, Loop);
          } else {
            assert Remaining(s') == Remaining(s);
          }
        case _ =>
      }
    }
  }

  lemma WriterOnScript(s: State)
    requires Inv(s) && HandedOver(s) && !s.done
    ensures OnScript(s, StepWriter(s))
  {
    hide Ordered, Fresh, Accounted, Ticks, Approvals, FromQueue, Written, Pipeline, Outputs, Ending;
    match s.writer {
      case TryControl =>
        if s.control != [] {
          TakeControlOnScript(s, Loop);
        }
      case Draining(t) => DrainingOnScript(s);
      case Send(c, next) => SendOnScript(s);
      case Last(t, k) => LastOnScript(s);
      case Completing(next) => CompletingOnScript(s);
      case _ =>
    }
  }

  lemma DrainingOnScript(s: State)
    requires Structure(s) && s.writer.Draining? && !s.done
    ensures OnScript(s, StepWriter(s))
  {
    hide Queues, Slots, Handover, Pending;
    if s.control != [] {
      TakeControlOnScript(s, Drain(s.writer.t));
    } else {
      assert Outputs([]) + Ending(s.writer.t, 0) == Ending(s.writer.t, 0);
    }
  }

  lemma CompletingOnScript(s: State)
    requires Structure(s) && HandedOver(s) && s.writer.Completing? && !s.done
    ensures OnScript(s, StepWriter(s))
  {
    hide Outputs, Ending, Approvals, FromQueue;
  }

  lemma SendOnScript(s: State)
    requires Structure(s) && HandedOver(s) && s.writer.Send? && !s.done
    ensures OnScript(s, StepWriter(s))
  {
    hide Outputs, Slots, Pending;
    var c := s.writer.c;
    var s' := StepWriter(s);
    assert Remaining(s') == Rest(s, s.writer.next);
    assert s.output + ([Wrote(c)] + Remaining(s')) == (s.output + [Wrote(c)]) + Remaining(s');
  }

  lemma EndingNext(t: Terminal, k: nat)
    requires k < 3
    ensures Ending(t, k) == [if k == 2 then ClosedNormally else Wrote(LastCommand(t, k))] + Ending(t, k + 1)
  {
  }

  lemma LastOnScript(s: State)
    requires Structure(s) && s.writer.Last? && !s.done
    ensures OnScript(s, StepWriter(s))
  {
    hide Outputs, Slots, Pending, Ending;
    var t := s.writer.t;
    var k := s.writer.k;
    EndingNext(t, k);
    if k == 2 {
      assert Ending(t, 3) == [] by {
        EndingOver(t);
      }
    }
  }

  lemma EndingOver(t: Terminal)
    ensures Ending(t, 3) == []
  {
  }

  /**
   Once the terminal command is handed over, and as long as nothing disturbs the session, whatever all
   threads do what is written is exactly the script: in-flight command, accepted controls, terminal
   snapshot, result, close.
   */
  lemma {:induction false} EndingFollowsScript(s: State, actions: seq<Action>)
    requires Inv(s) && HandedOver(s) && !s.done
    requires forall a :: a in actions ==> Undisturbed(a)
    ensures var s' := Exec(s, actions);
            && Inv(s') && s'.output + Remaining(s') == s.output + Remaining(s)
            && (if s'.done then s'.writer == Exited else HandedOver(s'))
            && (s'.writer == Exited ==> s'.output == s.output + Remaining(s))
  {
    hide Inv, Outputs, Rest;
    if actions != [] {
      var before := actions[..|actions| - 1];
      var a := actions[|actions| - 1];
      assert Undisturbed(a);
      EndingFollowsScript(s, before);
      var m := Exec(s, before);
      DoKeeps(m, a);
      if m.done {
        assert Do(m, a).output == m.output && Do(m, a).writer == Exited && Do(m, a).done by { AfterExit(m, a); }
      } else {
        StepOnScript(m, a);
      }
    }
  }

  lemma AfterExit(s: State, a: Action)
    requires Inv(s) && s.done && s.writer == Exited && Undisturbed(a)
    ensures var s' := Do(s, a); s'.output == s.output && s'.writer == Exited && s'.done
  {
  }

  /**
   At the top of its loop the writer leaves a session that is done; in one that goes on it takes the oldest control command if there is one,
   else the terminal command if there is one, and only then waits for whatever comes first.
   */
  lemma WriterPolls(s: State)
    requires s.writer == Top
    ensures var polled := StepWriter(StepWriter(s));
      if s.done then StepWriter(s) == s.(writer := Exited)
      else if s.control != [] then polled == s.(control := s.control[1..], writer := Check(s.control[0], Loop))
      else if s.handoff.Some? then StepWriter(polled) == s.(handoff := None, writer := Draining(s.handoff.value))
      else StepWriter(polled) == s.(writer := Wait)
  {
  }

  // ---------- What each call comes to ----------

  predicate IsOpen(s: State) {
    s.section == Free && !s.terminal && !s.done
  }

  /** One step of the thread inside the section. */
  function Next(s: State): State {
    Do(s, SectionStep)
  }

  /** An undisturbed snapshot takes the slot, whatever was there, or is deferred behind outstanding approvals. */
  lemma SnapshotCompletes(s: State, tick: nat)
    requires IsOpen(s) && tick > s.newest
    ensures var begun := Do(s, EnqueueSnapshot(tick));
      if s.reliablePending > 0 then begun == s.(deferredLatest := Some(tick), newest := tick, lost := false)
      else
        var stored := s.(snapshots := Some(tick), newest := tick, lost := false);
        if s.snapshots.None? then Next(begun) == stored else Next(Next(Next(begun))) == stored
  {
    if s.reliablePending == 0 {
      var begun := Do(s, EnqueueSnapshot(tick));
      assert begun == s.(section := LatestTry(tick, false), newest := tick, lost := false);
      if s.snapshots.Some? {
        assert Next(begun) == begun.(section := LatestDrain(tick, false));
        assert Next(Next(begun)) == begun.(snapshots := None, section := LatestSend(tick, false));
      }
    }
  }

  /** An undisturbed approval clears slot and deferred snapshot, and is queued if there is room. */
  lemma ApprovalCompletes(s: State, tick: nat)
    requires IsOpen(s) && tick > s.newest
    ensures Next(Next(Do(s, EnqueueApproval(tick))))
         == if |s.control| < CONTROL_CAPACITY
            then s.(snapshots := None, deferredLatest := None, control := s.control + [Approval(tick)], newest := tick,
                    reliablePending := s.reliablePending + 1, accepted := s.accepted + [Approval(tick)], lost := false)
            else s.(snapshots := None, deferredLatest := None, newest := tick, lost := true)
  {
    var begun := Do(s, EnqueueApproval(tick));
    assert begun == s.(section := ApprovalDrain(tick), newest := tick, lost := false);
    assert Next(begun) == begun.(snapshots := None, section := ApprovalSend(tick));
  }

  /** A control message is queued if there is room, and nothing else changes. */
  lemma ControlCompletes(s: State, id: nat)
    requires IsOpen(s)
    ensures Next(Do(s, EnqueueControl(id)))
         == if |s.control| < CONTROL_CAPACITY
            then s.(control := s.control + [Other(id)], accepted := s.accepted + [Other(id)]) else s
  {
    assert Do(s, EnqueueControl(id)) == s.(section := ControlSend(id));
  }

  /** The terminal command clears slot and deferred snapshot and is handed over. */
  lemma TerminalCompletes(s: State, t: Terminal)
    requires IsOpen(s) && s.handoff.None? && t.tick > s.newest
    ensures Next(Next(Do(s, EnqueueTerminal(t))))
         == s.(terminal := true, snapshots := None, deferredLatest := None, handoff := Some(t), newest := t.tick, lost := false)
  {
    var begun := Do(s, EnqueueTerminal(t));
    assert begun == s.(terminal := true, section := TerminalDrain(t), newest := t.tick, lost := false);
    assert Next(begun) == begun.(snapshots := None, deferredLatest := None, section := TerminalSend(t));
  }

  /** A call that finds the session closed or its terminal on the way changes nothing. */
  lemma ClosedRefuses(s: State, a: Action)
    requires s.terminal || s.done
    requires a.EnqueueSnapshot? || a.EnqueueApproval? || a.EnqueueControl? || a.EnqueueTerminal?
    ensures Do(s, a) == s
  {
  }

  /**
   Closing marks the session as done; then a sender that waits for the slot gives up, and the writer leaves before its
   next write, without writing anything.
   */
  lemma CloseEnds(s: State)
    ensures Do(s, CloseSession) == s.(done := true)
    ensures s.done && s.section.LatestSend? ==> Do(s, SectionSeesDone).section == Free && Do(s, SectionSeesDone).snapshots == s.snapshots
    ensures s.done && (s.writer.Check? || s.writer == Top || (s.writer.Last? && s.writer.k >= 2)) ==>
              Do(s, WriterStep) == s.(writer := Exited)
    ensures s.done && s.writer == Wait ==> Do(s, WriterReceives(FromDone)) == s.(writer := Exited)
    ensures s.writer.Send? ==> Do(s, WriteFails) == s.(done := true, writer := Exited)
  {
  }

  /** The writer waits in its select and there is nothing to receive. */
  predicate Idle(s: State) {
    s.writer == Wait && s.control == [] && s.handoff.None? && s.snapshots.None? && !s.done
  }

  /** What the writer can do next, or, while it waits for the mutex or sends itself, the section that is in progress. */
  function NextWriterAction(s: State): Action {
    if s.writer == Wait then
      WriterReceives(if s.control != [] then FromControl
                     else if s.handoff.Some? then FromTerminal
                     else if s.snapshots.Some? then FromSnapshots
                     else FromDone)
    else if s.writer.InCompletion? || (s.writer.Completing? && s.section != Free) then SectionStep
    else WriterStep
  }

  /** Until the session has ended the writer gets on, unless there is nothing for it to do. */
  lemma WriterCanMove(s: State)
    requires Inv(s) && s.writer != Exited
    ensures Do(s, NextWriterAction(s)) != s <==> !Idle(s)
    ensures HandedOver(s) && !s.done ==> !Idle(s) && NextWriterAction(s) != SectionStep
  {
    hide Ordered, Fresh, Accounted, Ticks, Approvals, FromQueue, Written, Pipeline;
    if s.section != Free { SectionMoves(s); }
  }

  lemma StillWriting(s: State)
    requires Inv(s) && !s.done
    ensures s.writer != Exited
  {
  }

  lemma SectionMoves(s: State)
    requires Structure(s) && Accounted(s) && s.section != Free
    ensures StepSection(s) != s
  {
    hide Accounted, Ticks, Approvals, FromQueue, Written;
    SectionKeepsStructure(s);
  }

  lemma {:induction false} ExecSplit(s: State, a: Action, actions: seq<Action>)
    ensures Exec(s, [a] + actions) == Exec(Do(s, a), actions)
  {
    hide Do;
    var all := [a] + actions;
    if actions == [] {
      assert all == [a] && all[..0] == [];
    } else {
      var front := actions[..|actions| - 1];
      ExecSplit(s, a, front);
      assert all[..|all| - 1] == [a] + front && all[|all| - 1] == actions[|actions| - 1];
    }
  }

  /** And the script is completed: the writer alone, in at most Rank(s) steps, writes it all and stops. */
  lemma {:induction false} EndingCompletes(s: State) returns (actions: seq<Action>)
    requires Inv(s) && HandedOver(s) && !s.done
    ensures |actions| <= Rank(s) && forall a :: a in actions ==> a == WriterStep || a.WriterReceives?
    ensures Exec(s, actions).writer == Exited && Exec(s, actions).output == s.output + Remaining(s)
    decreases Rank(s)
  {
    hide Inv, Rank, Remaining;
    var a := NextWriterAction(s);
    StillWriting(s);
    WriterCanMove(s);
    StepOnScript(s, a);
    DoKeeps(s, a);
    var s' := Do(s, a);
    if s'.done {
      actions := [a];
      ExecSplit(s, a, []);
      assert [a] + [] == [a];
      ExitedRemaining(s');
    } else {
      var more := EndingCompletes(s');
      actions := [a] + more;
      ExecSplit(s, a, more);
    }
  }

  lemma ExitedRemaining(s: State)
    requires s.writer == Exited
    ensures Remaining(s) == [] && s.output + Remaining(s) == s.output
  {
  }
}
