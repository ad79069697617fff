/** What every interleaving of a session keeps: order, accounting, freshness, and sends that never wait. */
module SessionSafety {
  import opened Wrappers
  import opened SessionProtocol

  ghost predicate IncreasingTo(ticks: seq<nat>, bound: nat) {
    && (forall i, j :: 0 <= i < j < |ticks| ==> ticks[i] < ticks[j])
    && forall i :: 0 <= i < |ticks| ==> ticks[i] <= bound
  }

  predicate EndsWith(ticks: seq<nat>, tick: nat) {
    ticks != [] && ticks[|ticks| - 1] == tick
  }

  lemma AppendNewer(ticks: seq<nat>, bound: nat, tick: nat)
    requires IncreasingTo(ticks, bound) && tick > bound
    ensures IncreasingTo(ticks + [tick], tick) && EndsWith(ticks + [tick], tick)
  {
  }

  /** Dropping a middle part keeps the order, and keeps the end if the end is not dropped. */
  lemma DropMiddle(a: seq<nat>, b: seq<nat>, c: seq<nat>, bound: nat)
    requires IncreasingTo(a + b + c, bound)
    ensures IncreasingTo(a + c, bound)
    ensures c != [] && EndsWith(a + b + c, bound) ==> EndsWith(a + c, bound)
  {
    var all := a + b + c;
    var kept := a + c;
    assert forall i :: 0 <= i < |kept| ==> kept[i] == all[if i < |a| then i else i + |b|];
  }

  // ---------- Moving and dropping parts of the pipeline ----------

  lemma DropInFlight(w: seq<nat>, i: seq<nat>, c: seq<nat>, s: seq<nat>, d: seq<nat>, x: seq<nat>, t: seq<nat>, n: nat)
    requires IncreasingTo(Join(w, i, c, s, d, x, t), n)
    ensures IncreasingTo(Join(w, [], c, s, d, x, t), n)
  {
    assert Join(w, i, c, s, d, x, t) == w + i + (c + s + d + x + t);
    assert Join(w, [], c, s, d, x, t) == w + (c + s + d + x + t);
    DropMiddle(w, i, c + s + d + x + t, n);
  }

  lemma DropSlots(w: seq<nat>, i: seq<nat>, c: seq<nat>, s: seq<nat>, d: seq<nat>, x: seq<nat>, t: seq<nat>, n: nat)
    requires IncreasingTo(Join(w, i, c, s, d, x, t), n)
    ensures IncreasingTo(Join(w, i, c, [], d, x, t), n) && IncreasingTo(Join(w, i, c, [], [], x, t), n)
    ensures IncreasingTo(Join(w, i, c, s, [], x, t), n)
    ensures EndsWith(Join(w, i, c, s, d, x, t), n) && x != [] ==>
              EndsWith(Join(w, i, c, [], d, x, t), n) && EndsWith(Join(w, i, c, [], [], x, t), n)
  {
    assert Join(w, i, c, s, d, x, t) == (w + i + c) + s + (d + x + t);
    assert Join(w, i, c, [], d, x, t) == (w + i + c) + (d + x + t);
    DropMiddle(w + i + c, s, d + x + t, n);
    assert Join(w, i, c, s, d, x, t) == (w + i + c) + (s + d) + (x + t);
    assert Join(w, i, c, [], [], x, t) == (w + i + c) + (x + t);
    DropMiddle(w + i + c, s + d, x + t, n);
    assert Join(w, i, c, s, d, x, t) == (w + i + c + s) + d + (x + t);
    assert Join(w, i, c, s, [], x, t) == (w + i + c + s) + (x + t);
    DropMiddle(w + i + c + s, d, x + t, n);
  }

  lemma DropEnd(w: seq<nat>, i: seq<nat>, c: seq<nat>, s: seq<nat>, d: seq<nat>, x: seq<nat>, t: seq<nat>, n: nat)
    requires IncreasingTo(Join(w, i, c, s, d, x, t), n)
    ensures IncreasingTo(Join(w, i, c, s, d, [], t), n) && IncreasingTo(Join(w, i, c, s, d, x, []), n)
  {
    var h := w + i + c + s + d;
    assert Join(w, i, c, s, d, x, t) == h + x + t;
    assert Join(w, i, c, s, d, [], t) == h + t;
    DropMiddle(h, x, t, n);
    assert Join(w, i, c, s, d, x, t) == (h + x) + t + [];
    assert Join(w, i, c, s, d, x, []) == (h + x) + [];
    DropMiddle(h + x, t, [], n);
  }

  lemma Moves(w: seq<nat>, i: seq<nat>, c: seq<nat>, s: seq<nat>, d: seq<nat>, x: seq<nat>, t: seq<nat>)
    ensures Join(w, i, c, [], [], x, t) == Join(w, i, c, x, [], [], t)
    ensures Join(w, i, c, [], [], x, t) == Join(w, i, c + x, [], [], [], t)
    ensures Join(w, [], i + c, s, d, x, t) == Join(w, i, c, s, d, x, t)
    ensures Join(w, i, c, s, d, x, t) == Join(w + i, [], c, s, d, x, t)
    ensures Join(w, [], [], s, d, x, t) == Join(w, s, [], [], d, x, t)
    ensures Join(w, i, c, s, d, [], t) == Join(w, i, c, s, [], d, t)
    ensures Join(w, i, c, s, d, x, []) == Join(w, i, c, s, d, [], x)
    ensures Join(w, [], [], [], [], [], t) == Join(w, t, [], [], [], [], [])
    ensures Join(w, i, c, s, d, x, []) == Join(w, i, c, s, d, [], []) + x
    ensures Join(w, i, c, s, d, [], []) == Join(w, i, c, s, [], [], []) + d
  {
  }

  predicate InTerminal(w: Writer) {
    match w
    case Check(_, next) => next != Loop
    case Send(_, next) => next != Loop
    case Completing(next) => next != Loop
    case InCompletion(next) => next != Loop
    case Draining(_) => true
    case Last(_, _) => true
    case _ => false
  }

  predicate Finishing(w: Writer) {
    w.Last? || ((w.Check? || w.Send?) && w.next.Finish?)
  }

  predicate LatestSection(section: Section) {
    section.LatestTry? || section.LatestDrain? || section.LatestSend?
  }

  predicate TerminalSection(section: Section) {
    section.TerminalDrain? || section.TerminalSend?
  }

  /** Approvals the writer has taken but not yet accounted for. */
  function InFlightApprovals(w: Writer): nat {
    if (w.Check? || w.Send?) && w.c.Approval? then 1 else if w.Completing? then 1 else 0
  }

  ghost predicate WriterShape(w: Writer) {
    match w
    case Check(c, next) => if next.Finish? then next.k < 2 && c == LastCommand(next.t, next.k) else !c.GameEnd?
    case Send(c, next) => if next.Finish? then next.k < 2 && c == LastCommand(next.t, next.k) else !c.GameEnd?
    case Completing(next) => !next.Finish?
    case InCompletion(next) => !next.Finish?
    case Last(_, k) => k <= 2
    case _ => true
  }

  ghost predicate Queues(s: State) {
    && |s.control| <= CONTROL_CAPACITY
    && (forall c :: c in s.control ==> c.Approval? || c.Other?)
    && WriterShape(s.writer)
    && (s.writer == Exited ==> s.done)
  }

  /** The snapshot slot and the approvals exclude each other. */
  ghost predicate Slots(s: State) {
    && (LatestSection(s.section) ==> s.reliablePending == 0)
    && (s.section.LatestSend? || s.section.ApprovalSend? || s.section.TerminalSend? ==> s.snapshots.None?)
    && (s.reliablePending > 0 ==> s.snapshots.None?)
    && (s.deferredLatest.Some? ==> s.reliablePending > 0)
    && (s.writer.InCompletion? <==> LatestSection(s.section) && s.section.byWriter)
  }

  /** The terminal command is in the section, in the handoff or with the writer, and nothing follows it. */
  ghost predicate Handover(s: State) {
    && (s.terminal ==> s.section == Free || TerminalSection(s.section))
    && (TerminalSection(s.section) ==> s.terminal && s.handoff.None? && !InTerminal(s.writer))
    && (s.section.TerminalSend? ==> s.deferredLatest.None?)
    && (s.handoff.Some? || InTerminal(s.writer) ==>
          s.terminal && s.section == Free && s.snapshots.None? && s.deferredLatest.None?)
    && !(s.handoff.Some? && InTerminal(s.writer))
    && (Finishing(s.writer) ==> s.control == [])
    && (s.terminal && s.section == Free && s.writer != Exited ==> s.handoff.Some? || InTerminal(s.writer))
  }

  ghost predicate Pending(s: State) {
    s.writer != Exited ==> s.reliablePending == |Approvals(s.control)| + InFlightApprovals(s.writer)
  }

  ghost predicate Structure(s: State) {
    Queues(s) && Slots(s) && Handover(s) && Pending(s)
  }

  /** No accepted command is lost or reordered while the writer lives. */
  ghost predicate Accounted(s: State) {
    s.writer != Exited ==>
      s.accepted == FromQueue(Written(s.output)) + FromQueue(InFlight(s.writer)) + s.control
  }

  ghost predicate Ordered(s: State) {
    IncreasingTo(Pipeline(s), s.newest)
  }

  /** The newest gameplay tick handed to the session is still on its way, or written. */
  ghost predicate Fresh(s: State) {
    s.newest > 0 && !s.done && !s.lost ==> EndsWith(Pipeline(s), s.newest)
  }

  ghost predicate Inv(s: State) {
    && Structure(s) && Accounted(s) && Ordered(s) && Fresh(s)
  }

  // ---------- Lists of commands ----------

  lemma TicksAppend(cs: seq<Command>, c: Command)
    ensures Ticks(cs + [c]) == Ticks(cs) + (if c.Latest? || c.Approval? then [c.tick] else [])
    ensures Approvals(cs + [c]) == Approvals(cs) + (if c.Approval? then [c.tick] else [])
    ensures FromQueue(cs + [c]) == FromQueue(cs) + (if c.Approval? || c.Other? then [c] else [])
  {
    assert (cs + [c])[..|cs|] == cs;
  }

  lemma {:induction false} TicksSplit(c: Command, cs: seq<Command>)
    ensures Ticks([c] + cs) == Ticks([c]) + Ticks(cs)
    ensures Approvals([c] + cs) == Approvals([c]) + Approvals(cs)
  {
    TicksAppend([], c);
    if cs == [] {
      assert [c] + cs == [c];
    } else {
      var front := cs[..|cs| - 1];
      TicksSplit(c, front);
      TicksAppend([c] + front, cs[|cs| - 1]);
      assert [c] + cs == ([c] + front) + [cs[|cs| - 1]];
    }
  }

  lemma TicksOne(c: Command)
    ensures Ticks([c]) == if c.Latest? || c.Approval? then [c.tick] else []
    ensures Approvals([c]) == if c.Approval? then [c.tick] else []
    ensures FromQueue([c]) == if c.Approval? || c.Other? then [c] else []
  {
    TicksAppend([], c);
    assert [] + [c] == [c];
  }

  lemma {:induction false} ControlTicks(cs: seq<Command>)
    requires forall c :: c in cs ==> c.Approval? || c.Other?
    ensures Ticks(cs) == Approvals(cs)
  {
    if cs != [] {
      ControlTicks(cs[..|cs| - 1]);
    }
  }

  lemma WrittenAppend(output: seq<Output>, o: Output)
    ensures Written(output + [o]) == Written(output) + (if o.Wrote? then [o.c] else [])
  {
    assert (output + [o])[..|output|] == output;
  }

  // ---------- Each step keeps the invariant ----------

  lemma InitialInv()
    ensures Inv(INITIAL)
  {
  }

  // Each kind of step is taken twice: once for the structure, once for the pipeline.

  lemma BeginKeepsStructure(s: State, a: Action)
    requires Structure(s) && Accounted(s)
    requires a.EnqueueSnapshot? || a.EnqueueApproval? || a.EnqueueControl? || a.EnqueueTerminal?
    ensures Structure(Begin(s, a)) && Accounted(Begin(s, a))
  {
    hide Ticks, Approvals, FromQueue, Written, InFlight;
  }

  lemma SectionKeepsStructure(s: State)
    requires Structure(s) && Accounted(s)
    ensures Structure(StepSection(s)) && Accounted(StepSection(s)) && !SectionBlocked(s)
  {
    hide Ticks, Written, Approvals, FromQueue;
    if LatestSection(s.section) {
      LatestKeepsStructure(s);
    } else if s.section.ApprovalSend? {
      ApprovalKeepsStructure(s);
    } else if s.section.ControlSend? {
      ControlKeepsStructure(s);
    }
  }

  lemma LatestKeepsStructure(s: State)
    requires Structure(s) && Accounted(s) && LatestSection(s.section)
    ensures Structure(StepSection(s)) && Accounted(StepSection(s)) && !SectionBlocked(s)
  {
    hide Ticks, Written, Approvals, FromQueue;
  }

  lemma ApprovalKeepsStructure(s: State)
    requires Structure(s) && Accounted(s) && s.section.ApprovalSend?
    ensures Structure(StepSection(s)) && Accounted(StepSection(s)) && !SectionBlocked(s)
  {
    hide Ticks, Written, Approvals, FromQueue, InFlight;
    TicksAppend(s.control, Approval(s.section.tick));
    QueuesAppend(s.control, Approval(s.section.tick));
    hide WriterShape, InFlightApprovals;
  }

  lemma ControlKeepsStructure(s: State)
    requires Structure(s) && Accounted(s) && s.section.ControlSend?
    ensures Structure(StepSection(s)) && Accounted(StepSection(s)) && !SectionBlocked(s)
  {
    hide Ticks, Written, Approvals, FromQueue, InFlight;
    TicksAppend(s.control, Other(s.section.id));
    QueuesAppend(s.control, Other(s.section.id));
    hide WriterShape, InFlightApprovals;
  }

  lemma QueuesAppend(control: seq<Command>, c: Command)
    requires forall d :: d in control ==> d.Approval? || d.Other?
    requires c.Approval? || c.Other?
    ensures forall d :: d in control + [c] ==> d.Approval? || d.Other?
  {
  }

  lemma WriterKeepsStructure(s: State)
    requires Structure(s) && Accounted(s)
    ensures Structure(StepWriter(s)) && Accounted(StepWriter(s))
  {
    hide Ticks, Approvals, FromQueue, Written;
    match s.writer {
      case TryControl =>
        if s.control != [] {
          TakeControlKeepsStructure(s, Loop);
        }
      case Draining(t) =>
        if s.control != [] {
          TakeControlKeepsStructure(s, Drain(t));
        }
      case Send(c, next) => SendKeepsStructure(s);
      case Last(t, k) => LastKeepsStructure(s);
      case Completing(next) => CompleteKeepsStructure(s);
      case _ =>
    }
  }

  lemma CompleteKeepsStructure(s: State)
    requires Structure(s) && Accounted(s) && s.writer.Completing?
    ensures Structure(StepWriter(s)) && Accounted(StepWriter(s))
  {
    hide Ticks, Approvals, FromQueue, Written;
  }

  lemma SendKeepsStructure(s: State)
    requires Structure(s) && Accounted(s) && s.writer.Send?
    ensures Structure(StepWriter(s)) && Accounted(StepWriter(s))
  {
    hide Ticks, Approvals, FromQueue, Written;
    var c := s.writer.c;
    WrittenAppend(s.output, Wrote(c));
    TicksAppend(Written(s.output), c);
    TicksOne(c);
    TicksNone();
  }

  lemma LastKeepsStructure(s: State)
    requires Structure(s) && Accounted(s) && s.writer.Last?
    ensures Structure(StepWriter(s)) && Accounted(StepWriter(s))
  {
    hide Ticks, Approvals, FromQueue, Written;
    WrittenAppend(s.output, ClosedNormally);
    TicksNone();
    if s.writer.k < 2 {
      TicksOne(LastCommand(s.writer.t, s.writer.k));
    }
  }

  lemma TicksNone()
    ensures Ticks([]) == [] && Approvals([]) == [] && FromQueue([]) == []
  {
  }

  /** The writer stands where it takes the next control command. */
  predicate Takes(s: State, next: Then) {
    && s.control != []
    && if next == Loop then s.writer == TryControl || s.writer == Wait else next.Drain? && s.writer == Draining(next.t)
  }

  lemma TakeControlKeepsStructure(s: State, next: Then)
    requires Structure(s) && Accounted(s) && Takes(s, next)
    ensures Structure(TakeControl(s, next)) && Accounted(TakeControl(s, next))
  {
    hide Ticks, Approvals, FromQueue, Written, Queues, Slots, Handover, Pending, TakeControl;
    TakeControlQueues(s, next);
    TakeControlCounts(s, next);
  }

  lemma TakeControlQueues(s: State, next: Then)
    requires Queues(s) && Slots(s) && Handover(s) && Takes(s, next)
    ensures var s' := TakeControl(s, next); Queues(s') && Slots(s') && Handover(s')
  {
    hide Ticks, Approvals, FromQueue, Written;
    assert s.control[0] in s.control;
    assert forall d :: d in s.control[1..] ==> d in s.control;
  }

  lemma TakeControlCounts(s: State, next: Then)
    requires Queues(s) && Pending(s) && Accounted(s) && Takes(s, next)
    ensures Pending(TakeControl(s, next)) && Accounted(TakeControl(s, next))
  {
    hide Queues, Pending, Accounted, TakeControl;
    TakeControlPending(s, next);
    TakeControlAccounted(s, next);
  }

  lemma TakeControlPending(s: State, next: Then)
    requires Pending(s) && Takes(s, next)
    ensures Pending(TakeControl(s, next))
  {
    hide Approvals;
    assert s.control == [s.control[0]] + s.control[1..];
    TicksSplit(s.control[0], s.control[1..]);
    TicksOne(s.control[0]);
  }

  lemma TakeControlAccounted(s: State, next: Then)
    requires Queues(s) && Accounted(s) && Takes(s, next)
    ensures Accounted(TakeControl(s, next))
  {
    hide FromQueue, Written, Queues, TakeControl;
    TakeControlMoves(s, next);
    HeadMoves(FromQueue(Written(s.output)), s.control);
    TicksNone();
  }

  lemma TakeControlMoves(s: State, next: Then)
    requires Queues(s) && Takes(s, next)
    ensures var s' := TakeControl(s, next);
            && s'.accepted == s.accepted && s'.output == s.output && s'.control == s.control[1..]
            && FromQueue(InFlight(s'.writer)) == [s.control[0]]
  {
    hide FromQueue, Written, WriterShape;
    assert s.control[0] in s.control;
    TicksOne(s.control[0]);
  }

  lemma HeadMoves(written: seq<Command>, control: seq<Command>)
    requires control != []
    ensures written + [] + control == written + [control[0]] + control[1..]
  {
  }

  lemma ReceiveKeepsStructure(s: State, source: Source)
    requires Structure(s) && Accounted(s)
    ensures Structure(Receive(s, source)) && Accounted(Receive(s, source))
  {
    hide Ticks, Written, Approvals, FromQueue;
    TicksNone();
    match source {
      case FromControl =>
        if s.writer == Wait && s.control != [] {
          TakeControlKeepsStructure(s, Loop);
        }
      case FromSnapshots =>
        if s.snapshots.Some? {
          TicksOne(Latest(s.snapshots.value));
        }
      case _ =>
    }
  }

  // ---------- The pipeline ----------

  ghost predicate Flow(s: State) {
    Ordered(s) && Fresh(s)
  }

  lemma MovesOf(s: State)
    ensures var w, i, c := Ticks(Written(s.output)), Ticks(InFlight(s.writer)), Ticks(s.control);
            var l, d, x, t := Opt(s.snapshots), Opt(s.deferredLatest), SectionTicks(s.section), TerminalTicks(s);
            && Join(w, i, c, [], [], x, t) == Join(w, i, c, x, [], [], t)
            && Join(w, i, c, [], [], x, t) == Join(w, i, c + x, [], [], [], t)
            && Join(w, i, c, l, d, x, t) == Join(w + i, [], c, l, d, x, t)
            && Join(w, [], [], l, d, x, t) == Join(w, l, [], [], d, x, t)
            && Join(w, i, c, l, d, [], t) == Join(w, i, c, l, [], d, t)
            && Join(w, i, c, l, d, x, []) == Join(w, i, c, l, d, [], x)
            && Join(w, [], [], [], [], [], t) == Join(w, t, [], [], [], [], [])
            && Join(w, i, c, l, d, x, []) == Join(w, i, c, l, d, [], []) + x
            && Join(w, i, c, l, d, [], []) == Join(w, i, c, l, [], [], []) + d
  {
    Moves(Ticks(Written(s.output)), Ticks(InFlight(s.writer)), Ticks(s.control),
          Opt(s.snapshots), Opt(s.deferredLatest), SectionTicks(s.section), TerminalTicks(s));
  }

  lemma BeginKeepsFlow(s: State, a: Action)
    requires Structure(s) && Flow(s)
    requires a.EnqueueSnapshot? || a.EnqueueApproval? || a.EnqueueControl? || a.EnqueueTerminal?
    ensures Flow(Begin(s, a))
  {
    hide Ticks, Approvals, FromQueue, Written, InFlight, Join, IncreasingTo, EndsWith;
    var s' := Begin(s, a);
    if s' != s {
      MovesOf(s);
      MovesOf(s');
      var base := s.(deferredLatest := s'.deferredLatest);
      if a.EnqueueControl? {
        assert Pipeline(s') == Pipeline(s);
      } else if s'.section == Free {
        DropSlotsOf(s);
        AppendNewer(Pipeline(s.(deferredLatest := None)), s.newest, s'.newest);
      } else {
        AppendNewer(Pipeline(s), s.newest, s'.newest);
      }
    }
  }

  lemma DropSlotsOf(s: State)
    requires Ordered(s)
    ensures Ordered(s.(snapshots := None)) && Ordered(s.(deferredLatest := None))
    ensures Ordered(s.(snapshots := None, deferredLatest := None))
    ensures EndsWith(Pipeline(s), s.newest) && SectionTicks(s.section) != [] ==>
              EndsWith(Pipeline(s.(snapshots := None)), s.newest)
              && EndsWith(Pipeline(s.(snapshots := None, deferredLatest := None)), s.newest)
  {
    hide Ticks, Written, InFlight, Join, IncreasingTo, EndsWith, SectionTicks;
    DropSlots(Ticks(Written(s.output)), Ticks(InFlight(s.writer)), Ticks(s.control),
              Opt(s.snapshots), Opt(s.deferredLatest), SectionTicks(s.section), TerminalTicks(s), s.newest);
  }

  lemma SectionKeepsFlow(s: State)
    requires Structure(s) && Flow(s)
    ensures Flow(StepSection(s))
  {
    hide Structure, Flow, StepSection;
    match s.section {
      case Free => assert StepSection(s) == s by { FreeStays(s); }
      case LatestTry(_, _) => LatestKeepsFlow(s);
      case LatestDrain(_, _) => DrainKeepsFlow(s);
      case LatestSend(_, _) => LatestKeepsFlow(s);
      case ApprovalDrain(_) => DrainKeepsFlow(s);
      case ApprovalSend(_) => ApprovalKeepsFlow(s);
      case ControlSend(_) => ControlKeepsFlow(s);
      case TerminalDrain(_) => DrainKeepsFlow(s);
      case TerminalSend(_) => TerminalKeepsFlow(s);
    }
  }

  lemma FreeStays(s: State)
    requires s.section == Free
    ensures StepSection(s) == s
  {
  }

  /** The snapshot goes from the section into the slot. */
  lemma LatestKeepsFlow(s: State)
    requires Structure(s) && Flow(s) && (s.section.LatestTry? || s.section.LatestSend?)
    ensures Flow(StepSection(s))
  {
    hide Ticks, Approvals, FromQueue, Written, Join, IncreasingTo, EndsWith;
    MovesOf(s);
  }

  /** Emptying the slot drops nothing newer than what the section carries. */
  lemma DrainKeepsFlow(s: State)
    requires Structure(s) && Flow(s) && (s.section.LatestDrain? || s.section.ApprovalDrain? || s.section.TerminalDrain?)
    ensures Flow(StepSection(s))
  {
    hide Ticks, Approvals, FromQueue, Written, InFlight, Join, IncreasingTo, EndsWith;
    DropSlotsOf(s);
  }

  lemma ControlKeepsFlow(s: State)
    requires Structure(s) && Flow(s) && s.section.ControlSend?
    ensures Flow(StepSection(s))
  {
    hide Ticks, Approvals, FromQueue, Written, InFlight, Join, IncreasingTo, EndsWith;
    TicksAppend(s.control, Other(s.section.id));
    assert Ticks(s.control) + [] == Ticks(s.control);
  }

  lemma TerminalKeepsFlow(s: State)
    requires Structure(s) && Flow(s) && s.section.TerminalSend?
    ensures Flow(StepSection(s))
  {
    hide Ticks, Approvals, FromQueue, Written, Join, IncreasingTo, EndsWith;
    MovesOf(s);
  }

  lemma ApprovalKeepsFlow(s: State)
    requires Structure(s) && Flow(s) && s.section.ApprovalSend?
    ensures Flow(StepSection(s))
  {
    hide Ticks, Approvals, FromQueue, Written, InFlight, Join, IncreasingTo, EndsWith;
    var cleared := s.(deferredLatest := None);
    DropSlotsOf(s);
    MovesOf(cleared);
    TicksAppend(s.control, Approval(s.section.tick));
    if |s.control| >= CONTROL_CAPACITY {
      DropEnd(Ticks(Written(s.output)), Ticks(InFlight(s.writer)), Ticks(s.control), [], [], SectionTicks(s.section), TerminalTicks(s), s.newest);
    }
  }

  lemma WriterKeepsFlow(s: State)
    requires Structure(s) && Flow(s)
    ensures Flow(StepWriter(s))
  {
    match s.writer {
      case TryControl => PollKeepsFlow(s);
      case Draining(t) => PollKeepsFlow(s);
      case TryTerminal => PollKeepsFlow(s);
      case Send(c, next) => SendKeepsFlow(s);
      case Last(t, k) => LastKeepsFlow(s);
      case Completing(next) => CompleteKeepsFlow(s);
      case _ => CheckKeepsFlow(s);
    }
  }

  /** Looking for a command: the next control, the terminal, or nothing. */
  lemma PollKeepsFlow(s: State)
    requires Structure(s) && Flow(s) && (s.writer == TryControl || s.writer == TryTerminal || s.writer.Draining?)
    ensures Flow(StepWriter(s))
  {
    hide Ticks, Approvals, FromQueue, Written, Join, IncreasingTo, EndsWith;
    TicksNone();
    if s.writer != TryTerminal && s.control != [] {
      TakeControlKeepsFlow(s, if s.writer == TryControl then Loop else Drain(s.writer.t));
    }
  }

  lemma CheckKeepsFlow(s: State)
    requires Structure(s) && Flow(s)
    requires s.writer == Top || s.writer == Wait || s.writer == Exited || s.writer.Check? || s.writer.InCompletion?
    ensures Flow(StepWriter(s))
  {
    hide Ticks, Approvals, FromQueue, Written, Join, IncreasingTo, EndsWith;
    TicksNone();
    if s.writer.Check? && s.done {
      ExitKeepsFlow(s, s.(writer := Exited));
    }
  }

  lemma SendKeepsFlow(s: State)
    requires Structure(s) && Flow(s) && s.writer.Send?
    ensures Flow(StepWriter(s))
  {
    hide Ticks, Approvals, FromQueue, Written, Join, IncreasingTo, EndsWith;
    TicksNone();
    MovesOf(s);
    WrittenAppend(s.output, Wrote(s.writer.c));
    TicksAppend(Written(s.output), s.writer.c);
    TicksOne(s.writer.c);
  }

  lemma LastKeepsFlow(s: State)
    requires Structure(s) && Flow(s) && s.writer.Last?
    ensures Flow(StepWriter(s))
  {
    hide Ticks, Approvals, FromQueue, Written, Join, IncreasingTo, EndsWith;
    TicksNone();
    MovesOf(s);
    WrittenAppend(s.output, ClosedNormally);
    assert Written(s.output) + [] == Written(s.output);
    if s.writer.k < 2 {
      TicksOne(LastCommand(s.writer.t, s.writer.k));
    }
  }

  lemma CompleteKeepsFlow(s: State)
    requires Structure(s) && Flow(s) && s.writer.Completing?
    ensures Flow(StepWriter(s))
  {
    hide Ticks, Approvals, FromQueue, Written, Join, IncreasingTo, EndsWith;
    TicksNone();
    MovesOf(s);
    DropSlotsOf(s);
    assert TerminalTicks(StepWriter(s)) == TerminalTicks(s);
  }

  lemma TakeControlKeepsFlow(s: State, next: Then)
    requires Structure(s) && Flow(s) && s.control != []
    requires if next == Loop then s.writer == TryControl || s.writer == Wait else next.Drain? && s.writer == Draining(next.t)
    ensures Flow(TakeControl(s, next))
  {
    hide Ticks, Approvals, FromQueue, Written, Join, IncreasingTo, EndsWith;
    var c := s.control[0];
    var rest := s.control[1..];
    assert s.control == [c] + rest;
    TicksSplit(c, rest);
    TicksNone();
    Moves(Ticks(Written(s.output)), Ticks([c]), Ticks(rest),
          Opt(s.snapshots), Opt(s.deferredLatest), SectionTicks(s.section), TerminalTicks(s));
  }

  lemma ExitKeepsFlow(s: State, s': State)
    requires Flow(s) && s'.done && s' == s.(writer := Exited, done := s'.done)
    ensures Flow(s')
  {
    hide Ticks, Approvals, FromQueue, Written, Join, IncreasingTo, EndsWith;
    TicksNone();
    var w, i, c := Ticks(Written(s.output)), Ticks(InFlight(s.writer)), Ticks(s.control);
    var l, d, x, t := Opt(s.snapshots), Opt(s.deferredLatest), SectionTicks(s.section), TerminalTicks(s);
    DropInFlight(w, i, c, l, d, x, t, s.newest);
    if s.handoff.None? {
      DropEnd(w, [], c, l, d, x, t, s.newest);
    }
  }

  lemma ReceiveKeepsFlow(s: State, source: Source)
    requires Structure(s) && Flow(s)
    ensures Flow(Receive(s, source))
  {
    hide Ticks, Approvals, FromQueue, Written, Join, IncreasingTo, EndsWith;
    TicksNone();
    MovesOf(s);
    var s' := Receive(s, source);
    if s' != s {
      match source {
        case FromControl => TakeControlKeepsFlow(s, Loop);
        case FromTerminal =>
        case FromSnapshots =>
          TicksOne(Latest(s.snapshots.value));
          ControlTicks(s.control);
        case FromDone => ExitKeepsFlow(s, s');
      }
    }
  }

  lemma DoKeeps(s: State, a: Action)
    requires Inv(s)
    ensures Inv(Do(s, a))
  {
    hide Pipeline, Ticks, Approvals, FromQueue, Written;
    match a {
      case SectionStep =>
        SectionKeepsStructure(s);
        SectionKeepsFlow(s);
      case SectionSeesDone => SeesDoneKeeps(s);
      case CloseSession => CloseKeeps(s);
      case WriterStep =>
        WriterKeepsStructure(s);
        WriterKeepsFlow(s);
      case WriterReceives(source) =>
        ReceiveKeepsStructure(s, source);
        ReceiveKeepsFlow(s, source);
      case WriteFails =>
        if s.writer.Send? {
          ExitKeepsFlow(s, Do(s, a));
        }
      case _ =>
        BeginKeepsStructure(s, a);
        BeginKeepsFlow(s, a);
    }
  }

  lemma CloseKeeps(s: State)
    requires Inv(s)
    ensures Inv(s.(done := true))
  {
    assert Pipeline(s.(done := true)) == Pipeline(s);
    hide Pipeline, Ticks, Approvals, FromQueue, Written;
  }

  lemma SeesDoneKeeps(s: State)
    requires Inv(s)
    ensures Inv(Do(s, SectionSeesDone))
  {
    hide Ticks, Approvals, FromQueue, Written, Join, IncreasingTo, EndsWith;
    if s.section.LatestSend? && s.done {
      DropEnd(Ticks(Written(s.output)), Ticks(InFlight(s.writer)), Ticks(s.control),
              Opt(s.snapshots), Opt(s.deferredLatest), SectionTicks(s.section), TerminalTicks(s), s.newest);
    }
  }

  /** Every reachable state of every interleaving. */
  lemma {:induction false} ReachableInv(actions: seq<Action>)
    ensures Inv(Exec(INITIAL, actions))
  {
    if actions == [] {
      InitialInv();
    } else {
      hide Inv;
      ReachableInv(actions[..|actions| - 1]);
      DoKeeps(Exec(INITIAL, actions[..|actions| - 1]), actions[|actions| - 1]);
    }
  }
}
