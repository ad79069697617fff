/**
 A client session as atomic steps: producers that hold enqueueMu, the one writer goroutine, and anybody
 closing the session. Critical sections are cut at every channel operation, so the writer may receive
 between any two of them.
 */
module SessionProtocol {
  import opened Wrappers

  /** What the queues carry; gameplay snapshots are known by their tick, everything else by an id. */
  datatype Command =
    | Latest(tick: nat)
    | Approval(tick: nat)
    | Other(id: nat)
    | GameEnd(id: nat)

  datatype Terminal = Terminal(tick: nat, gameEnd: nat)

  datatype Output = Wrote(c: Command) | ClosedNormally

  /** The critical section that holds enqueueMu and the channel operation it performs next. */
  datatype Section =
    | Free
    | LatestTry(tick: nat, byWriter: bool)
    | LatestDrain(tick: nat, byWriter: bool)
    | LatestSend(tick: nat, byWriter: bool)
    | ApprovalDrain(tick: nat)
    | ApprovalSend(tick: nat)
    | ControlSend(id: nat)
    | TerminalDrain(t: Terminal)
    | TerminalSend(t: Terminal)

  /** Where the writer goes after a command: back to its loop, on draining, or on to the last commands. */
  datatype Then = Loop | Drain(t: Terminal) | Finish(t: Terminal, k: nat)

  datatype Writer =
    | Top
    | TryControl
    | TryTerminal
    | Wait
    | Check(c: Command, next: Then)
    | Send(c: Command, next: Then)
    | Completing(next: Then)
    | InCompletion(next: Then)
    | Draining(t: Terminal)
    | Last(t: Terminal, k: nat)
    | Exited

  const CONTROL_CAPACITY: nat := 8

  /**
   `newest`, `accepted` and `lost` are history: no step reads them but to order the producers. `accepted` is
   every command that a producer has been told is in the control queue, in that order. `lost` says that
   the newest tick was a skill approval for which the control queue had no room.
   */
  datatype State = State(
    snapshots: Option<nat>,
    control: seq<Command>,
    handoff: Option<Terminal>,
    done: bool,
    terminal: bool,
    reliablePending: nat,
    deferredLatest: Option<nat>,
    section: Section,
    writer: Writer,
    output: seq<Output>,
    newest: nat,
    accepted: seq<Command>,
    lost: bool)

  const INITIAL: State := State(None, [], None, false, false, 0, None, Free, Top, [], 0, [], false)

  datatype Source = FromControl | FromTerminal | FromSnapshots | FromDone

  datatype Action =
    | EnqueueSnapshot(tick: nat)
    | EnqueueApproval(tick: nat)
    | EnqueueControl(id: nat)
    | EnqueueTerminal(t: Terminal)
    | SectionStep
    | SectionSeesDone
    | CloseSession
    | WriterStep
    | WriterReceives(source: Source)
    | WriteFails

  // ---------- Producers ----------

  /** Entering an enqueue function: take the mutex, test `terminal` and `done`, and reach the first channel operation. */
  function Begin(s: State, a: Action): State
    requires a.EnqueueSnapshot? || a.EnqueueApproval? || a.EnqueueControl? || a.EnqueueTerminal?
  {
    if s.section != Free || s.terminal || s.done then s
    else
      match a
      case EnqueueSnapshot(tick) =>
        if tick <= s.newest then s
        else if s.reliablePending > 0 then s.(deferredLatest := Some(tick), newest := tick, lost := false)
        else s.(section := LatestTry(tick, false), newest := tick, lost := false)
      case EnqueueApproval(tick) =>
        if tick <= s.newest then s else s.(section := ApprovalDrain(tick), newest := tick, lost := false)
      case EnqueueControl(id) => s.(section := ControlSend(id))
      case EnqueueTerminal(t) =>
        if t.tick <= s.newest then s else s.(terminal := true, section := TerminalDrain(t), newest := t.tick, lost := false)
  }

  /** Leaving enqueueLatestSnapshotLocked: a producer unlocks, the writer unlocks and goes on. */
  function Leave(s: State, byWriter: bool): State {
    if byWriter && s.writer.InCompletion? then s.(section := Free, writer := Resume(s.writer.next))
    else s.(section := Free)
  }

  /** The send that ends a critical section would have to wait. */
  predicate SectionBlocked(s: State) {
    || (s.section.LatestSend? && s.snapshots.Some?)
    || (s.section.TerminalSend? && s.handoff.Some?)
  }

  function StepSection(s: State): State {
    match s.section
    case Free => s
    case LatestTry(tick, w) =>
      if s.snapshots.None? then Leave(s.(snapshots := Some(tick)), w) else s.(section := LatestDrain(tick, w))
    case LatestDrain(tick, w) => s.(snapshots := None, section := LatestSend(tick, w))
    case LatestSend(tick, w) => if SectionBlocked(s) then s else Leave(s.(snapshots := Some(tick)), w)
    case ApprovalDrain(tick) => s.(snapshots := None, section := ApprovalSend(tick))
    case ApprovalSend(tick) =>
      if |s.control| < CONTROL_CAPACITY then
        s.(deferredLatest := None, control := s.control + [Approval(tick)], reliablePending := s.reliablePending + 1,
           accepted := s.accepted + [Approval(tick)], section := Free)
      else s.(deferredLatest := None, lost := true, section := Free)
    case ControlSend(id) =>
      if |s.control| < CONTROL_CAPACITY then
        s.(control := s.control + [Other(id)], accepted := s.accepted + [Other(id)], section := Free)
      else s.(section := Free)
    case TerminalDrain(t) => s.(snapshots := None, deferredLatest := None, section := TerminalSend(t))
    case TerminalSend(t) => if SectionBlocked(s) then s else s.(handoff := Some(t), section := Free)
  }

  // ---------- The writer ----------

  function Resume(next: Then): Writer {
    match next
    case Loop => Top
    case Drain(t) => Draining(t)
    case Finish(t, k) => Last(t, k + 1)
  }

  function TakeControl(s: State, next: Then): State
    requires s.control != []
  {
    s.(control := s.control[1..], writer := Check(s.control[0], next))
  }

  /** completeReliableSnapshot, once the mutex is free. */
  function Complete(s: State, next: Then): State {
    if s.section != Free then s
    else if s.reliablePending == 0 then s.(writer := Resume(next))
    else
      var s' := s.(reliablePending := s.reliablePending - 1);
      if s'.reliablePending > 0 || s'.deferredLatest.None? then s'.(writer := Resume(next))
      else
        var tick := s'.deferredLatest.value;
        var s'' := s'.(deferredLatest := None);
        if s''.terminal || s''.done then s''.(writer := Resume(next))
        else s''.(section := LatestTry(tick, true), writer := InCompletion(next))
  }

  /** The commands that end a session, in order, before the close. */
  function LastCommand(t: Terminal, k: nat): Command {
    if k == 0 then Latest(t.tick) else GameEnd(t.gameEnd)
  }

  function StepWriter(s: State): State {
    match s.writer
    case Top => s.(writer := if s.done then Exited else TryControl)
    case TryControl => if s.control != [] then TakeControl(s, Loop) else s.(writer := TryTerminal)
    case TryTerminal =>
      if s.handoff.Some? then s.(handoff := None, writer := Draining(s.handoff.value)) else s.(writer := Wait)
    case Wait => s
    case Check(c, next) => s.(writer := if s.done then Exited else Send(c, next))
    case Send(c, next) =>
      s.(output := s.output + [Wrote(c)], writer := if c.Approval? then Completing(next) else Resume(next))
    case Completing(next) => Complete(s, next)
    case InCompletion(next) => s
    case Draining(t) => if s.control != [] then TakeControl(s, Drain(t)) else s.(writer := Last(t, 0))
    case Last(t, k) =>
      if k < 2 then s.(writer := Check(LastCommand(t, k), Finish(t, k)))
      else if s.done then s.(writer := Exited)
      else s.(done := true, output := s.output + [ClosedNormally], writer := Exited)
    case Exited => s
  }

  /** The blocking select of the write loop, with the case it happens to take. */
  function Receive(s: State, source: Source): State {
    if s.writer != Wait then s
    else
      match source
      case FromControl => if s.control != [] then TakeControl(s, Loop) else s
      case FromTerminal => if s.handoff.Some? then s.(handoff := None, writer := Draining(s.handoff.value)) else s
      case FromSnapshots =>
        if s.snapshots.Some? then s.(snapshots := None, writer := Check(Latest(s.snapshots.value), Loop)) else s
      case FromDone => if s.done then s.(writer := Exited) else s
  }

  /** One step of any thread; an action that is not possible leaves the state alone. */
  function Do(s: State, a: Action): State {
    match a
    case EnqueueSnapshot(_) => Begin(s, a)
    case EnqueueApproval(_) => Begin(s, a)
    case EnqueueControl(_) => Begin(s, a)
    case EnqueueTerminal(_) => Begin(s, a)
    case SectionStep => StepSection(s)
    case SectionSeesDone => if s.section.LatestSend? && s.done then Leave(s, s.section.byWriter) else s
    case CloseSession => s.(done := true)
    case WriterStep => StepWriter(s)
    case WriterReceives(source) => Receive(s, source)
    case WriteFails => if s.writer.Send? then s.(done := true, writer := Exited) else s
  }

  /** Any interleaving of the threads. */
  function Exec(s: State, actions: seq<Action>): State {
    if actions == [] then s else Do(Exec(s, actions[..|actions| - 1]), actions[|actions| - 1])
  }

  // ---------- Observations ----------

  /** The gameplay ticks of some commands, in order. */
  function Ticks(cs: seq<Command>): seq<nat> {
    if cs == [] then []
    else
      var c := cs[|cs| - 1];
      Ticks(cs[..|cs| - 1]) + (if c.Latest? || c.Approval? then [c.tick] else [])
  }

  /** The ticks of the skill approvals among some commands, in order. */
  function Approvals(cs: seq<Command>): seq<nat> {
    if cs == [] then []
    else
      var c := cs[|cs| - 1];
      Approvals(cs[..|cs| - 1]) + (if c.Approval? then [c.tick] else [])
  }

  /** The commands that come through the control queue, in order. */
  function FromQueue(cs: seq<Command>): seq<Command> {
    if cs == [] then []
    else
      var c := cs[|cs| - 1];
      FromQueue(cs[..|cs| - 1]) + (if c.Approval? || c.Other? then [c] else [])
  }

  function Written(output: seq<Output>): seq<Command> {
    if output == [] then []
    else
      var o := output[|output| - 1];
      Written(output[..|output| - 1]) + (if o.Wrote? then [o.c] else [])
  }

  /** The command the writer has taken and not yet written. */
  function InFlight(w: Writer): seq<Command> {
    if w.Check? || w.Send? then [w.c] else []
  }

  function Opt(o: Option<nat>): seq<nat> {
    if o.None? then [] else [o.value]
  }

  function SectionTicks(section: Section): seq<nat> {
    match section
    case LatestTry(tick, _) => [tick]
    case LatestDrain(tick, _) => [tick]
    case LatestSend(tick, _) => [tick]
    case ApprovalDrain(tick) => [tick]
    case ApprovalSend(tick) => [tick]
    case TerminalDrain(t) => [t.tick]
    case TerminalSend(t) => [t.tick]
    case _ => []
  }

  /** The terminal snapshot that has been handed over but not yet taken up for writing. */
  function TerminalTicks(s: State): seq<nat> {
    if s.handoff.Some? then [s.handoff.value.tick]
    else
      match s.writer
      case Check(_, Drain(t)) => [t.tick]
      case Send(_, Drain(t)) => [t.tick]
      case Completing(Drain(t)) => [t.tick]
      case InCompletion(Drain(t)) => [t.tick]
      case Draining(t) => [t.tick]
      case Last(t, k) => if k == 0 then [t.tick] else []
      case _ => []
  }

  function Join(w: seq<nat>, i: seq<nat>, c: seq<nat>, s: seq<nat>, d: seq<nat>, x: seq<nat>, t: seq<nat>): seq<nat> {
    w + i + c + s + d + x + t
  }

  /** Everything written, then everything still on its way, in the order in which it will be written. */
  function Pipeline(s: State): seq<nat> {
    Join(Ticks(Written(s.output)), Ticks(InFlight(s.writer)), Ticks(s.control),
         Opt(s.snapshots), Opt(s.deferredLatest), SectionTicks(s.section), TerminalTicks(s))
  }
}
