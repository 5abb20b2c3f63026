/**
The WebDriver BiDi client as a machine of atomic steps.

Unlike the DevTools client, the caller registers its response sender itself, before it enqueues, and then
rechecks the flags.
*/
module BidiTransport {
  import opened Channels
  import opened Wrappers

  // A caller waits on its response channel alone. A closing call can signal, wait for and at last abort both tasks.
  //
  // Conventions are those of the DevTools machine: one step is one atomic operation or one completed await, a biased
  // `select!` is split into the polls of its arms, and a caller's position is its id. The one pair of operations that
  // is a single step is a caller's reads of its two flags. Both flags are one-way: where both reads let the caller
  // pass, both flags would already have let it pass at the first read, and where a read refuses it, the flags still do
  // when the caller then acts on it.

  const QUEUE_CAPACITY: nat := 256

  datatype Answer = Reply(payload: int) | Refused(code: int) | ConnectionClosed

  datatype Caller = Admitted | Registered | Enqueuing | Awaiting | Returned(answer: Answer) | Cancelled

  datatype Sender =
    | Idle
    | PolledShutdown
    | PolledFlag
    | Holding(id: nat)
    | Writing(id: nat)
    | ClosingFrame
    | MarkingEarly
    | ClearingEarly
    | ClosingSocket
    | Marking
    | Clearing
    | Exited

  datatype Receiver = Reading | PolledStop | ReceiverMarking | ReceiverClearing | ReceiverExited

  datatype Closer = NotClosing | Refusing | Joining | Aborting | CloserMarking | CloserClearing | ClosedAll

  datatype State = State(
    accepting: bool,
    terminal: bool,
    cleared: bool, // some party has completed mark_terminal
    shutdown: bool,
    pending: set<nat>,
    queue: seq<nat>,
    sender: Sender,
    receiver: Receiver,
    closer: Closer,
    callers: seq<Caller>,
    slots: seq<Slot<Answer>>)

  const Initial := State(true, false, false, false, {}, [], Idle, Reading, NotClosing, [], [])

  datatype Step =
    | CallerBegins
    | CallerRegisters(id: nat)
    | CallerRechecks(id: nat)
    | CallerEnqueues(id: nat)
    | CallerFindsQueueClosed(id: nat)
    | CallerWakes(id: nat)
    | CallerGivesUp(id: nat)
    | SenderPollsShutdown
    | SenderPollsFlag
    | SenderReceives(disconnected: bool)
    | SenderSerializes(ok: bool)
    | SenderWrites(ok: bool)
    | SenderSendsClose
    | SenderMarks
    | SenderClears(closeFailed: bool)
    | SenderClosesSocket(ok: bool)
    | SenderAborts
    | ReceiverPollsFlag
    | ReceiverDelivers(id: nat, answer: Answer)
    | ReceiverSkips
    | ReceiverEnds
    | ReceiverMarks
    | ReceiverClears
    | ReceiverAborts
    | CloserRefuses
    | CloserSignals
    | CloserJoins
    | CloserTimesOut
    | CloserStopsWaiting
    | CloserMarks
    | CloserClears

  predicate Done(c: Caller) {
    c.Returned? || c.Cancelled?
  }

  /** Remove an entry without using the sender it holds. */
  function Unregister(s: State, id: nat): State {
    s.(pending := s.pending - {id}, slots := DropSenders(s.slots, s.pending * {id}))
  }

  function ClearPending(s: State): State {
    s.(pending := {}, slots := DropSenders(s.slots, s.pending), cleared := true)
  }

  function Deliver(s: State, id: nat, answer: Answer): State {
    if id in s.pending && id < |s.slots| then
      s.(pending := s.pending - {id}, slots := s.slots[id := Answered(answer)])
    else
      s
  }

  function ExitSender(s: State): State {
    s.(sender := Exited, queue := [])
  }

  function CallerStep(s: State, step: Step): Option<State>
    requires |s.slots| == |s.callers|
  {
    match step
    case CallerBegins =>
      if s.accepting && !s.terminal then
        Some(s.(callers := s.callers + [Admitted], slots := s.slots + [Open]))
      else None
    case CallerRegisters(id) =>
      if id < |s.callers| && s.callers[id].Admitted? then
        Some(s.(callers := s.callers[id := Registered], pending := s.pending + {id}))
      else None
    case CallerRechecks(id) =>
      if id < |s.callers| && s.callers[id].Registered? then
        if s.accepting && !s.terminal then Some(s.(callers := s.callers[id := Enqueuing]))
        else Some(Unregister(s, id).(callers := s.callers[id := Returned(ConnectionClosed)]))
      else None
    case CallerEnqueues(id) =>
      if id < |s.callers| && s.callers[id].Enqueuing? && !s.sender.Exited? && |s.queue| < QUEUE_CAPACITY then
        Some(s.(callers := s.callers[id := Awaiting], queue := s.queue + [id]))
      else None
    case CallerFindsQueueClosed(id) =>
      if id < |s.callers| && s.callers[id].Enqueuing? && s.sender.Exited? then
        Some(Unregister(s, id).(callers := s.callers[id := Returned(ConnectionClosed)]))
      else None
    case CallerWakes(id) =>
      if id < |s.callers| && s.callers[id].Awaiting? then
        match s.slots[id]
        case Open => None
        case Answered(answer) => Some(s.(callers := s.callers[id := Returned(answer)]))
        case Dropped => Some(s.(callers := s.callers[id := Returned(ConnectionClosed)]))
      else None
    case CallerGivesUp(id) =>
      if id < |s.callers| && (s.callers[id].Enqueuing? || s.callers[id].Awaiting?) then
        Some(s.(callers := s.callers[id := Cancelled]))
      else None
    case _ => None
  }

  /** The closing call has aborted both tasks; each stops at its next await, during the wait or after it. */
  predicate Aborted(c: Closer) {
    c.Aborting? || c.CloserMarking? || c.CloserClearing? || c.ClosedAll?
  }

  /** The sender is awaiting something, and so can be aborted there. */
  predicate AtAwait(w: Sender) {
    w.Idle? || w.Writing? || w.ClosingFrame? || w.ClosingSocket?
  }

  /** The sender's loop. */
  function LoopStep(s: State, step: Step): Option<State> {
    match (step, s.sender)
    case (SenderPollsShutdown, Idle) =>
      Some(s.(sender := if s.shutdown then ClosingFrame else PolledShutdown))
    case (SenderPollsFlag, PolledShutdown) =>
      Some(s.(sender := if s.terminal then Marking else PolledFlag))
    case (SenderReceives(disconnected), PolledFlag) =>
      if s.queue != [] then Some(s.(sender := Holding(s.queue[0]), queue := s.queue[1..]))
      else Some(s.(sender := if disconnected then Marking else Idle))
    case (SenderSerializes(ok), Holding(id)) => Some(s.(sender := if ok then Writing(id) else Idle))
    case (SenderWrites(ok), Writing(_)) => Some(s.(sender := if ok then Idle else Marking))
    case _ => None
  }

  /** The sender's ways out of its loop. */
  function EndStep(s: State, step: Step): Option<State> {
    match (step, s.sender)
    case (SenderSendsClose, ClosingFrame) => Some(s.(sender := MarkingEarly))
    case (SenderMarks, MarkingEarly) => Some(s.(terminal := true, sender := ClearingEarly))
    case (SenderMarks, Marking) => Some(s.(terminal := true, sender := Clearing))
    case (SenderClears(closeFailed), ClearingEarly) =>
      Some(if closeFailed then ExitSender(ClearPending(s)) else ClearPending(s).(sender := ClosingSocket))
    case (SenderClears(_), Clearing) => Some(ExitSender(ClearPending(s)))
    case (SenderClosesSocket(ok), ClosingSocket) =>
      Some(if ok then s.(sender := Marking) else ExitSender(s))
    case _ => None
  }

  predicate InLoop(w: Sender) {
    w.Idle? || w.PolledShutdown? || w.PolledFlag? || w.Holding? || w.Writing?
  }

  function SenderStep(s: State, step: Step): Option<State> {
    if step.SenderAborts? then
      if Aborted(s.closer) && AtAwait(s.sender) then Some(ExitSender(s)) else None
    else if InLoop(s.sender) then LoopStep(s, step)
    else EndStep(s, step)
  }

  function ReceiverStep(s: State, step: Step): Option<State> {
    match (step, s.receiver)
    case (ReceiverPollsFlag, Reading) =>
      Some(s.(receiver := if s.terminal then ReceiverMarking else PolledStop))
    case (ReceiverDelivers(id, answer), PolledStop) => Some(Deliver(s, id, answer).(receiver := Reading))
    case (ReceiverSkips, PolledStop) => Some(s.(receiver := Reading))
    case (ReceiverEnds, PolledStop) => Some(s.(receiver := ReceiverMarking))
    case (ReceiverMarks, ReceiverMarking) => Some(s.(terminal := true, receiver := ReceiverClearing))
    case (ReceiverClears, ReceiverClearing) => Some(ClearPending(s).(receiver := ReceiverExited))
    case (ReceiverAborts, Reading) => if Aborted(s.closer) then Some(s.(receiver := ReceiverExited)) else None
    case _ => None
  }

  function CloserStep(s: State, step: Step): Option<State> {
    match (step, s.closer)
    case (CloserRefuses, NotClosing) => Some(s.(accepting := false, closer := Refusing))
    case (CloserSignals, Refusing) => Some(s.(shutdown := true, closer := Joining))
    case (CloserJoins, Joining) =>
      if s.sender.Exited? && s.receiver.ReceiverExited? then Some(s.(closer := ClosedAll)) else None
    case (CloserTimesOut, Joining) => Some(s.(closer := Aborting))
    case (CloserStopsWaiting, Aborting) => Some(s.(closer := CloserMarking))
    case (CloserMarks, CloserMarking) => Some(s.(terminal := true, closer := CloserClearing))
    case (CloserClears, CloserClearing) => Some(ClearPending(s).(closer := ClosedAll))
    case _ => None
  }

  predicate IsSenderStep(step: Step) {
    step.SenderPollsShutdown? || step.SenderPollsFlag? || step.SenderReceives? || step.SenderSerializes?
    || step.SenderWrites? || step.SenderSendsClose? || step.SenderMarks? || step.SenderClears?
    || step.SenderClosesSocket? || step.SenderAborts?
  }

  predicate IsReceiverStep(step: Step) {
    step.ReceiverPollsFlag? || step.ReceiverDelivers? || step.ReceiverSkips? || step.ReceiverEnds?
    || step.ReceiverMarks? || step.ReceiverClears? || step.ReceiverAborts?
  }

  predicate IsCloserStep(step: Step) {
    step.CloserRefuses? || step.CloserSignals? || step.CloserJoins? || step.CloserTimesOut?
    || step.CloserStopsWaiting? || step.CloserMarks? || step.CloserClears?
  }

  function Next(s: State, step: Step): Option<State>
    requires |s.slots| == |s.callers|
  {
    if IsSenderStep(step) then SenderStep(s, step)
    else if IsReceiverStep(step) then ReceiverStep(s, step)
    else if IsCloserStep(step) then CloserStep(s, step)
    else CallerStep(s, step)
  }

  // The invariant.

  /** An open channel's sender is with its caller until registered, and in the map from then on. */
  ghost predicate Conserved(s: State)
    requires |s.slots| == |s.callers|
  {
    forall id :: 0 <= id < |s.callers| ==>
      && (s.callers[id].Admitted? ==> id !in s.pending)
      && (s.slots[id].Open? <==> s.callers[id].Admitted? || id in s.pending)
  }

  /** Whoever clears the map has set the flag first, and what a clear leaves belongs to callers about to recheck. */
  ghost predicate TerminalSafe(s: State)
    requires |s.slots| == |s.callers|
  {
    && (s.cleared || s.sender.Clearing? || s.sender.ClearingEarly? ==> s.terminal)
    && (s.receiver.ReceiverClearing? || s.closer.CloserClearing? ==> s.terminal)
    && (s.cleared ==> forall id :: 0 <= id < |s.callers| && id in s.pending ==> s.callers[id].Registered?)
  }

  /** A closing call refuses callers first; nobody is done closing, and no receiver gone for good, with the map uncleared. */
  ghost predicate CloseSafe(s: State) {
    && (s.closer.NotClosing? || !s.accepting)
    && (s.closer.ClosedAll? || s.sender.ClosingSocket? ==> s.cleared)
    && (s.receiver.ReceiverExited? ==> s.cleared || Aborted(s.closer))
  }

  ghost predicate Inv(s: State) {
    && |s.slots| == |s.callers|
    && (forall id :: id in s.pending ==> id < |s.callers|)
    && (s.sender.Exited? ==> s.queue == [])
    && Conserved(s)
    && TerminalSafe(s)
    && CloseSafe(s)
  }

  lemma BeginKeepsInv(s: State)
    requires Inv(s) && CallerStep(s, CallerBegins).Some?
    ensures Inv(CallerStep(s, CallerBegins).value)
  {
  }

  lemma RegisterKeepsInv(s: State, id: nat)
    requires Inv(s) && CallerStep(s, CallerRegisters(id)).Some?
    ensures Inv(CallerStep(s, CallerRegisters(id)).value)
  {
  }

  lemma RecheckKeepsInv(s: State, id: nat)
    requires Inv(s) && CallerStep(s, CallerRechecks(id)).Some?
    ensures Inv(CallerStep(s, CallerRechecks(id)).value)
  {
  }

  lemma LeaveKeepsInv(s: State, id: nat, c: Caller)
    requires Inv(s) && id < |s.callers| && (s.callers[id].Enqueuing? || s.callers[id].Awaiting?) && Done(c)
    ensures Inv(s.(callers := s.callers[id := c]))
    ensures Inv(Unregister(s, id).(callers := s.callers[id := c]))
  {
  }

  lemma EnqueueKeepsInv(s: State, id: nat)
    requires Inv(s) && CallerStep(s, CallerEnqueues(id)).Some?
    ensures Inv(CallerStep(s, CallerEnqueues(id)).value)
  {
  }

  lemma CallerKeepsInv(s: State, step: Step)
    requires Inv(s) && CallerStep(s, step).Some?
    ensures Inv(CallerStep(s, step).value)
  {
    match step
    case CallerBegins => BeginKeepsInv(s);
    case CallerRegisters(id) => RegisterKeepsInv(s, id);
    case CallerRechecks(id) => RecheckKeepsInv(s, id);
    case CallerEnqueues(id) => EnqueueKeepsInv(s, id);
    case CallerFindsQueueClosed(id) => LeaveKeepsInv(s, id, CallerStep(s, step).value.callers[id]);
    case CallerWakes(id) => LeaveKeepsInv(s, id, CallerStep(s, step).value.callers[id]);
    case CallerGivesUp(id) => LeaveKeepsInv(s, id, CallerStep(s, step).value.callers[id]);
  }

  lemma ClearKeepsInv(s: State)
    requires Inv(s) && s.terminal
    ensures Inv(ClearPending(s)) && ClearPending(s).pending == {}
  {
  }

  /** The sender moving on without touching the map: to another position, setting the flag, or taking from the queue. */
  lemma SenderMovesKeepsInv(s: State, w: Sender, flag: bool, queue: seq<nat>)
    requires Inv(s) && (s.terminal ==> flag)
    requires w.Clearing? || w.ClearingEarly? ==> flag
    requires w.ClosingSocket? ==> s.cleared
    requires w.Exited? ==> queue == []
    ensures Inv(s.(terminal := flag, sender := w, queue := queue))
  {
  }

  lemma LoopKeepsInv(s: State, step: Step)
    requires Inv(s) && LoopStep(s, step).Some?
    ensures Inv(LoopStep(s, step).value)
  {
    var t := LoopStep(s, step).value;
    SenderMovesKeepsInv(s, t.sender, t.terminal, t.queue);
  }

  lemma EndKeepsInv(s: State, step: Step)
    requires Inv(s) && EndStep(s, step).Some?
    ensures Inv(EndStep(s, step).value)
  {
    if step.SenderClears? {
      ClearKeepsInv(s);
    } else {
      var t := EndStep(s, step).value;
      SenderMovesKeepsInv(s, t.sender, t.terminal, t.queue);
    }
  }

  lemma SenderKeepsInv(s: State, step: Step)
    requires Inv(s) && SenderStep(s, step).Some?
    ensures Inv(SenderStep(s, step).value)
  {
    if step.SenderAborts? {
      SenderMovesKeepsInv(s, Exited, s.terminal, []);
    } else if InLoop(s.sender) {
      LoopKeepsInv(s, step);
    } else {
      EndKeepsInv(s, step);
    }
  }

  lemma ReceiverKeepsInv(s: State, step: Step)
    requires Inv(s) && ReceiverStep(s, step).Some?
    ensures Inv(ReceiverStep(s, step).value)
  {
  }

  lemma CloserKeepsInv(s: State, step: Step)
    requires Inv(s) && CloserStep(s, step).Some?
    ensures Inv(CloserStep(s, step).value)
  {
  }

  lemma NextKeepsInv(s: State, step: Step)
    requires Inv(s) && Next(s, step).Some?
    ensures Inv(Next(s, step).value)
  {
    if IsSenderStep(step) {
      SenderKeepsInv(s, step);
    } else if IsReceiverStep(step) {
      ReceiverKeepsInv(s, step);
    } else if IsCloserStep(step) {
      CloserKeepsInv(s, step);
    } else {
      CallerKeepsInv(s, step);
    }
  }

  /** Any interleaving: a sequence of steps, each enabled where it is taken. */
  ghost predicate Run(s: State, steps: seq<Step>, t: State)
    decreases |steps|
  {
    if steps == [] then s == t
    else |s.slots| == |s.callers| && Next(s, steps[0]).Some? && Run(Next(s, steps[0]).value, steps[1..], t)
  }

  lemma {:induction false} RunKeepsInv(s: State, steps: seq<Step>, t: State)
    requires Inv(s) && Run(s, steps, t)
    ensures Inv(t)
    decreases |steps|
  {
    if steps != [] {
      NextKeepsInv(s, steps[0]);
      RunKeepsInv(Next(s, steps[0]).value, steps[1..], t);
    }
  }

  // Main results.

  /**
  Once some party has completed mark_terminal, every entry left in the map belongs to a caller that
  has registered but not rechecked yet, and that caller's recheck removes it and returns.
  */
  lemma TerminalDrains(steps: seq<Step>, s: State, id: nat)
    requires Run(Initial, steps, s) && s.cleared && id in s.pending
    ensures |s.slots| == |s.callers| && id < |s.callers| && s.callers[id].Registered?
    ensures var next := Next(s, CallerRechecks(id));
            next.Some? && next.value.pending == s.pending - {id} && next.value.callers[id] == Returned(ConnectionClosed)
  {
    RunKeepsInv(Initial, steps, s);
  }

  /** So an awaiting caller never sleeps past termination: its channel is answered or closed. */
  lemma NobodyAwaitsAfterTerminal(steps: seq<Step>, s: State, id: nat)
    requires Run(Initial, steps, s) && s.cleared
    requires id < |s.callers| && s.callers[id].Awaiting?
    ensures |s.slots| == |s.callers| && !s.slots[id].Open?
    ensures Next(s, CallerWakes(id)).Some? && Next(s, CallerWakes(id)).value.callers[id].Returned?
  {
    RunKeepsInv(Initial, steps, s);
  }

  function SenderRank(w: Sender): nat {
    match w
    case Exited => 0
    case Clearing => 1
    case Marking => 2
    case ClosingSocket => 3
    case ClearingEarly => 4
    case MarkingEarly => 5
    case ClosingFrame => 6
    case PolledShutdown => 7
    case Idle => 8
    case Writing(_) => 9
    case Holding(_) => 10
    case PolledFlag => 11
  }

  function CallerRank(c: Caller): nat {
    match c
    case Admitted => 4
    case Registered => 3
    case Enqueuing => 2
    case Awaiting => 1
    case _ => 0
  }

  function ReceiverRank(r: Receiver): nat {
    match r
    case ReceiverExited => 0
    case ReceiverClearing => 1
    case ReceiverMarking => 2
    case Reading => 3
    case PolledStop => 4
  }

  /** What both tasks and the callers still have to do once the flag is set. */
  function Work(s: State): nat {
    SenderRank(s.sender) + ReceiverRank(s.receiver) + Total(CallerRank, s.callers)
  }

  lemma LoopProgress(s: State, step: Step)
    requires s.terminal && LoopStep(s, step).Some?
    ensures var t := LoopStep(s, step).value;
            t.terminal && SenderRank(t.sender) < SenderRank(s.sender) && t.receiver == s.receiver && t.callers == s.callers
  {
  }

  lemma EndProgress(s: State, step: Step)
    requires s.terminal && EndStep(s, step).Some?
    ensures var t := EndStep(s, step).value;
            t.terminal && SenderRank(t.sender) < SenderRank(s.sender) && t.receiver == s.receiver && t.callers == s.callers
  {
  }

  lemma SenderProgress(s: State, step: Step)
    requires s.terminal && SenderStep(s, step).Some?
    ensures var t := SenderStep(s, step).value;
            t.terminal && SenderRank(t.sender) < SenderRank(s.sender) && t.receiver == s.receiver && t.callers == s.callers
  {
    if !step.SenderAborts? {
      if InLoop(s.sender) {
        LoopProgress(s, step);
      } else {
        EndProgress(s, step);
      }
    }
  }

  lemma ReceiverProgress(s: State, step: Step)
    requires s.terminal && ReceiverStep(s, step).Some?
    ensures var t := ReceiverStep(s, step).value;
            t.terminal && ReceiverRank(t.receiver) < ReceiverRank(s.receiver) && t.sender == s.sender && t.callers == s.callers
  {
  }

  lemma CallerMoves(s: State, step: Step)
    requires Inv(s) && s.terminal && CallerStep(s, step).Some?
    ensures step.CallerRegisters? || step.CallerRechecks? || step.CallerEnqueues? || step.CallerFindsQueueClosed?
            || step.CallerWakes? || step.CallerGivesUp?
    ensures var t := CallerStep(s, step).value;
            && step.id < |s.callers| && |t.callers| == |s.callers|
            && t.callers == s.callers[step.id := t.callers[step.id]]
            && CallerRank(t.callers[step.id]) < CallerRank(s.callers[step.id])
            && t.terminal && t.sender == s.sender && t.receiver == s.receiver
  {
  }

  lemma CallerProgress(s: State, step: Step)
    requires Inv(s) && s.terminal && CallerStep(s, step).Some?
    ensures var t := CallerStep(s, step).value;
            t.terminal && Total(CallerRank, t.callers) < Total(CallerRank, s.callers) && t.sender == s.sender && t.receiver == s.receiver
  {
    CallerMoves(s, step);
    TotalUpdate(CallerRank, s.callers, step.id, CallerStep(s, step).value.callers[step.id]);
  }

  /** After termination no caller can start, and every step except the closing call's own makes progress. */
  lemma TerminalProgress(s: State, step: Step)
    requires Inv(s) && s.terminal && Next(s, step).Some?
    ensures Next(s, step).value.terminal
    ensures !IsCloserStep(step) ==> Work(Next(s, step).value) < Work(s)
    ensures IsCloserStep(step) ==> Work(Next(s, step).value) == Work(s)
  {
    if IsSenderStep(step) {
      SenderProgress(s, step);
    } else if IsReceiverStep(step) {
      ReceiverProgress(s, step);
    } else if !IsCloserStep(step) {
      CallerProgress(s, step);
    }
  }

  function Effort(steps: seq<Step>): nat {
    if steps == [] then 0 else (if IsCloserStep(steps[0]) then 0 else 1) + Effort(steps[1..])
  }

  /** From a terminal state, callers, sender and receiver together take at most `Work` further steps. */
  lemma {:induction false} DrainIsBounded(s: State, steps: seq<Step>, t: State)
    requires Inv(s) && s.terminal && Run(s, steps, t)
    ensures Effort(steps) + Work(t) <= Work(s)
    decreases |steps|
  {
    if steps != [] {
      NextKeepsInv(s, steps[0]);
      TerminalProgress(s, steps[0]);
      DrainIsBounded(Next(s, steps[0]).value, steps[1..], t);
    }
  }

  ghost predicate Stuck(s: State)
    requires |s.slots| == |s.callers|
  {
    forall step: Step :: !IsCloserStep(step) ==> Next(s, step).None?
  }

  function SenderMove(w: Sender): Step {
    match w
    case Exited => SenderMarks
    case Idle => SenderPollsShutdown
    case PolledShutdown => SenderPollsFlag
    case PolledFlag => SenderReceives(false)
    case Holding(_) => SenderSerializes(true)
    case Writing(_) => SenderWrites(true)
    case ClosingFrame => SenderSendsClose
    case MarkingEarly => SenderMarks
    case ClearingEarly => SenderClears(false)
    case ClosingSocket => SenderClosesSocket(true)
    case Marking => SenderMarks
    case Clearing => SenderClears(false)
  }

  lemma SenderCanMove(s: State)
    requires Inv(s) && !s.sender.Exited?
    ensures IsSenderStep(SenderMove(s.sender)) && Next(s, SenderMove(s.sender)).Some?
  {
  }

  function CallerMove(c: Caller, id: nat): Step {
    match c
    case Admitted => CallerRegisters(id)
    case Registered => CallerRechecks(id)
    case Enqueuing => CallerFindsQueueClosed(id)
    case _ => CallerWakes(id)
  }

  /** With the map cleared and the sender gone, every caller that has not returned can take a step. */
  lemma CallerCanMove(s: State, id: nat)
    requires Inv(s) && s.cleared && s.sender.Exited?
    requires id < |s.callers| && !Done(s.callers[id])
    ensures !IsCloserStep(CallerMove(s.callers[id], id)) && Next(s, CallerMove(s.callers[id], id)).Some?
  {
  }

  /** Where the map was cleared and nobody but the closing call can move, nobody waits and the map is empty. */
  lemma TerminalRest(steps: seq<Step>, s: State)
    requires Run(Initial, steps, s) && s.cleared
    ensures |s.slots| == |s.callers|
    ensures Stuck(s) ==> s.sender.Exited? && s.pending == {}
    ensures Stuck(s) ==> forall i :: 0 <= i < |s.callers| ==> Done(s.callers[i])
  {
    RunKeepsInv(Initial, steps, s);
    if Stuck(s) {
      if !s.sender.Exited? {
        SenderCanMove(s);
      }
      forall i | 0 <= i < |s.callers|
        ensures Done(s.callers[i])
      {
        if !Done(s.callers[i]) {
          CallerCanMove(s, i);
        }
      }
    }
  }

  /**
  A completed closing call, joined or timed out, leaves both flags set and the map cleared: no caller
  gets in afterwards, and what the map still holds are the entries of callers whose recheck removes them.
  */
  lemma CloseIsFinal(steps: seq<Step>, s: State)
    requires Run(Initial, steps, s) && s.closer.ClosedAll?
    ensures s.terminal && s.cleared && !s.accepting
    ensures |s.slots| == |s.callers| && Next(s, CallerBegins).None?
    ensures forall id :: id in s.pending ==> id < |s.callers| && s.callers[id].Registered?
    ensures forall id :: id in s.pending ==>
              Next(s, CallerRechecks(id)).Some? && Next(s, CallerRechecks(id)).value.pending == s.pending - {id}
  {
    RunKeepsInv(Initial, steps, s);
    forall id | id in s.pending
      ensures id < |s.callers| && s.callers[id].Registered?
      ensures Next(s, CallerRechecks(id)).Some? && Next(s, CallerRechecks(id)).value.pending == s.pending - {id}
    {
      TerminalDrains(steps, s, id);
    }
  }

  lemma CallersOnlyDrop(s: State, step: Step, id: nat)
    requires Inv(s) && CallerStep(s, step).Some? && id < |s.slots|
    ensures id < |CallerStep(s, step).value.slots|
    ensures CallerStep(s, step).value.slots[id] == s.slots[id]
            || (s.slots[id].Open? && CallerStep(s, step).value.slots[id] == Dropped)
  {
  }

  lemma LoopLeavesSlots(s: State, step: Step)
    requires LoopStep(s, step).Some?
    ensures LoopStep(s, step).value.slots == s.slots
  {
  }

  lemma EndsOnlyDrop(s: State, step: Step, id: nat)
    requires EndStep(s, step).Some? && id < |s.slots|
    ensures id < |EndStep(s, step).value.slots|
    ensures EndStep(s, step).value.slots[id] == s.slots[id]
            || (s.slots[id].Open? && EndStep(s, step).value.slots[id] == Dropped)
  {
  }

  lemma SendersOnlyDrop(s: State, step: Step, id: nat)
    requires SenderStep(s, step).Some? && id < |s.slots|
    ensures id < |SenderStep(s, step).value.slots|
    ensures SenderStep(s, step).value.slots[id] == s.slots[id]
            || (s.slots[id].Open? && SenderStep(s, step).value.slots[id] == Dropped)
  {
    if !step.SenderAborts? {
      if InLoop(s.sender) {
        LoopLeavesSlots(s, step);
      } else {
        EndsOnlyDrop(s, step, id);
      }
    }
  }

  /** A response channel is written once, and only a frame carrying the caller's own id answers it. */
  lemma AnswersAreOwn(s: State, step: Step, id: nat)
    requires Inv(s) && Next(s, step).Some? && id < |s.slots|
    ensures id < |Next(s, step).value.slots|
    ensures !s.slots[id].Open? ==> Next(s, step).value.slots[id] == s.slots[id]
    ensures s.slots[id].Open? && Next(s, step).value.slots[id].Answered? ==>
              step.ReceiverDelivers? && step.id == id && step.answer == Next(s, step).value.slots[id].answer
  {
    if IsSenderStep(step) {
      SendersOnlyDrop(s, step, id);
    } else if !IsReceiverStep(step) && !IsCloserStep(step) {
      CallersOnlyDrop(s, step, id);
    }
  }

  /** A frame answers the call it carries the id of, if that is registered, and leaves every other call alone. */
  lemma DeliveryAnswers(s: State, id: nat, answer: Answer)
    requires Inv(s) && s.receiver.PolledStop? && id in s.pending
    ensures Next(s, ReceiverDelivers(id, answer)).Some?
    ensures var t := Next(s, ReceiverDelivers(id, answer)).value;
            && t == s.(receiver := Reading, pending := t.pending, slots := t.slots)
            && t.pending == s.pending - {id} && |t.slots| == |s.slots| && t.slots[id] == Answered(answer)
            && forall i :: 0 <= i < |s.slots| && i != id ==> t.slots[i] == s.slots[i]
  {
  }

  /** A response nobody waits for, an event or an unreadable frame answers nobody, and the receiver reads on. */
  lemma StrayFramesAnswerNobody(s: State, id: nat, answer: Answer)
    requires Inv(s) && s.receiver.PolledStop? && id !in s.pending
    ensures Next(s, ReceiverDelivers(id, answer)) == Some(s.(receiver := Reading))
    ensures Next(s, ReceiverSkips) == Some(s.(receiver := Reading))
  {
  }

  /** What a waiting caller makes of its response channel. */
  lemma WakingTakesTheAnswer(s: State, id: nat)
    requires |s.slots| == |s.callers| && id < |s.callers| && s.callers[id].Awaiting?
    ensures s.slots[id].Open? ==> Next(s, CallerWakes(id)).None?
    ensures forall a :: s.slots[id] == Answered(a) ==>
              Next(s, CallerWakes(id)) == Some(s.(callers := s.callers[id := Returned(a)]))
    ensures s.slots[id].Dropped? ==>
              Next(s, CallerWakes(id)) == Some(s.(callers := s.callers[id := Returned(ConnectionClosed)]))
  {
  }

  /** A caller returns what was put into its channel; ConnectionClosed it may also return on its own. */
  ghost predicate ReturnsAreAnswers(s: State)
    requires |s.slots| == |s.callers|
  {
    forall id :: 0 <= id < |s.callers| && s.callers[id].Returned? && !s.callers[id].answer.ConnectionClosed? ==>
      s.slots[id] == Answered(s.callers[id].answer)
  }

  lemma LoopLeavesCallers(s: State, step: Step)
    requires LoopStep(s, step).Some?
    ensures LoopStep(s, step).value.callers == s.callers
  {
  }

  lemma EndLeavesCallers(s: State, step: Step)
    requires EndStep(s, step).Some?
    ensures EndStep(s, step).value.callers == s.callers
  {
  }

  lemma SenderLeavesCallers(s: State, step: Step)
    requires SenderStep(s, step).Some?
    ensures SenderStep(s, step).value.callers == s.callers
  {
    if !step.SenderAborts? {
      if InLoop(s.sender) {
        LoopLeavesCallers(s, step);
      } else {
        EndLeavesCallers(s, step);
      }
    }
  }

  lemma TasksLeaveCallers(s: State, step: Step)
    requires |s.slots| == |s.callers| && Next(s, step).Some?
    requires IsSenderStep(step) || IsReceiverStep(step) || IsCloserStep(step)
    ensures Next(s, step).value.callers == s.callers
  {
    if IsSenderStep(step) {
      SenderLeavesCallers(s, step);
    }
  }

  lemma ReturnedFrom(s: State, step: Step, id: nat)
    requires Inv(s) && Next(s, step).Some? && id < |s.callers| && id < |Next(s, step).value.callers|
    requires Next(s, step).value.callers[id].Returned? && !Next(s, step).value.callers[id].answer.ConnectionClosed?
    ensures var c := Next(s, step).value.callers[id]; s.callers[id] == c || s.slots[id] == Answered(c.answer)
  {
    if IsSenderStep(step) || IsReceiverStep(step) || IsCloserStep(step) {
      TasksLeaveCallers(s, step);
    }
  }

  lemma BeginnersReturnNothing(s: State, step: Step, id: nat)
    requires Inv(s) && Next(s, step).Some? && |s.callers| <= id < |Next(s, step).value.callers|
    ensures !Next(s, step).value.callers[id].Returned?
  {
    if IsSenderStep(step) || IsReceiverStep(step) || IsCloserStep(step) {
      TasksLeaveCallers(s, step);
    }
  }

  lemma ReturnStaysAnswer(s: State, step: Step, id: nat)
    requires Inv(s) && ReturnsAreAnswers(s) && Next(s, step).Some? && id < |Next(s, step).value.callers|
    requires Next(s, step).value.callers[id].Returned? && !Next(s, step).value.callers[id].answer.ConnectionClosed?
    ensures id < |Next(s, step).value.slots|
    ensures Next(s, step).value.slots[id] == Answered(Next(s, step).value.callers[id].answer)
  {
    if id < |s.callers| {
      AnswersAreOwn(s, step, id);
      ReturnedFrom(s, step, id);
    } else {
      BeginnersReturnNothing(s, step, id);
    }
  }

  lemma ReturnsStayAnswers(s: State, step: Step)
    requires Inv(s) && ReturnsAreAnswers(s) && Next(s, step).Some?
    ensures |Next(s, step).value.slots| == |Next(s, step).value.callers| && ReturnsAreAnswers(Next(s, step).value)
  {
    var t := Next(s, step).value;
    NextKeepsInv(s, step);
    forall id | 0 <= id < |t.callers| && t.callers[id].Returned? && !t.callers[id].answer.ConnectionClosed?
      ensures t.slots[id] == Answered(t.callers[id].answer)
    {
      ReturnStaysAnswer(s, step, id);
    }
  }

  lemma {:induction false} RunKeepsReturns(s: State, steps: seq<Step>, t: State)
    requires Inv(s) && ReturnsAreAnswers(s) && Run(s, steps, t)
    ensures |t.slots| == |t.callers| && ReturnsAreAnswers(t)
    decreases |steps|
  {
    if steps != [] {
      NextKeepsInv(s, steps[0]);
      ReturnsStayAnswers(s, steps[0]);
      RunKeepsReturns(Next(s, steps[0]).value, steps[1..], t);
    }
  }

  /** In every interleaving, a reply or an error that a caller returns is the one its own channel was answered with. */
  lemma RepliesComeFromTheChannel(steps: seq<Step>, s: State, id: nat)
    requires Run(Initial, steps, s) && id < |s.callers| && s.callers[id].Returned?
    ensures |s.slots| == |s.callers|
    ensures !s.callers[id].answer.ConnectionClosed? ==> s.slots[id] == Answered(s.callers[id].answer)
  {
    RunKeepsInv(Initial, steps, s);
    RunKeepsReturns(Initial, steps, s);
  }

  // An open connection carries every call through.

  lemma TailOfBoth(a: seq<Step>, b: seq<Step>)
    requires a != []
    ensures a + b != [] && (a + b)[0] == a[0] && (a + b)[1..] == a[1..] + b
  {
  }

  lemma {:induction false} RunConcat(s: State, a: seq<Step>, t: State, b: seq<Step>, u: State)
    requires Run(s, a, t) && Run(t, b, u)
    ensures Run(s, a + b, u)
    decreases |a|
  {
    if a == [] {
      assert a + b == b;
    } else {
      TailOfBoth(a, b);
      RunConcat(Next(s, a[0]).value, a[1..], t, b, u);
    }
  }

  lemma RunOne(s: State, step: Step)
    requires |s.slots| == |s.callers| && Next(s, step).Some?
    ensures Run(s, [step], Next(s, step).value)
  {
    assert [step][1..] == [];
    assert Run(Next(s, step).value, [], Next(s, step).value);
  }

  /** A run and one step more. */
  lemma RunSnoc(s: State, steps: seq<Step>, t: State, step: Step)
    requires Run(s, steps, t) && |t.slots| == |t.callers| && Next(t, step).Some?
    ensures Run(s, steps + [step], Next(t, step).value)
  {
    RunOne(t, step);
    RunConcat(s, steps, t, [step], Next(t, step).value);
  }

  /** The connection is up: nobody closes it, the sender serves, and the receiver reads. */
  predicate Up(s: State) {
    s.accepting && !s.terminal && !s.shutdown && InLoop(s.sender) && (s.receiver.Reading? || s.receiver.PolledStop?)
  }

  function SenderDistance(s: State): nat {
    5 * |s.queue| +
    match s.sender
    case Writing(_) => 1
    case Holding(_) => 2
    case PolledShutdown => 4
    case PolledFlag => 3
    case _ => 0
  }

  /** The sender can always write out everything that is queued. */
  lemma {:induction false} SenderCatchesUp(s: State) returns (steps: seq<Step>)
    requires Inv(s) && Up(s)
    ensures Run(s, steps, s.(sender := Idle, queue := []))
    ensures forall step :: step in steps ==> IsSenderStep(step)
    decreases SenderDistance(s)
  {
    var t := s.(sender := Idle, queue := []);
    if s.sender.Idle? && s.queue == [] {
      steps := [];
    } else if s.sender.Idle? {
      var first := [SenderPollsShutdown, SenderPollsFlag, SenderReceives(false)];
      var a, b := s.(sender := PolledShutdown), s.(sender := PolledFlag);
      var c := s.(sender := Holding(s.queue[0]), queue := s.queue[1..]);
      RunOne(s, SenderPollsShutdown);
      RunSnoc(s, [SenderPollsShutdown], a, SenderPollsFlag);
      RunSnoc(s, [SenderPollsShutdown] + [SenderPollsFlag], b, SenderReceives(false));
      var rest := SenderCatchesUp(c);
      steps := [SenderPollsShutdown] + [SenderPollsFlag] + [SenderReceives(false)] + rest;
      RunConcat(s, [SenderPollsShutdown] + [SenderPollsFlag] + [SenderReceives(false)], c, rest, t);
    } else {
      var step := SenderMove(s.sender);
      var next := Next(s, step).value;
      RunOne(s, step);
      NextKeepsInv(s, step);
      var rest := SenderCatchesUp(next);
      steps := [step] + rest;
      RunConcat(s, [step], next, rest, t);
    }
  }

  predicate OfCallWith(step: Step, id: nat) {
    IsSenderStep(step) || step.ReceiverPollsFlag? || step.ReceiverDelivers?
    || ((step.CallerRegisters? || step.CallerRechecks? || step.CallerEnqueues? || step.CallerWakes?) && step.id == id)
  }

  lemma SetTwice(callers: seq<Caller>, id: nat, a: Caller, b: Caller)
    requires id < |callers|
    ensures callers[id := a][id := b] == callers[id := b]
  {
  }

  lemma PolledDeliveryReturns(s: State, id: nat, answer: Answer)
    requires Inv(s) && s.receiver.PolledStop? && id in s.pending && s.callers[id].Awaiting?
    ensures Run(s, [ReceiverDelivers(id, answer)] + [CallerWakes(id)],
                s.(receiver := Reading, pending := s.pending - {id}, slots := s.slots[id := Answered(answer)],
                   callers := s.callers[id := Returned(answer)]))
  {
    var t := s.(receiver := Reading, pending := s.pending - {id}, slots := s.slots[id := Answered(answer)]);
    assert Next(s, ReceiverDelivers(id, answer)) == Some(t);
    RunOne(s, ReceiverDelivers(id, answer));
    WakingTakesTheAnswer(t, id);
    RunSnoc(s, [ReceiverDelivers(id, answer)], t, CallerWakes(id));
  }

  /** A frame with the id of a registered call that waits makes it return just the frame's answer. */
  lemma DeliveryReturns(s: State, id: nat, answer: Answer) returns (steps: seq<Step>)
    requires Inv(s) && Up(s) && id in s.pending && s.callers[id].Awaiting?
    ensures Run(s, steps, s.(receiver := Reading, pending := s.pending - {id}, slots := s.slots[id := Answered(answer)],
                             callers := s.callers[id := Returned(answer)]))
    ensures forall step :: step in steps ==> OfCallWith(step, id)
  {
    var last := [ReceiverDelivers(id, answer)] + [CallerWakes(id)];
    if s.receiver.PolledStop? {
      steps := last;
      PolledDeliveryReturns(s, id, answer);
    } else {
      var t := s.(receiver := PolledStop);
      RunOne(s, ReceiverPollsFlag);
      NextKeepsInv(s, ReceiverPollsFlag);
      PolledDeliveryReturns(t, id, answer);
      steps := [ReceiverPollsFlag] + last;
      RunConcat(s, [ReceiverPollsFlag], t, last,
                s.(receiver := Reading, pending := s.pending - {id}, slots := s.slots[id := Answered(answer)],
                   callers := s.callers[id := Returned(answer)]));
    }
  }

  /** A caller on its way in registers, passes its recheck and enqueues, once the queue has room. */
  lemma {:induction false} CallerGetsIn(s: State, id: nat) returns (steps: seq<Step>, t: State)
    requires Inv(s) && Up(s) && |s.queue| < QUEUE_CAPACITY && id < |s.callers| && s.slots[id].Open?
    requires s.callers[id].Admitted? || s.callers[id].Registered? || s.callers[id].Enqueuing?
    ensures Run(s, steps, t) && Inv(t) && Up(t) && id in t.pending
    ensures t == s.(callers := s.callers[id := Awaiting], queue := s.queue + [id], pending := s.pending + {id})
    ensures forall step :: step in steps ==> OfCallWith(step, id)
    decreases CallerRank(s.callers[id])
  {
    var step := if s.callers[id].Admitted? then CallerRegisters(id)
                else if s.callers[id].Registered? then CallerRechecks(id)
                else CallerEnqueues(id);
    var next := Next(s, step).value;
    RunOne(s, step);
    NextKeepsInv(s, step);
    if s.callers[id].Enqueuing? {
      steps, t := [step], next;
      assert s.pending + {id} == s.pending;
    } else {
      var rest;
      rest, t := CallerGetsIn(next, id);
      SetTwice(s.callers, id, next.callers[id], Awaiting);
      assert next.pending + {id} == s.pending + {id};
      steps := [step] + rest;
      RunConcat(s, [step], next, rest, t);
    }
  }

  /**
  While the connection is up no call is stuck: from every reachable state the caller's own steps, the sender and a
  frame of the receiver lead to the caller returning whatever the frame answers, with nobody else's channel touched.
  */
  lemma EveryCallCanBeAnswered(before: seq<Step>, s: State, id: nat, answer: Answer) returns (steps: seq<Step>, t: State)
    requires Run(Initial, before, s) && Up(s)
    requires id < |s.callers| && id < |s.slots| && !Done(s.callers[id]) && s.slots[id].Open?
    ensures Run(s, steps, t) && |t.callers| == |s.callers| && t.callers == s.callers[id := Returned(answer)]
    ensures |t.slots| == |s.slots| && t.slots == s.slots[id := Answered(answer)]
    ensures forall step :: step in steps ==> OfCallWith(step, id)
  {
    RunKeepsInv(Initial, before, s);
    var first := SenderCatchesUp(s);
    var u := s.(sender := Idle, queue := []);
    RunKeepsInv(s, first, u);
    var middle, w := [], u;
    if !s.callers[id].Awaiting? {
      middle, w := CallerGetsIn(u, id);
      SetTwice(s.callers, id, Awaiting, Returned(answer));
    }
    var last := DeliveryReturns(w, id, answer);
    t := w.(receiver := Reading, pending := w.pending - {id}, slots := w.slots[id := Answered(answer)],
            callers := w.callers[id := Returned(answer)]);
    assert Run(u, middle, w);
    RunConcat(s, first, u, middle, w);
    RunConcat(s, first + middle, w, last, t);
    steps := first + middle + last;
  }

  /** A call can be made whenever the connection is up. */
  lemma CallsAreAdmitted(s: State)
    requires Inv(s) && Up(s)
    ensures Next(s, CallerBegins).Some?
    ensures var t := Next(s, CallerBegins).value;
            && |t.callers| == |s.callers| + 1 && t.callers[|s.callers|].Admitted? && t.slots[|s.callers|].Open?
            && t.callers[..|s.callers|] == s.callers && Up(t)
  {
  }

  // Endings.

  predicate SenderEnding(w: Sender) {
    w.ClosingFrame? || w.MarkingEarly? || w.ClearingEarly? || w.ClosingSocket? || w.Marking? || w.Clearing?
  }

  /** A sender on its way out sets the flag, clears the map and is gone. */
  lemma {:induction false} SenderEnds(s: State) returns (steps: seq<Step>, t: State)
    requires Inv(s) && SenderEnding(s.sender)
    ensures Run(s, steps, t) && t.terminal && t.cleared && t.sender.Exited? && t.pending == {} && t.queue == []
    ensures forall step :: step in steps ==> IsSenderStep(step)
    ensures t.callers == s.callers && t.receiver == s.receiver && t.closer == s.closer
    decreases SenderRank(s.sender)
  {
    var step := SenderMove(s.sender);
    var next := Next(s, step).value;
    RunOne(s, step);
    NextKeepsInv(s, step);
    if s.sender.Clearing? {
      steps, t := [step], next;
    } else {
      var rest;
      rest, t := SenderEnds(next);
      steps := [step] + rest;
      RunConcat(s, [step], next, rest, t);
    }
  }

  /** A failed write, a queue nobody can feed any more, or the flag seen by the sender each end the connection. */
  lemma SenderGivesUp(s: State, step: Step) returns (steps: seq<Step>, t: State)
    requires Inv(s)
    requires (s.sender.Writing? && step == SenderWrites(false))
             || (s.sender.PolledFlag? && s.queue == [] && step == SenderReceives(true))
             || (s.sender.PolledShutdown? && s.terminal && step == SenderPollsFlag)
    ensures steps != [] && steps[0] == step && Run(s, steps, t)
    ensures t.terminal && t.cleared && t.sender.Exited? && t.pending == {} && t.callers == s.callers
  {
    var next := Next(s, step).value;
    RunOne(s, step);
    NextKeepsInv(s, step);
    var rest;
    rest, t := SenderEnds(next);
    steps := [step] + rest;
    RunConcat(s, [step], next, rest, t);
  }

  /** A failure while closing the connection ends the sender at once; the map has been cleared by then. */
  lemma FailedClosesEndTheSender(s: State, step: Step)
    requires Inv(s)
    requires (s.sender.ClearingEarly? && step == SenderClears(true)) || (s.sender.ClosingSocket? && step == SenderClosesSocket(false))
    ensures Next(s, step).Some?
    ensures var t := Next(s, step).value;
            t.sender.Exited? && t.queue == [] && t.cleared && t.callers == s.callers && t.terminal == s.terminal
  {
  }

  /** An aborted task stops where it awaits something, and only there; aborting comes after the wait for it timed out. */
  lemma AbortsStopTheTasks(s: State)
    requires Inv(s)
    ensures Next(s, SenderAborts).Some? <==>
              && (s.closer.Aborting? || s.closer.CloserMarking? || s.closer.CloserClearing? || s.closer.ClosedAll?)
              && (s.sender.Idle? || s.sender.Writing? || s.sender.ClosingFrame? || s.sender.ClosingSocket?)
    ensures Next(s, SenderAborts).Some? ==> Next(s, SenderAborts) == Some(s.(sender := Exited, queue := []))
    ensures Next(s, ReceiverAborts).Some? <==>
              && (s.closer.Aborting? || s.closer.CloserMarking? || s.closer.CloserClearing? || s.closer.ClosedAll?)
              && s.receiver.Reading?
    ensures Next(s, ReceiverAborts).Some? ==> Next(s, ReceiverAborts) == Some(s.(receiver := ReceiverExited))
  {
  }

  /** A receiver whose frames end, or that sees the flag, does the same. */
  lemma {:induction false} ReceiverEndsItself(s: State) returns (steps: seq<Step>, t: State)
    requires Inv(s) && !s.receiver.ReceiverExited? && (s.receiver.Reading? ==> s.terminal)
    ensures Run(s, steps, t) && t.terminal && t.cleared && t.receiver.ReceiverExited? && t.pending == {}
    ensures forall step :: step in steps ==> IsReceiverStep(step)
    ensures t.callers == s.callers && t.sender == s.sender && t.closer == s.closer
    decreases match s.receiver case PolledStop => 4 case Reading => 3 case _ => ReceiverRank(s.receiver)
  {
    var step := match s.receiver
      case PolledStop => ReceiverEnds
      case Reading => ReceiverPollsFlag
      case ReceiverMarking => ReceiverMarks
      case _ => ReceiverClears;
    var next := Next(s, step).value;
    RunOne(s, step);
    NextKeepsInv(s, step);
    if s.receiver.ReceiverClearing? {
      steps, t := [step], next;
    } else {
      var rest;
      rest, t := ReceiverEndsItself(next);
      steps := [step] + rest;
      RunConcat(s, [step], next, rest, t);
    }
  }

  /** A closing call refuses new calls and signals, and the sender, done with what it was writing, leaves its loop. */
  lemma CloseBegins(s: State) returns (steps: seq<Step>, t: State)
    requires Inv(s) && Up(s) && s.closer.NotClosing?
    ensures t == s.(sender := ClosingFrame, queue := [], accepting := false, shutdown := true, closer := Joining)
    ensures Run(s, steps, t) && Inv(t)
  {
    var a := SenderCatchesUp(s);
    var u := s.(sender := Idle, queue := []);
    RunKeepsInv(s, a, u);
    var v := u.(accepting := false, closer := Refusing);
    RunSnoc(s, a, u, CloserRefuses);
    NextKeepsInv(u, CloserRefuses);
    var w := v.(shutdown := true, closer := Joining);
    RunSnoc(s, a + [CloserRefuses], v, CloserSignals);
    NextKeepsInv(v, CloserSignals);
    t := w.(sender := ClosingFrame);
    RunSnoc(s, a + [CloserRefuses] + [CloserSignals], w, SenderPollsShutdown);
    NextKeepsInv(w, SenderPollsShutdown);
    steps := a + [CloserRefuses] + [CloserSignals] + [SenderPollsShutdown];
  }

  /** Once the sender has left its loop, both tasks end and are joined. */
  lemma CloseEnds(s: State) returns (steps: seq<Step>, t: State)
    requires Inv(s) && s.sender.ClosingFrame? && s.receiver.Reading? && s.closer.Joining? && !s.accepting
    ensures Run(s, steps, t) && t.closer.ClosedAll? && t.terminal && t.cleared && !t.accepting
    ensures t.sender.Exited? && t.receiver.ReceiverExited? && t.pending == {} && t.callers == s.callers
  {
    var a, u := SenderEnds(s);
    RunKeepsInv(s, a, u);
    RunKept(s, a, u);
    var b, v := ReceiverEndsItself(u);
    RunKeepsInv(u, b, v);
    RunKept(u, b, v);
    RunConcat(s, a, u, b, v);
    RunSnoc(s, a + b, v, CloserJoins);
    steps, t := a + b + [CloserJoins], Next(v, CloserJoins).value;
  }

  /**
  A closing call comes to its end: it refuses new calls and signals, the sender closes, the receiver sees the flag,
  both are joined, and the map is cleared.
  */
  lemma CloseCompletes(s: State) returns (steps: seq<Step>, t: State)
    requires Inv(s) && Up(s) && s.closer.NotClosing? && s.receiver.Reading?
    ensures Run(s, steps, t) && t.closer.ClosedAll? && t.terminal && t.cleared && !t.accepting
    ensures t.sender.Exited? && t.receiver.ReceiverExited? && t.pending == {} && t.callers == s.callers
  {
    var a, u := CloseBegins(s);
    var b;
    b, t := CloseEnds(u);
    steps := a + b;
    RunConcat(s, a, u, b, t);
  }

  lemma CloserMarksAndClears(s: State) returns (t: State)
    requires Inv(s) && s.closer.CloserMarking?
    ensures Run(s, [CloserMarks] + [CloserClears], t) && t.closer.ClosedAll?
    ensures t.terminal && t.cleared && t.pending == {} && t.callers == s.callers
  {
    var u := s.(closer := CloserClearing, terminal := true);
    RunOne(s, CloserMarks);
    RunSnoc(s, [CloserMarks], u, CloserClears);
    t := Next(u, CloserClears).value;
  }

  /** A closing call that times out waiting for the tasks ends the connection by itself. */
  lemma TimedOutCloseCompletes(s: State) returns (t: State)
    requires Inv(s) && s.closer.Joining?
    ensures Run(s, [CloserTimesOut] + [CloserStopsWaiting] + ([CloserMarks] + [CloserClears]), t) && t.closer.ClosedAll?
    ensures t.terminal && t.cleared && t.pending == {} && t.callers == s.callers
  {
    var a, b := s.(closer := Aborting), s.(closer := CloserMarking);
    RunOne(s, CloserTimesOut);
    RunSnoc(s, [CloserTimesOut], a, CloserStopsWaiting);
    t := CloserMarksAndClears(b);
    RunConcat(s, [CloserTimesOut] + [CloserStopsWaiting], b, [CloserMarks] + [CloserClears], t);
  }

  /** A call that registered on a connection no longer up takes its entry back and fails. */
  lemma LateCallsFail(s: State, id: nat)
    requires Inv(s) && (s.terminal || !s.accepting) && id < |s.callers| && s.callers[id].Registered?
    ensures Next(s, CallerRechecks(id)).Some?
    ensures var t := Next(s, CallerRechecks(id)).value;
            t.callers == s.callers[id := Returned(ConnectionClosed)] && t.pending == s.pending - {id} && t.queue == s.queue
  {
  }

  /** A command that cannot be serialized is not reported: its caller goes on waiting, and nothing was written. */
  lemma UnserializableIsNotReported(s: State, id: nat)
    requires Inv(s) && s.sender == Holding(id) && id < |s.callers| && s.callers[id].Awaiting? && s.slots[id].Open?
    ensures Next(s, SenderSerializes(false)) == Some(s.(sender := Idle))
    ensures Next(s.(sender := Idle), CallerWakes(id)).None? && id in s.pending
  {
  }

  /** A call can be dropped wherever it awaits something; its entry and its command go on without it. */
  lemma CallsCanBeDropped(s: State, id: nat)
    requires Inv(s) && id < |s.callers| && (s.callers[id].Enqueuing? || s.callers[id].Awaiting?)
    ensures Next(s, CallerGivesUp(id)) == Some(s.(callers := s.callers[id := Cancelled]))
  {
  }

  /** Nobody ever takes a closing call's refusal back. */
  lemma {:induction false} RunKept(s: State, steps: seq<Step>, t: State)
    requires Inv(s) && !s.accepting && Run(s, steps, t)
    ensures !t.accepting
    decreases |steps|
  {
    if steps != [] {
      NextKeepsInv(s, steps[0]);
      RefusalStays(s, steps[0]);
      RunKept(Next(s, steps[0]).value, steps[1..], t);
    }
  }

  lemma RefusalStays(s: State, step: Step)
    requires |s.slots| == |s.callers| && !s.accepting && Next(s, step).Some?
    ensures !Next(s, step).value.accepting
  {
    if IsSenderStep(step) && !step.SenderAborts? {
      SenderKeepsRefusal(s, step);
    }
  }

  lemma SenderKeepsRefusal(s: State, step: Step)
    requires !step.SenderAborts? && SenderStep(s, step).Some?
    ensures SenderStep(s, step).value.accepting == s.accepting
  {
    if InLoop(s.sender) {
      assert LoopStep(s, step).value.accepting == s.accepting;
    } else {
      assert EndStep(s, step).value.accepting == s.accepting;
    }
  }

  // What no run does.

  lemma SenderShortens(s: State, step: Step)
    requires SenderStep(s, step).Some?
    ensures |SenderStep(s, step).value.queue| <= |s.queue|
  {
    if !step.SenderAborts? && !InLoop(s.sender) {
      assert |EndStep(s, step).value.queue| <= |s.queue|;
    }
  }

  lemma CallerKeepsBound(s: State, step: Step)
    requires |s.slots| == |s.callers| && |s.queue| <= 256 && CallerStep(s, step).Some?
    ensures |CallerStep(s, step).value.queue| <= 256
  {
  }

  lemma NextKeepsBound(s: State, step: Step)
    requires |s.slots| == |s.callers| && |s.queue| <= 256 && Next(s, step).Some?
    ensures |Next(s, step).value.queue| <= 256
  {
    if IsSenderStep(step) {
      SenderShortens(s, step);
    } else if !IsReceiverStep(step) && !IsCloserStep(step) {
      CallerKeepsBound(s, step);
    }
  }

  lemma {:induction false} RunKeepsBound(s: State, steps: seq<Step>, t: State)
    requires |s.queue| <= 256 && Run(s, steps, t)
    ensures |t.queue| <= 256
    decreases |steps|
  {
    if steps != [] {
      NextKeepsBound(s, steps[0]);
      RunKeepsBound(Next(s, steps[0]).value, steps[1..], t);
    }
  }

  /** The outbound queue never holds more than 256 commands. */
  lemma QueueIsBounded(steps: seq<Step>, s: State)
    requires Run(Initial, steps, s)
    ensures |s.queue| <= 256
  {
    RunKeepsBound(Initial, steps, s);
  }

  /** The connection has ended for its callers: the flag is set, a close refuses them, or the sender is gone. */
  predicate Over(s: State) {
    s.terminal || !s.accepting || s.sender.Exited?
  }

  predicate ToldClosed(c: Caller, slot: Slot<Answer>) {
    c == Returned(ConnectionClosed) || slot == Answered(ConnectionClosed) || (slot.Dropped? && !Done(c))
  }

  ghost predicate ClosedWhenOver(s: State)
    requires |s.slots| == |s.callers|
  {
    forall id :: 0 <= id < |s.callers| && ToldClosed(s.callers[id], s.slots[id]) ==> Over(s)
  }

  lemma OverStays(s: State, step: Step)
    requires |s.slots| == |s.callers| && Over(s) && Next(s, step).Some?
    ensures Over(Next(s, step).value)
  {
    if IsSenderStep(step) && !step.SenderAborts? {
      SenderKeepsRefusal(s, step);
    }
  }

  lemma CallerIsTold(s: State, step: Step, id: nat)
    requires Inv(s) && CallerStep(s, step).Some? && id < |CallerStep(s, step).value.callers|
    requires !Over(s) && (id < |s.callers| ==> !ToldClosed(s.callers[id], s.slots[id]))
    ensures id < |CallerStep(s, step).value.slots|
    ensures !ToldClosed(CallerStep(s, step).value.callers[id], CallerStep(s, step).value.slots[id])
  {
  }

  lemma SenderTells(s: State, step: Step, id: nat)
    requires Inv(s) && SenderStep(s, step).Some? && id < |s.slots|
    requires !Over(SenderStep(s, step).value)
    ensures id < |SenderStep(s, step).value.slots| && SenderStep(s, step).value.slots[id] == s.slots[id]
  {
    if !step.SenderAborts? {
      if InLoop(s.sender) {
        LoopLeavesSlots(s, step);
      } else {
        assert EndStep(s, step).value.slots[id] == s.slots[id];
      }
    }
  }

  lemma ReceiverTells(s: State, step: Step, id: nat)
    requires Inv(s) && ReceiverStep(s, step).Some? && id < |s.slots| && !Over(ReceiverStep(s, step).value)
    requires !(step.ReceiverDelivers? && step.answer.ConnectionClosed?) && !s.slots[id].Dropped?
    requires s.slots[id] != Answered(ConnectionClosed)
    ensures id < |ReceiverStep(s, step).value.slots| && !ReceiverStep(s, step).value.slots[id].Dropped?
    ensures ReceiverStep(s, step).value.slots[id] != Answered(ConnectionClosed)
  {
  }

  lemma CloserTells(s: State, step: Step)
    requires Inv(s) && CloserStep(s, step).Some?
    ensures Over(CloserStep(s, step).value)
  {
  }

  lemma ReceiverLeavesDone(s: State, step: Step, id: nat)
    requires Inv(s) && ReceiverStep(s, step).Some? && id < |s.slots| && !Over(ReceiverStep(s, step).value)
    requires !(step.ReceiverDelivers? && step.answer.ConnectionClosed?) && !ToldClosed(s.callers[id], s.slots[id])
    ensures id < |ReceiverStep(s, step).value.slots| && ReceiverStep(s, step).value.callers == s.callers
    ensures !ToldClosed(s.callers[id], ReceiverStep(s, step).value.slots[id])
  {
    if !s.slots[id].Dropped? {
      ReceiverTells(s, step, id);
    }
  }

  lemma StaysUntold(s: State, step: Step, id: nat)
    requires Inv(s) && Next(s, step).Some? && !Over(Next(s, step).value) && id < |Next(s, step).value.callers|
    requires id < |s.callers| ==> !ToldClosed(s.callers[id], s.slots[id])
    requires !(step.ReceiverDelivers? && step.answer.ConnectionClosed?)
    ensures id < |Next(s, step).value.slots|
    ensures !ToldClosed(Next(s, step).value.callers[id], Next(s, step).value.slots[id])
  {
    if Over(s) {
      OverStays(s, step);
    } else if IsSenderStep(step) {
      TasksLeaveCallers(s, step);
      SenderTells(s, step, id);
    } else if IsReceiverStep(step) {
      ReceiverLeavesDone(s, step, id);
    } else if IsCloserStep(step) {
      CloserTells(s, step);
    } else {
      CallerIsTold(s, step, id);
    }
  }

  lemma NextKeepsClosedWhenOver(s: State, step: Step)
    requires Inv(s) && ClosedWhenOver(s) && Next(s, step).Some?
    requires !(step.ReceiverDelivers? && step.answer.ConnectionClosed?)
    ensures |Next(s, step).value.slots| == |Next(s, step).value.callers| && ClosedWhenOver(Next(s, step).value)
  {
    var t := Next(s, step).value;
    NextKeepsInv(s, step);
    if Over(s) {
      OverStays(s, step);
    } else if !Over(t) {
      forall id | 0 <= id < |t.callers|
        ensures !ToldClosed(t.callers[id], t.slots[id])
      {
        StaysUntold(s, step, id);
      }
    }
  }

  lemma {:induction false} RunKeepsClosedWhenOver(s: State, steps: seq<Step>, t: State)
    requires Inv(s) && ClosedWhenOver(s) && Run(s, steps, t)
    requires forall step :: step in steps && step.ReceiverDelivers? ==> !step.answer.ConnectionClosed?
    ensures |t.slots| == |t.callers| && ClosedWhenOver(t)
    decreases |steps|
  {
    if steps != [] {
      NextKeepsInv(s, steps[0]);
      NextKeepsClosedWhenOver(s, steps[0]);
      RunKeepsClosedWhenOver(Next(s, steps[0]).value, steps[1..], t);
    }
  }

  /** No call is told that the connection is closed while it is up (frames carry replies and errors only). */
  lemma ClosedMeansOver(steps: seq<Step>, s: State, id: nat)
    requires Run(Initial, steps, s) && id < |s.callers| && s.callers[id] == Returned(ConnectionClosed)
    requires forall step :: step in steps && step.ReceiverDelivers? ==> !step.answer.ConnectionClosed?
    ensures s.terminal || !s.accepting || s.sender.Exited?
  {
    RunKeepsInv(Initial, steps, s);
    RunKeepsClosedWhenOver(Initial, steps, s);
  }
}
