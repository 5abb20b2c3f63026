/**
The Chrome DevTools client as a machine of atomic steps.

Callers, one writer task and one reader task share a `pending` map of response senders, an outbound queue and a
one-way terminal flag.
*/
module CdpTransport {
  import opened Channels
  import opened Wrappers

  // Each step below is one atomic operation of the source (one map operation, one flag access, one channel operation)
  // or one completed await. A biased `select!` is split into the poll of its first arm and the poll of its second, so
  // that the flag may be set between the two. A caller's position in `callers` stands for its request id (the source
  // counts ids from 1).

  const QUEUE_CAPACITY: nat := 128

  datatype Answer = Reply(payload: int) | Refused(code: int) | ConnectionClosed | SerializeFailed | WriteFailed

  datatype Caller = Enqueuing | Awaiting | PolledFlag | Returned(answer: Answer) | Cancelled

  datatype Command = Send(id: nat) | Close

  datatype Writer =
    | Idle
    | WriterPolled
    | Holding(command: Command)
    | Registered(id: nat)
    | Writing(id: nat)
    | Flushing(id: nat)
    | ClosingStream
    | Marking
    | Clearing
    | Exited

  datatype Reader = Reading | ReaderMarking | ReaderClearing | ReaderExited

  datatype State = State(
    terminal: bool,
    cleared: bool, // some task has completed mark_terminal
    clientDropped: bool,
    pending: set<nat>,
    queue: seq<Command>,
    writer: Writer,
    reader: Reader,
    callers: seq<Caller>,
    slots: seq<Slot<Answer>>)

  const Initial := State(false, false, false, {}, [], Idle, Reading, [], [])

  datatype Flush = Flushed | FlushFailed | FlushPending

  datatype Step =
    | CallerBegins
    | CallerEnqueues(id: nat)
    | CallerFindsQueueClosed(id: nat)
    | CallerPollsFlag(id: nat)
    | CallerPollsResponse(id: nat)
    | CallerGivesUp(id: nat)
    | CloseRequested
    | ClientDropped
    | WriterPollsFlag
    | WriterReceives
    | WriterSerializes(ok: bool)
    | WriterRechecks
    | WriterPollsFlagWhileWriting
    | WriterFlushes(outcome: Flush)
    | WriterClosesStream
    | WriterMarks
    | WriterClears
    | ReaderDelivers(id: nat, answer: Answer)
    | ReaderEnds
    | ReaderMarks
    | ReaderClears

  predicate Done(c: Caller) {
    c.Returned? || c.Cancelled?
  }

  function Queued(queue: seq<Command>): set<nat> {
    set k | 0 <= k < |queue| && queue[k].Send? :: queue[k].id
  }

  /** The writer returns: its receiver goes away and takes the queued commands along. */
  function Exit(s: State): State {
    s.(writer := Exited, queue := [], slots := DropSenders(s.slots, Queued(s.queue)))
  }

  /** Remove an entry and answer through the sender it held, if the entry is still there. */
  function AnswerEntry(s: State, id: nat, answer: Answer): State
    requires |s.slots| == |s.callers|
  {
    if id in s.pending && id < |s.slots| then
      s.(pending := s.pending - {id}, slots := s.slots[id := Answered(answer)])
    else
      s
  }

  /** The second half of mark_terminal: every entry is removed and its sender dropped. */
  function ClearPending(s: State): State {
    s.(pending := {}, slots := DropSenders(s.slots, s.pending), cleared := true)
  }

  /** What a caller makes of its response channel when it polls it. */
  function Polled(slot: Slot<Answer>): Caller {
    match slot
    case Open => Awaiting
    case Answered(answer) => Returned(answer)
    case Dropped => Returned(ConnectionClosed)
  }

  function CallerStep(s: State, step: Step): Option<State>
    requires |s.slots| == |s.callers|
  {
    match step
    case CallerBegins =>
      if s.terminal || s.clientDropped then None
      else Some(s.(callers := s.callers + [Enqueuing], slots := s.slots + [Open]))
    case CallerEnqueues(id) =>
      if id < |s.callers| && s.callers[id].Enqueuing? && !s.writer.Exited? && |s.queue| < QUEUE_CAPACITY then
        Some(s.(callers := s.callers[id := Awaiting], queue := s.queue + [Send(id)]))
      else None
    case CallerFindsQueueClosed(id) =>
      if id < |s.callers| && s.callers[id].Enqueuing? && s.writer.Exited? then
        Some(s.(callers := s.callers[id := Returned(ConnectionClosed)], slots := DropSenders(s.slots, {id})))
      else None
    case CallerPollsFlag(id) =>
      if id < |s.callers| && s.callers[id].Awaiting? then
        Some(s.(callers := s.callers[id := if s.terminal then Returned(ConnectionClosed) else PolledFlag]))
      else None
    case CallerPollsResponse(id) =>
      if id < |s.callers| && s.callers[id].PolledFlag? then
        Some(s.(callers := s.callers[id := Polled(s.slots[id])]))
      else None
    case CallerGivesUp(id) =>
      if id < |s.callers| && s.callers[id].Enqueuing? then
        Some(s.(callers := s.callers[id := Cancelled], slots := DropSenders(s.slots, {id})))
      else if id < |s.callers| && s.callers[id].Awaiting? then
        Some(s.(callers := s.callers[id := Cancelled]))
      else None
    case CloseRequested =>
      if !s.clientDropped && !s.writer.Exited? && |s.queue| < QUEUE_CAPACITY then
        Some(s.(queue := s.queue + [Close]))
      else None
    case ClientDropped =>
      if forall i :: 0 <= i < |s.callers| ==> Done(s.callers[i]) then Some(s.(clientDropped := true)) else None
    case _ => None
  }

  function WriterStep(s: State, step: Step): Option<State>
    requires |s.slots| == |s.callers|
  {
    match (step, s.writer)
    case (WriterPollsFlag, Idle) =>
      Some(if s.terminal then Exit(s) else s.(writer := WriterPolled))
    case (WriterReceives, WriterPolled) =>
      if s.queue != [] then Some(s.(writer := Holding(s.queue[0]), queue := s.queue[1..]))
      else if s.clientDropped then Some(Exit(s))
      else Some(s.(writer := Idle))
    case (WriterSerializes(ok), Holding(Send(id))) =>
      if id >= |s.slots| then None
      else if ok then Some(s.(writer := Registered(id), pending := s.pending + {id}))
      else Some(s.(writer := Idle, slots := s.slots[id := Answered(SerializeFailed)]))
    case (WriterSerializes(_), Holding(Close)) =>
      Some(s.(writer := ClosingStream))
    case (WriterRechecks, Registered(id)) =>
      Some(if s.terminal then Exit(AnswerEntry(s, id, ConnectionClosed)) else s.(writer := Writing(id)))
    case (WriterPollsFlagWhileWriting, Writing(id)) =>
      Some(if s.terminal then Exit(AnswerEntry(s, id, ConnectionClosed)) else s.(writer := Flushing(id)))
    case (WriterFlushes(Flushed), Flushing(id)) => Some(s.(writer := Idle))
    case (WriterFlushes(FlushPending), Flushing(id)) => Some(s.(writer := Writing(id)))
    case (WriterFlushes(FlushFailed), Flushing(id)) =>
      Some(AnswerEntry(s, id, WriteFailed).(writer := Marking))
    case (WriterClosesStream, ClosingStream) => Some(s.(writer := Marking))
    case (WriterMarks, Marking) => Some(s.(terminal := true, writer := Clearing))
    case (WriterClears, Clearing) => Some(Exit(ClearPending(s)))
    case _ => None
  }

  function ReaderStep(s: State, step: Step): Option<State>
    requires |s.slots| == |s.callers|
  {
    match (step, s.reader)
    case (ReaderDelivers(id, answer), Reading) => Some(AnswerEntry(s, id, answer))
    case (ReaderEnds, Reading) => Some(s.(reader := ReaderMarking))
    case (ReaderMarks, ReaderMarking) => Some(s.(terminal := true, reader := ReaderClearing))
    case (ReaderClears, ReaderClearing) => Some(ClearPending(s).(reader := ReaderExited))
    case _ => None
  }

  predicate IsWriterStep(step: Step) {
    step.WriterPollsFlag? || step.WriterReceives? || step.WriterSerializes? || step.WriterRechecks?
    || step.WriterPollsFlagWhileWriting? || step.WriterFlushes? || step.WriterClosesStream?
    || step.WriterMarks? || step.WriterClears?
  }

  predicate IsReaderStep(step: Step) {
    step.ReaderDelivers? || step.ReaderEnds? || step.ReaderMarks? || step.ReaderClears?
  }

  /** The state after a step, or None where the step is not enabled. */
  function Next(s: State, step: Step): Option<State>
    requires |s.slots| == |s.callers|
  {
    if IsWriterStep(step) then WriterStep(s, step)
    else if IsReaderStep(step) then ReaderStep(s, step)
    else CallerStep(s, step)
  }

  // The invariant.

  function Occurrences(queue: seq<Command>, id: nat): nat {
    multiset(queue)[Send(id)]
  }

  /** How many places hold the response sender of a caller. */
  function Holders(s: State, id: nat): nat
    requires id < |s.callers|
  {
    (if s.callers[id].Enqueuing? then 1 else 0)
    + Occurrences(s.queue, id)
    + (if s.writer == Holding(Send(id)) then 1 else 0)
    + (if id in s.pending then 1 else 0)
  }

  /** The id the writer has registered and not rechecked yet. */
  function Unchecked(w: Writer): set<nat> {
    if w.Registered? then {w.id} else {}
  }

  ghost predicate WellFormed(s: State) {
    && |s.slots| == |s.callers|
    && (forall id :: id in s.pending ==> id < |s.callers|)
    && (forall k :: 0 <= k < |s.queue| && s.queue[k].Send? ==> s.queue[k].id < |s.callers|)
    && (s.writer.Holding? && s.writer.command.Send? ==> s.writer.command.id < |s.callers|)
    && (s.writer.Exited? ==> s.queue == [])
    && (s.clientDropped ==> forall i :: 0 <= i < |s.callers| ==> Done(s.callers[i]))
  }

  ghost predicate Conserved(s: State)
    requires |s.slots| == |s.callers|
  {
    forall id :: 0 <= id < |s.callers| ==> Holders(s, id) == if s.slots[id].Open? then 1 else 0
  }

  ghost predicate TerminalSafe(s: State) {
    && (s.cleared || s.writer.Clearing? || s.reader.ReaderClearing? ==> s.terminal)
    && (s.cleared ==> s.pending <= Unchecked(s.writer))
  }

  ghost predicate Inv(s: State) {
    WellFormed(s) && Conserved(s) && TerminalSafe(s)
  }

  lemma QueueSplit(queue: seq<Command>)
    requires queue != []
    ensures multiset(queue) == multiset{queue[0]} + multiset(queue[1..])
  {
    assert queue == [queue[0]] + queue[1..];
  }

  lemma QueuedOccurs(queue: seq<Command>, id: nat)
    ensures id in Queued(queue) <==> Occurrences(queue, id) > 0
  {
    if id in Queued(queue) {
      var k :| 0 <= k < |queue| && queue[k].Send? && queue[k].id == id;
      assert queue[k] in queue && queue[k] == Send(id);
    }
  }

  lemma ExitKeepsInv(s: State)
    requires WellFormed(s) && Conserved(s) && !s.writer.Holding?
    requires s.cleared ==> s.terminal && s.pending == {}
    requires s.reader.ReaderClearing? ==> s.terminal
    ensures Inv(Exit(s))
  {
    var t := Exit(s);
    forall id | 0 <= id < |t.callers|
      ensures Holders(t, id) == if t.slots[id].Open? then 1 else 0
    {
      QueuedOccurs(s.queue, id);
      assert Holders(s, id) == if s.slots[id].Open? then 1 else 0;
    }
  }

  lemma AnswerKeepsInv(s: State, id: nat, answer: Answer)
    requires Inv(s)
    ensures Inv(AnswerEntry(s, id, answer)) && id !in AnswerEntry(s, id, answer).pending
  {
    var t := AnswerEntry(s, id, answer);
    forall i | 0 <= i < |t.callers|
      ensures Holders(t, i) == if t.slots[i].Open? then 1 else 0
    {
      assert Holders(s, i) == if s.slots[i].Open? then 1 else 0;
    }
  }

  lemma ClearKeepsInv(s: State)
    requires Inv(s) && s.terminal
    ensures Inv(ClearPending(s))
  {
    var t := ClearPending(s);
    forall i | 0 <= i < |t.callers|
      ensures Holders(t, i) == if t.slots[i].Open? then 1 else 0
    {
      assert Holders(s, i) == if s.slots[i].Open? then 1 else 0;
    }
  }

  lemma CallerKeepsInv(s: State, step: Step)
    requires Inv(s) && CallerStep(s, step).Some?
    ensures Inv(CallerStep(s, step).value)
  {
    var t := CallerStep(s, step).value;
    match step
    case CallerBegins => BeginKeepsInv(s);
    case CallerEnqueues(id) => EnqueueKeepsInv(s, id);
    case CloseRequested =>
      forall i | 0 <= i < |t.callers|
        ensures Holders(t, i) == if t.slots[i].Open? then 1 else 0
      {
        assert Holders(s, i) == if s.slots[i].Open? then 1 else 0;
      }
    case ClientDropped =>
    case _ => SettleKeepsInv(s, step);
  }

  lemma BeginKeepsInv(s: State)
    requires Inv(s) && CallerStep(s, CallerBegins).Some?
    ensures Inv(CallerStep(s, CallerBegins).value)
  {
    var t := CallerStep(s, CallerBegins).value;
    forall i | 0 <= i < |t.callers|
      ensures Holders(t, i) == if t.slots[i].Open? then 1 else 0
    {
      if i < |s.callers| {
        assert Holders(s, i) == if s.slots[i].Open? then 1 else 0;
      } else {
        QueuedOccurs(s.queue, i);
      }
    }
  }

  lemma EnqueueKeepsInv(s: State, id: nat)
    requires Inv(s) && CallerStep(s, CallerEnqueues(id)).Some?
    ensures Inv(CallerStep(s, CallerEnqueues(id)).value)
  {
    var t := CallerStep(s, CallerEnqueues(id)).value;
    assert multiset(t.queue) == multiset(s.queue) + multiset{Send(id)};
    forall i | 0 <= i < |t.callers|
      ensures Holders(t, i) == if t.slots[i].Open? then 1 else 0
    {
      assert Holders(s, i) == if s.slots[i].Open? then 1 else 0;
    }
  }

  /** A caller still holding its own sender drops it. */
  lemma LeaveKeepsInv(s: State, id: nat, c: Caller)
    requires Inv(s) && id < |s.callers| && s.callers[id].Enqueuing? && Done(c)
    ensures Inv(s.(callers := s.callers[id := c], slots := DropSenders(s.slots, {id})))
  {
    var t := s.(callers := s.callers[id := c], slots := DropSenders(s.slots, {id}));
    forall i | 0 <= i < |t.callers|
      ensures Holders(t, i) == if t.slots[i].Open? then 1 else 0
    {
      assert Holders(s, i) == if s.slots[i].Open? then 1 else 0;
    }
  }

  /** Moving a caller that has handed its sender over. */
  lemma MoveCallerKeepsInv(s: State, id: nat, c: Caller)
    requires Inv(s) && id < |s.callers| && (s.callers[id].Awaiting? || s.callers[id].PolledFlag?) && !c.Enqueuing?
    ensures Inv(s.(callers := s.callers[id := c]))
  {
    var t := s.(callers := s.callers[id := c]);
    forall i | 0 <= i < |t.callers|
      ensures Holders(t, i) == if t.slots[i].Open? then 1 else 0
    {
      assert Holders(s, i) == if s.slots[i].Open? then 1 else 0;
    }
  }

  lemma SettleKeepsInv(s: State, step: Step)
    requires Inv(s) && CallerStep(s, step).Some?
    requires step.CallerFindsQueueClosed? || step.CallerPollsFlag? || step.CallerPollsResponse? || step.CallerGivesUp?
    ensures Inv(CallerStep(s, step).value)
  {
    var id := step.id;
    var c := CallerStep(s, step).value.callers[id];
    if s.callers[id].Enqueuing? {
      LeaveKeepsInv(s, id, c);
    } else {
      MoveCallerKeepsInv(s, id, c);
    }
  }

  lemma WriterKeepsInv(s: State, step: Step)
    requires Inv(s) && WriterStep(s, step).Some?
    ensures Inv(WriterStep(s, step).value)
  {
    match s.writer
    case Idle => if s.terminal { ExitKeepsInv(s); }
    case WriterPolled => ReceiveKeepsInv(s);
    case Holding(_) => SerializeKeepsInv(s, step.ok);
    case Registered(id) => InterruptKeepsInv(s, id);
    case Writing(id) => InterruptKeepsInv(s, id);
    case Flushing(id) => FlushKeepsInv(s, id, step.outcome);
    case ClosingStream =>
    case Marking =>
    case Clearing =>
      ClearKeepsInv(s);
      ExitKeepsInv(ClearPending(s));
  }

  lemma ReceiveKeepsInv(s: State)
    requires Inv(s) && s.writer.WriterPolled?
    ensures Inv(WriterStep(s, WriterReceives).value)
  {
    if s.queue != [] {
      var t := WriterStep(s, WriterReceives).value;
      QueueSplit(s.queue);
      forall i | 0 <= i < |t.callers|
        ensures Holders(t, i) == if t.slots[i].Open? then 1 else 0
      {
        assert Holders(s, i) == if s.slots[i].Open? then 1 else 0;
      }
    } else if s.clientDropped {
      ExitKeepsInv(s);
    }
  }

  lemma SerializeMovesTheSender(s: State, ok: bool, i: nat)
    requires Inv(s) && s.writer.Holding? && i < |s.callers|
    ensures WriterStep(s, WriterSerializes(ok)).Some?
    ensures var t := WriterStep(s, WriterSerializes(ok)).value;
            && |t.callers| == |s.callers| && |t.slots| == |s.slots|
            && Holders(t, i) == if t.slots[i].Open? then 1 else 0
  {
    assert Holders(s, i) == if s.slots[i].Open? then 1 else 0;
  }

  lemma SerializeKeepsInv(s: State, ok: bool)
    requires Inv(s) && s.writer.Holding?
    ensures WriterStep(s, WriterSerializes(ok)).Some? && Inv(WriterStep(s, WriterSerializes(ok)).value)
  {
    var t := WriterStep(s, WriterSerializes(ok)).value;
    forall i | 0 <= i < |t.callers|
      ensures Holders(t, i) == if t.slots[i].Open? then 1 else 0
    {
      SerializeMovesTheSender(s, ok, i);
    }
  }

  lemma InterruptKeepsInv(s: State, id: nat)
    requires Inv(s) && (s.writer == Registered(id) || s.writer == Writing(id))
    ensures s.terminal ==> Inv(Exit(AnswerEntry(s, id, ConnectionClosed)))
    ensures !s.terminal ==> Inv(s.(writer := Writing(id))) && Inv(s.(writer := Flushing(id)))
  {
    if s.terminal {
      AnswerKeepsInv(s, id, ConnectionClosed);
      ExitKeepsInv(AnswerEntry(s, id, ConnectionClosed));
    } else {
      RenameWriterKeepsInv(s, Writing(id));
      RenameWriterKeepsInv(s, Flushing(id));
    }
  }

  /** Moving the writer between positions that hold no sender. */
  lemma RenameWriterKeepsInv(s: State, w: Writer)
    requires Inv(s) && !s.writer.Holding? && !w.Holding? && !w.Exited? && !w.Clearing?
    requires s.cleared ==> s.pending == {}
    ensures Inv(s.(writer := w))
  {
    var t := s.(writer := w);
    forall i | 0 <= i < |t.callers|
      ensures Holders(t, i) == if t.slots[i].Open? then 1 else 0
    {
      assert Holders(s, i) == if s.slots[i].Open? then 1 else 0;
    }
  }

  lemma FlushKeepsInv(s: State, id: nat, outcome: Flush)
    requires Inv(s) && s.writer == Flushing(id)
    ensures Inv(WriterStep(s, WriterFlushes(outcome)).value)
  {
    match outcome
    case Flushed => RenameWriterKeepsInv(s, Idle);
    case FlushPending => RenameWriterKeepsInv(s, Writing(id));
    case FlushFailed =>
      AnswerKeepsInv(s, id, WriteFailed);
      RenameWriterKeepsInv(AnswerEntry(s, id, WriteFailed), Marking);
  }

  lemma ReaderKeepsInv(s: State, step: Step)
    requires Inv(s) && ReaderStep(s, step).Some?
    ensures Inv(ReaderStep(s, step).value)
  {
    match s.reader
    case Reading => if step.ReaderDelivers? { AnswerKeepsInv(s, step.id, step.answer); }
    case ReaderClearing => ClearKeepsInv(s);
    case _ =>
  }

  lemma NextKeepsInv(s: State, step: Step)
    requires Inv(s) && Next(s, step).Some?
    ensures Inv(Next(s, step).value)
  {
    if IsWriterStep(step) {
      WriterKeepsInv(s, step);
    } else if IsReaderStep(step) {
      ReaderKeepsInv(s, step);
    } else {
      CallerKeepsInv(s, step);
    }
  }

  /** Any interleaving: a sequence of steps, each enabled where it is taken. */
  ghost predicate Run(s: State, steps: seq<Step>, t: State)
    decreases |steps|
  {
    if steps == [] then s == t
    else |s.slots| == |s.callers| && Next(s, steps[0]).Some? && Run(Next(s, steps[0]).value, steps[1..], t)
  }

  lemma {:induction false} RunKeepsInv(s: State, steps: seq<Step>, t: State)
    requires Inv(s) && Run(s, steps, t)
    ensures Inv(t)
    decreases |steps|
  {
    if steps != [] {
      NextKeepsInv(s, steps[0]);
      RunKeepsInv(Next(s, steps[0]).value, steps[1..], t);
    }
  }

  lemma InitialInv()
    ensures Inv(Initial)
  {
  }

  // Main results.

  /** Every response sender lives in exactly one place until it is used or dropped. */
  lemma SendersConserved(steps: seq<Step>, s: State)
    requires Run(Initial, steps, s)
    ensures |s.slots| == |s.callers|
    ensures forall id :: 0 <= id < |s.callers| ==> (s.slots[id].Open? <==> Holders(s, id) == 1) && Holders(s, id) <= 1
  {
    InitialInv();
    RunKeepsInv(Initial, steps, s);
  }

  /**
  Once some task has completed mark_terminal, the map holds at most the entry the writer has
  registered without rechecking the flag, and the writer's recheck removes it.
  */
  lemma TerminalDrains(steps: seq<Step>, s: State)
    requires Run(Initial, steps, s) && s.cleared
    ensures |s.slots| == |s.callers|
    ensures s.pending != {} ==> s.writer.Registered? && s.pending == {s.writer.id}
    ensures s.writer.Registered? ==>
              var next := Next(s, WriterRechecks);
              next.Some? && next.value.pending == {} && next.value.writer.Exited?
  {
    InitialInv();
    RunKeepsInv(Initial, steps, s);
    if s.writer.Registered? {
      AnswerKeepsInv(s, s.writer.id, ConnectionClosed);
    }
  }

  function WriterRank(w: Writer): nat {
    match w
    case Exited => 0
    case Clearing => 1
    case Idle => 1
    case Registered(_) => 1
    case Writing(_) => 1
    case Marking => 2
    case Flushing(_) => 3
    case ClosingStream => 3
    case Holding(_) => 4
    case WriterPolled => 5
  }

  function CallerRank(c: Caller): nat {
    match c
    case Enqueuing => 2
    case PolledFlag => 2
    case Awaiting => 1
    case _ => 0
  }

  /** What the writer and the callers still have to do once the flag is set. */
  function Work(s: State): nat {
    WriterRank(s.writer) + Total(CallerRank, s.callers)
  }

  predicate OfWriterOrCaller(step: Step) {
    IsWriterStep(step) || step.CallerBegins? || step.CallerEnqueues? || step.CallerFindsQueueClosed?
    || step.CallerPollsFlag? || step.CallerPollsResponse? || step.CallerGivesUp?
  }

  lemma CallerProgress(s: State, step: Step)
    requires Inv(s) && s.terminal && CallerStep(s, step).Some? && OfWriterOrCaller(step)
    ensures var t := CallerStep(s, step).value;
            t.terminal && t.writer == s.writer && Total(CallerRank, t.callers) < Total(CallerRank, s.callers)
  {
    TotalUpdate(CallerRank, s.callers, step.id, CallerStep(s, step).value.callers[step.id]);
  }

  lemma WriterProgress(s: State, step: Step)
    requires Inv(s) && s.terminal && WriterStep(s, step).Some?
    ensures var t := WriterStep(s, step).value;
            t.terminal && t.callers == s.callers && WriterRank(t.writer) < WriterRank(s.writer)
  {
  }

  lemma OthersProgress(s: State, step: Step)
    requires Inv(s) && s.terminal && Next(s, step).Some? && !OfWriterOrCaller(step)
    ensures var t := Next(s, step).value;
            t.terminal && t.callers == s.callers && t.writer == s.writer
  {
  }

  /** After termination no caller can start, and every step of a caller or of the writer makes progress. */
  lemma TerminalProgress(s: State, step: Step)
    requires Inv(s) && s.terminal && Next(s, step).Some?
    ensures Next(s, step).value.terminal
    ensures OfWriterOrCaller(step) ==> Work(Next(s, step).value) < Work(s)
    ensures !OfWriterOrCaller(step) ==> Work(Next(s, step).value) == Work(s)
  {
    if IsWriterStep(step) {
      WriterProgress(s, step);
    } else if OfWriterOrCaller(step) {
      CallerProgress(s, step);
    } else {
      OthersProgress(s, step);
    }
  }

  function Effort(steps: seq<Step>): nat {
    if steps == [] then 0 else (if OfWriterOrCaller(steps[0]) then 1 else 0) + Effort(steps[1..])
  }

  /** From a terminal state, writer and callers together take at most `Work` further steps, whatever the reader does. */
  lemma {:induction false} DrainIsBounded(s: State, steps: seq<Step>, t: State)
    requires Inv(s) && s.terminal && Run(s, steps, t)
    ensures Effort(steps) + Work(t) <= Work(s)
    decreases |steps|
  {
    if steps != [] {
      NextKeepsInv(s, steps[0]);
      TerminalProgress(s, steps[0]);
      DrainIsBounded(Next(s, steps[0]).value, steps[1..], t);
    }
  }

  ghost predicate Stuck(s: State)
    requires |s.slots| == |s.callers|
  {
    forall step: Step :: OfWriterOrCaller(step) ==> Next(s, step).None?
  }

  /** The step the writer can take from where it is. */
  function WriterMove(w: Writer): Step {
    match w
    case Exited => WriterClears
    case Idle => WriterPollsFlag
    case WriterPolled => WriterReceives
    case Holding(_) => WriterSerializes(true)
    case Registered(_) => WriterRechecks
    case Writing(_) => WriterPollsFlagWhileWriting
    case Flushing(_) => WriterFlushes(Flushed)
    case ClosingStream => WriterClosesStream
    case Marking => WriterMarks
    case Clearing => WriterClears
  }

  lemma WriterCanMove(s: State)
    requires Inv(s) && !s.writer.Exited?
    ensures OfWriterOrCaller(WriterMove(s.writer)) && Next(s, WriterMove(s.writer)).Some?
  {
  }

  lemma StuckCallersDone(s: State)
    requires Inv(s) && s.terminal && Stuck(s) && s.writer.Exited?
    ensures forall i :: 0 <= i < |s.callers| ==> Done(s.callers[i])
  {
    forall i | 0 <= i < |s.callers|
      ensures Done(s.callers[i])
    {
      assert Next(s, CallerFindsQueueClosed(i)).None?;
      assert Next(s, CallerPollsFlag(i)).None?;
      assert Next(s, CallerPollsResponse(i)).None?;
    }
  }

  /** Where the writer and the callers can do nothing more, nobody waits; once the map was cleared, it is empty. */
  lemma TerminalRest(steps: seq<Step>, s: State)
    requires Run(Initial, steps, s) && s.terminal
    ensures |s.slots| == |s.callers|
    ensures Stuck(s) ==> s.writer.Exited?
    ensures Stuck(s) ==> forall i :: 0 <= i < |s.callers| ==> Done(s.callers[i])
    ensures Stuck(s) && s.cleared ==> s.pending == {} && forall i :: 0 <= i < |s.slots| ==> !s.slots[i].Open?
  {
    InitialInv();
    RunKeepsInv(Initial, steps, s);
    if Stuck(s) {
      if !s.writer.Exited? {
        WriterCanMove(s);
      }
      StuckCallersDone(s);
      if s.cleared {
        forall i | 0 <= i < |s.slots|
          ensures !s.slots[i].Open?
        {
          assert Done(s.callers[i]);
          assert Holders(s, i) == if s.slots[i].Open? then 1 else 0;
        }
      }
    }
  }

  lemma CallersAnswerNothing(s: State, step: Step, id: nat)
    requires Inv(s) && CallerStep(s, step).Some? && id < |s.slots|
    ensures var t := CallerStep(s, step).value;
            id < |t.slots| && (t.slots[id] == s.slots[id] || (s.slots[id].Open? && t.slots[id].Dropped?))
  {
  }

  lemma WriterAnswersNoReply(s: State, step: Step, id: nat)
    requires Inv(s) && WriterStep(s, step).Some? && id < |s.slots|
    ensures var t := WriterStep(s, step).value;
            && id < |t.slots|
            && (t.slots[id] != s.slots[id] ==>
                  s.slots[id].Open? && (t.slots[id].Answered? ==> !t.slots[id].answer.Reply?))
  {
    assert Holders(s, id) == if s.slots[id].Open? then 1 else 0;
  }

  lemma ReaderAnswersItsOwn(s: State, step: Step, id: nat)
    requires Inv(s) && ReaderStep(s, step).Some? && id < |s.slots|
    ensures var t := ReaderStep(s, step).value;
            && id < |t.slots|
            && (t.slots[id] != s.slots[id] ==>
                  s.slots[id].Open? &&
                  (t.slots[id].Answered? ==> step.ReaderDelivers? && step.id == id && step.answer == t.slots[id].answer))
  {
    assert Holders(s, id) == if s.slots[id].Open? then 1 else 0;
  }

  /** A response channel is written once, and only a frame carrying the caller's own id puts a reply into it. */
  lemma AnswersAreOwn(s: State, step: Step, id: nat)
    requires Inv(s) && Next(s, step).Some? && id < |s.slots|
    ensures id < |Next(s, step).value.slots|
    ensures !s.slots[id].Open? ==> Next(s, step).value.slots[id] == s.slots[id]
    ensures s.slots[id].Open? && Next(s, step).value.slots[id].Answered? && Next(s, step).value.slots[id].answer.Reply? ==>
              step.ReaderDelivers? && step.id == id && step.answer == Next(s, step).value.slots[id].answer
  {
    if IsWriterStep(step) {
      WriterAnswersNoReply(s, step, id);
    } else if IsReaderStep(step) {
      ReaderAnswersItsOwn(s, step, id);
    } else {
      CallersAnswerNothing(s, step, id);
    }
  }

  /** A frame answers the call it carries the id of, if that is registered, and leaves every other call alone. */
  lemma DeliveryAnswers(s: State, id: nat, answer: Answer)
    requires Inv(s) && s.reader.Reading? && id in s.pending
    ensures Next(s, ReaderDelivers(id, answer)).Some?
    ensures var t := Next(s, ReaderDelivers(id, answer)).value;
            && t == s.(pending := t.pending, slots := t.slots)
            && t.pending == s.pending - {id} && |t.slots| == |s.slots| && t.slots[id] == Answered(answer)
            && forall i :: 0 <= i < |s.slots| && i != id ==> t.slots[i] == s.slots[i]
  {
  }

  /** A response nobody waits for answers nobody. */
  lemma StrayFramesAnswerNobody(s: State, id: nat, answer: Answer)
    requires Inv(s) && s.reader.Reading? && id !in s.pending
    ensures Next(s, ReaderDelivers(id, answer)) == Some(s)
  {
  }

  /** What a poll makes of a response channel: nothing yet, the answer that was put into it, or its closing. */
  lemma PollTakesTheAnswer(s: State, id: nat)
    requires |s.slots| == |s.callers| && id < |s.callers| && s.callers[id].PolledFlag?
    ensures Next(s, CallerPollsResponse(id)).Some?
    ensures var t := Next(s, CallerPollsResponse(id)).value;
            && t == s.(callers := t.callers) && |t.callers| == |s.callers|
            && (forall i :: 0 <= i < |s.callers| && i != id ==> t.callers[i] == s.callers[i])
            && (forall a :: s.slots[id] == Answered(a) ==> t.callers[id] == Returned(a))
            && (s.slots[id].Dropped? ==> t.callers[id] == Returned(ConnectionClosed))
            && (s.slots[id].Open? ==> t.callers[id] == Awaiting)
  {
  }

  /** A caller returns what was put into its channel; ConnectionClosed it may also return on its own. */
  ghost predicate ReturnsAreAnswers(s: State)
    requires |s.slots| == |s.callers|
  {
    forall id :: 0 <= id < |s.callers| && s.callers[id].Returned? && !s.callers[id].answer.ConnectionClosed? ==>
      s.slots[id] == Answered(s.callers[id].answer)
  }

  lemma ReturnsStayAnswers(s: State, step: Step)
    requires Inv(s) && ReturnsAreAnswers(s) && Next(s, step).Some?
    ensures |Next(s, step).value.slots| == |Next(s, step).value.callers| && ReturnsAreAnswers(Next(s, step).value)
  {
    var t := Next(s, step).value;
    NextKeepsInv(s, step);
    forall id | 0 <= id < |t.callers| && t.callers[id].Returned? && !t.callers[id].answer.ConnectionClosed?
      ensures t.slots[id] == Answered(t.callers[id].answer)
    {
      if id < |s.slots| {
        AnswersAreOwn(s, step, id);
        ReturnedFrom(s, step, id);
      }
    }
  }

  lemma ReturnedFrom(s: State, step: Step, id: nat)
    requires Inv(s) && Next(s, step).Some? && id < |s.callers| && id < |Next(s, step).value.callers|
    requires Next(s, step).value.callers[id].Returned? && !Next(s, step).value.callers[id].answer.ConnectionClosed?
    ensures var c := Next(s, step).value.callers[id]; s.callers[id] == c || s.slots[id] == Answered(c.answer)
  {
    if IsWriterStep(step) || IsReaderStep(step) {
      TasksLeaveCallers(s, step);
    }
  }

  lemma TasksLeaveCallers(s: State, step: Step)
    requires Inv(s) && Next(s, step).Some? && (IsWriterStep(step) || IsReaderStep(step))
    ensures Next(s, step).value.callers == s.callers
  {
  }

  lemma {:induction false} RunKeepsReturns(s: State, steps: seq<Step>, t: State)
    requires Inv(s) && ReturnsAreAnswers(s) && Run(s, steps, t)
    ensures |t.slots| == |t.callers| && ReturnsAreAnswers(t)
    decreases |steps|
  {
    if steps != [] {
      NextKeepsInv(s, steps[0]);
      ReturnsStayAnswers(s, steps[0]);
      RunKeepsReturns(Next(s, steps[0]).value, steps[1..], t);
    }
  }

  /** In every interleaving, a reply or an error that a caller returns is the one its own channel was answered with. */
  lemma RepliesComeFromTheChannel(steps: seq<Step>, s: State, id: nat)
    requires Run(Initial, steps, s) && id < |s.callers| && s.callers[id].Returned?
    ensures |s.slots| == |s.callers|
    ensures !s.callers[id].answer.ConnectionClosed? ==> s.slots[id] == Answered(s.callers[id].answer)
  {
    InitialInv();
    RunKeepsInv(Initial, steps, s);
    RunKeepsReturns(Initial, steps, s);
  }

  // An open connection carries every call through.

  lemma {:induction false} RunConcat(s: State, a: seq<Step>, t: State, b: seq<Step>, u: State)
    requires Run(s, a, t) && Run(t, b, u)
    ensures Run(s, a + b, u)
    decreases |a|
  {
    if a == [] {
      assert a + b == b;
    } else {
      assert (a + b)[0] == a[0] && (a + b)[1..] == a[1..] + b;
      RunConcat(Next(s, a[0]).value, a[1..], t, b, u);
    }
  }

  lemma RunOne(s: State, step: Step)
    requires |s.slots| == |s.callers| && Next(s, step).Some?
    ensures Run(s, [step], Next(s, step).value)
  {
    assert [step][1..] == [];
    assert Run(Next(s, step).value, [], Next(s, step).value);
  }

  lemma RunTwo(s: State, a: Step, b: Step)
    requires |s.slots| == |s.callers| && Next(s, a).Some?
    requires var t := Next(s, a).value; |t.slots| == |t.callers| && Next(t, b).Some?
    ensures Run(s, [a, b], Next(Next(s, a).value, b).value)
  {
    RunOne(s, a);
    RunOne(Next(s, a).value, b);
    RunConcat(s, [a], Next(s, a).value, [b], Next(Next(s, a).value, b).value);
    assert [a] + [b] == [a, b];
  }

  /** The connection is up: the flag is unset, and the writer serves and has not been asked to close. */
  predicate Up(s: State) {
    && !s.terminal && !s.clientDropped
    && (s.writer.Idle? || s.writer.WriterPolled? || s.writer.Registered? || s.writer.Writing? || s.writer.Flushing?
        || (s.writer.Holding? && s.writer.command.Send?))
    && forall k :: 0 <= k < |s.queue| ==> s.queue[k].Send?
  }

  /** The ids the writer has still to register. */
  function Unregistered(s: State): set<nat> {
    Queued(s.queue) + if s.writer.Holding? && s.writer.command.Send? then {s.writer.command.id} else {}
  }

  function WriterDistance(s: State): nat {
    7 * |s.queue| +
    match s.writer
    case Flushing(_) => 1
    case Writing(_) => 2
    case Registered(_) => 3
    case Holding(_) => 4
    case WriterPolled => 6
    case _ => 0
  }

  /** Where the writer goes next when nothing fails. */
  lemma WriterAdvances(s: State) returns (steps: seq<Step>, t: State)
    requires Inv(s) && Up(s) && !(s.writer.Idle? && s.queue == [])
    ensures Run(s, steps, t) && Inv(t) && Up(t) && WriterDistance(t) < WriterDistance(s)
    ensures forall step :: step in steps ==> IsWriterStep(step)
    ensures t == s.(writer := t.writer, queue := t.queue, pending := t.pending)
    ensures t.pending + Unregistered(t) == s.pending + Unregistered(s)
  {
    if s.writer.Idle? {
      steps, t := [WriterPollsFlag, WriterReceives], s.(writer := Holding(s.queue[0]), queue := s.queue[1..]);
      RunTwo(s, WriterPollsFlag, WriterReceives);
      NextKeepsInv(s, WriterPollsFlag);
      NextKeepsInv(s.(writer := WriterPolled), WriterReceives);
      QueuedFirst(s.queue);
    } else {
      var step := WriterMove(s.writer);
      steps, t := [step], Next(s, step).value;
      RunOne(s, step);
      NextKeepsInv(s, step);
      if s.writer.WriterPolled? && s.queue != [] {
        QueuedFirst(s.queue);
      }
    }
  }

  lemma QueuedFirst(queue: seq<Command>)
    requires queue != [] && queue[0].Send?
    ensures Queued(queue) == {queue[0].id} + Queued(queue[1..])
  {
    forall id | id in Queued(queue)
      ensures id in {queue[0].id} + Queued(queue[1..])
    {
      var k :| 0 <= k < |queue| && queue[k].Send? && queue[k].id == id;
      assert k > 0 ==> queue[1..][k - 1] == queue[k];
    }
    assert forall k :: 0 <= k < |queue[1..]| ==> queue[1..][k] == queue[k + 1];
  }

  /** The writer can always register and write out everything that is queued. */
  lemma {:induction false} WriterCatchesUp(s: State) returns (steps: seq<Step>, t: State)
    requires Inv(s) && Up(s)
    ensures Run(s, steps, t) && Inv(t) && Up(t)
    ensures forall step :: step in steps ==> IsWriterStep(step)
    ensures t == s.(writer := Idle, queue := [], pending := s.pending + Unregistered(s))
    decreases WriterDistance(s)
  {
    if s.writer.Idle? && s.queue == [] {
      steps, t := [], s;
      assert Unregistered(s) == {};
    } else {
      var first, next := WriterAdvances(s);
      var rest;
      rest, t := WriterCatchesUp(next);
      steps := first + rest;
      RunConcat(s, first, next, rest, t);
    }
  }

  predicate OfCallWith(step: Step, id: nat) {
    IsWriterStep(step) || step.ReaderDelivers?
    || ((step.CallerEnqueues? || step.CallerPollsFlag? || step.CallerPollsResponse?) && step.id == id)
  }

  /** A frame with the id of a registered call answers it, and the caller that waits for it returns just that answer. */
  lemma DeliveryReturns(s: State, id: nat, answer: Answer)
    requires Inv(s) && !s.terminal && s.reader.Reading? && id in s.pending && s.callers[id].Awaiting?
    ensures var steps := [ReaderDelivers(id, answer), CallerPollsFlag(id), CallerPollsResponse(id)];
            Run(s, steps, s.(pending := s.pending - {id}, slots := s.slots[id := Answered(answer)],
                             callers := s.callers[id := Returned(answer)]))
  {
    var t := Next(s, ReaderDelivers(id, answer)).value;
    NextKeepsInv(s, ReaderDelivers(id, answer));
    var u := Next(t, CallerPollsFlag(id)).value;
    NextKeepsInv(t, CallerPollsFlag(id));
    RunOne(s, ReaderDelivers(id, answer));
    RunTwo(t, CallerPollsFlag(id), CallerPollsResponse(id));
    RunConcat(s, [ReaderDelivers(id, answer)], t, [CallerPollsFlag(id), CallerPollsResponse(id)],
              Next(u, CallerPollsResponse(id)).value);
    assert [ReaderDelivers(id, answer)] + [CallerPollsFlag(id), CallerPollsResponse(id)] ==
           [ReaderDelivers(id, answer), CallerPollsFlag(id), CallerPollsResponse(id)];
    PollTakesTheAnswer(u, id);
    SetTwice(s.callers, id, PolledFlag, Returned(answer));
  }

  lemma SetTwice(callers: seq<Caller>, id: nat, a: Caller, b: Caller)
    requires id < |callers|
    ensures callers[id := a][id := b] == callers[id := b]
  {
  }

  /** A caller whose channel is open has its command on the way: it is queued, in the writer's hands, or registered. */
  lemma WaitingIsOnTheWay(s: State, id: nat)
    requires Inv(s) && id < |s.callers| && s.callers[id].Awaiting? && s.slots[id].Open?
    ensures id in s.pending + Unregistered(s)
  {
    assert Holders(s, id) == 1;
    QueuedOccurs(s.queue, id);
  }

  lemma AwaitingIsAnswered(s: State, id: nat, answer: Answer) returns (steps: seq<Step>, t: State)
    requires Inv(s) && Up(s) && s.reader.Reading?
    requires id < |s.callers| && s.callers[id].Awaiting? && s.slots[id].Open?
    ensures Run(s, steps, t) && |t.callers| == |s.callers| && t.callers == s.callers[id := Returned(answer)]
    ensures t.slots == s.slots[id := Answered(answer)] && t.pending == s.pending + Unregistered(s) - {id}
    ensures forall step :: step in steps ==> OfCallWith(step, id)
  {
    var first, u := WriterCatchesUp(s);
    WaitingIsOnTheWay(s, id);
    DeliveryReturns(u, id, answer);
    var last := [ReaderDelivers(id, answer), CallerPollsFlag(id), CallerPollsResponse(id)];
    t := u.(pending := u.pending - {id}, slots := u.slots[id := Answered(answer)],
            callers := u.callers[id := Returned(answer)]);
    steps := first + last;
    RunConcat(s, first, u, last, t);
  }

  lemma WaitingIsAnswered(s: State, id: nat, answer: Answer) returns (steps: seq<Step>, t: State)
    requires Inv(s) && Up(s) && s.reader.Reading?
    requires id < |s.callers| && s.callers[id].PolledFlag? && s.slots[id].Open?
    ensures Run(s, steps, t) && |t.callers| == |s.callers| && t.callers == s.callers[id := Returned(answer)]
    ensures |t.slots| == |s.slots| && t.slots == s.slots[id := Answered(answer)]
    ensures forall step :: step in steps ==> OfCallWith(step, id)
  {
    PollTakesTheAnswer(s, id);
    var u := s.(callers := s.callers[id := Awaiting]);
    RunOne(s, CallerPollsResponse(id));
    NextKeepsInv(s, CallerPollsResponse(id));
    var rest;
    rest, t := AwaitingIsAnswered(u, id, answer);
    SetTwice(s.callers, id, Awaiting, Returned(answer));
    RunConcat(s, [CallerPollsResponse(id)], u, rest, t);
    steps := [CallerPollsResponse(id)] + rest;
  }

  lemma EnqueuingIsAnswered(s: State, id: nat, answer: Answer) returns (steps: seq<Step>, t: State)
    requires Inv(s) && Up(s) && s.reader.Reading?
    requires id < |s.callers| && s.callers[id].Enqueuing? && s.slots[id].Open?
    ensures Run(s, steps, t) && |t.callers| == |s.callers| && t.callers == s.callers[id := Returned(answer)]
    ensures |t.slots| == |s.slots| && t.slots == s.slots[id := Answered(answer)]
    ensures forall step :: step in steps ==> OfCallWith(step, id)
  {
    var first, u := WriterCatchesUp(s);
    var w := Next(u, CallerEnqueues(id)).value;
    RunOne(u, CallerEnqueues(id));
    NextKeepsInv(u, CallerEnqueues(id));
    var last;
    last, t := AwaitingIsAnswered(w, id, answer);
    SetTwice(s.callers, id, Awaiting, Returned(answer));
    RunConcat(s, first, u, [CallerEnqueues(id)], w);
    RunConcat(s, first + [CallerEnqueues(id)], w, last, t);
    steps := first + [CallerEnqueues(id)] + last;
  }

  /**
  While the connection is up no call is stuck: from every reachable state the writer, a frame of the reader and the
  caller's own steps lead to the caller returning whatever the frame answers, with nobody else's channel touched.
  */
  lemma EveryCallCanBeAnswered(before: seq<Step>, s: State, id: nat, answer: Answer) returns (steps: seq<Step>, t: State)
    requires Run(Initial, before, s) && Up(s) && s.reader.Reading?
    requires id < |s.callers| && id < |s.slots| && !Done(s.callers[id]) && s.slots[id].Open?
    ensures Run(s, steps, t) && |t.callers| == |s.callers| && t.callers == s.callers[id := Returned(answer)]
    ensures |t.slots| == |s.slots| && t.slots == s.slots[id := Answered(answer)]
    ensures forall step :: step in steps ==> OfCallWith(step, id)
  {
    InitialInv();
    RunKeepsInv(Initial, before, s);
    match s.callers[id]
    case Awaiting => steps, t := AwaitingIsAnswered(s, id, answer);
    case PolledFlag => steps, t := WaitingIsAnswered(s, id, answer);
    case Enqueuing => steps, t := EnqueuingIsAnswered(s, id, answer);
  }

  /** A call can be made whenever the connection is up. */
  lemma CallsAreAdmitted(s: State)
    requires Inv(s) && Up(s)
    ensures Next(s, CallerBegins).Some?
    ensures var t := Next(s, CallerBegins).value;
            && |t.callers| == |s.callers| + 1 && t.callers[|s.callers|].Enqueuing? && t.slots[|s.callers|].Open?
            && t.callers[..|s.callers|] == s.callers && Up(t) && t.reader == s.reader
  {
  }

  /** What goes wrong for one command is reported to its own caller and to nobody else. */
  lemma ErrorsAreReported(s: State, id: nat)
    requires Inv(s) && id < |s.slots| && s.slots[id].Open?
    ensures s.writer == Holding(Send(id)) ==>
              && Next(s, WriterSerializes(false)).Some?
              && Next(s, WriterSerializes(false)).value.slots == s.slots[id := Answered(SerializeFailed)]
    ensures s.writer == Flushing(id) && id in s.pending ==>
              && Next(s, WriterFlushes(FlushFailed)).Some?
              && Next(s, WriterFlushes(FlushFailed)).value.slots == s.slots[id := Answered(WriteFailed)]
              && Next(s, WriterFlushes(FlushFailed)).value.pending == s.pending - {id}
              && Next(s, WriterFlushes(FlushFailed)).value.writer.Marking?
    ensures s.writer == Registered(id) && s.terminal && id in s.pending ==>
              Next(s, WriterRechecks).Some? && Next(s, WriterRechecks).value.slots[id] == Answered(ConnectionClosed)
    ensures s.writer == Writing(id) && s.terminal && id in s.pending ==>
              && Next(s, WriterPollsFlagWhileWriting).Some?
              && Next(s, WriterPollsFlagWhileWriting).value.slots[id] == Answered(ConnectionClosed)
  {
    assert Holders(s, id) == 1;
  }

  // Endings.

  predicate WriterEnding(w: Writer) {
    w == Holding(Close) || w.ClosingStream? || w.Marking? || w.Clearing?
  }

  /** A writer on its way out sets the flag, clears the map and is gone. */
  lemma {:induction false} WriterEnds(s: State) returns (steps: seq<Step>, t: State)
    requires Inv(s) && WriterEnding(s.writer)
    ensures Run(s, steps, t) && t.terminal && t.cleared && t.writer.Exited? && t.pending == {} && t.queue == []
    ensures forall step :: step in steps ==> IsWriterStep(step)
    ensures t.callers == s.callers && t.reader == s.reader
    decreases WriterRank(s.writer)
  {
    var step := WriterMove(s.writer);
    var next := Next(s, step).value;
    RunOne(s, step);
    NextKeepsInv(s, step);
    if s.writer.Clearing? {
      steps, t := [step], next;
    } else {
      var rest;
      rest, t := WriterEnds(next);
      steps := [step] + rest;
      RunConcat(s, [step], next, rest, t);
    }
  }

  /** With the writer gone and the map empty, only a caller that has yet to enqueue has its channel open. */
  lemma NobodyIsLeftWaiting(s: State)
    requires Inv(s) && s.writer.Exited? && s.pending == {}
    ensures forall id :: 0 <= id < |s.slots| && s.slots[id].Open? ==> s.callers[id].Enqueuing?
  {
    forall id | 0 <= id < |s.slots| && s.slots[id].Open?
      ensures s.callers[id].Enqueuing?
    {
      assert Holders(s, id) == 1;
    }
  }

  lemma CloseIsReceived(s: State)
    requires Inv(s) && !s.terminal && s.writer.Idle? && s.queue == [Close]
    ensures Run(s, [WriterPollsFlag, WriterReceives], s.(writer := Holding(Close), queue := []))
    ensures Inv(s.(writer := Holding(Close), queue := []))
  {
    NextKeepsInv(s, WriterPollsFlag);
    NextKeepsInv(s.(writer := WriterPolled), WriterReceives);
    RunTwo(s, WriterPollsFlag, WriterReceives);
  }

  lemma CloseReachesTheWriter(s: State)
    requires Inv(s) && Up(s) && s.writer.Idle? && s.queue == []
    ensures Run(s, [CloseRequested] + [WriterPollsFlag, WriterReceives], s.(writer := Holding(Close)))
    ensures Inv(s.(writer := Holding(Close)))
  {
    var t := s.(queue := [Close]);
    RunOne(s, CloseRequested);
    NextKeepsInv(s, CloseRequested);
    CloseIsReceived(t);
    RunConcat(s, [CloseRequested], t, [WriterPollsFlag, WriterReceives], s.(writer := Holding(Close)));
  }

  /** A requested close ends the connection: the flag is set, the map cleared, and every waiting channel closed. */
  lemma CloseEndsTheConnection(s: State) returns (steps: seq<Step>, t: State)
    requires Inv(s) && Up(s)
    ensures Run(s, steps, t) && Inv(t) && t.terminal && t.cleared && t.writer.Exited? && t.pending == {}
    ensures forall step :: step in steps ==> IsWriterStep(step) || step.CloseRequested?
    ensures forall id :: 0 <= id < |t.slots| && t.slots[id].Open? ==> t.callers[id].Enqueuing?
  {
    var first, u := WriterCatchesUp(s);
    var middle := [CloseRequested] + [WriterPollsFlag, WriterReceives];
    CloseReachesTheWriter(u);
    var w := u.(writer := Holding(Close));
    var last;
    last, t := WriterEnds(w);
    RunConcat(u, middle, w, last, t);
    RunConcat(s, first, u, middle + last, t);
    steps := first + (middle + last);
    RunKeepsInv(w, last, t);
    NobodyIsLeftWaiting(t);
  }

  /** A reader whose stream ends does the same. */
  lemma ReaderEndsTheConnection(s: State) returns (t: State)
    requires Inv(s) && s.reader.Reading?
    ensures Run(s, [ReaderEnds] + [ReaderMarks, ReaderClears], t)
    ensures t.terminal && t.cleared && t.pending == {} && t.reader.ReaderExited?
    ensures t.callers == s.callers && t.writer == s.writer && t.queue == s.queue
  {
    var u := s.(reader := ReaderMarking);
    RunOne(s, ReaderEnds);
    t := ReaderMarksAndClears(u);
    RunConcat(s, [ReaderEnds], u, [ReaderMarks, ReaderClears], t);
  }

  lemma ReaderMarksAndClears(s: State) returns (t: State)
    requires Inv(s) && s.reader.ReaderMarking?
    ensures Run(s, [ReaderMarks, ReaderClears], t)
    ensures t.terminal && t.cleared && t.pending == {} && t.reader.ReaderExited?
    ensures t.callers == s.callers && t.writer == s.writer && t.queue == s.queue
  {
    RunTwo(s, ReaderMarks, ReaderClears);
    t := Next(Next(s, ReaderMarks).value, ReaderClears).value;
  }

  /** Dropping the client, which needs all its calls done, lets the writer write out what is queued and end. */
  lemma DroppedClientEndsTheWriter(s: State) returns (steps: seq<Step>, t: State)
    requires Inv(s) && Up(s) && forall i :: 0 <= i < |s.callers| ==> Done(s.callers[i])
    ensures Run(s, steps, t) && t.writer.Exited? && t.clientDropped && t.callers == s.callers
    ensures forall step :: step in steps ==> IsWriterStep(step) || step.ClientDropped?
  {
    var first, u := WriterCatchesUp(s);
    var v := u.(clientDropped := true);
    RunOne(u, ClientDropped);
    NextKeepsInv(u, ClientDropped);
    RunTwo(v, WriterPollsFlag, WriterReceives);
    t := Next(v.(writer := WriterPolled), WriterReceives).value;
    RunConcat(u, [ClientDropped], v, [WriterPollsFlag, WriterReceives], t);
    RunConcat(s, first, u, [ClientDropped] + [WriterPollsFlag, WriterReceives], t);
    steps := first + ([ClientDropped] + [WriterPollsFlag, WriterReceives]);
  }

  /** A call can be dropped wherever it awaits something; its command, once queued, goes on without it. */
  lemma CallsCanBeDropped(s: State, id: nat)
    requires Inv(s) && id < |s.callers| && (s.callers[id].Enqueuing? || s.callers[id].Awaiting?)
    ensures Next(s, CallerGivesUp(id)).Some?
    ensures var t := Next(s, CallerGivesUp(id)).value;
            && t.callers == s.callers[id := Cancelled] && t.queue == s.queue && t.pending == s.pending
            && (s.callers[id].Awaiting? ==> t.slots == s.slots)
  {
  }

  /** A write that cannot be finished at once is taken up again where it was. */
  lemma PendingWritesResume(s: State)
    requires Inv(s) && s.writer.Flushing? && !s.terminal
    ensures Run(s, [WriterFlushes(FlushPending), WriterPollsFlagWhileWriting], s)
  {
    RunTwo(s, WriterFlushes(FlushPending), WriterPollsFlagWhileWriting);
  }

  // What no run does.

  lemma {:induction false} RunKeepsBound(s: State, steps: seq<Step>, t: State)
    requires |s.queue| <= 128 && Run(s, steps, t)
    ensures |t.queue| <= 128
    decreases |steps|
  {
    if steps != [] {
      if IsWriterStep(steps[0]) {
        WriterShortens(s, steps[0]);
      }
      RunKeepsBound(Next(s, steps[0]).value, steps[1..], t);
    }
  }

  lemma WriterShortens(s: State, step: Step)
    requires |s.slots| == |s.callers| && WriterStep(s, step).Some?
    ensures |WriterStep(s, step).value.queue| <= |s.queue|
  {
  }

  /** The outbound queue never holds more than 128 commands. */
  lemma QueueIsBounded(steps: seq<Step>, s: State)
    requires Run(Initial, steps, s)
    ensures |s.queue| <= 128
  {
    RunKeepsBound(Initial, steps, s);
  }

  /** The connection has ended for its callers: the flag is set, or the writer is gone. */
  predicate Over(s: State) {
    s.terminal || s.writer.Exited?
  }

  predicate ToldClosed(c: Caller, slot: Slot<Answer>) {
    c == Returned(ConnectionClosed) || slot == Answered(ConnectionClosed) || (slot.Dropped? && !Done(c))
  }

  ghost predicate ClosedWhenOver(s: State)
    requires |s.slots| == |s.callers|
  {
    forall id :: 0 <= id < |s.callers| && ToldClosed(s.callers[id], s.slots[id]) ==> Over(s)
  }

  lemma OverStays(s: State, step: Step)
    requires |s.slots| == |s.callers| && Over(s) && Next(s, step).Some?
    ensures Over(Next(s, step).value)
  {
  }

  lemma CallerIsTold(s: State, step: Step, id: nat)
    requires Inv(s) && CallerStep(s, step).Some? && id < |CallerStep(s, step).value.callers|
    requires !Over(s) && (id < |s.callers| ==> !ToldClosed(s.callers[id], s.slots[id]))
    ensures id < |CallerStep(s, step).value.slots|
    ensures !ToldClosed(CallerStep(s, step).value.callers[id], CallerStep(s, step).value.slots[id])
  {
  }

  lemma WriterTells(s: State, step: Step, id: nat)
    requires Inv(s) && WriterStep(s, step).Some? && id < |s.callers| && !Over(WriterStep(s, step).value)
    requires !ToldClosed(s.callers[id], s.slots[id])
    ensures WriterStep(s, step).value.callers == s.callers && id < |WriterStep(s, step).value.slots|
    ensures !ToldClosed(s.callers[id], WriterStep(s, step).value.slots[id])
  {
  }

  lemma ReaderTells(s: State, step: Step, id: nat)
    requires Inv(s) && ReaderStep(s, step).Some? && id < |s.callers| && !Over(ReaderStep(s, step).value)
    requires !(step.ReaderDelivers? && step.answer.ConnectionClosed?) && !ToldClosed(s.callers[id], s.slots[id])
    ensures ReaderStep(s, step).value.callers == s.callers && id < |ReaderStep(s, step).value.slots|
    ensures !ToldClosed(s.callers[id], ReaderStep(s, step).value.slots[id])
  {
  }

  lemma NextKeepsClosedWhenOver(s: State, step: Step)
    requires Inv(s) && ClosedWhenOver(s) && Next(s, step).Some?
    requires !(step.ReaderDelivers? && step.answer.ConnectionClosed?)
    ensures |Next(s, step).value.slots| == |Next(s, step).value.callers| && ClosedWhenOver(Next(s, step).value)
  {
    var t := Next(s, step).value;
    NextKeepsInv(s, step);
    if Over(s) {
      OverStays(s, step);
    } else if !Over(t) {
      forall id | 0 <= id < |t.callers|
        ensures !ToldClosed(t.callers[id], t.slots[id])
      {
        if IsWriterStep(step) {
          TasksLeaveCallers(s, step);
          WriterTells(s, step, id);
        } else if IsReaderStep(step) {
          TasksLeaveCallers(s, step);
          ReaderTells(s, step, id);
        } else {
          CallerIsTold(s, step, id);
        }
      }
    }
  }

  lemma {:induction false} RunKeepsClosedWhenOver(s: State, steps: seq<Step>, t: State)
    requires Inv(s) && ClosedWhenOver(s) && Run(s, steps, t)
    requires forall step :: step in steps && step.ReaderDelivers? ==> !step.answer.ConnectionClosed?
    ensures |t.slots| == |t.callers| && ClosedWhenOver(t)
    decreases |steps|
  {
    if steps != [] {
      NextKeepsInv(s, steps[0]);
      NextKeepsClosedWhenOver(s, steps[0]);
      RunKeepsClosedWhenOver(Next(s, steps[0]).value, steps[1..], t);
    }
  }

  /** No call is told that the connection is closed while it is up (frames carry replies and errors only). */
  lemma ClosedMeansOver(steps: seq<Step>, s: State, id: nat)
    requires Run(Initial, steps, s) && id < |s.callers| && s.callers[id] == Returned(ConnectionClosed)
    requires forall step :: step in steps && step.ReaderDelivers? ==> !step.answer.ConnectionClosed?
    ensures s.terminal || s.writer.Exited?
  {
    InitialInv();
    RunKeepsInv(Initial, steps, s);
    RunKeepsClosedWhenOver(Initial, steps, s);
  }
}
