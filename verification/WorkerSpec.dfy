/**
What a run of the worker actor does, as a list of events: runtime calls with their outcomes, state
notices, publications and replies. The actor class is proved to produce exactly these events; the
properties of all runs are proved about the events alone.
*/
module WorkerSpec {
  import opened Wrappers
  import opened Bytes
  import opened Contract

  /** What a runtime call hands back: text, the origin of the page it reached, the length of its JSON. */
  datatype Value = Value(text: Text, origin: Option<Text>, encodedLength: Option<nat>)

  /** How an awaited runtime call ends; the last two drop it at a deadline or at the emergency signal. */
  datatype Outcome = Finished(value: Value) | Failed(kind: FailureKind) | Expired | Interrupted

  datatype CloseOutcome = CloseFinished | CloseFailed(kind: FailureKind) | CloseExpired

  datatype Reply =
    | Acknowledged
    | Element(element: ElementRef)
    | TextReply(text: Text)
    | ScriptValue(text: Text)
    | CaptureReply(text: Text)
    | Download(text: Text)
    | Tabs(text: Text)

  datatype Config = Config(
    capabilities: CapabilitySet, urlAccepted: Text -> bool, commandTimeout: nat, closeTimeout: nat)

  /** The environment's part in one command. */
  datatype Script = Script(
    emergencyFirst: bool, healthyBefore: bool, needsRestart: bool, restart: Outcome, outcome: Outcome, healthyAfter: bool)

  datatype Start = StartPreempted | StartRan(outcome: Outcome)

  datatype Input =
    | Emergency
    | Request(command: Command, script: Script)
    | Subscribe(failure: Option<FailureKind>)

  datatype Event =
    | Preempted
    | Started(outcome: Outcome)
    | PolicyBroken
    | RestartBegun(command: Command)
    | Restarted(outcome: Outcome)
    | Operated(command: Command, outcome: Outcome)
    | Settled
    | DeadlineNoted
    | Subscribed
    | ClosingBegun
    | ShutdownClosed(outcome: Outcome)
    | Closed(finish: CloseOutcome)
    | ClosedBefore
    | Published
    | Replied(result: Result<Reply, WorkerError>)
    | RuntimeDropped
    | StopFlagged

  /** A run cut short by a deadline or by the emergency signal. */
  datatype Cut = Uncut | CutByDeadline | CutByEmergency

  datatype View = View(
    snapshot: Snapshot, published: Snapshot, unconfirmed: bool, cut: Cut, closes: nat, interruptedCloses: nat,
    dropped: bool, stopped: bool)

  const INITIAL := View(STARTING, STARTING, false, Uncut, 0, 0, false, false)

  function Degrade(s: Snapshot, kind: FailureKind): Snapshot {
    s.(life := Degraded, currentOrigin := None, lastFailure := Some(kind))
  }

  function Settle(s: Snapshot): Snapshot {
    s.(life := Ready, lastFailure := None)
  }

  function CutOf(outcome: Outcome): Cut {
    match outcome
    case Expired => CutByDeadline
    case Interrupted => CutByEmergency
    case _ => Uncut
  }

  function Operate(s: Snapshot, command: Command, outcome: Outcome): Snapshot {
    match outcome
    case Finished(value) =>
      if command.Navigate? then s.(pageEpoch := SaturatingSucc(s.pageEpoch), currentOrigin := value.origin)
      else if command.SwitchToTab? then s.(pageEpoch := SaturatingSucc(s.pageEpoch), currentOrigin := None)
      else s
    case Failed(kind) => if kind.ObservationMissing? then Settle(s) else Degrade(s, kind)
    case _ => s
  }

  function Stop(s: Snapshot, failure: Option<FailureKind>): Snapshot {
    s.(life := Stopped, currentOrigin := None, lastFailure := failure)
  }

  /** The effect of one event. */
  function Apply(v: View, e: Event): View {
    var s := v.snapshot;
    match e
    case Preempted => v.(snapshot := s.(lastFailure := Some(ShutdownFailure)))
    case Started(outcome) =>
      (match outcome
       case Finished(_) => v.(snapshot := Settle(s))
       case Failed(kind) => v.(snapshot := Degrade(s, kind), unconfirmed := true)
       case Expired => v.(snapshot := Degrade(s, TimeoutFailure), unconfirmed := true)
       case Interrupted => v.(snapshot := s.(lastFailure := Some(ShutdownFailure)), cut := CutByEmergency))
    case PolicyBroken => v.(snapshot := Degrade(s, ProtocolFailure))
    case RestartBegun(_) =>
      v.(snapshot := s.(life := Restarting, pageEpoch := SaturatingSucc(s.pageEpoch), currentOrigin := None))
    case Restarted(outcome) =>
      (match outcome
       case Finished(_) => v.(snapshot := Settle(s).(restartCount := SaturatingSucc(s.restartCount)))
       case Failed(kind) => v.(snapshot := Degrade(s, kind))
       case _ => v.(cut := CutOf(outcome)))
    case Operated(command, outcome) => v.(snapshot := Operate(s, command, outcome), cut := CutOf(outcome))
    case Settled => v.(snapshot := Settle(s))
    case DeadlineNoted => v.(snapshot := Degrade(s, TimeoutFailure), cut := Uncut)
    case Subscribed => v
    case ClosingBegun => v.(snapshot := s.(life := ShuttingDown))
    case ShutdownClosed(outcome) =>
      (match outcome
       case Finished(_) =>
         v.(snapshot := Stop(s, if v.unconfirmed then Some(ShutdownFailure) else None), closes := v.closes + 1)
       case Failed(kind) => v.(snapshot := Stop(s, Some(kind)), closes := v.closes + 1)
       case Expired => v.(cut := CutByDeadline, closes := v.closes + 1)
       case Interrupted =>
         v.(cut := CutByEmergency, closes := v.closes + 1, interruptedCloses := v.interruptedCloses + 1))
    case Closed(finish) =>
      var failure := match finish
        case CloseFinished => s.lastFailure
        case CloseFailed(kind) => Some(kind)
        case CloseExpired => Some(TimeoutFailure);
      v.(snapshot := Stop(s, failure), closes := v.closes + 1)
    case ClosedBefore => v.(snapshot := Stop(s, s.lastFailure))
    case Published => v.(published := s)
    case Replied(_) => v
    case RuntimeDropped => v.(dropped := true)
    case StopFlagged => v.(stopped := true)
  }

  function After(v: View, events: seq<Event>): View
    decreases |events|
  {
    if events == [] then v else After(Apply(v, events[0]), events[1..])
  }

  /** The state a trace of events leads to. */
  function Replay(trace: seq<Event>): View {
    After(INITIAL, trace)
  }

  lemma Regroup(a: seq<Event>, b: seq<Event>, c: seq<Event>)
    ensures a + b + c == a + (b + c)
  {
  }

  lemma NoMore(a: seq<Event>)
    ensures a + [] == a
  {
  }

  lemma TwoMore(a: seq<Event>, x: Event, y: Event)
    ensures a + [x] + [y] == a + [x, y]
  {
  }

  // What each part of the actor does.

  datatype Completion = Completed(result: Result<Reply, WorkerError>) | TimedOut | Abandoned

  datatype Effect = Effect(events: seq<Event>, completion: Completion)

  function RestartEffect(command: Command, outcome: Outcome): Effect {
    match outcome
    case Finished(_) =>
      Effect([RestartBegun(command), Published] + [Restarted(outcome), Published], Completed(Ok(Acknowledged)))
    case Failed(kind) =>
      Effect([RestartBegun(command), Published] + [Restarted(outcome), Published], Completed(Err(RuntimeFailed(kind))))
    case Expired => Effect([RestartBegun(command), Published] + [Restarted(outcome)], TimedOut)
    case Interrupted => Effect([RestartBegun(command), Published] + [Restarted(outcome)], Abandoned)
  }

  function ShutdownEffect(unconfirmed: bool, outcome: Outcome): Effect {
    match outcome
    case Finished(_) =>
      Effect([ClosingBegun, Published] + [ShutdownClosed(outcome), Published],
             Completed(if unconfirmed then Err(RuntimeFailed(ShutdownFailure)) else Ok(Acknowledged)))
    case Failed(kind) =>
      Effect([ClosingBegun, Published] + [ShutdownClosed(outcome), Published], Completed(Err(RuntimeFailed(kind))))
    case Expired => Effect([ClosingBegun, Published] + [ShutdownClosed(outcome)], TimedOut)
    case Interrupted => Effect([ClosingBegun, Published] + [ShutdownClosed(outcome)], Abandoned)
  }

  /** An evaluation whose value cannot be encoded within the bound counts as a protocol failure. */
  function Verdict(command: Command, outcome: Outcome): Outcome {
    if command.Evaluate? && outcome.Finished?
       && (outcome.value.encodedLength.None? || outcome.value.encodedLength.value > MAX_SCRIPT_RESULT_BYTES)
    then Failed(ProtocolFailure)
    else outcome
  }

  function ReplyFor(command: Command, value: Value, epoch: nat): Reply {
    match command
    case ResolveElement(selector) => Element(ElementRef(selector, epoch))
    case WaitForDownload(_) => Download(value.text)
    case ReadElementText(_) => TextReply(value.text)
    case ObserveDocument => TextReply(value.text)
    case ReadInteractiveElements => ScriptValue(value.text)
    case Evaluate(_) => ScriptValue(value.text)
    case Capture(_) => CaptureReply(value.text)
    case ListTabs => Tabs(value.text)
    case _ => Acknowledged
  }

  function OperationEffect(command: Command, epoch: nat, script: Script): Effect {
    var outcome := Verdict(command, script.outcome);
    match outcome
    case Interrupted => Effect([Operated(command, outcome)], Abandoned)
    case Expired => Effect([Operated(command, outcome)], TimedOut)
    case Failed(kind) => Effect([Operated(command, outcome), Published], Completed(Err(RuntimeFailed(kind))))
    case Finished(value) =>
      if script.healthyAfter then
        Effect([Operated(command, outcome)] + [Settled, Published], Completed(Ok(ReplyFor(command, value, epoch))))
      else
        Effect([Operated(command, outcome)] + [PolicyBroken, Published], Completed(Err(RuntimeFailed(ProtocolFailure))))
  }

  function BodyEffect(config: Config, s: Snapshot, unconfirmed: bool, command: Command, script: Script): Effect {
    if command.Restart? then RestartEffect(command, script.restart)
    else if command.Shutdown? then ShutdownEffect(unconfirmed, script.outcome)
    else
      var invalid := InputError(config.urlAccepted, command, s.pageEpoch);
      if invalid.Some? then Effect([], Completed(Err(invalid.value)))
      else OperationEffect(command, s.pageEpoch, script)
  }

  /** A command that comes after a restart of the runtime, if that succeeds. */
  function RotatedEffect(config: Config, s: Snapshot, unconfirmed: bool, command: Command, script: Script): Effect {
    var rotation := RestartEffect(command, script.restart);
    if rotation.completion != Completed(Ok(Acknowledged)) then rotation
    else
      var body := BodyEffect(config, s, unconfirmed, command, script);
      Effect(rotation.events + body.events, body.completion)
  }

  lemma NavigationIgnoresState(config: Config, s: Snapshot, t: Snapshot, unconfirmed: bool, command: Command, script: Script)
    requires command.Navigate?
    ensures BodyEffect(config, s, unconfirmed, command, script) == BodyEffect(config, t, unconfirmed, command, script)
  {
  }

  /** The checks that answer a command before anything happens. */
  function Gate(config: Config, s: Snapshot, unconfirmed: bool, command: Command): Option<WorkerError> {
    if !Contains(config.capabilities, Required(command)) then Some(CapabilityDenied(Required(command)))
    else if s.life.Degraded? && !command.Restart? && !command.Shutdown? then Some(Unavailable)
    else if unconfirmed && command.Restart? then Some(Unavailable)
    else None
  }

  function CommandEffect(config: Config, s: Snapshot, unconfirmed: bool, command: Command, script: Script): Effect {
    var refusal := Gate(config, s, unconfirmed, command);
    if refusal.Some? then Effect([], Completed(Err(refusal.value)))
    else if !command.Restart? && !command.Shutdown? && !script.healthyBefore then
      Effect([PolicyBroken, Published], Completed(Err(RuntimeFailed(ProtocolFailure))))
    else if command.Navigate? && script.needsRestart then RotatedEffect(config, s, unconfirmed, command, script)
    else BodyEffect(config, s, unconfirmed, command, script)
  }

  function SubscribeResult(config: Config, s: Snapshot, failure: Option<FailureKind>): Result<Reply, WorkerError> {
    if !Contains(config.capabilities, Capturing) then Err(CapabilityDenied(Capturing))
    else if !s.life.Ready? then Err(Unavailable)
    else if failure.Some? then Err(RuntimeFailed(failure.value))
    else Ok(Acknowledged)
  }

  function SubscribeEvents(config: Config, s: Snapshot, failure: Option<FailureKind>): seq<Event> {
    (if Contains(config.capabilities, Capturing) && s.life.Ready? then [Subscribed] else [])
    + [Replied(SubscribeResult(config, s, failure))]
  }

  function CommandDeadline(config: Config, command: Command): nat {
    if command.Shutdown? then config.closeTimeout else config.commandTimeout
  }

  /** What the actor adds once a command has completed or was cut short. */
  function AnswerEvents(config: Config, command: Command, completion: Completion): seq<Event> {
    match completion
    case Completed(result) => [Replied(result)]
    case TimedOut =>
      [DeadlineNoted, Published] + [Replied(Err(CommandTimeout(CommandDeadline(config, command))))]
    case Abandoned => []
  }

  function CloseEvents(finish: CloseOutcome): seq<Event> {
    [ClosingBegun, Published] + [Closed(finish), Published]
  }

  /** The end of the actor, after its loop. */
  function FinishEvents(s: Snapshot, emergency: bool, attempted: bool, finish: CloseOutcome): seq<Event> {
    (if emergency then CloseEvents(finish)
     else if s.life.Stopped? then []
     else if attempted then [ClosingBegun, Published] + [ClosedBefore, Published]
     else CloseEvents(finish))
    + [RuntimeDropped, StopFlagged]
  }

  predicate Attempts(config: Config, command: Command) {
    command.Shutdown? && Contains(config.capabilities, Required(command))
  }

  /** What one turn of the loop does. */
  function TurnEvents(config: Config, v: View, input: Input): seq<Event> {
    match input
    case Emergency => []
    case Subscribe(failure) => SubscribeEvents(config, v.snapshot, failure)
    case Request(command, script) =>
      if script.emergencyFirst then []
      else
        var effect := CommandEffect(config, v.snapshot, v.unconfirmed, command, script);
        effect.events + AnswerEvents(config, command, effect.completion)
  }

  /** The emergency signal ends the loop before, between or within commands. */
  predicate EmergencyAt(config: Config, v: View, input: Input) {
    match input
    case Emergency => true
    case Subscribe(_) => false
    case Request(command, script) =>
      script.emergencyFirst
      || CommandEffect(config, v.snapshot, v.unconfirmed, command, script).completion.Abandoned?
  }

  predicate Leaves(config: Config, v: View, input: Input) {
    EmergencyAt(config, v, input) || (input.Request? && input.command.Shutdown?)
  }

  predicate AttemptsAt(config: Config, input: Input) {
    input.Request? && Attempts(config, input.command)
  }

  /** The actor's loop and its end; running out of inputs is the closed command queue. */
  function ServeEvents(config: Config, v: View, inputs: seq<Input>, finish: CloseOutcome): seq<Event>
    decreases |inputs|
  {
    if inputs == [] then FinishEvents(v.snapshot, false, false, finish)
    else
      var input := inputs[0];
      var events := TurnEvents(config, v, input);
      var next := After(v, events);
      if Leaves(config, v, input) then
        events + FinishEvents(next.snapshot, EmergencyAt(config, v, input), AttemptsAt(config, input), finish)
      else events + ServeEvents(config, next, inputs[1..], finish)
  }

  /** A whole run of the actor. */
  function RunEvents(config: Config, start: Start, inputs: seq<Input>, finish: CloseOutcome): seq<Event> {
    match start
    case StartPreempted => [Preempted] + FinishEvents(STARTING, true, false, finish)
    case StartRan(outcome) =>
      if outcome.Interrupted? then [Started(outcome)] + FinishEvents(STARTING, true, false, finish)
      else
        var events := [Started(outcome), Published];
        events + ServeEvents(config, After(INITIAL, events), inputs, finish)
  }

  lemma {:induction false} AfterConcat(v: View, a: seq<Event>, b: seq<Event>)
    ensures After(v, a + b) == After(After(v, a), b)
    decreases |a|
  {
    if a == [] {
      assert a + b == b;
    } else {
      assert (a + b)[1..] == a[1..] + b;
      AfterConcat(Apply(v, a[0]), a[1..], b);
    }
  }

  lemma AfterSnoc(v: View, a: seq<Event>, e: Event)
    ensures After(v, a + [e]) == Apply(After(v, a), e)
  {
    AfterConcat(v, a, [e]);
    assert [e][1..] == [];
  }

  lemma AfterPair(v: View, a: Event, b: Event)
    ensures After(v, [a, b]) == Apply(Apply(v, a), b)
  {
    AfterSnoc(v, [a], b);
    AfterSnoc(v, [], a);
    assert [a, b] == [a] + [b] && [a] == [] + [a];
  }

  /** What is still to come, seen from before a turn and from after it. */
  lemma InputsInTurn(inputs: seq<Input>, i: nat)
    requires i <= |inputs|
    ensures inputs[0..] == inputs
    ensures i < |inputs| ==> inputs[i..][0] == inputs[i] && inputs[i..][1..] == inputs[i + 1..]
  {
  }

  lemma ServeSplits(config: Config, trace: seq<Event>, v: View, inputs: seq<Input>, finish: CloseOutcome)
    requires inputs != []
    ensures var events := TurnEvents(config, v, inputs[0]);
            var next := After(v, events);
            trace + ServeEvents(config, v, inputs, finish) ==
              (trace + events)
              + if Leaves(config, v, inputs[0])
                then FinishEvents(next.snapshot, EmergencyAt(config, v, inputs[0]), AttemptsAt(config, inputs[0]), finish)
                else ServeEvents(config, next, inputs[1..], finish)
  {
  }

  // Runs seen from the head of the loop.

  /** None of these inputs makes the actor leave its loop. */
  predicate Stays(config: Config, v: View, inputs: seq<Input>)
    decreases |inputs|
  {
    inputs == []
    || (!Leaves(config, v, inputs[0]) && Stays(config, After(v, TurnEvents(config, v, inputs[0])), inputs[1..]))
  }

  function Turns(config: Config, v: View, inputs: seq<Input>): seq<Event>
    decreases |inputs|
  {
    if inputs == [] then []
    else
      var events := TurnEvents(config, v, inputs[0]);
      events + Turns(config, After(v, events), inputs[1..])
  }

  function Opening(start: Start): seq<Event>
    requires start.StartRan?
  {
    [Started(start.outcome), Published]
  }

  /** After these inputs the actor is at the head of its loop. */
  predicate Reaches(config: Config, start: Start, inputs: seq<Input>) {
    start.StartRan? && !start.outcome.Interrupted? && Stays(config, After(INITIAL, Opening(start)), inputs)
  }

  /** What has happened by then. */
  function HeadTrace(config: Config, start: Start, inputs: seq<Input>): seq<Event>
    requires start.StartRan?
  {
    Opening(start) + Turns(config, After(INITIAL, Opening(start)), inputs)
  }

  lemma ServeOne(config: Config, v: View, inputs: seq<Input>, finish: CloseOutcome)
    requires inputs != [] && !Leaves(config, v, inputs[0])
    ensures var events := TurnEvents(config, v, inputs[0]);
            ServeEvents(config, v, inputs, finish) == events + ServeEvents(config, After(v, events), inputs[1..], finish)
  {
  }

  lemma ServeStep(
      config: Config, v: View, input: Input, inputs: seq<Input>, finish: CloseOutcome, later: seq<Event>, tail: seq<Event>)
    requires inputs != [] && inputs[0] == input && !Leaves(config, v, input)
    requires ServeEvents(config, After(v, TurnEvents(config, v, input)), inputs[1..], finish) == later + tail
    ensures ServeEvents(config, v, inputs, finish) == TurnEvents(config, v, input) + later + tail
  {
    ServeOne(config, v, inputs, finish);
    Joined(TurnEvents(config, v, input), later, tail);
  }

  lemma TurnsOne(config: Config, v: View, inputs: seq<Input>)
    requires inputs != [] && Stays(config, v, inputs)
    ensures var events := TurnEvents(config, v, inputs[0]);
            var next := After(v, events);
            && !Leaves(config, v, inputs[0]) && Stays(config, next, inputs[1..])
            && Turns(config, v, inputs) == events + Turns(config, next, inputs[1..])
            && After(v, Turns(config, v, inputs)) == After(next, Turns(config, next, inputs[1..]))
  {
    var events := TurnEvents(config, v, inputs[0]);
    AfterConcat(v, events, Turns(config, After(v, events), inputs[1..]));
  }

  lemma FirstTaken(a: seq<Input>, b: seq<Input>)
    requires a != []
    ensures (a + b)[0] == a[0] && (a + b)[1..] == a[1..] + b
  {
  }

  lemma {:induction false} ServeContinues(config: Config, v: View, a: seq<Input>, b: seq<Input>, finish: CloseOutcome)
    requires Stays(config, v, a)
    ensures ServeEvents(config, v, a + b, finish) ==
            Turns(config, v, a) + ServeEvents(config, After(v, Turns(config, v, a)), b, finish)
    decreases |a|
  {
    if a == [] {
      assert a + b == b;
    } else {
      var next := After(v, TurnEvents(config, v, a[0]));
      var later := Turns(config, next, a[1..]);
      TurnsOne(config, v, a);
      ServeContinues(config, next, a[1..], b, finish);
      FirstTaken(a, b);
      ServeStep(config, v, a[0], a + b, finish, later, ServeEvents(config, After(next, later), b, finish));
    }
  }

  lemma Joined(a: seq<Event>, b: seq<Event>, c: seq<Event>)
    ensures a + (b + c) == a + b + c
  {
  }

  /** A run goes on from the head of its loop by what is there then. */
  lemma RunContinues(config: Config, start: Start, a: seq<Input>, b: seq<Input>, finish: CloseOutcome)
    requires Reaches(config, start, a)
    ensures var t := HeadTrace(config, start, a);
            RunEvents(config, start, a + b, finish) == t + ServeEvents(config, Replay(t), b, finish)
  {
    var v := After(INITIAL, Opening(start));
    ServeContinues(config, v, a, b, finish);
    AfterConcat(INITIAL, Opening(start), Turns(config, v, a));
    Joined(Opening(start), Turns(config, v, a), ServeEvents(config, After(v, Turns(config, v, a)), b, finish));
  }

  /** One more input at the head of the loop: its turn comes next in every run that goes on with it. */
  lemma TurnComesNext(config: Config, start: Start, inputs: seq<Input>, input: Input, rest: seq<Input>, finish: CloseOutcome)
    requires Reaches(config, start, inputs)
    ensures var t := HeadTrace(config, start, inputs);
            t + TurnEvents(config, Replay(t), input) <= RunEvents(config, start, inputs + ([input] + rest), finish)
  {
    RunContinues(config, start, inputs, [input] + rest, finish);
  }

  /** A turn that does not leave the loop leads to its head again. */
  lemma ReachesNext(config: Config, start: Start, inputs: seq<Input>, input: Input)
    requires Reaches(config, start, inputs) && !Leaves(config, Replay(HeadTrace(config, start, inputs)), input)
    ensures Reaches(config, start, inputs + [input])
    ensures var t := HeadTrace(config, start, inputs);
            HeadTrace(config, start, inputs + [input]) == t + TurnEvents(config, Replay(t), input)
  {
    var v := After(INITIAL, Opening(start));
    AfterConcat(INITIAL, Opening(start), Turns(config, v, inputs));
    StaysNext(config, v, inputs, input);
    var turn := TurnEvents(config, After(v, Turns(config, v, inputs)), input);
    Joined(Opening(start), Turns(config, v, inputs), turn);
  }

  lemma {:induction false} StaysNext(config: Config, v: View, inputs: seq<Input>, input: Input)
    requires Stays(config, v, inputs) && !Leaves(config, After(v, Turns(config, v, inputs)), input)
    ensures Stays(config, v, inputs + [input])
    ensures Turns(config, v, inputs + [input]) ==
            Turns(config, v, inputs) + TurnEvents(config, After(v, Turns(config, v, inputs)), input)
    decreases |inputs|
  {
    if inputs == [] {
      var events := TurnEvents(config, v, input);
      assert inputs + [input] == [input] && [input][1..] == [];
      assert events + [] == events && [] + events == events;
    } else {
      var events := TurnEvents(config, v, inputs[0]);
      var next := After(v, events);
      var later := Turns(config, next, inputs[1..]);
      AfterConcat(v, events, later);
      FirstTaken(inputs, [input]);
      StaysNext(config, next, inputs[1..], input);
      Joined(events, later, TurnEvents(config, After(next, later), input));
    }
  }
}
