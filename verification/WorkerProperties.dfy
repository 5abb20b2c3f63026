/** What every run of the worker actor keeps. */
module WorkerProperties {
  import opened Wrappers
  import opened Bytes
  import opened Contract
  import opened WorkerSpec

  /** When an event may follow a state: the gates in front of the runtime, read off the trace. */
  predicate Allowed(config: Config, v: View, e: Event) {
    var life := v.snapshot.life;
    match e
    case Preempted => v == INITIAL
    case Started(_) => v == INITIAL
    case PolicyBroken => life.Ready? && v.cut.Uncut? && v.closes == 0
    case RestartBegun(command) =>
      && Contains(config.capabilities, Required(command))
      && (command.Restart? || (command.Navigate? && life.Ready?))
      && (life.Ready? || life.Degraded?) && !v.unconfirmed && v.cut.Uncut? && v.closes == 0
    case Restarted(_) => life.Restarting? && v.cut.Uncut? && v.closes == 0
    case Operated(command, _) =>
      && Contains(config.capabilities, Required(command))
      && InputError(config.urlAccepted, command, v.snapshot.pageEpoch).None?
      && !command.Restart? && !command.Shutdown?
      && life.Ready? && v.cut.Uncut? && v.closes == 0
    case Settled => life.Ready? && v.cut.Uncut? && v.closes == 0
    case DeadlineNoted => v.cut.CutByDeadline? && !life.Stopped? && !life.Starting?
    case Subscribed => Contains(config.capabilities, Capturing) && life.Ready? && v.cut.Uncut? && v.closes == 0
    case ClosingBegun => !life.Stopped?
    case ShutdownClosed(_) =>
      Contains(config.capabilities, Lifecycle) && life.ShuttingDown? && v.cut.Uncut? && v.closes == 0
    case Closed(_) => life.ShuttingDown? && v.closes == v.interruptedCloses <= 1
    case ClosedBefore => life.ShuttingDown? && v.closes == 1 && v.interruptedCloses == 0
    case Published => true
    case Replied(_) => v.published == v.snapshot
    case RuntimeDropped => life.Stopped? && v.published == v.snapshot && !v.dropped
    case StopFlagged => v.dropped && life.Stopped? && v.published == v.snapshot
  }

  predicate LegalFrom(config: Config, v: View, events: seq<Event>)
    decreases |events|
  {
    events == [] || (Allowed(config, v, events[0]) && LegalFrom(config, Apply(v, events[0]), events[1..]))
  }

  lemma {:induction false} LegalConcat(config: Config, v: View, a: seq<Event>, b: seq<Event>)
    ensures LegalFrom(config, v, a + b) <==> LegalFrom(config, v, a) && LegalFrom(config, After(v, a), b)
    decreases |a|
  {
    if a == [] {
      assert a + b == b;
    } else {
      assert (a + b)[1..] == a[1..] + b;
      LegalConcat(config, Apply(v, a[0]), a[1..], b);
    }
  }

  lemma LegalOne(config: Config, v: View, a: Event)
    ensures LegalFrom(config, v, [a]) <==> Allowed(config, v, a)
    ensures After(v, [a]) == Apply(v, a)
  {
    assert [a][1..] == [];
    AfterSnoc(v, [], a);
    assert [] + [a] == [a];
  }

  lemma LegalPair(config: Config, v: View, a: Event, b: Event)
    ensures LegalFrom(config, v, [a, b]) <==> Allowed(config, v, a) && Allowed(config, Apply(v, a), b)
    ensures After(v, [a, b]) == Apply(Apply(v, a), b)
  {
    LegalOne(config, v, a);
    LegalOne(config, Apply(v, a), b);
    LegalConcat(config, v, [a], [b]);
    assert [a] + [b] == [a, b];
    AfterPair(v, a, b);
  }

  // Runs are legal.

  /** The state at the head of the loop. */
  predicate AtRest(v: View) {
    && v.cut.Uncut? && v.published == v.snapshot && v.closes == 0 && v.interruptedCloses == 0 && !v.dropped && !v.stopped
    && (v.snapshot.life.Ready? || v.snapshot.life.Degraded?)
    && (v.snapshot.life.Ready? ==> v.snapshot.lastFailure.None? && !v.unconfirmed)
    && (v.snapshot.life.Degraded? ==> v.snapshot.lastFailure.Some? && v.snapshot.currentOrigin.None?)
  }

  /** The state in which a command leaves the runtime, before the actor answers. */
  predicate CommandEnd(v: View, completion: Completion, closing: bool) {
    && !v.dropped && !v.stopped
    && match completion
       case Completed(_) => if closing then ClosedOnce(v) else AtRest(v)
       case TimedOut =>
         && v.cut.CutByDeadline? && v.closes == (if closing then 1 else 0) && v.interruptedCloses == 0
         && !v.snapshot.life.Stopped? && !v.snapshot.life.Starting?
       case Abandoned =>
         && v.cut.CutByEmergency? && v.closes == v.interruptedCloses <= 1 && !v.snapshot.life.Stopped?
  }

  predicate ClosedOnce(v: View) {
    && v.snapshot.life.Stopped? && v.snapshot.currentOrigin.None? && v.published == v.snapshot
    && v.closes == 1 && v.interruptedCloses == 0
  }

  lemma RestartLegal(config: Config, v: View, command: Command, outcome: Outcome)
    requires AtRest(v) && !v.unconfirmed && Contains(config.capabilities, Required(command))
    requires command.Restart? || (command.Navigate? && v.snapshot.life.Ready?)
    ensures var effect := RestartEffect(command, outcome);
            && LegalFrom(config, v, effect.events)
            && CommandEnd(After(v, effect.events), effect.completion, false)
            && After(v, effect.events).unconfirmed == v.unconfirmed
            && (effect.completion == Completed(Ok(Acknowledged)) ==> After(v, effect.events).snapshot.life.Ready?)
  {
    var head := [RestartBegun(command), Published];
    LegalPair(config, v, RestartBegun(command), Published);
    var w := After(v, head);
    LegalPair(config, w, Restarted(outcome), Published);
    LegalOne(config, w, Restarted(outcome));
    LegalConcat(config, v, head, [Restarted(outcome), Published]);
    LegalConcat(config, v, head, [Restarted(outcome)]);
    AfterConcat(v, head, [Restarted(outcome), Published]);
    AfterConcat(v, head, [Restarted(outcome)]);
  }

  lemma ShutdownLegal(config: Config, v: View, outcome: Outcome)
    requires AtRest(v) && Contains(config.capabilities, Lifecycle)
    ensures var effect := ShutdownEffect(v.unconfirmed, outcome);
            && LegalFrom(config, v, effect.events)
            && CommandEnd(After(v, effect.events), effect.completion, true)
  {
    var head := [ClosingBegun, Published];
    LegalPair(config, v, ClosingBegun, Published);
    var w := After(v, head);
    LegalPair(config, w, ShutdownClosed(outcome), Published);
    LegalOne(config, w, ShutdownClosed(outcome));
    LegalConcat(config, v, head, [ShutdownClosed(outcome), Published]);
    LegalConcat(config, v, head, [ShutdownClosed(outcome)]);
    AfterConcat(v, head, [ShutdownClosed(outcome), Published]);
    AfterConcat(v, head, [ShutdownClosed(outcome)]);
  }

  lemma OperationLegal(config: Config, v: View, command: Command, script: Script)
    requires AtRest(v) && v.snapshot.life.Ready? && Contains(config.capabilities, Required(command))
    requires !command.Restart? && !command.Shutdown?
    requires InputError(config.urlAccepted, command, v.snapshot.pageEpoch).None?
    ensures var effect := OperationEffect(command, v.snapshot.pageEpoch, script);
            && LegalFrom(config, v, effect.events)
            && CommandEnd(After(v, effect.events), effect.completion, false)
  {
    var outcome := Verdict(command, script.outcome);
    var e := Operated(command, outcome);
    LegalOne(config, v, e);
    match outcome
    case Interrupted =>
    case Expired =>
    case Failed(_) => LegalPair(config, v, e, Published);
    case Finished(_) =>
      var tail := [if script.healthyAfter then Settled else PolicyBroken, Published];
      LegalPair(config, After(v, [e]), tail[0], Published);
      LegalConcat(config, v, [e], tail);
      AfterConcat(v, [e], tail);
  }

  lemma BodyLegal(config: Config, v: View, s: Snapshot, command: Command, script: Script)
    requires AtRest(v) && Contains(config.capabilities, Required(command))
    requires command.Restart? || command.Shutdown? || v.snapshot.life.Ready?
    requires command.Restart? ==> !v.unconfirmed
    requires s == v.snapshot || (command.Navigate? && v.snapshot.life.Ready?)
    ensures var effect := BodyEffect(config, s, v.unconfirmed, command, script);
            && LegalFrom(config, v, effect.events)
            && CommandEnd(After(v, effect.events), effect.completion, command.Shutdown?)
  {
    if command.Restart? {
      RestartLegal(config, v, command, script.restart);
    } else if command.Shutdown? {
      ShutdownLegal(config, v, script.outcome);
    } else if InputError(config.urlAccepted, command, s.pageEpoch).None? {
      OperationLegal(config, v, command, script);
    }
  }

  /** Whether the command passed its gate into a closing Shutdown. */
  predicate Closing(config: Config, v: View, command: Command) {
    command.Shutdown? && Gate(config, v.snapshot, v.unconfirmed, command).None?
  }

  lemma CommandLegal(config: Config, v: View, command: Command, script: Script)
    requires AtRest(v)
    ensures var effect := CommandEffect(config, v.snapshot, v.unconfirmed, command, script);
            && LegalFrom(config, v, effect.events)
            && CommandEnd(After(v, effect.events), effect.completion, Closing(config, v, command))
  {
    if Gate(config, v.snapshot, v.unconfirmed, command).None? {
      if !command.Restart? && !command.Shutdown? && !script.healthyBefore {
        LegalPair(config, v, PolicyBroken, Published);
      } else if command.Navigate? && script.needsRestart {
        RestartLegal(config, v, command, script.restart);
        var rotation := RestartEffect(command, script.restart);
        if rotation.completion == Completed(Ok(Acknowledged)) {
          var w := After(v, rotation.events);
          var body := BodyEffect(config, v.snapshot, v.unconfirmed, command, script);
          BodyLegal(config, w, v.snapshot, command, script);
          LegalConcat(config, v, rotation.events, body.events);
          AfterConcat(v, rotation.events, body.events);
        }
      } else {
        BodyLegal(config, v, v.snapshot, command, script);
      }
    }
  }

  /** The state in which the loop is left. */
  predicate LoopEnd(v: View, emergency: bool, attempted: bool) {
    && !v.dropped && !v.stopped
    && if emergency then !v.snapshot.life.Stopped? && v.closes == v.interruptedCloses <= 1
       else if v.snapshot.life.Stopped? then ClosedOnce(v)
       else v.closes == (if attempted then 1 else 0) && v.interruptedCloses == 0
  }

  lemma AnswerLegal(config: Config, v: View, command: Command, completion: Completion, closing: bool)
    requires CommandEnd(v, completion, closing)
    ensures var events := AnswerEvents(config, command, completion);
            && LegalFrom(config, v, events)
            && (!completion.Abandoned? && !closing ==> AtRest(After(v, events)))
            && (completion.Abandoned? ==> LoopEnd(After(v, events), true, false))
            && (!completion.Abandoned? && closing ==> LoopEnd(After(v, events), false, true))
  {
    match completion
    case Abandoned =>
    case Completed(result) => LegalOne(config, v, Replied(result));
    case TimedOut =>
      var reply := Replied(Err(CommandTimeout(CommandDeadline(config, command))));
      LegalPair(config, v, DeadlineNoted, Published);
      LegalOne(config, After(v, [DeadlineNoted, Published]), reply);
      LegalConcat(config, v, [DeadlineNoted, Published], [reply]);
      AfterConcat(v, [DeadlineNoted, Published], [reply]);
  }

  lemma TurnLegal(config: Config, v: View, input: Input)
    requires AtRest(v)
    ensures var events := TurnEvents(config, v, input);
            && LegalFrom(config, v, events)
            && (Leaves(config, v, input) ==>
                  LoopEnd(After(v, events), EmergencyAt(config, v, input), AttemptsAt(config, input)))
            && (!Leaves(config, v, input) ==> AtRest(After(v, events)))
  {
    match input
    case Emergency =>
    case Subscribe(failure) =>
      var reply := Replied(SubscribeResult(config, v.snapshot, failure));
      LegalPair(config, v, Subscribed, reply);
      LegalOne(config, v, reply);
      assert [Subscribed] + [reply] == [Subscribed, reply] && [] + [reply] == [reply];
    case Request(command, script) =>
      if !script.emergencyFirst {
        var effect := CommandEffect(config, v.snapshot, v.unconfirmed, command, script);
        CommandLegal(config, v, command, script);
        AnswerLegal(config, After(v, effect.events), command, effect.completion, Closing(config, v, command));
        LegalConcat(config, v, effect.events, AnswerEvents(config, command, effect.completion));
        AfterConcat(v, effect.events, AnswerEvents(config, command, effect.completion));
      }
  }

  /** How a run ends: closed, stopped without an origin, published, dropped, flagged. */
  predicate Ended(v: View) {
    && v.snapshot.life.Stopped? && v.snapshot.currentOrigin.None? && v.published == v.snapshot
    && v.dropped && v.stopped && v.closes == 1 + v.interruptedCloses <= 2
  }

  lemma ClosePairs(config: Config, v: View, e: Event)
    requires !v.snapshot.life.Stopped? && !v.dropped && !v.stopped
    requires e.ClosedBefore? || e.Closed?
    requires Allowed(config, v.(snapshot := v.snapshot.(life := ShuttingDown)), e)
    ensures var events := [ClosingBegun, Published] + [e, Published] + [RuntimeDropped, StopFlagged];
            LegalFrom(config, v, events) && Ended(After(v, events))
  {
    LegalPair(config, v, ClosingBegun, Published);
    var w := After(v, [ClosingBegun, Published]);
    LegalPair(config, w, e, Published);
    LegalConcat(config, v, [ClosingBegun, Published], [e, Published]);
    AfterConcat(v, [ClosingBegun, Published], [e, Published]);
    var head := [ClosingBegun, Published] + [e, Published];
    LegalPair(config, After(v, head), RuntimeDropped, StopFlagged);
    LegalConcat(config, v, head, [RuntimeDropped, StopFlagged]);
    AfterConcat(v, head, [RuntimeDropped, StopFlagged]);
  }

  lemma FinishLegal(config: Config, v: View, emergency: bool, attempted: bool, finish: CloseOutcome)
    requires LoopEnd(v, emergency, attempted)
    ensures var events := FinishEvents(v.snapshot, emergency, attempted, finish);
            LegalFrom(config, v, events) && Ended(After(v, events))
  {
    if emergency {
      ClosePairs(config, v, Closed(finish));
    } else if v.snapshot.life.Stopped? {
      LegalPair(config, v, RuntimeDropped, StopFlagged);
      assert [] + [RuntimeDropped, StopFlagged] == [RuntimeDropped, StopFlagged];
    } else if attempted {
      ClosePairs(config, v, ClosedBefore);
    } else {
      ClosePairs(config, v, Closed(finish));
    }
  }

  lemma {:induction false} ServeLegal(config: Config, v: View, inputs: seq<Input>, finish: CloseOutcome)
    requires AtRest(v)
    ensures LegalFrom(config, v, ServeEvents(config, v, inputs, finish))
    ensures Ended(After(v, ServeEvents(config, v, inputs, finish)))
    decreases |inputs|
  {
    if inputs == [] {
      FinishLegal(config, v, false, false, finish);
    } else {
      var events := TurnEvents(config, v, inputs[0]);
      var next := After(v, events);
      TurnLegal(config, v, inputs[0]);
      var rest := if Leaves(config, v, inputs[0])
        then FinishEvents(next.snapshot, EmergencyAt(config, v, inputs[0]), AttemptsAt(config, inputs[0]), finish)
        else ServeEvents(config, next, inputs[1..], finish);
      if Leaves(config, v, inputs[0]) {
        FinishLegal(config, next, EmergencyAt(config, v, inputs[0]), AttemptsAt(config, inputs[0]), finish);
      } else {
        ServeLegal(config, next, inputs[1..], finish);
      }
      LegalConcat(config, v, events, rest);
      AfterConcat(v, events, rest);
    }
  }

  /** Every run respects every gate and ends closed, stopped, published and dropped. */
  lemma RunLegal(config: Config, start: Start, inputs: seq<Input>, finish: CloseOutcome)
    ensures var t := RunEvents(config, start, inputs, finish);
            LegalFrom(config, INITIAL, t) && Ended(Replay(t))
  {
    var first := if start.StartPreempted? then Preempted else Started(start.outcome);
    LegalOne(config, INITIAL, first);
    var w := After(INITIAL, [first]);
    if start.StartPreempted? || start.outcome.Interrupted? {
      FinishLegal(config, w, true, false, finish);
      LegalConcat(config, INITIAL, [first], FinishEvents(STARTING, true, false, finish));
      AfterConcat(INITIAL, [first], FinishEvents(STARTING, true, false, finish));
    } else {
      LegalPair(config, INITIAL, first, Published);
      var next := After(INITIAL, [first, Published]);
      ServeLegal(config, next, inputs, finish);
      LegalConcat(config, INITIAL, [first, Published], ServeEvents(config, next, inputs, finish));
      AfterConcat(INITIAL, [first, Published], ServeEvents(config, next, inputs, finish));
    }
  }

  lemma LegalAt(config: Config, t: seq<Event>, i: nat)
    requires LegalFrom(config, INITIAL, t) && i < |t|
    ensures LegalFrom(config, INITIAL, t[..i]) && Allowed(config, Replay(t[..i]), t[i])
    ensures LegalFrom(config, Replay(t[..i]), t[i..])
    ensures Replay(t[..i + 1]) == Apply(Replay(t[..i]), t[i]) && Replay(t) == After(Replay(t[..i]), t[i..])
  {
    assert t == t[..i] + t[i..];
    LegalConcat(config, INITIAL, t[..i], t[i..]);
    AfterConcat(INITIAL, t[..i], t[i..]);
    assert t[..i + 1] == t[..i] + [t[i]];
    AfterSnoc(INITIAL, t[..i], t[i]);
  }

  // Facts that hold between any two events.

  predicate Consistent(v: View) {
    && (v.snapshot.life.Ready? ==> v.snapshot.lastFailure.None?)
    && (v.snapshot.life.Degraded? ==> v.snapshot.lastFailure.Some? && v.snapshot.currentOrigin.None?)
    && (v.unconfirmed ==>
          && v.snapshot.lastFailure.Some?
          && (v.snapshot.life.Degraded? || v.snapshot.life.ShuttingDown? || v.snapshot.life.Stopped?))
    && (v.closes > 0 ==>
          (v.snapshot.life.ShuttingDown? || v.snapshot.life.Degraded? || v.snapshot.life.Stopped?))
  }

  lemma ConsistentStep(config: Config, v: View, e: Event)
    requires Consistent(v) && Allowed(config, v, e)
    ensures Consistent(Apply(v, e))
  {
  }

  lemma {:induction false} ConsistentAlways(config: Config, v: View, events: seq<Event>)
    requires Consistent(v) && LegalFrom(config, v, events)
    ensures Consistent(After(v, events))
    decreases |events|
  {
    if events != [] {
      ConsistentStep(config, v, events[0]);
      ConsistentAlways(config, Apply(v, events[0]), events[1..]);
    }
  }

  // Main results, each about every run.

  function Closes(t: seq<Event>): nat {
    if t == [] then 0 else (if t[0].ShutdownClosed? || t[0].Closed? then 1 else 0) + Closes(t[1..])
  }

  /** Shutdown commands whose close the emergency signal dropped. */
  function InterruptedCloses(t: seq<Event>): nat {
    if t == [] then 0
    else (if t[0].ShutdownClosed? && t[0].outcome.Interrupted? then 1 else 0) + InterruptedCloses(t[1..])
  }

  lemma CloseIsCounted(v: View, e: Event)
    ensures Apply(v, e).closes == v.closes + if e.ShutdownClosed? || e.Closed? then 1 else 0
    ensures Apply(v, e).interruptedCloses ==
              v.interruptedCloses + if e.ShutdownClosed? && e.outcome.Interrupted? then 1 else 0
  {
  }

  lemma {:induction false} ClosesAreCounted(v: View, t: seq<Event>)
    ensures After(v, t).closes == v.closes + Closes(t)
    ensures After(v, t).interruptedCloses == v.interruptedCloses + InterruptedCloses(t)
    decreases |t|
  {
    if t != [] {
      CloseIsCounted(v, t[0]);
      ClosesAreCounted(Apply(v, t[0]), t[1..]);
    }
  }

  /**
  The runtime is closed before it is dropped: once on a run where no emergency interrupts the close
  of a Shutdown, twice on one where it does, never more.
  */
  lemma CloseDiscipline(config: Config, start: Start, inputs: seq<Input>, finish: CloseOutcome)
    ensures var t := RunEvents(config, start, inputs, finish);
            Closes(t) == 1 + InterruptedCloses(t) && InterruptedCloses(t) <= 1
  {
    RunLegal(config, start, inputs, finish);
    ClosesAreCounted(INITIAL, RunEvents(config, start, inputs, finish));
  }

  lemma {:induction false} NothingAfterDrop(config: Config, v: View, t: seq<Event>)
    requires LegalFrom(config, v, t) && v.dropped && v.snapshot.life.Stopped?
    ensures Closes(t) == 0
    decreases |t|
  {
    if t != [] {
      NothingAfterDrop(config, Apply(v, t[0]), t[1..]);
    }
  }

  lemma {:induction false} ClosesSplit(a: seq<Event>, b: seq<Event>)
    ensures Closes(a + b) == Closes(a) + Closes(b)
  {
    if a == [] {
      assert a + b == b;
    } else {
      assert (a + b)[1..] == a[1..] + b;
      ClosesSplit(a[1..], b);
    }
  }

  lemma DropIsLast(config: Config, t: seq<Event>, i: nat)
    requires LegalFrom(config, INITIAL, t) && i < |t| && (t[i].RuntimeDropped? || t[i].StopFlagged?)
    ensures Closes(t[..i]) == Closes(t)
    ensures Replay(t[..i]).published.life.Stopped? && Replay(t[..i]).published.currentOrigin.None?
    ensures t[i].StopFlagged? ==> Replay(t[..i]).dropped
  {
    LegalAt(config, t, i);
    var v := Replay(t[..i]);
    var rest := t[i + 1..];
    assert t[i..] == [t[i]] + rest && t[i..][1..] == rest;
    NothingAfterDrop(config, Apply(v, t[i]), rest);
    assert t == t[..i] + t[i..];
    ClosesSplit(t[..i], t[i..]);
    StoppedHasNoOrigin(config, INITIAL, t[..i]);
  }

  /** Every close precedes the drop, and at the drop a Stopped snapshot without origin is already published. */
  lemma DropComesLast(config: Config, start: Start, inputs: seq<Input>, finish: CloseOutcome, i: nat)
    requires var t := RunEvents(config, start, inputs, finish);
             i < |t| && (t[i].RuntimeDropped? || t[i].StopFlagged?)
    ensures var t := RunEvents(config, start, inputs, finish);
            && Closes(t[..i]) == Closes(t) >= 1
            && Replay(t[..i]).published.life.Stopped? && Replay(t[..i]).published.currentOrigin.None?
            && (t[i].StopFlagged? ==> Replay(t[..i]).dropped)
  {
    RunLegal(config, start, inputs, finish);
    CloseDiscipline(config, start, inputs, finish);
    DropIsLast(config, RunEvents(config, start, inputs, finish), i);
  }

  lemma StopForgetsOrigin(config: Config, v: View, e: Event)
    requires Allowed(config, v, e) && (v.snapshot.life.Stopped? ==> v.snapshot.currentOrigin.None?)
    ensures Apply(v, e).snapshot.life.Stopped? ==> Apply(v, e).snapshot.currentOrigin.None?
  {
  }

  lemma {:induction false} StoppedHasNoOrigin(config: Config, v: View, t: seq<Event>)
    requires LegalFrom(config, v, t) && (v.snapshot.life.Stopped? ==> v.snapshot.currentOrigin.None?)
    ensures After(v, t).snapshot.life.Stopped? ==> After(v, t).snapshot.currentOrigin.None?
    decreases |t|
  {
    if t != [] {
      StopForgetsOrigin(config, v, t[0]);
      StoppedHasNoOrigin(config, Apply(v, t[0]), t[1..]);
    }
  }

  /**
  Two closes do happen: at the head of the loop of any run, a Shutdown command whose close the
  emergency signal drops leads to a second one.
  */
  lemma TwoClosesHappen(
      config: Config, start: Start, inputs: seq<Input>, script: Script, rest: seq<Input>, finish: CloseOutcome)
    requires Reaches(config, start, inputs) && Contains(config.capabilities, Lifecycle)
    requires !script.emergencyFirst && script.outcome == Interrupted
    ensures Closes(RunEvents(config, start, inputs + ([Request(Shutdown, script)] + rest), finish)) == 2
  {
    var head := HeadTrace(config, start, inputs);
    var t := RunEvents(config, start, inputs + ([Request(Shutdown, script)] + rest), finish);
    TurnComesNext(config, start, inputs, Request(Shutdown, script), rest, finish);
    var v := Replay(head);
    assert CommandEffect(config, v.snapshot, v.unconfirmed, Shutdown, script) == ShutdownEffect(v.unconfirmed, Interrupted);
    var turn := TurnEvents(config, v, Request(Shutdown, script));
    assert turn[2] == ShutdownClosed(Interrupted);
    assert t[|head| + 2] == (head + turn)[|head| + 2];
    InterruptedIsCounted(t, |head| + 2);
    CloseDiscipline(config, start, inputs + ([Request(Shutdown, script)] + rest), finish);
  }

  lemma {:induction false} InterruptedIsCounted(t: seq<Event>, i: nat)
    requires i < |t| && t[i].ShutdownClosed? && t[i].outcome.Interrupted?
    ensures InterruptedCloses(t) >= 1
  {
    if i > 0 {
      InterruptedIsCounted(t[1..], i - 1);
    }
  }

  /** Events through which the page behind earlier references goes away, unless nothing was observed. */
  predicate Invalidates(e: Event) {
    || e.RestartBegun?
    || (e.Operated? && (e.command.Navigate? || e.command.SwitchToTab?)
        && e.outcome != Failed(ObservationMissing))
  }

  /** Beyond the fence no call can carry the epoch: it has passed, or no call can be made before it does. */
  predicate Fenced(v: View, epoch: nat) {
    && epoch <= v.snapshot.pageEpoch
    && (epoch < v.snapshot.pageEpoch || !v.cut.Uncut?
        || v.snapshot.life.Degraded? || v.snapshot.life.ShuttingDown? || v.snapshot.life.Stopped?)
  }

  lemma FenceRises(config: Config, v: View, e: Event)
    requires Allowed(config, v, e) && Invalidates(e) && Apply(v, e).snapshot.pageEpoch < U64_MAX
    ensures Fenced(Apply(v, e), v.snapshot.pageEpoch)
  {
  }

  lemma FenceStands(config: Config, v: View, e: Event, epoch: nat)
    requires Allowed(config, v, e) && Consistent(v) && Fenced(v, epoch) && Apply(v, e).snapshot.pageEpoch < U64_MAX
    ensures Fenced(Apply(v, e), epoch)
    ensures e.Operated? ==> epoch < v.snapshot.pageEpoch
  {
  }

  lemma EpochGrows(v: View, e: Event)
    requires v.snapshot.pageEpoch <= U64_MAX
    ensures v.snapshot.pageEpoch <= Apply(v, e).snapshot.pageEpoch <= U64_MAX
  {
  }

  lemma {:induction false} EpochMonotone(v: View, t: seq<Event>)
    requires v.snapshot.pageEpoch <= U64_MAX
    ensures v.snapshot.pageEpoch <= After(v, t).snapshot.pageEpoch <= U64_MAX
    decreases |t|
  {
    if t != [] {
      EpochGrows(v, t[0]);
      EpochMonotone(Apply(v, t[0]), t[1..]);
    }
  }

  lemma {:induction false} FencedCalls(config: Config, v: View, t: seq<Event>, epoch: nat, k: nat)
    requires LegalFrom(config, v, t) && Consistent(v) && Fenced(v, epoch)
    requires v.snapshot.pageEpoch <= U64_MAX && After(v, t).snapshot.pageEpoch < U64_MAX
    requires k < |t| && t[k].Operated?
    ensures epoch < After(v, t[..k]).snapshot.pageEpoch
    decreases |t|
  {
    EpochGrows(v, t[0]);
    EpochMonotone(Apply(v, t[0]), t[1..]);
    FenceStands(config, v, t[0], epoch);
    if k == 0 {
      assert t[..0] == [];
    } else {
      ConsistentStep(config, v, t[0]);
      FencedCalls(config, Apply(v, t[0]), t[1..], epoch, k - 1);
      assert t[..k][1..] == t[1..][..k - 1] && t[..k][0] == t[0];
    }
  }

  /** The epoch an element reference got when ResolveElement succeeded at position i. */
  function IssuedAt(t: seq<Event>, i: nat): ElementRef
    requires i < |t| && t[i].Operated? && t[i].command.ResolveElement?
  {
    ElementRef(t[i].command.selector, Replay(t[..i]).snapshot.pageEpoch)
  }

  lemma EpochOfPrefix(t: seq<Event>, i: nat, j: nat)
    requires i <= j <= |t|
    ensures Replay(t[..i]).snapshot.pageEpoch <= Replay(t[..j]).snapshot.pageEpoch <= U64_MAX
  {
    EpochMonotone(INITIAL, t[..i]);
    assert t[..j] == t[..i] + t[i..j];
    AfterConcat(INITIAL, t[..i], t[i..j]);
    EpochMonotone(Replay(t[..i]), t[i..j]);
  }

  lemma FencedBetween(config: Config, t: seq<Event>, j: nat, k: nat)
    requires LegalFrom(config, INITIAL, t) && j < k < |t| && Invalidates(t[j]) && t[k].Operated?
    requires Replay(t).snapshot.pageEpoch < U64_MAX
    ensures Replay(t[..j]).snapshot.pageEpoch < Replay(t[..k]).snapshot.pageEpoch
  {
    LegalAt(config, t, j);
    var v := Replay(t[..j]);
    var w := Apply(v, t[j]);
    var rest := t[j + 1..];
    assert t[j..][1..] == rest && t[j..][0] == t[j];
    ConsistentAlways(config, INITIAL, t[..j]);
    ConsistentStep(config, v, t[j]);
    EpochOfPrefix(t, j, j);
    EpochGrows(v, t[j]);
    EpochMonotone(w, rest);
    FenceRises(config, v, t[j]);
    FencedCalls(config, w, rest, v.snapshot.pageEpoch, k - j - 1);
    assert t[..k] == t[..j + 1] + rest[..k - j - 1];
    AfterConcat(INITIAL, t[..j + 1], rest[..k - j - 1]);
  }

  /** An element was resolved at i, its page went away at j, and the runtime is called again at k. */
  predicate CalledAfterPageLost(t: seq<Event>, i: nat, j: nat, k: nat) {
    && i < j < k < |t|
    && t[i].Operated? && t[i].command.ResolveElement?
    && Invalidates(t[j]) && t[k].Operated?
  }

  lemma StaleInTrace(config: Config, t: seq<Event>, i: nat, j: nat, k: nat)
    requires LegalFrom(config, INITIAL, t) && CalledAfterPageLost(t, i, j, k) && Replay(t).snapshot.pageEpoch < U64_MAX
    ensures ElementOf(t[k].command) != Some(IssuedAt(t, i))
  {
    EpochOfPrefix(t, i, j);
    FencedBetween(config, t, j, k);
    LegalAt(config, t, k);
  }

  /**
  An element reference issued by ResolveElement never reaches the runtime after a later Navigate,
  SwitchToTab or restart has reached it, however that operation ended, unless it ended in
  ObservationMissing; for epochs below saturation.
  */
  lemma StaleElementNeverReaches(
      config: Config, start: Start, inputs: seq<Input>, finish: CloseOutcome, i: nat, j: nat, k: nat)
    ensures var t := RunEvents(config, start, inputs, finish);
            CalledAfterPageLost(t, i, j, k) && Replay(t).snapshot.pageEpoch < U64_MAX ==>
              ElementOf(t[k].command) != Some(IssuedAt(t, i))
  {
    var t := RunEvents(config, start, inputs, finish);
    RunLegal(config, start, inputs, finish);
    if CalledAfterPageLost(t, i, j, k) && Replay(t).snapshot.pageEpoch < U64_MAX {
      StaleInTrace(config, t, i, j, k);
    }
  }

  predicate Bumps(e: Event) {
    e.RestartBegun? || (e.Operated? && e.outcome.Finished? && (e.command.Navigate? || e.command.SwitchToTab?))
  }

  function CountBumps(t: seq<Event>): nat {
    if t == [] then 0 else (if Bumps(t[0]) then 1 else 0) + CountBumps(t[1..])
  }

  function CountRestarts(t: seq<Event>): nat {
    if t == [] then 0 else (if t[0].Restarted? && t[0].outcome.Finished? then 1 else 0) + CountRestarts(t[1..])
  }

  function Saturate(n: nat): nat {
    if n < 0xFFFF_FFFF_FFFF_FFFF then n else 0xFFFF_FFFF_FFFF_FFFF
  }

  lemma CountersStep(v: View, e: Event)
    ensures Apply(v, e).snapshot.pageEpoch == if Bumps(e) then SaturatingSucc(v.snapshot.pageEpoch) else v.snapshot.pageEpoch
    ensures Apply(v, e).snapshot.restartCount ==
              if e.Restarted? && e.outcome.Finished? then SaturatingSucc(v.snapshot.restartCount) else v.snapshot.restartCount
  {
  }

  lemma {:induction false} CountersFrom(v: View, t: seq<Event>)
    requires v.snapshot.pageEpoch <= U64_MAX && v.snapshot.restartCount <= U64_MAX
    ensures After(v, t).snapshot.pageEpoch == Saturate(v.snapshot.pageEpoch + CountBumps(t))
    ensures After(v, t).snapshot.restartCount == Saturate(v.snapshot.restartCount + CountRestarts(t))
    decreases |t|
  {
    if t != [] {
      CountersStep(v, t[0]);
      CountersFrom(Apply(v, t[0]), t[1..]);
    }
  }

  /** page_epoch counts successful navigations and tab switches and attempted restarts; restart_count the successful ones. */
  lemma CountersCount(t: seq<Event>)
    ensures Replay(t).snapshot.pageEpoch == Saturate(CountBumps(t))
    ensures Replay(t).snapshot.restartCount == Saturate(CountRestarts(t))
  {
    CountersFrom(INITIAL, t);
  }

  predicate ReachesRuntime(e: Event) {
    e.Operated? || e.RestartBegun? || e.Restarted? || e.Subscribed? || e.ShutdownClosed? || e.Closed?
  }

  /** While Degraded only Restart reaches the runtime; a close needs ShuttingDown to be entered first. */
  lemma DegradedAdmitsOnlyRestart(config: Config, start: Start, inputs: seq<Input>, finish: CloseOutcome, i: nat)
    requires var t := RunEvents(config, start, inputs, finish);
             i < |t| && ReachesRuntime(t[i]) && Replay(t[..i]).snapshot.life.Degraded?
    ensures RunEvents(config, start, inputs, finish)[i] == RestartBegun(Restart)
  {
    RunLegal(config, start, inputs, finish);
    LegalAt(config, RunEvents(config, start, inputs, finish), i);
  }

  lemma {:induction false} UnconfirmedStays(config: Config, v: View, t: seq<Event>, k: nat)
    requires LegalFrom(config, v, t) && Consistent(v) && v.unconfirmed && v != INITIAL && !v.snapshot.life.Restarting?
    requires k < |t|
    ensures !t[k].Operated? && !t[k].RestartBegun? && !t[k].Restarted? && !t[k].Subscribed?
    ensures After(v, t).unconfirmed
    decreases |t|
  {
    ConsistentStep(config, v, t[0]);
    var w := Apply(v, t[0]);
    if k > 0 {
      UnconfirmedStays(config, w, t[1..], k - 1);
    } else if |t| > 1 {
      UnconfirmedStays(config, w, t[1..], 0);
    }
  }

  /** The startup failed or ran out of time. */
  predicate FailedStart(start: Start) {
    start.StartRan? && (start.outcome.Failed? || start.outcome.Expired?)
  }

  lemma RunStartsWithStart(config: Config, start: Start, inputs: seq<Input>, finish: CloseOutcome)
    requires FailedStart(start)
    ensures var t := RunEvents(config, start, inputs, finish);
            |t| > 2 && t[0] == Started(start.outcome)
  {
    var events := [Started(start.outcome), Published];
    ServeLegalNonempty(config, After(INITIAL, events), inputs, finish);
  }

  lemma {:induction false} ServeLegalNonempty(config: Config, v: View, inputs: seq<Input>, finish: CloseOutcome)
    ensures |ServeEvents(config, v, inputs, finish)| >= 2
    decreases |inputs|
  {
    if inputs != [] && !Leaves(config, v, inputs[0]) {
      ServeLegalNonempty(config, After(v, TurnEvents(config, v, inputs[0])), inputs[1..], finish);
    }
  }

  lemma FailedStartBlocks(config: Config, t: seq<Event>, k: nat)
    requires LegalFrom(config, INITIAL, t) && 0 < k < |t|
    requires t[0].Started? && (t[0].outcome.Failed? || t[0].outcome.Expired?)
    ensures ReachesRuntime(t[k]) ==> t[k].ShutdownClosed? || t[k].Closed?
    ensures Replay(t[..k]).unconfirmed && Replay(t).unconfirmed
  {
    var v := Apply(INITIAL, t[0]);
    var rest := t[1..];
    UnconfirmedStays(config, v, rest, k - 1);
    assert t[..k][1..] == rest[..k - 1] && t[..k][0] == t[0];
    assert rest == rest[..k - 1] + rest[k - 1..];
    LegalConcat(config, v, rest[..k - 1], rest[k - 1..]);
    if k > 1 {
      UnconfirmedStays(config, v, rest[..k - 1], 0);
    }
  }

  /** After a failed start nothing but close happens in the runtime, and a failure stays on record at every moment. */
  lemma FailedStartIsFinal(config: Config, start: Start, inputs: seq<Input>, finish: CloseOutcome, k: nat)
    requires FailedStart(start) && 0 < k < |RunEvents(config, start, inputs, finish)|
    ensures var t := RunEvents(config, start, inputs, finish);
            && (ReachesRuntime(t[k]) ==> t[k].ShutdownClosed? || t[k].Closed?)
            && Replay(t[..k]).snapshot.lastFailure.Some?
            && Replay(t).published.lastFailure.Some?
  {
    var t := RunEvents(config, start, inputs, finish);
    RunLegal(config, start, inputs, finish);
    RunStartsWithStart(config, start, inputs, finish);
    FailedStartBlocks(config, t, k);
    LegalAt(config, t, k);
    ConsistentAlways(config, INITIAL, t[..k]);
    ConsistentAlways(config, INITIAL, t);
  }

  /** No command is ever answered with success after a failed start. */
  lemma NoSuccessAfterFailedStart(config: Config, v: View, input: Input)
    requires AtRest(v) && v.unconfirmed
    ensures forall r :: Replied(r) in TurnEvents(config, v, input) ==> r.Err?
  {
    match input
    case Emergency =>
    case Subscribe(failure) =>
    case Request(command, script) =>
      var effect := CommandEffect(config, v.snapshot, v.unconfirmed, command, script);
      assert effect.completion.Completed? ==> effect.completion.result.Err?;
      assert forall e :: e in effect.events ==> !e.Replied?;
  }

  lemma {:induction false} ServeRepliesFail(config: Config, v: View, inputs: seq<Input>, finish: CloseOutcome)
    requires AtRest(v) && v.unconfirmed
    ensures forall r :: Replied(r) in ServeEvents(config, v, inputs, finish) ==> r.Err?
    decreases |inputs|
  {
    if inputs != [] {
      NoSuccessAfterFailedStart(config, v, inputs[0]);
      TurnLegal(config, v, inputs[0]);
      var events := TurnEvents(config, v, inputs[0]);
      if !Leaves(config, v, inputs[0]) {
        if events != [] {
          UnconfirmedStays(config, v, events, 0);
        }
        ServeRepliesFail(config, After(v, events), inputs[1..], finish);
      }
    }
  }

  /** What the handle's `shutdown` returns: by the final failure once stopped, else by the answers it waits for. */
  function ShutdownResult(
      stopped: bool, finalFailure: Option<FailureKind>, answer: Result<Reply, WorkerError>, waited: Result<(), WorkerError>)
    : Result<(), WorkerError>
  {
    if stopped then
      match finalFailure
      case Some(kind) => Err(RuntimeFailed(kind))
      case None => Ok(())
    else if answer.Err? then Err(answer.error)
    else waited
  }

  /** After a failed start no `shutdown` call returns Ok, whether it comes before the end or after it. */
  lemma ShutdownNeverOkAfterFailedStart(
      config: Config, start: Start, inputs: seq<Input>, finish: CloseOutcome,
      stopped: bool, answer: Result<Reply, WorkerError>, waited: Result<(), WorkerError>)
    requires FailedStart(start)
    requires answer.Err? || Replied(answer) in RunEvents(config, start, inputs, finish)
    ensures ShutdownResult(
              stopped, Replay(RunEvents(config, start, inputs, finish)).published.lastFailure, answer, waited).Err?
  {
    var t := RunEvents(config, start, inputs, finish);
    RunStartsWithStart(config, start, inputs, finish);
    FailedStartIsFinal(config, start, inputs, finish, 1);
    var events := [Started(start.outcome), Published];
    AfterPair(INITIAL, Started(start.outcome), Published);
    ServeRepliesFail(config, After(INITIAL, events), inputs, finish);
  }

  /** At every reply the published snapshot is the actor's own, and it tells Ready from Degraded truthfully. */
  lemma RepliesArePublished(config: Config, start: Start, inputs: seq<Input>, finish: CloseOutcome, i: nat)
    requires var t := RunEvents(config, start, inputs, finish);
             i < |t| && t[i].Replied?
    ensures var v := Replay(RunEvents(config, start, inputs, finish)[..i]);
            && v.published == v.snapshot
            && (v.published.life.Ready? ==> v.published.lastFailure.None?)
            && (v.published.life.Degraded? ==> v.published.lastFailure.Some? && v.published.currentOrigin.None?)
  {
    var t := RunEvents(config, start, inputs, finish);
    RunLegal(config, start, inputs, finish);
    LegalAt(config, t, i);
    ConsistentAlways(config, INITIAL, t[..i]);
  }

  /** The capability that permits a command is held. */
  predicate Permitted(config: Config, command: Command) {
    exists c :: c in config.capabilities && Permits(c, command)
  }

  /** What stands in front of each call into the runtime. */
  predicate Gated(config: Config, v: View, e: Event) {
    match e
    case Operated(command, _) =>
      && Permitted(config, command) && v.snapshot.life.Ready?
      && Acceptable(config.urlAccepted, command, v.snapshot.pageEpoch)
    case RestartBegun(command) =>
      if command.Navigate? then Navigation in config.capabilities && v.snapshot.life.Ready?
      else command.Restart? && Lifecycle in config.capabilities
    case Restarted(_) => v.snapshot.life.Restarting?
    case ShutdownClosed(_) => Lifecycle in config.capabilities
    case Subscribed => Capturing in config.capabilities && v.snapshot.life.Ready?
    case _ => true
  }

  lemma AllowedIsGated(config: Config, v: View, e: Event)
    requires Allowed(config, v, e)
    ensures Gated(config, v, e)
    ensures e.Operated? || e.RestartBegun? || e.Restarted? || e.Subscribed? ==> v.closes == 0
  {
    if e.Operated? {
      PermittedByOne(Required(e.command), e.command);
      RefusedExactly(config.urlAccepted, e.command, v.snapshot.pageEpoch);
    } else if e.RestartBegun? {
      PermittedByOne(Required(e.command), e.command);
    }
  }

  /**
  Every runtime call a command makes had its capability, a worker in the right state and valid
  arguments (a page-limit restart runs under Navigate's capability), and no call follows a close.
  */
  lemma EveryCallWasGated(config: Config, start: Start, inputs: seq<Input>, finish: CloseOutcome, i: nat)
    requires i < |RunEvents(config, start, inputs, finish)|
    ensures var t := RunEvents(config, start, inputs, finish);
            && Gated(config, Replay(t[..i]), t[i])
            && (t[i].Operated? || t[i].RestartBegun? || t[i].Restarted? || t[i].Subscribed? ==> Closes(t[..i]) == 0)
  {
    var t := RunEvents(config, start, inputs, finish);
    RunLegal(config, start, inputs, finish);
    LegalAt(config, t, i);
    ClosesAreCounted(INITIAL, t[..i]);
    AllowedIsGated(config, Replay(t[..i]), t[i]);
  }
}
