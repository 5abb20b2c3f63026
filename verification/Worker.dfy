/**
The single-owner actor behind a browser worker, with the state its source keeps in local variables
as fields. The environment's choices (outcomes, deadlines, the emergency signal, the order of inputs)
come in as scripts; the ghost trace records every event.
*/
module Worker {
  import opened Wrappers
  import opened Bytes
  import opened Contract
  import opened WorkerSpec

  class BrowserActor {
    const config: Config
    var snapshot: Snapshot
    var published: Snapshot
    var stopped: bool
    var startupUnconfirmed: bool
    var shutdownAttempted: bool
    var emergencyRequested: bool
    ghost var trace: seq<Event>
    ghost var view: View

    /** The fields are what the recorded events say. */
    ghost predicate Valid()
      reads this
    {
      && view == Replay(trace)
      && view.snapshot == snapshot
      && view.published == published
      && view.unconfirmed == startupUnconfirmed
      && view.stopped == stopped
    }

    constructor (config: Config)
      ensures Valid() && this.config == config && trace == []
      ensures !stopped && !startupUnconfirmed && !shutdownAttempted && !emergencyRequested && snapshot == STARTING
    {
      this.config := config;
      snapshot, published := STARTING, STARTING;
      stopped, startupUnconfirmed, shutdownAttempted, emergencyRequested := false, false, false, false;
      trace, view := [], INITIAL;
    }

    ghost method Record(e: Event)
      requires view == Replay(trace)
      modifies this`trace, this`view
      ensures view == Replay(trace)
      ensures trace == old(trace) + [e] && view == Apply(old(view), e)
    {
      AfterSnoc(INITIAL, trace, e);
      trace := trace + [e];
      view := Apply(view, e);
    }

    method Publish()
      requires Valid()
      modifies this`published, this`trace, this`view
      ensures Valid() && trace == old(trace) + [Published] && published == snapshot
    {
      published := snapshot;
      Record(Published);
    }

    method MarkDegraded(kind: FailureKind)
      modifies this`snapshot
      ensures snapshot == Degrade(old(snapshot), kind)
    {
      snapshot := snapshot.(life := Degraded);
      snapshot := snapshot.(currentOrigin := None);
      snapshot := snapshot.(lastFailure := Some(kind));
    }

    method BeginRestart(command: Command)
      requires Valid()
      modifies this`snapshot, this`published, this`trace, this`view
      ensures Valid() && trace == old(trace) + [RestartBegun(command), Published]
    {
      snapshot := snapshot.(life := Restarting, pageEpoch := SaturatingSucc(snapshot.pageEpoch), currentOrigin := None);
      Record(RestartBegun(command));
      Publish();
      TwoMore(old(trace), RestartBegun(command), Published);
    }

    method RestartRuntime(command: Command, outcome: Outcome) returns (completion: Completion)
      requires Valid()
      modifies this`snapshot, this`published, this`trace, this`view
      ensures Valid()
      ensures var effect := RestartEffect(command, outcome);
              trace == old(trace) + effect.events && completion == effect.completion
    {
      BeginRestart(command);
      ghost var begun := trace;
      Record(Restarted(outcome));
      Regroup(old(trace), [RestartBegun(command), Published], [Restarted(outcome)]);
      if outcome.Expired? { return TimedOut; }
      if outcome.Interrupted? { return Abandoned; }
      if outcome.Finished? {
        snapshot := snapshot.(life := Ready, restartCount := SaturatingSucc(snapshot.restartCount), lastFailure := None);
        completion := Completed(Ok(Acknowledged));
      } else {
        MarkDegraded(outcome.kind);
        completion := Completed(Err(RuntimeFailed(outcome.kind)));
      }
      Publish();
      TwoMore(begun, Restarted(outcome), Published);
      Regroup(old(trace), [RestartBegun(command), Published], [Restarted(outcome), Published]);
    }

    method BeginClosing()
      requires Valid()
      modifies this`snapshot, this`published, this`trace, this`view
      ensures Valid() && trace == old(trace) + [ClosingBegun, Published]
      ensures snapshot == old(snapshot).(life := ShuttingDown)
    {
      snapshot := snapshot.(life := ShuttingDown);
      Record(ClosingBegun);
      Publish();
    }

    method CloseForShutdown(outcome: Outcome) returns (completion: Completion)
      requires Valid()
      modifies this`snapshot, this`published, this`trace, this`view
      ensures Valid()
      ensures var effect := ShutdownEffect(startupUnconfirmed, outcome);
              trace == old(trace) + effect.events && completion == effect.completion
    {
      BeginClosing();
      ghost var closing := trace;
      Record(ShutdownClosed(outcome));
      Regroup(old(trace), [ClosingBegun, Published], [ShutdownClosed(outcome)]);
      if outcome.Expired? { return TimedOut; }
      if outcome.Interrupted? { return Abandoned; }
      snapshot := snapshot.(life := Stopped, currentOrigin := None);
      var failure := if outcome.Failed? then Some(outcome.kind)
                     else if startupUnconfirmed then Some(ShutdownFailure)
                     else None;
      if failure.Some? {
        snapshot := snapshot.(lastFailure := failure);
        completion := Completed(Err(RuntimeFailed(failure.value)));
      } else {
        snapshot := snapshot.(lastFailure := None);
        completion := Completed(Ok(Acknowledged));
      }
      Publish();
      TwoMore(closing, ShutdownClosed(outcome), Published);
      Regroup(old(trace), [ClosingBegun, Published], [ShutdownClosed(outcome), Published]);
    }

    method Operation(command: Command, script: Script) returns (completion: Completion)
      requires Valid()
      modifies this`snapshot, this`published, this`trace, this`view
      ensures Valid()
      ensures var effect := OperationEffect(command, old(snapshot.pageEpoch), script);
              trace == old(trace) + effect.events && completion == effect.completion
    {
      var epoch := snapshot.pageEpoch;
      var outcome := Verdict(command, script.outcome);
      Record(Operated(command, outcome));
      match outcome
      case Interrupted => completion := Abandoned;
      case Expired => completion := TimedOut;
      case Failed(kind) =>
        if kind.ObservationMissing? {
          snapshot := snapshot.(life := Ready, lastFailure := None);
        } else {
          MarkDegraded(kind);
        }
        Publish();
        TwoMore(old(trace), Operated(command, outcome), Published);
        completion := Completed(Err(RuntimeFailed(kind)));
      case Finished(value) =>
        if command.Navigate? {
          snapshot := snapshot.(pageEpoch := SaturatingSucc(snapshot.pageEpoch), currentOrigin := value.origin);
        } else if command.SwitchToTab? {
          snapshot := snapshot.(pageEpoch := SaturatingSucc(snapshot.pageEpoch), currentOrigin := None);
        }
        completion := Conclude(script.healthyAfter, ReplyFor(command, value, epoch));
        Regroup(old(trace), [Operated(command, outcome)], [if script.healthyAfter then Settled else PolicyBroken, Published]);
    }

    /** A successful call still fails when the page broke the navigation policy meanwhile. */
    method Conclude(healthy: bool, reply: Reply) returns (completion: Completion)
      requires Valid()
      modifies this`snapshot, this`published, this`trace, this`view
      ensures Valid() && trace == old(trace) + [if healthy then Settled else PolicyBroken, Published]
      ensures completion == Completed(if healthy then Ok(reply) else Err(RuntimeFailed(ProtocolFailure)))
    {
      if !healthy {
        MarkDegraded(ProtocolFailure);
        Record(PolicyBroken);
        Publish();
        return Completed(Err(RuntimeFailed(ProtocolFailure)));
      }
      snapshot := snapshot.(life := Ready, lastFailure := None);
      Record(Settled);
      Publish();
      completion := Completed(Ok(reply));
    }

    method Refuse(command: Command) returns (refusal: Option<WorkerError>)
      ensures refusal == Gate(config, snapshot, startupUnconfirmed, command)
      ensures forall c :: Permits(c, command) && c !in config.capabilities ==> refusal == Some(CapabilityDenied(c))
      ensures refusal.Some? && refusal.value.CapabilityDenied? ==>
                Permits(refusal.value.capability, command) && refusal.value.capability !in config.capabilities
    {
      PermittedOnlyBy(command);
      var required := Required(command);
      if !Contains(config.capabilities, required) {
        return Some(CapabilityDenied(required));
      }
      if snapshot.life == Degraded && !(command.Restart? || command.Shutdown?) {
        return Some(Unavailable);
      }
      if startupUnconfirmed && command.Restart? {
        return Some(Unavailable);
      }
      return None;
    }

    method HandleCommand(command: Command, script: Script) returns (completion: Completion)
      requires Valid()
      modifies this`snapshot, this`published, this`trace, this`view
      ensures Valid()
      ensures var effect := CommandEffect(config, old(snapshot), startupUnconfirmed, command, script);
              trace == old(trace) + effect.events && completion == effect.completion
      ensures forall c :: Permits(c, command) && c !in config.capabilities ==>
                completion == Completed(Err(CapabilityDenied(c))) && trace == old(trace) && snapshot == old(snapshot)
    {
      var refusal := Refuse(command);
      if refusal.Some? {
        completion := Completed(Err(refusal.value));
      } else {
        completion := Proceed(command, script);
      }
    }

    /** A command that has passed its gate. */
    method Proceed(command: Command, script: Script) returns (completion: Completion)
      requires Valid() && Gate(config, snapshot, startupUnconfirmed, command).None?
      modifies this`snapshot, this`published, this`trace, this`view
      ensures Valid()
      ensures var effect := CommandEffect(config, old(snapshot), startupUnconfirmed, command, script);
              trace == old(trace) + effect.events && completion == effect.completion
    {
      if !(command.Restart? || command.Shutdown?) && !script.healthyBefore {
        completion := Conclude(false, Acknowledged);
        return;
      }
      if command.Navigate? && script.needsRestart {
        completion := NavigateAfterRotation(command, script);
      } else {
        completion := Dispatch(command, script);
      }
    }

    /** A navigation whose runtime has to be replaced first. */
    method NavigateAfterRotation(command: Command, script: Script) returns (completion: Completion)
      requires Valid() && command.Navigate?
      modifies this`snapshot, this`published, this`trace, this`view
      ensures Valid()
      ensures var effect := RotatedEffect(config, old(snapshot), startupUnconfirmed, command, script);
              trace == old(trace) + effect.events && completion == effect.completion
    {
      completion := RestartRuntime(command, script.restart);
      if completion != Completed(Ok(Acknowledged)) {
        return;
      }
      ghost var rotated := snapshot;
      completion := Dispatch(command, script);
      NavigationIgnoresState(config, old(snapshot), rotated, startupUnconfirmed, command, script);
      Regroup(old(trace), RestartEffect(command, script.restart).events,
              BodyEffect(config, rotated, startupUnconfirmed, command, script).events);
    }

    method Dispatch(command: Command, script: Script) returns (completion: Completion)
      requires Valid()
      modifies this`snapshot, this`published, this`trace, this`view
      ensures Valid()
      ensures var effect := BodyEffect(config, old(snapshot), startupUnconfirmed, command, script);
              trace == old(trace) + effect.events && completion == effect.completion
    {
      if command.Restart? {
        completion := RestartRuntime(command, script.restart);
        return;
      }
      if command.Shutdown? {
        completion := CloseForShutdown(script.outcome);
        return;
      }
      var invalid := InputError(config.urlAccepted, command, snapshot.pageEpoch);
      if invalid.Some? {
        return Completed(Err(invalid.value));
      }
      completion := Operation(command, script);
    }

    method CompleteClose(finish: CloseOutcome)
      requires Valid()
      modifies this`snapshot, this`published, this`trace, this`view
      ensures Valid() && trace == old(trace) + [Closed(finish), Published]
    {
      Record(Closed(finish));
      match finish {
        case CloseFinished =>
        case CloseFailed(kind) => snapshot := snapshot.(lastFailure := Some(kind));
        case CloseExpired => snapshot := snapshot.(lastFailure := Some(TimeoutFailure));
      }
      snapshot := snapshot.(life := Stopped, currentOrigin := None);
      Publish();
    }

    method SkipClose()
      requires Valid()
      modifies this`snapshot, this`published, this`trace, this`view
      ensures Valid() && trace == old(trace) + [ClosedBefore, Published]
    {
      snapshot := snapshot.(life := Stopped, currentOrigin := None);
      Record(ClosedBefore);
      Publish();
    }

    method EmergencyClose(finish: CloseOutcome)
      requires Valid()
      modifies this`snapshot, this`published, this`trace, this`view
      ensures Valid() && trace == old(trace) + CloseEvents(finish)
    {
      BeginClosing();
      CompleteClose(finish);
      Regroup(old(trace), [ClosingBegun, Published], [Closed(finish), Published]);
    }

    method DropRuntime()
      requires Valid()
      modifies this`stopped, this`trace, this`view
      ensures Valid() && stopped && trace == old(trace) + [RuntimeDropped, StopFlagged]
    {
      Record(RuntimeDropped);
      stopped := true;
      Record(StopFlagged);
    }

    /** Everything after the loop. */
    method Finish(finish: CloseOutcome)
      requires Valid()
      modifies this
      ensures Valid() && stopped
      ensures trace == old(trace) + FinishEvents(old(snapshot), old(emergencyRequested), old(shutdownAttempted), finish)
    {
      ghost var closing := CloseEvents(finish);
      if emergencyRequested {
        EmergencyClose(finish);
      } else if snapshot.life != Stopped {
        BeginClosing();
        if !shutdownAttempted {
          CompleteClose(finish);
          Regroup(old(trace), [ClosingBegun, Published], [Closed(finish), Published]);
        } else {
          SkipClose();
          closing := [ClosingBegun, Published] + [ClosedBefore, Published];
          Regroup(old(trace), [ClosingBegun, Published], [ClosedBefore, Published]);
        }
      } else {
        closing := [];
        NoMore(trace);
      }
      DropRuntime();
      Regroup(old(trace), closing, [RuntimeDropped, StopFlagged]);
    }

    method HandleSubscription(failure: Option<FailureKind>)
      requires Valid()
      modifies this`trace, this`view
      ensures Valid() && trace == old(trace) + SubscribeEvents(config, snapshot, failure)
    {
      if Contains(config.capabilities, Capturing) && snapshot.life == Ready {
        Record(Subscribed);
      }
      Record(Replied(SubscribeResult(config, snapshot, failure)));
    }

    method NoteDeadline()
      requires Valid()
      modifies this`snapshot, this`published, this`trace, this`view
      ensures Valid() && trace == old(trace) + [DeadlineNoted, Published]
    {
      MarkDegraded(TimeoutFailure);
      Record(DeadlineNoted);
      Publish();
    }

    /** The actor's part after a command completed or was cut short. */
    method Answer(command: Command, completion: Completion)
      requires Valid()
      modifies this`snapshot, this`published, this`trace, this`view, this`emergencyRequested
      ensures Valid() && trace == old(trace) + AnswerEvents(config, command, completion)
      ensures emergencyRequested == (old(emergencyRequested) || completion.Abandoned?)
    {
      match completion
      case Abandoned => emergencyRequested := true;
      case TimedOut =>
        NoteDeadline();
        Record(Replied(Err(CommandTimeout(CommandDeadline(config, command)))));
      case Completed(result) => Record(Replied(result));
    }

    /** One queued command, from its receipt to its reply; `leave` ends the loop. */
    method HandleEnvelope(command: Command, script: Script) returns (leave: bool)
      requires Valid() && !emergencyRequested && !shutdownAttempted
      modifies this`snapshot, this`published, this`trace, this`view, this`shutdownAttempted, this`emergencyRequested
      ensures Valid()
      ensures trace == old(trace) + TurnEvents(config, old(view), Request(command, script))
      ensures leave == Leaves(config, old(view), Request(command, script))
      ensures emergencyRequested == EmergencyAt(config, old(view), Request(command, script))
      ensures shutdownAttempted == Attempts(config, command)
    {
      shutdownAttempted := command.Shutdown? && Contains(config.capabilities, Required(command));
      if script.emergencyFirst {
        emergencyRequested := true;
        return true;
      }
      var completion := HandleCommand(command, script);
      Answer(command, completion);
      Regroup(old(trace), CommandEffect(config, old(snapshot), startupUnconfirmed, command, script).events,
              AnswerEvents(config, command, completion));
      leave := completion.Abandoned? || command.Shutdown?;
    }

    /** One turn of the loop: either it goes on with the remaining inputs, or it leaves for the end. */
    method Turn(input: Input) returns (leave: bool)
      requires Valid() && !emergencyRequested && !shutdownAttempted
      modifies this`snapshot, this`published, this`trace, this`view, this`shutdownAttempted, this`emergencyRequested
      ensures Valid() && view == After(old(view), TurnEvents(config, old(view), input))
      ensures trace == old(trace) + TurnEvents(config, old(view), input)
      ensures leave == Leaves(config, old(view), input)
      ensures emergencyRequested == EmergencyAt(config, old(view), input)
      ensures shutdownAttempted == AttemptsAt(config, input)
    {
      match input {
        case Emergency =>
          emergencyRequested := true;
          leave := true;
        case Subscribe(failure) =>
          HandleSubscription(failure);
          leave := false;
        case Request(command, script) =>
          leave := HandleEnvelope(command, script);
      }
      AfterConcat(INITIAL, old(trace), TurnEvents(config, old(view), input));
    }

    method Serve(inputs: seq<Input>, finish: CloseOutcome)
      requires Valid() && !emergencyRequested && !shutdownAttempted
      modifies this
      ensures Valid() && stopped
      ensures trace == old(trace) + ServeEvents(config, old(view), inputs, finish)
    {
      var i := 0;
      ghost var all := trace + ServeEvents(config, view, inputs, finish);
      InputsInTurn(inputs, 0);
      while i < |inputs|
        invariant 0 <= i <= |inputs|
        invariant Valid() && !emergencyRequested && !shutdownAttempted
        invariant all == trace + ServeEvents(config, view, inputs[i..], finish)
      {
        ServeSplits(config, trace, view, inputs[i..], finish);
        InputsInTurn(inputs, i);
        var leave := Turn(inputs[i]);
        if leave {
          break;
        }
        i := i + 1;
      }
      Finish(finish);
    }

    method Run(start: Start, inputs: seq<Input>, finish: CloseOutcome)
      requires Valid() && trace == [] && !emergencyRequested && !shutdownAttempted && snapshot == STARTING
      modifies this
      ensures Valid() && stopped
      ensures trace == RunEvents(config, start, inputs, finish)
    {
      if start.StartPreempted? || start.outcome.Interrupted? {
        snapshot := snapshot.(lastFailure := Some(ShutdownFailure));
        Record(if start.StartPreempted? then Preempted else Started(start.outcome));
        EmergencyClose(finish);
        DropRuntime();
        return;
      }
      match start.outcome {
        case Finished(_) => snapshot := snapshot.(life := Ready, lastFailure := None);
        case Failed(kind) =>
          MarkDegraded(kind);
          startupUnconfirmed := true;
        case Expired =>
          MarkDegraded(TimeoutFailure);
          startupUnconfirmed := true;
      }
      Record(Started(start.outcome));
      Publish();
      assert trace == [Started(start.outcome), Published];
      Serve(inputs, finish);
    }
  }
}
