/** What a browser worker answers, and what it asks of its runtime, command by command. */
module WorkerAnswers {
  import opened Wrappers
  import opened Bytes
  import opened Contract
  import opened WorkerSpec
  import opened WorkerProperties

  // Capabilities.

  /** The capability that each call into the runtime needs. */
  predicate Held(config: Config, e: Event) {
    match e
    case Operated(command, _) => forall c :: Permits(c, command) ==> c in config.capabilities
    case RestartBegun(command) =>
      (command.Restart? && Lifecycle in config.capabilities) || (command.Navigate? && Navigation in config.capabilities)
    case ShutdownClosed(_) => Lifecycle in config.capabilities
    case Subscribed => Capturing in config.capabilities
    case _ => true
  }

  /** In every run each call into the runtime has the capability that permits it. */
  lemma RuntimeCallsArePermitted(config: Config, start: Start, inputs: seq<Input>, finish: CloseOutcome, i: nat)
    requires i < |RunEvents(config, start, inputs, finish)|
    ensures Held(config, RunEvents(config, start, inputs, finish)[i])
  {
    EveryCallWasGated(config, start, inputs, finish, i);
    var e := RunEvents(config, start, inputs, finish)[i];
    if e.Operated? {
      PermittedOnlyBy(e.command);
    }
  }

  /** So a script is evaluated, a page visited or captured, and a cookie set, only where just that was granted. */
  lemma ScriptsNeedEvaluation(config: Config, start: Start, inputs: seq<Input>, finish: CloseOutcome, i: nat)
    requires i < |RunEvents(config, start, inputs, finish)| && RunEvents(config, start, inputs, finish)[i].Operated?
    ensures var command := RunEvents(config, start, inputs, finish)[i].command;
            && (command.Evaluate? ==> Evaluation in config.capabilities)
            && (command.Navigate? ==> Navigation in config.capabilities)
            && (command.Capture? || command.WaitForDownload? ==> Capturing in config.capabilities)
            && (command.SetCookies? || command.ClickElement? || command.TypeElement? ==> Interact in config.capabilities)
            && (command.UploadFile? || command.SelectOption? ==> Interact in config.capabilities)
            && (command.ResolveElement? || command.ReadElementText? || command.ListTabs? ==> Inspect in config.capabilities)
            && (command.ObserveDocument? || command.ReadInteractiveElements? ==> Inspect in config.capabilities)
            && (command.ClickAt? ==> Pointer in config.capabilities)
            && (command.Wheel? ==> Scroll in config.capabilities)
            && (command.KeyPress? ==> Keyboard in config.capabilities)
            && (command.SwitchToTab? ==> Lifecycle in config.capabilities)
  {
    RuntimeCallsArePermitted(config, start, inputs, finish, i);
    var command := RunEvents(config, start, inputs, finish)[i].command;
    PermittedOnlyBy(command);
  }

  /** The next turn, in every run that goes on with this input. */
  ghost predicate ComesNext(config: Config, start: Start, inputs: seq<Input>, input: Input, turn: seq<Event>) {
    && Reaches(config, start, inputs)
    && TurnEvents(config, Replay(HeadTrace(config, start, inputs)), input) == turn
    && forall rest, finish ::
         HeadTrace(config, start, inputs) + turn <= RunEvents(config, start, inputs + ([input] + rest), finish)
  }

  lemma TurnIsNext(config: Config, start: Start, inputs: seq<Input>, input: Input, turn: seq<Event>)
    requires Reaches(config, start, inputs) && TurnEvents(config, Replay(HeadTrace(config, start, inputs)), input) == turn
    ensures ComesNext(config, start, inputs, input, turn)
  {
    forall rest, finish
      ensures HeadTrace(config, start, inputs) + turn <= RunEvents(config, start, inputs + ([input] + rest), finish)
    {
      TurnComesNext(config, start, inputs, input, rest, finish);
    }
  }

  lemma AloneAnswered(config: Config, v: View, command: Command, script: Script, error: WorkerError)
    requires !script.emergencyFirst
    requires CommandEffect(config, v.snapshot, v.unconfirmed, command, script) == Effect([], Completed(Err(error)))
    ensures TurnEvents(config, v, Request(command, script)) == [Replied(Err(error))]
  {
    assert [] + [Replied(Err(error))] == [Replied(Err(error))];
  }

  /** Without its capability a command is answered at once, and nothing else happens. */
  lemma DeniedWithoutCapability(config: Config, start: Start, inputs: seq<Input>, command: Command, script: Script, c: Capability)
    requires Reaches(config, start, inputs) && !script.emergencyFirst
    requires Permits(c, command) && c !in config.capabilities
    ensures ComesNext(config, start, inputs, Request(command, script), [Replied(Err(CapabilityDenied(c)))])
  {
    PermittedByOne(c, command);
    AloneAnswered(config, Replay(HeadTrace(config, start, inputs)), command, script, CapabilityDenied(c));
    TurnIsNext(config, start, inputs, Request(command, script), [Replied(Err(CapabilityDenied(c)))]);
  }

  /** A degraded worker admits Restart and Shutdown only, and Restart only if its startup was confirmed. */
  lemma UnavailableWhileDegraded(config: Config, start: Start, inputs: seq<Input>, command: Command, script: Script)
    requires Reaches(config, start, inputs) && !script.emergencyFirst && Permitted(config, command)
    requires var v := Replay(HeadTrace(config, start, inputs));
             (v.snapshot.life.Degraded? && !command.Restart? && !command.Shutdown?) || (v.unconfirmed && command.Restart?)
    ensures ComesNext(config, start, inputs, Request(command, script), [Replied(Err(Unavailable))])
  {
    PermittedOnlyBy(command);
    AloneAnswered(config, Replay(HeadTrace(config, start, inputs)), command, script, Unavailable);
    TurnIsNext(config, start, inputs, Request(command, script), [Replied(Err(Unavailable))]);
  }

  // Commands that are let in.

  /** A command other than Restart and Shutdown that a Ready worker on a healthy page turns to. */
  predicate Admitted(config: Config, v: View, command: Command, script: Script) {
    && !script.emergencyFirst && script.healthyBefore && Permitted(config, command) && v.snapshot.life.Ready?
    && !command.Restart? && !command.Shutdown? && !(command.Navigate? && script.needsRestart)
  }

  lemma AdmittedEffect(config: Config, v: View, command: Command, script: Script)
    requires Admitted(config, v, command, script)
    ensures CommandEffect(config, v.snapshot, v.unconfirmed, command, script) ==
              if Acceptable(config.urlAccepted, command, v.snapshot.pageEpoch)
              then OperationEffect(command, v.snapshot.pageEpoch, script)
              else Effect([], Completed(Err(ArgumentError(command, v.snapshot.pageEpoch))))
  {
    PermittedOnlyBy(command);
    RefusedExactly(config.urlAccepted, command, v.snapshot.pageEpoch);
  }

  function ArgumentError(command: Command, epoch: nat): WorkerError {
    if !OnPage(command, epoch) then StaleElement(command.element.pageEpoch, epoch)
    else if command.ResolveElement? then ContractViolation(InvalidSelector)
    else InvalidInput
  }

  /** Arguments that are not acceptable are answered at once, each with its error. */
  lemma RefusedArguments(config: Config, start: Start, inputs: seq<Input>, command: Command, script: Script)
    requires Reaches(config, start, inputs)
    requires var v := Replay(HeadTrace(config, start, inputs));
             Admitted(config, v, command, script) && !Acceptable(config.urlAccepted, command, v.snapshot.pageEpoch)
    ensures var epoch := Replay(HeadTrace(config, start, inputs)).snapshot.pageEpoch;
            ComesNext(config, start, inputs, Request(command, script), [Replied(Err(ArgumentError(command, epoch)))])
  {
    var v := Replay(HeadTrace(config, start, inputs));
    AdmittedEffect(config, v, command, script);
    AloneAnswered(config, v, command, script, ArgumentError(command, v.snapshot.pageEpoch));
    TurnIsNext(config, start, inputs, Request(command, script), [Replied(Err(ArgumentError(command, v.snapshot.pageEpoch)))]);
  }

  /** The answer to a command whose runtime call handed back a value, seen from the answer. */
  predicate Answers(command: Command, value: Value, epoch: nat, reply: Reply) {
    match reply
    case Element(element) => command.ResolveElement? && element == ElementRef(command.selector, epoch)
    case TextReply(text) => (command.ReadElementText? || command.ObserveDocument?) && text == value.text
    case ScriptValue(text) => (command.Evaluate? || command.ReadInteractiveElements?) && text == value.text
    case CaptureReply(text) => command.Capture? && text == value.text
    case Download(text) => command.WaitForDownload? && text == value.text
    case Tabs(text) => command.ListTabs? && text == value.text
    case Acknowledged =>
      command.ClickAt? || command.Wheel? || command.KeyPress? || command.ClickElement? || command.TypeElement?
      || command.SelectOption? || command.UploadFile? || command.Navigate? || command.SetCookies? || command.SwitchToTab?
      || command.Restart? || command.Shutdown?
  }

  /** There is one such answer. */
  lemma OneAnswer(command: Command, value: Value, epoch: nat, a: Reply, b: Reply)
    requires Answers(command, value, epoch, a) && Answers(command, value, epoch, b)
    ensures a == b
  {
  }

  /** The value of an evaluation has to be encodable in four mebibytes. */
  predicate Oversized(command: Command, value: Value) {
    command.Evaluate? && (value.encodedLength.None? || value.encodedLength.value > 4_194_304)
  }

  /** What is answered to an accepted command, by what the runtime did and whether the page stayed within its policy. */
  ghost predicate TurnFor(config: Config, epoch: nat, command: Command, script: Script, turn: seq<Event>) {
    match script.outcome
    case Finished(value) =>
      if Oversized(command, value) then
        turn == [Operated(command, Failed(ProtocolFailure)), Published, Replied(Err(RuntimeFailed(ProtocolFailure)))]
      else if !script.healthyAfter then
        turn == [Operated(command, script.outcome), PolicyBroken, Published, Replied(Err(RuntimeFailed(ProtocolFailure)))]
      else
        exists reply ::
          Answers(command, value, epoch, reply) && turn == [Operated(command, script.outcome), Settled, Published, Replied(Ok(reply))]
    case Failed(kind) => turn == [Operated(command, script.outcome), Published, Replied(Err(RuntimeFailed(kind)))]
    case Expired =>
      turn == [Operated(command, Expired), DeadlineNoted, Published, Replied(Err(CommandTimeout(config.commandTimeout)))]
    case Interrupted => turn == [Operated(command, Interrupted)]
  }

  lemma OperationTurn(config: Config, v: View, command: Command, script: Script)
    requires Admitted(config, v, command, script) && Acceptable(config.urlAccepted, command, v.snapshot.pageEpoch)
    ensures TurnFor(config, v.snapshot.pageEpoch, command, script, TurnEvents(config, v, Request(command, script)))
  {
    AdmittedEffect(config, v, command, script);
    match script.outcome
    case Finished(value) =>
      var reply := ReplyFor(command, value, v.snapshot.pageEpoch);
      ReplyAnswers(command, value, v.snapshot.pageEpoch);
      assert script.healthyAfter && !Oversized(command, value) ==>
          TurnEvents(config, v, Request(command, script)) ==
          [Operated(command, script.outcome), Settled, Published, Replied(Ok(reply))];
    case _ =>
  }

  lemma ReplyAnswers(command: Command, value: Value, epoch: nat)
    ensures Answers(command, value, epoch, ReplyFor(command, value, epoch))
  {
  }

  /** An admitted command with acceptable arguments reaches the runtime, and its answer is what the runtime handed back. */
  lemma AcceptedCommandsAreAnswered(config: Config, start: Start, inputs: seq<Input>, command: Command, script: Script)
    requires Reaches(config, start, inputs)
    requires var v := Replay(HeadTrace(config, start, inputs));
             Admitted(config, v, command, script) && Acceptable(config.urlAccepted, command, v.snapshot.pageEpoch)
    ensures var v := Replay(HeadTrace(config, start, inputs));
            var turn := TurnEvents(config, v, Request(command, script));
            && TurnFor(config, v.snapshot.pageEpoch, command, script, turn)
            && ComesNext(config, start, inputs, Request(command, script), turn)
  {
    var v := Replay(HeadTrace(config, start, inputs));
    OperationTurn(config, v, command, script);
    TurnIsNext(config, start, inputs, Request(command, script), TurnEvents(config, v, Request(command, script)));
  }

  /** On a page that broke its policy a command fails before its runtime call. */
  lemma UnhealthyPageFailsFirst(config: Config, start: Start, inputs: seq<Input>, command: Command, script: Script)
    requires Reaches(config, start, inputs) && !script.emergencyFirst && !script.healthyBefore
    requires Permitted(config, command) && !command.Restart? && !command.Shutdown?
    requires Replay(HeadTrace(config, start, inputs)).snapshot.life.Ready?
    ensures ComesNext(config, start, inputs, Request(command, script),
                      [PolicyBroken, Published, Replied(Err(RuntimeFailed(ProtocolFailure)))])
  {
    var v := Replay(HeadTrace(config, start, inputs));
    PermittedOnlyBy(command);
    assert [PolicyBroken, Published] + [Replied(Err(RuntimeFailed(ProtocolFailure)))] ==
           [PolicyBroken, Published, Replied(Err(RuntimeFailed(ProtocolFailure)))];
    TurnIsNext(config, start, inputs, Request(command, script),
               [PolicyBroken, Published, Replied(Err(RuntimeFailed(ProtocolFailure)))]);
  }

  /** What a Restart does, and what it answers. */
  predicate RestartTurn(config: Config, outcome: Outcome, turn: seq<Event>) {
    match outcome
    case Finished(_) => turn == [RestartBegun(Restart), Published, Restarted(outcome), Published, Replied(Ok(Acknowledged))]
    case Failed(kind) =>
      turn == [RestartBegun(Restart), Published, Restarted(outcome), Published, Replied(Err(RuntimeFailed(kind)))]
    case Expired =>
      turn == [RestartBegun(Restart), Published, Restarted(outcome), DeadlineNoted, Published,
               Replied(Err(CommandTimeout(config.commandTimeout)))]
    case Interrupted => turn == [RestartBegun(Restart), Published, Restarted(outcome)]
  }

  /** What a Shutdown does, and what it answers; its deadline is the closing one. */
  predicate ShutdownTurn(config: Config, unconfirmed: bool, outcome: Outcome, turn: seq<Event>) {
    match outcome
    case Finished(_) =>
      turn == [ClosingBegun, Published, ShutdownClosed(outcome), Published,
               Replied(if unconfirmed then Err(RuntimeFailed(ShutdownFailure)) else Ok(Acknowledged))]
    case Failed(kind) =>
      turn == [ClosingBegun, Published, ShutdownClosed(outcome), Published, Replied(Err(RuntimeFailed(kind)))]
    case Expired =>
      turn == [ClosingBegun, Published, ShutdownClosed(outcome), DeadlineNoted, Published,
               Replied(Err(CommandTimeout(config.closeTimeout)))]
    case Interrupted => turn == [ClosingBegun, Published, ShutdownClosed(outcome)]
  }

  lemma RestartAnswered(config: Config, start: Start, inputs: seq<Input>, script: Script)
    requires Reaches(config, start, inputs) && !script.emergencyFirst && Lifecycle in config.capabilities
    requires !Replay(HeadTrace(config, start, inputs)).unconfirmed
    ensures var turn := TurnEvents(config, Replay(HeadTrace(config, start, inputs)), Request(Restart, script));
            RestartTurn(config, script.restart, turn) && ComesNext(config, start, inputs, Request(Restart, script), turn)
  {
    var v := Replay(HeadTrace(config, start, inputs));
    PermittedOnlyBy(Restart);
    assert CommandEffect(config, v.snapshot, v.unconfirmed, Restart, script) == RestartEffect(Restart, script.restart);
    TurnIsNext(config, start, inputs, Request(Restart, script), TurnEvents(config, v, Request(Restart, script)));
  }

  lemma ShutdownAnswered(config: Config, start: Start, inputs: seq<Input>, script: Script)
    requires Reaches(config, start, inputs) && !script.emergencyFirst && Lifecycle in config.capabilities
    ensures var v := Replay(HeadTrace(config, start, inputs));
            var turn := TurnEvents(config, v, Request(Shutdown, script));
            && ShutdownTurn(config, v.unconfirmed, script.outcome, turn)
            && ComesNext(config, start, inputs, Request(Shutdown, script), turn)
  {
    var v := Replay(HeadTrace(config, start, inputs));
    PermittedOnlyBy(Shutdown);
    assert CommandEffect(config, v.snapshot, v.unconfirmed, Shutdown, script) == ShutdownEffect(v.unconfirmed, script.outcome);
    TurnIsNext(config, start, inputs, Request(Shutdown, script), TurnEvents(config, v, Request(Shutdown, script)));
  }

  /** A navigation that finds the runtime past its page limit restarts it first, and goes ahead only if that succeeds. */
  ghost predicate RotationTurn(config: Config, epoch: nat, command: Command, script: Script, turn: seq<Event>) {
    match script.restart
    case Finished(_) =>
      exists tail ::
        && turn == [RestartBegun(command), Published, Restarted(script.restart), Published] + tail
        && if Acceptable(config.urlAccepted, command, epoch) then TurnFor(config, epoch, command, script, tail)
           else tail == [Replied(Err(InvalidInput))]
    case Failed(kind) =>
      turn == [RestartBegun(command), Published, Restarted(script.restart), Published, Replied(Err(RuntimeFailed(kind)))]
    case Expired =>
      turn == [RestartBegun(command), Published, Restarted(script.restart), DeadlineNoted, Published,
               Replied(Err(CommandTimeout(config.commandTimeout)))]
    case Interrupted => turn == [RestartBegun(command), Published, Restarted(script.restart)]
  }

  lemma TurnAfterRotation(config: Config, v: View, command: Command, script: Script)
    requires command.Navigate? && script.needsRestart && script.restart.Finished?
    requires Admitted(config, v, command, script.(needsRestart := false))
    ensures TurnEvents(config, v, Request(command, script)) ==
            [RestartBegun(command), Published, Restarted(script.restart), Published]
            + TurnEvents(config, v, Request(command, script.(needsRestart := false)))
  {
    PermittedOnlyBy(command);
    var body := BodyEffect(config, v.snapshot, v.unconfirmed, command, script);
    assert body == CommandEffect(config, v.snapshot, v.unconfirmed, command, script.(needsRestart := false));
    Regroup([RestartBegun(command), Published] + [Restarted(script.restart), Published], body.events,
            AnswerEvents(config, command, body.completion));
  }

  lemma RotatedTurn(config: Config, v: View, command: Command, script: Script)
    requires command.Navigate? && script.needsRestart && Admitted(config, v, command, script.(needsRestart := false))
    ensures RotationTurn(config, v.snapshot.pageEpoch, command, script, TurnEvents(config, v, Request(command, script)))
  {
    if script.restart.Finished? {
      var plain := script.(needsRestart := false);
      TurnAfterRotation(config, v, command, script);
      AdmittedEffect(config, v, command, plain);
      if Acceptable(config.urlAccepted, command, v.snapshot.pageEpoch) {
        OperationTurn(config, v, command, plain);
      } else {
        AloneAnswered(config, v, command, plain, InvalidInput);
      }
    } else {
      PermittedOnlyBy(command);
      assert CommandEffect(config, v.snapshot, v.unconfirmed, command, script) == RestartEffect(command, script.restart);
    }
  }

  lemma RotationAnswered(config: Config, start: Start, inputs: seq<Input>, command: Command, script: Script)
    requires Reaches(config, start, inputs) && command.Navigate? && script.needsRestart
    requires Admitted(config, Replay(HeadTrace(config, start, inputs)), command, script.(needsRestart := false))
    ensures var v := Replay(HeadTrace(config, start, inputs));
            var turn := TurnEvents(config, v, Request(command, script));
            && RotationTurn(config, v.snapshot.pageEpoch, command, script, turn)
            && ComesNext(config, start, inputs, Request(command, script), turn)
  {
    var v := Replay(HeadTrace(config, start, inputs));
    RotatedTurn(config, v, command, script);
    TurnIsNext(config, start, inputs, Request(command, script), TurnEvents(config, v, Request(command, script)));
  }

  /** A subscription needs the capturing capability and a Ready worker, and then is what the runtime makes of it. */
  lemma SubscriptionAnswered(config: Config, start: Start, inputs: seq<Input>, failure: Option<FailureKind>)
    requires Reaches(config, start, inputs)
    ensures var v := Replay(HeadTrace(config, start, inputs));
            ComesNext(config, start, inputs, Subscribe(failure),
              if Capturing !in config.capabilities then [Replied(Err(CapabilityDenied(Capturing)))]
              else if !v.snapshot.life.Ready? then [Replied(Err(Unavailable))]
              else if failure.Some? then [Subscribed, Replied(Err(RuntimeFailed(failure.value)))]
              else [Subscribed, Replied(Ok(Acknowledged))])
  {
    var v := Replay(HeadTrace(config, start, inputs));
    TurnIsNext(config, start, inputs, Subscribe(failure), TurnEvents(config, v, Subscribe(failure)));
  }
}
