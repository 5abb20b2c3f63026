/** Exactly which element references still reach the runtime, in runs that are continued from the head of the loop. */
module WorkerReferences {
  import opened Wrappers
  import opened Bytes
  import opened Contract
  import opened WorkerSpec
  import opened WorkerProperties

  /** No event from `i` on starts a new page epoch. */
  predicate SamePage(t: seq<Event>, i: nat) {
    forall j :: i <= j < |t| ==> !Bumps(t[j])
  }

  lemma {:induction false} NoBumpsCounted(t: seq<Event>)
    ensures CountBumps(t) == 0 <==> forall j :: 0 <= j < |t| ==> !Bumps(t[j])
  {
    if t != [] {
      NoBumpsCounted(t[1..]);
      if forall j :: 0 <= j < |t| ==> !Bumps(t[j]) {
        assert forall j :: 0 <= j < |t[1..]| ==> t[1..][j] == t[j + 1];
      } else {
        var j :| 0 <= j < |t| && Bumps(t[j]);
        assert j > 0 ==> t[1..][j - 1] == t[j];
      }
    }
  }

  lemma {:induction false} BumpsSplit(a: seq<Event>, b: seq<Event>)
    ensures CountBumps(a + b) == CountBumps(a) + CountBumps(b)
  {
    if a == [] {
      assert a + b == b;
    } else {
      assert (a + b)[0] == a[0] && (a + b)[1..] == a[1..] + b;
      BumpsSplit(a[1..], b);
    }
  }

  /** Whether the epoch of a reference is still the current one. */
  lemma SameEpoch(t: seq<Event>, i: nat)
    requires i <= |t|
    ensures Replay(t[..i]).snapshot.pageEpoch == Replay(t).snapshot.pageEpoch <==>
              SamePage(t, i) || Replay(t[..i]).snapshot.pageEpoch == U64_MAX
  {
    var before, after := t[..i], t[i..];
    assert t == before + after;
    CountersCount(before);
    CountersCount(t);
    BumpsSplit(before, after);
    NoBumpsCounted(after);
    if SamePage(t, i) {
      assert forall j :: 0 <= j < |after| ==> after[j] == t[i + j];
    } else {
      var j :| i <= j < |t| && Bumps(t[j]);
      assert after[j - i] == t[j];
    }
  }

  /** The command passes every check in front of the runtime, the epoch of its element aside. */
  predicate Served(config: Config, v: View, command: Command, script: Script) {
    && ElementOf(command).Some? && Contains(config.capabilities, Required(command))
    && v.snapshot.life.Ready? && !script.emergencyFirst && script.healthyBefore
    && InputError(config.urlAccepted, command, ElementOf(command).value.pageEpoch).None?
  }

  lemma ElementTurn(config: Config, v: View, command: Command, script: Script)
    requires Served(config, v, command, script)
    ensures var turn, epoch := TurnEvents(config, v, Request(command, script)), ElementOf(command).value.pageEpoch;
            && turn != []
            && turn[0] == if epoch == v.snapshot.pageEpoch then Operated(command, script.outcome)
                          else Replied(Err(StaleElement(epoch, v.snapshot.pageEpoch)))
  {
  }

  /**
  A reference issued earlier in a run, used at the head of the loop, reaches the runtime exactly if no
  new page epoch began since, or the epoch counter was saturated already when it was issued. In every
  other case the command is answered with StaleElement.
  */
  lemma ReferenceReachesExactly(
      config: Config, start: Start, inputs: seq<Input>, i: nat, command: Command, script: Script, rest: seq<Input>,
      finish: CloseOutcome)
    requires Reaches(config, start, inputs)
    requires var t := HeadTrace(config, start, inputs);
             && i < |t| && t[i].Operated? && t[i].command.ResolveElement?
             && ElementOf(command) == Some(IssuedAt(t, i)) && Served(config, Replay(t), command, script)
    ensures var t := HeadTrace(config, start, inputs);
            var run := RunEvents(config, start, inputs + ([Request(command, script)] + rest), finish);
            && |t| < |run| && t <= run
            && (run[|t|] == Operated(command, script.outcome) <==>
                  SamePage(t, i) || IssuedAt(t, i).pageEpoch == U64_MAX)
            && (run[|t|].Operated? || run[|t|] == Replied(Err(StaleElement(IssuedAt(t, i).pageEpoch, Replay(t).snapshot.pageEpoch))))
  {
    var t := HeadTrace(config, start, inputs);
    var run := RunEvents(config, start, inputs + ([Request(command, script)] + rest), finish);
    TurnComesNext(config, start, inputs, Request(command, script), rest, finish);
    ElementTurn(config, Replay(t), command, script);
    var turn := TurnEvents(config, Replay(t), Request(command, script));
    assert run[|t|] == (t + turn)[|t|] == turn[0];
    SameEpoch(t, i);
  }

  /** A navigation that goes ahead: its checks pass and no page-limit restart comes first. */
  predicate Navigates(config: Config, v: View, url: Text, script: Script) {
    && Contains(config.capabilities, Navigation) && v.snapshot.life.Ready? && config.urlAccepted(url)
    && !script.emergencyFirst && script.healthyBefore && !script.needsRestart
  }

  lemma MissedTurn(config: Config, v: View, url: Text, script: Script)
    requires Navigates(config, v, url, script) && script.outcome == Failed(ObservationMissing)
    ensures TurnEvents(config, v, Request(Navigate(url), script)) ==
            [Operated(Navigate(url), script.outcome), Published, Replied(Err(RuntimeFailed(ObservationMissing)))]
    ensures !Leaves(config, v, Request(Navigate(url), script))
  {
  }

  lemma ArrivedTurn(config: Config, v: View, url: Text, script: Script)
    requires Navigates(config, v, url, script) && script.outcome.Finished? && script.healthyAfter
    ensures TurnEvents(config, v, Request(Navigate(url), script)) ==
            [Operated(Navigate(url), script.outcome), Settled, Published, Replied(Ok(Acknowledged))]
    ensures !Leaves(config, v, Request(Navigate(url), script))
  {
  }

  /** A click on a reference from before. */
  predicate Clicks(config: Config, script: Script) {
    Contains(config.capabilities, Interact) && !script.emergencyFirst && script.healthyBefore
  }

  lemma AfterMissed(v: View, url: Text)
    requires v.snapshot.life.Ready?
    ensures var w := After(v, [Operated(Navigate(url), Failed(ObservationMissing)), Published,
                               Replied(Err(RuntimeFailed(ObservationMissing)))]);
            w.snapshot.life.Ready? && w.snapshot.pageEpoch == v.snapshot.pageEpoch
  {
    AfterSnoc(v, [Operated(Navigate(url), Failed(ObservationMissing)), Published], Replied(Err(RuntimeFailed(ObservationMissing))));
    AfterPair(v, Operated(Navigate(url), Failed(ObservationMissing)), Published);
    assert [Operated(Navigate(url), Failed(ObservationMissing)), Published, Replied(Err(RuntimeFailed(ObservationMissing)))] ==
           [Operated(Navigate(url), Failed(ObservationMissing)), Published] + [Replied(Err(RuntimeFailed(ObservationMissing)))];
  }

  lemma AfterArrived(v: View, url: Text, value: Value)
    requires v.snapshot.life.Ready?
    ensures var w := After(v, [Operated(Navigate(url), Finished(value)), Settled, Published, Replied(Ok(Acknowledged))]);
            w.snapshot.life.Ready? && w.snapshot.pageEpoch == SaturatingSucc(v.snapshot.pageEpoch)
  {
    var first, second := [Operated(Navigate(url), Finished(value)), Settled], [Published, Replied(Ok(Acknowledged))];
    AfterConcat(v, first, second);
    AfterPair(v, first[0], first[1]);
    AfterPair(After(v, first), second[0], second[1]);
    assert first + second == [Operated(Navigate(url), Finished(value)), Settled, Published, Replied(Ok(Acknowledged))];
  }

  /**
  ObservationMissing is one exception: in every run that gets there, after a navigation that reached the
  runtime and failed that way, a click on a reference from before it reaches the runtime.
  */
  lemma ObservationMissingKeepsReferences(
      config: Config, start: Start, inputs: seq<Input>, i: nat, url: Text, navigation: Script, click: Script,
      rest: seq<Input>, finish: CloseOutcome)
    requires Reaches(config, start, inputs)
    requires var t := HeadTrace(config, start, inputs);
             && i < |t| && t[i].Operated? && t[i].command.ResolveElement? && SamePage(t, i)
             && Navigates(config, Replay(t), url, navigation) && navigation.outcome == Failed(ObservationMissing)
             && Clicks(config, click)
    ensures var t := HeadTrace(config, start, inputs);
            var element := IssuedAt(t, i);
            var run := RunEvents(config, start,
                                 (inputs + [Request(Navigate(url), navigation)]) + ([Request(ClickElement(element), click)] + rest),
                                 finish);
            && |run| > |t| + 3 && t <= run
            && run[|t|] == Operated(Navigate(url), Failed(ObservationMissing))
            && run[|t| + 3] == Operated(ClickElement(element), click.outcome)
  {
    var t := HeadTrace(config, start, inputs);
    var element := IssuedAt(t, i);
    var v := Replay(t);
    var turn := TurnEvents(config, v, Request(Navigate(url), navigation));
    MissedTurn(config, v, url, navigation);
    AfterMissed(v, url);
    SameEpoch(t, i);
    ClickAfterTurn(config, start, inputs, Request(Navigate(url), navigation), element, click, rest, finish);
  }

  /** After a turn that leaves the worker Ready in the epoch of a reference, a click on it reaches the runtime. */
  lemma ClickAfterTurn(
      config: Config, start: Start, inputs: seq<Input>, input: Input, element: ElementRef, click: Script,
      rest: seq<Input>, finish: CloseOutcome)
    requires Reaches(config, start, inputs) && Clicks(config, click)
    requires var v := Replay(HeadTrace(config, start, inputs));
             !Leaves(config, v, input) &&
             var w := After(v, TurnEvents(config, v, input));
             w.snapshot.life.Ready? && w.snapshot.pageEpoch == element.pageEpoch
    ensures var t := HeadTrace(config, start, inputs);
            var turn := TurnEvents(config, Replay(t), input);
            t + turn + [Operated(ClickElement(element), click.outcome)] <=
              RunEvents(config, start, (inputs + [input]) + ([Request(ClickElement(element), click)] + rest), finish)
  {
    var t := HeadTrace(config, start, inputs);
    var v := Replay(t);
    var turn := TurnEvents(config, v, input);
    ReachesNext(config, start, inputs, input);
    AfterConcat(INITIAL, t, turn);
    ElementTurn(config, Replay(t + turn), ClickElement(element), click);
    TurnComesNext(config, start, inputs + [input], Request(ClickElement(element), click), rest, finish);
    var next := TurnEvents(config, Replay(t + turn), Request(ClickElement(element), click));
    assert t + turn + [next[0]] <= t + turn + next;
  }

  /** A saturated counter is the other: a successful navigation no longer separates the pages. */
  lemma SaturationKeepsReferences(
      config: Config, start: Start, inputs: seq<Input>, i: nat, url: Text, navigation: Script, click: Script,
      rest: seq<Input>, finish: CloseOutcome)
    requires Reaches(config, start, inputs)
    requires var t := HeadTrace(config, start, inputs);
             && i < |t| && t[i].Operated? && t[i].command.ResolveElement? && IssuedAt(t, i).pageEpoch == U64_MAX
             && Navigates(config, Replay(t), url, navigation) && navigation.outcome.Finished? && navigation.healthyAfter
             && Clicks(config, click)
    ensures var t := HeadTrace(config, start, inputs);
            var element := IssuedAt(t, i);
            var run := RunEvents(config, start,
                                 (inputs + [Request(Navigate(url), navigation)]) + ([Request(ClickElement(element), click)] + rest),
                                 finish);
            && |run| > |t| + 4 && t <= run
            && run[|t|] == Operated(Navigate(url), navigation.outcome)
            && run[|t| + 4] == Operated(ClickElement(element), click.outcome)
  {
    var t := HeadTrace(config, start, inputs);
    var element := IssuedAt(t, i);
    var v := Replay(t);
    ArrivedTurn(config, v, url, navigation);
    AfterArrived(v, url, navigation.outcome.value);
    SameEpoch(t, i);
    ClickAfterTurn(config, start, inputs, Request(Navigate(url), navigation), element, click, rest, finish);
  }

  /** The same successful navigation, `n` times. */
  function Navigations(url: Text, script: Script, n: nat): seq<Input>
    decreases n
  {
    if n == 0 then [] else Navigations(url, script, n - 1) + [Request(Navigate(url), script)]
  }

  /** A navigation that goes ahead wherever the worker is Ready, and arrives. */
  predicate Arrives(config: Config, url: Text, script: Script) {
    && Contains(config.capabilities, Navigation) && config.urlAccepted(url)
    && !script.emergencyFirst && script.healthyBefore && !script.needsRestart
    && script.outcome.Finished? && script.healthyAfter
  }

  ghost predicate ReadyAt(config: Config, start: Start, inputs: seq<Input>, epoch: nat) {
    && Reaches(config, start, inputs)
    && var s := Replay(HeadTrace(config, start, inputs)).snapshot; s.life.Ready? && s.pageEpoch == epoch
  }

  lemma NavigatesFrom(config: Config, start: Start, inputs: seq<Input>, epoch: nat, url: Text, script: Script)
    requires ReadyAt(config, start, inputs, epoch) && Arrives(config, url, script)
    ensures ReadyAt(config, start, inputs + [Request(Navigate(url), script)], SaturatingSucc(epoch))
  {
    var t, input := HeadTrace(config, start, inputs), Request(Navigate(url), script);
    ArrivedTurn(config, Replay(t), url, script);
    ReachesNext(config, start, inputs, input);
    AfterConcat(INITIAL, t, TurnEvents(config, Replay(t), input));
    AfterArrived(Replay(t), url, script.outcome.value);
  }

  lemma ReadyAtStart(config: Config, value: Value)
    ensures ReadyAt(config, StartRan(Finished(value)), [], 0)
  {
    var start := StartRan(Finished(value));
    AfterPair(INITIAL, Started(Finished(value)), Published);
    assert Opening(start) + [] == Opening(start);
  }

  /** Every epoch is reached by some run, the largest one included. */
  lemma {:induction false} EveryEpochIsReached(config: Config, value: Value, url: Text, script: Script, n: nat)
    requires Arrives(config, url, script)
    ensures ReadyAt(config, StartRan(Finished(value)), Navigations(url, script, n), Saturate(n))
    decreases n
  {
    if n == 0 {
      ReadyAtStart(config, value);
    } else {
      EveryEpochIsReached(config, value, url, script, n - 1);
      NavigatesFrom(config, StartRan(Finished(value)), Navigations(url, script, n - 1), Saturate(n - 1), url, script);
    }
  }

  lemma ResolvedTurn(config: Config, v: View, selector: Text, script: Script)
    requires Contains(config.capabilities, Inspect) && v.snapshot.life.Ready? && ValidSelector(selector)
    requires !script.emergencyFirst && script.healthyBefore && script.outcome.Finished? && script.healthyAfter
    ensures TurnEvents(config, v, Request(ResolveElement(selector), script)) ==
            [Operated(ResolveElement(selector), script.outcome), Settled, Published,
             Replied(Ok(Element(ElementRef(selector, v.snapshot.pageEpoch))))]
    ensures !Leaves(config, v, Request(ResolveElement(selector), script))
  {
  }

  lemma AfterResolved(v: View, selector: Text, value: Value, reply: Result<Reply, WorkerError>)
    requires v.snapshot.life.Ready?
    ensures After(v, [Operated(ResolveElement(selector), Finished(value)), Settled, Published, Replied(reply)]).snapshot.life.Ready?
  {
    var first, second := [Operated(ResolveElement(selector), Finished(value)), Settled], [Published, Replied(reply)];
    AfterConcat(v, first, second);
    AfterPair(v, first[0], first[1]);
    AfterPair(After(v, first), second[0], second[1]);
    assert first + second == [Operated(ResolveElement(selector), Finished(value)), Settled, Published, Replied(reply)];
  }

  lemma ResolvesFrom(
      config: Config, start: Start, inputs: seq<Input>, epoch: nat, selector: Text, script: Script)
    requires ReadyAt(config, start, inputs, epoch) && Contains(config.capabilities, Inspect) && ValidSelector(selector)
    requires !script.emergencyFirst && script.healthyBefore && script.outcome.Finished? && script.healthyAfter
    ensures var t, i := HeadTrace(config, start, inputs + [Request(ResolveElement(selector), script)]), |HeadTrace(config, start, inputs)|;
            && Reaches(config, start, inputs + [Request(ResolveElement(selector), script)])
            && Replay(t).snapshot.life.Ready? && i < |t| && SamePage(t, i)
            && t[i] == Operated(ResolveElement(selector), script.outcome) && IssuedAt(t, i) == ElementRef(selector, epoch)
  {
    var t0, input := HeadTrace(config, start, inputs), Request(ResolveElement(selector), script);
    var turn := TurnEvents(config, Replay(t0), input);
    ResolvedTurn(config, Replay(t0), selector, script);
    ReachesNext(config, start, inputs, input);
    AfterConcat(INITIAL, t0, turn);
    AfterResolved(Replay(t0), selector, script.outcome.value, turn[3].result);
    OnlyTheTurn(t0, turn);
  }

  lemma OnlyTheTurn(t: seq<Event>, turn: seq<Event>)
    requires turn != [] && forall j :: 0 <= j < |turn| ==> !Bumps(turn[j])
    ensures SamePage(t + turn, |t|) && (t + turn)[..|t|] == t && (t + turn)[|t|] == turn[0]
  {
  }

  /** So both exceptions do occur: at every epoch some run has a Ready worker that just resolved an element. */
  lemma ResolvedAtEveryEpoch(
      config: Config, value: Value, url: Text, navigation: Script, selector: Text, resolution: Script, n: nat)
    requires Arrives(config, url, navigation) && Contains(config.capabilities, Inspect) && ValidSelector(selector)
    requires !resolution.emergencyFirst && resolution.healthyBefore && resolution.outcome.Finished? && resolution.healthyAfter
    ensures var start := StartRan(Finished(value));
            var inputs := Navigations(url, navigation, n) + [Request(ResolveElement(selector), resolution)];
            && Reaches(config, start, inputs)
            && var t := HeadTrace(config, start, inputs);
               Replay(t).snapshot.life.Ready?
               && exists i :: 0 <= i < |t| && SamePage(t, i) && t[i] == Operated(ResolveElement(selector), resolution.outcome)
                              && IssuedAt(t, i) == ElementRef(selector, Saturate(n))
  {
    var start := StartRan(Finished(value));
    EveryEpochIsReached(config, value, url, navigation, n);
    ResolvesFrom(config, start, Navigations(url, navigation, n), Saturate(n), selector, resolution);
  }
}
