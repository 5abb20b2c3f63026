/**
What the calls to the shared mirror catalog come to: what each outcome says of the catalog, which ends a call can reach by
its own steps, how many of these it takes, and what reconciliation and removals can take away.
*/
module CatalogOutcomes {
  import opened Catalog
  import opened Wrappers

  /** A process runs once, and as long as it runs it can call; its death takes its calls along and nothing else. */
  lemma LivesOfProcesses(s: State, p: Process, snapshot: Snapshot, digest: Digest)
    ensures Next(s, ProcessStarts(p)) == if p in s.alive || p in s.dead then None else Some(s.(alive := s.alive + {p}))
    ensures Next(s, CallBegins(p, snapshot, digest)) ==
              if p in s.alive then Some(s.(calls := s.calls + [Call(p, snapshot, digest, HardLink, Looking)])) else None
    ensures Next(s, ProcessDies(p)).Some? <==> p in s.alive
    ensures p in s.alive ==>
              var t := Next(s, ProcessDies(p)).value;
              && t == s.(alive := s.alive - {p}, dead := s.dead + {p}, calls := t.calls) && |t.calls| == |s.calls|
              && forall i :: 0 <= i < |s.calls| ==>
                   t.calls[i] == if s.calls[i].process == p && !s.calls[i].phase.Finished? then s.calls[i].(phase := Crashed)
                                 else s.calls[i]
  {
  }

  // What the end of a call says.

  lemma BuildMovesOne(s: State, step: Step)
    requires OfBuild(step) && BuildStep(s, step).Some?
    ensures step.call < |s.calls|
    ensures var t := BuildStep(s, step).value;
            |t.calls| == |s.calls| && t.calls == s.calls[step.call := t.calls[step.call]]
  {
  }

  lemma CleanupMovesOne(s: State, step: Step)
    requires OfCleanup(step) && CleanStep(s, step).Some?
    ensures step.call < |s.calls|
    ensures var t := CleanStep(s, step).value;
            |t.calls| == |s.calls| && t.calls == s.calls[step.call := t.calls[step.call]]
  {
  }

  lemma OthersMoveNone(s: State, step: Step)
    requires !OfBuild(step) && !OfCleanup(step) && !OfProcess(step) && Next(s, step).Some?
    ensures Next(s, step).value.calls == s.calls
  {
    if OfReconciler(step) {
      assert ReconcileStep(s, step).value.calls == s.calls;
    }
  }

  /** Only a call's own steps and the death of its process move it. */
  lemma MovesItself(s: State, step: Step, i: nat)
    requires Next(s, step).Some? && i < |s.calls|
    ensures i < |Next(s, step).value.calls|
    ensures var c := Next(s, step).value.calls[i];
            c == s.calls[i] || (OfProcess(step) && c.phase.Crashed?) || ((OfBuild(step) || OfCleanup(step)) && step.call == i)
  {
    if OfBuild(step) {
      BuildMovesOne(s, step);
    } else if OfCleanup(step) {
      CleanupMovesOne(s, step);
    } else if !OfProcess(step) {
      OthersMoveNone(s, step);
    }
  }

  lemma NewCallsLook(s: State, step: Step, i: nat)
    requires Next(s, step).Some? && |s.calls| <= i < |Next(s, step).value.calls|
    ensures Next(s, step).value.calls[i].phase.Looking?
  {
    if OfBuild(step) {
      BuildMovesOne(s, step);
    } else if OfCleanup(step) {
      CleanupMovesOne(s, step);
    } else if !OfProcess(step) {
      OthersMoveNone(s, step);
    }
  }

  predicate Delivered(o: Outcome) {
    o.Found? || o.Published? || o.Yielded?
  }

  /** A call that published is about to validate its own directory, or through with that. */
  predicate HasPublished(p: Phase) {
    p == Validating(Own) || p == Finished(Published) || p == Finished(PublishedUnread) || p.Crashed?
  }

  ghost predicate PublishersInv(s: State) {
    forall k :: k in s.publishers ==>
      s.publishers[k] < |s.calls| && s.calls[s.publishers[k]].digest == k && HasPublished(s.calls[s.publishers[k]].phase)
  }

  lemma PublishedOnlyValidates(s: State, step: Step)
    requires OfBuild(step) && BuildStep(s, step).Some? && step.call < |s.calls| && HasPublished(s.calls[step.call].phase)
    ensures step.Validates? && step.call < |BuildStep(s, step).value.calls|
    ensures HasPublished(BuildStep(s, step).value.calls[step.call].phase)
    ensures BuildStep(s, step).value.calls[step.call].digest == s.calls[step.call].digest
  {
  }

  lemma PublishedStays(s: State, step: Step, i: nat)
    requires Next(s, step).Some? && i < |s.calls| && HasPublished(s.calls[i].phase)
    ensures i < |Next(s, step).value.calls|
    ensures HasPublished(Next(s, step).value.calls[i].phase) && Next(s, step).value.calls[i].digest == s.calls[i].digest
  {
    MovesItself(s, step, i);
    if OfBuild(step) && step.call == i {
      PublishedOnlyValidates(s, step);
    }
  }

  lemma CleanupsPublishNothing(s: State, step: Step)
    requires CleanStep(s, step).Some?
    ensures CleanStep(s, step).value.publishers == s.publishers
  {
  }

  lemma ReconcilersPublishNothing(s: State, step: Step)
    requires ReconcileStep(s, step).Some?
    ensures ReconcileStep(s, step).value.publishers == s.publishers
  {
  }

  lemma OthersPublishNothing(s: State, step: Step)
    requires !OfBuild(step) && Next(s, step).Some?
    ensures Next(s, step).value.publishers == s.publishers
  {
    if OfCleanup(step) {
      CleanupsPublishNothing(s, step);
    } else if OfReconciler(step) {
      ReconcilersPublishNothing(s, step);
    }
  }

  lemma PublishersGrowAtRenames(s: State, step: Step, k: Digest)
    requires Next(s, step).Some? && k in Next(s, step).value.publishers
    requires !(k in s.publishers && Next(s, step).value.publishers[k] == s.publishers[k])
    ensures step.Renames? && step.call < |s.calls| && s.calls[step.call].digest == k
    ensures Next(s, step).value.publishers[k] == step.call && step.call < |Next(s, step).value.calls|
    ensures Next(s, step).value.calls[step.call] == s.calls[step.call].(phase := Validating(Own))
  {
    if !OfBuild(step) {
      OthersPublishNothing(s, step);
    }
  }

  lemma NextKeepsPublishers(s: State, step: Step)
    requires PublishersInv(s) && Next(s, step).Some?
    ensures PublishersInv(Next(s, step).value)
  {
    var t := Next(s, step).value;
    forall k | k in t.publishers
      ensures t.publishers[k] < |t.calls| && t.calls[t.publishers[k]].digest == k
      ensures HasPublished(t.calls[t.publishers[k]].phase)
    {
      if k in s.publishers && t.publishers[k] == s.publishers[k] {
        PublishedStays(s, step, s.publishers[k]);
      } else {
        PublishersGrowAtRenames(s, step, k);
      }
    }
  }

  lemma {:induction false} RunKeepsPublishers(s: State, steps: seq<Step>, t: State)
    requires PublishersInv(s) && Run(s, steps, t)
    ensures PublishersInv(t)
    decreases |steps|
  {
    if steps != [] {
      NextKeepsPublishers(s, steps[0]);
      RunKeepsPublishers(Next(s, steps[0]).value, steps[1..], t);
    }
  }

  /** A step at which a call comes to its end. */
  predicate Ends(s: State, step: Step, i: nat) {
    && i < |s.calls| && !s.calls[i].phase.Finished? && Next(s, step).Some?
    && i < |Next(s, step).value.calls| && Next(s, step).value.calls[i].phase.Finished?
  }

  lemma BuildEnds(s: State, step: Step)
    requires OfBuild(step) && BuildStep(s, step).Some? && step.call < |s.calls|
    requires BuildStep(s, step).value.calls[step.call].phase.Finished?
    ensures step.CreateFails? || step.Validates?
    ensures Delivered(BuildStep(s, step).value.calls[step.call].phase.outcome) <==> step.Validates? && step.succeeds
    ensures BuildStep(s, step).value.calls[step.call].phase.outcome.PublishedUnread? ==>
              s.calls[step.call].phase == Validating(Own)
  {
  }

  lemma CleanupEnds(s: State, step: Step)
    requires OfCleanup(step) && CleanStep(s, step).Some? && step.call < |s.calls|
    requires CleanStep(s, step).value.calls[step.call].phase.Finished?
    ensures step.CleansDirectory? || step.CleanupFails?
    ensures !Delivered(CleanStep(s, step).value.calls[step.call].phase.outcome)
    ensures !CleanStep(s, step).value.calls[step.call].phase.outcome.PublishedUnread?
  {
  }

  lemma EndsByItself(s: State, step: Step, i: nat)
    requires Ends(s, step, i)
    ensures step == CreateFails(i) || step == CleansDirectory(i) || step == CleanupFails(i)
            || step == Validates(i, true) || step == Validates(i, false)
    ensures Delivered(Next(s, step).value.calls[i].phase.outcome) <==> step == Validates(i, true)
    ensures Next(s, step).value.calls[i].phase.outcome.PublishedUnread? ==> s.calls[i].phase == Validating(Own)
  {
    MovesItself(s, step, i);
    if OfBuild(step) {
      BuildEnds(s, step);
    } else {
      CleanupEnds(s, step);
    }
  }

  lemma PassingMeans(s: State, i: nat)
    requires i < |s.calls| && Next(s, Validates(i, true)).Some?
    ensures s.calls[i].phase.Validating?
    ensures var t := Next(s, Validates(i, true)).value; var k := s.calls[i].digest;
            && t == s.(calls := t.calls, leases := s.leases + multiset{k}) && |t.calls| == |s.calls|
            && Key(k) in s.catalog && k !in s.removing
            && match s.calls[i].phase.goal
               case Existing => t.calls[i].phase == Finished(Found)
               case Own => t.calls[i].phase == Finished(Published) && k in s.publishers && s.publishers[k] == i
               case Winner => t.calls[i].phase == Finished(Yielded)
  {
  }

  /** A call that ends with a mirror has it under its key, readable and complete, with one more lease on it. */
  lemma DeliveredMeansLeased(steps: seq<Step>, s: State, step: Step, i: nat)
    requires Run(Initial, steps, s) && Ends(s, step, i) && Delivered(Next(s, step).value.calls[i].phase.outcome)
    ensures var t := Next(s, step).value; var k := s.calls[i].digest;
            && Key(k) in t.catalog && Key(k) in s.catalog && k !in t.removing && t.leases[k] == s.leases[k] + 1
            && t.catalog == s.catalog && Complete(s, k)
  {
    InitialInv();
    RunKeepsInv(Initial, steps, s);
    EndsByItself(s, step, i);
    PassingMeans(s, i);
    assert Complete(s, s.calls[i].digest);
  }

  /** Which mirror it is: its own if it says Published, another call's if it says Found or Yielded. */
  lemma OutcomesNameThePublisher(steps: seq<Step>, s: State, step: Step, i: nat)
    requires Run(Initial, steps, s) && Ends(s, step, i)
    ensures var t := Next(s, step).value; var k := s.calls[i].digest; var o := t.calls[i].phase.outcome;
            && (o.Published? ==> k in t.publishers && t.publishers[k] == i
                                 && Key(k) in t.catalog && t.catalog[Key(k)] == Directory(s.calls[i].snapshot, Some(k)))
            && (o.Found? || o.Yielded? ==> k in t.publishers && t.publishers[k] != i)
            && (o.Found? ==> s.calls[i].phase == Validating(Existing))
            && (o.Published? || o.PublishedUnread? ==> s.calls[i].phase == Validating(Own))
            && (o.Yielded? ==> s.calls[i].phase == Validating(Winner))
  {
    EndsByItself(s, step, i);
    if step == Validates(i, true) {
      DeliveredMeansLeased(steps, s, step, i);
      PassingMeans(s, i);
      RunKeepsPublishers(Initial, steps, s);
    }
  }

  /** So a call gets its own source wherever equal digests mean equal contents. */
  lemma EveryCallGetsItsSource(steps: seq<Step>, s: State, step: Step, i: nat)
    requires Run(Initial, steps, s) && Ends(s, step, i) && Delivered(Next(s, step).value.calls[i].phase.outcome)
    requires forall j :: 0 <= j < |s.calls| && s.calls[j].digest == s.calls[i].digest ==> s.calls[j].snapshot == s.calls[i].snapshot
    ensures var t := Next(s, step).value; var k := s.calls[i].digest;
            && Key(k) in t.catalog && t.catalog[Key(k)] == Directory(s.calls[i].snapshot, Some(k))
            && k in t.leases && MirrorStep(t, RemovalLocks(k)).None?
  {
    DeliveredMeansLeased(steps, s, step, i);
  }

  lemma EntersValidation(s: State, step: Step)
    requires OfBuild(step) && BuildStep(s, step).Some? && step.call < |s.calls|
    requires BuildStep(s, step).value.calls[step.call].phase.Validating?
    ensures step.Looks? || step.Renames?
  {
  }

  /** Where a validation comes from: the key was seen, the call's directory was renamed, or its rename had failed. */
  lemma ValidationsComeFrom(s: State, step: Step, i: nat)
    requires Inv(s) && Next(s, step).Some? && i < |s.calls| && i < |Next(s, step).value.calls|
    requires !s.calls[i].phase.Validating? && Next(s, step).value.calls[i].phase.Validating?
    ensures var t := Next(s, step).value; var k := s.calls[i].digest;
            match t.calls[i].phase.goal
            case Existing => s.calls[i].phase.Looking? && Key(k) in s.catalog && t.catalog == s.catalog
            case Own =>
              && s.calls[i].phase.Publishing? && Key(k) !in s.catalog && s.calls[i].phase.name !in t.catalog
              && Key(k) in t.catalog && t.catalog[Key(k)] == Directory(s.calls[i].snapshot, Some(k))
            case Winner =>
              && s.calls[i].phase.Cleaning? && s.calls[i].phase.cause.RenameFailed? && s.calls[i].phase.name !in t.catalog
              && t.catalog == s.catalog - {s.calls[i].phase.name}
  {
    MovesItself(s, step, i);
    assert CallInv(s, s.calls[i]);
    if OfBuild(step) {
      EntersValidation(s, step);
    } else {
      assert CleanStep(s, step).value.calls[i].phase == Validating(Winner);
    }
  }

  /** A call whose rename has failed. */
  predicate Refused(p: Phase) {
    (p.Cleaning? && p.cause.RenameFailed?) || p == Validating(Winner) || p == Finished(Yielded)
  }

  lemma CleanupsFollowARefusal(s: State, step: Step)
    requires OfCleanup(step) && CleanStep(s, step).Some? && Refused(CleanStep(s, step).value.calls[step.call].phase)
    ensures step.call < |s.calls| && Refused(s.calls[step.call].phase)
  {
  }

  lemma BuildsAreRefused(s: State, step: Step)
    requires OfBuild(step) && BuildStep(s, step).Some? && step.call < |s.calls|
    requires !Refused(s.calls[step.call].phase) && Refused(BuildStep(s, step).value.calls[step.call].phase)
    ensures step.Renames? || step.RenameFails?
    ensures s.calls[step.call].phase.Publishing?
    ensures step.Renames? ==> Key(s.calls[step.call].digest) in s.catalog
  {
  }

  lemma RefusedAtARename(s: State, step: Step, i: nat)
    requires Next(s, step).Some? && i < |s.calls| && i < |Next(s, step).value.calls|
    requires !Refused(s.calls[i].phase) && Refused(Next(s, step).value.calls[i].phase)
    ensures step == Renames(i) || step == RenameFails(i)
    ensures s.calls[i].phase.Publishing?
    ensures step == Renames(i) ==> Key(s.calls[i].digest) in s.catalog
  {
    MovesItself(s, step, i);
    if OfCleanup(step) {
      CleanupsFollowARefusal(s, step);
    } else {
      BuildsAreRefused(s, step);
    }
  }

  /** A call yields to another's mirror only after its own rename has met the key or failed otherwise. */
  lemma {:induction false} YieldedMetARename(s: State, steps: seq<Step>, t: State, i: nat)
    requires Run(s, steps, t) && (i < |s.calls| ==> !Refused(s.calls[i].phase))
    requires i < |t.calls| && Refused(t.calls[i].phase)
    ensures Renames(i) in steps || RenameFails(i) in steps
    decreases |steps|
  {
    if steps != [] {
      var u := Next(s, steps[0]).value;
      if i < |u.calls| && Refused(u.calls[i].phase) {
        if i < |s.calls| {
          RefusedAtARename(s, steps[0], i);
        } else {
          NewCallsLook(s, steps[0], i);
        }
      } else {
        YieldedMetARename(u, steps[1..], t, i);
      }
    }
  }

  // Calls come to their ends.

  predicate OfCall(step: Step, i: nat) {
    (OfBuild(step) || OfCleanup(step)) && step.call == i
  }

  lemma TailOfBoth(a: seq<Step>, b: seq<Step>)
    requires a != []
    ensures a + b != [] && (a + b)[0] == a[0] && (a + b)[1..] == a[1..] + b
  {
  }

  lemma {:induction false} RunConcat(s: State, a: seq<Step>, t: State, b: seq<Step>, u: State)
    requires Run(s, a, t) && Run(t, b, u)
    ensures Run(s, a + b, u)
    decreases |a|
  {
    if a == [] {
      assert a + b == b;
    } else {
      TailOfBoth(a, b);
      RunConcat(Next(s, a[0]).value, a[1..], t, b, u);
    }
  }

  lemma RunOne(s: State, step: Step)
    requires Next(s, step).Some?
    ensures Run(s, [step], Next(s, step).value)
  {
    assert [step][1..] == [];
    assert Run(Next(s, step).value, [], Next(s, step).value);
  }

  /** A step and the run after it. */
  lemma RunCons(s: State, step: Step, rest: seq<Step>, t: State)
    requires Next(s, step).Some? && Run(Next(s, step).value, rest, t)
    ensures Run(s, [step] + rest, t)
  {
    RunOne(s, step);
    RunConcat(s, [step], Next(s, step).value, rest, t);
  }

  /** The state with a directory rewritten. */
  function With(s: State, name: Name, d: Directory): State {
    s.(catalog := s.catalog[name := d])
  }

  lemma SetAgain(s: State, name: Name, d: Directory, e: Directory)
    ensures With(With(s, name, d), name, e) == With(s, name, e)
  {
  }

  lemma NothingMissing(part: Snapshot, whole: Snapshot)
    requires whole.Keys - part.Keys == {} && forall p :: p in part ==> p in whole && part[p] == whole[p]
    ensures part == whole
  {
    forall p | p in whole
      ensures p in part
    {
      assert p in part || p in whole.Keys - part.Keys;
    }
    assert part.Keys == whole.Keys;
  }

  /** A building call can copy everything and write its manifest. */
  lemma {:induction false} BuildCompletes(s: State, i: nat) returns (steps: seq<Step>)
    requires Inv(s) && i < |s.calls| && s.calls[i].phase.Building?
    ensures var c := s.calls[i];
            && c.phase.name in s.catalog
            && Run(s, steps, With(SetPhase(s, i, Publishing(c.phase.name)), c.phase.name, Directory(c.snapshot, Some(c.digest))))
    ensures forall step :: step in steps ==> OfCall(step, i)
    decreases if i < |s.calls| && s.calls[i].phase.Building? && s.calls[i].phase.name in s.catalog
              then |s.calls[i].snapshot.Keys - s.catalog[s.calls[i].phase.name].files.Keys| else 0
  {
    var c := s.calls[i];
    var name := c.phase.name;
    assert CallInv(s, c);
    var d := s.catalog[name];
    var missing := c.snapshot.Keys - d.files.Keys;
    if missing == {} {
      NothingMissing(d.files, c.snapshot);
      steps := [WritesManifest(i)];
      RunOne(s, WritesManifest(i));
    } else {
      var path :| path in missing;
      var e := d.(files := d.files[path := c.snapshot[path]]);
      var next := With(s, name, e);
      NextKeepsInv(s, AddsFile(i, path));
      assert c.snapshot.Keys - e.files.Keys == missing - {path};
      var rest := BuildCompletes(next, i);
      SetAgain(SetPhase(s, i, Publishing(name)), name, e, Directory(c.snapshot, Some(c.digest)));
      steps := [AddsFile(i, path)] + rest;
      RunCons(s, AddsFile(i, path), rest,
              With(SetPhase(s, i, Publishing(name)), name, Directory(c.snapshot, Some(c.digest))));
    }
  }

  const EMPTY := Directory(map[], None)

  /** The entries left to delete in a directory. */
  function Entries(d: Directory): nat {
    |d.files| + if d.manifest.Some? then 1 else 0
  }

  lemma OneFileLess(files: Snapshot, path: Path)
    requires path in files
    ensures |files - {path}| == |files| - 1
  {
    assert (files - {path}).Keys == files.Keys - {path};
    assert |files - {path}| == |(files - {path}).Keys|;
  }

  /** Who empties a directory: the call that cleans it up, the reconciler, or a removal. */
  datatype Cleaner = Owner(call: nat) | Reconciler | Remover

  predicate MayEmpty(s: State, who: Cleaner, name: Name) {
    match who
    case Owner(i) => i < |s.calls| && s.calls[i].phase.Cleaning? && s.calls[i].phase.name == name
    case Reconciler => name in s.reclaiming
    case Remover => name.Key? && name.digest in s.removing
  }

  predicate Empties(step: Step, who: Cleaner, name: Name) {
    match who
    case Owner(i) => (step.CleansFile? || step.CleansManifest?) && step.call == i
    case Reconciler => (step.ReclaimsFile? || step.ReclaimsManifest?) && step.name == name
    case Remover => (step.RemovesFile? || step.RemovesManifest?) && name.Key? && step.digest == name.digest
  }

  lemma DeleteFile(s: State, who: Cleaner, name: Name, path: Path) returns (step: Step)
    requires MayEmpty(s, who, name) && name in s.catalog && path in s.catalog[name].files
    ensures Next(s, step) == Some(With(s, name, s.catalog[name].(files := s.catalog[name].files - {path})))
    ensures Empties(step, who, name)
  {
    match who
    case Owner(i) => step := CleansFile(i, path);
    case Reconciler => step := ReclaimsFile(name, path);
    case Remover => step := RemovesFile(name.digest, path);
  }

  lemma DeleteManifest(s: State, who: Cleaner, name: Name) returns (step: Step)
    requires MayEmpty(s, who, name) && name in s.catalog && s.catalog[name].manifest.Some?
    ensures Next(s, step) == Some(With(s, name, s.catalog[name].(manifest := None)))
    ensures Empties(step, who, name)
  {
    match who
    case Owner(i) => step := CleansManifest(i);
    case Reconciler => step := ReclaimsManifest(name);
    case Remover => step := RemovesManifest(name.digest);
  }

  lemma DeleteOne(s: State, who: Cleaner, name: Name) returns (step: Step, e: Directory)
    requires MayEmpty(s, who, name) && name in s.catalog
    requires s.catalog[name].manifest.Some? || s.catalog[name].files.Keys != {}
    ensures Next(s, step) == Some(With(s, name, e)) && Entries(e) < Entries(s.catalog[name])
    ensures Empties(step, who, name)
  {
    var d := s.catalog[name];
    if d.manifest.Some? {
      step := DeleteManifest(s, who, name);
      e := d.(manifest := None);
    } else {
      var path :| path in d.files.Keys;
      step := DeleteFile(s, who, name, path);
      e := d.(files := d.files - {path});
      OneFileLess(d.files, path);
    }
  }

  /** Whoever may empty a directory can, one entry after the other, whatever is in it. */
  lemma {:induction false} DirectoryEmpties(s: State, who: Cleaner, name: Name) returns (steps: seq<Step>)
    requires MayEmpty(s, who, name) && name in s.catalog
    ensures Run(s, steps, With(s, name, EMPTY))
    ensures forall step :: step in steps ==> Empties(step, who, name)
    decreases if name in s.catalog then Entries(s.catalog[name]) else 0
  {
    var d := s.catalog[name];
    if d.manifest.None? && d.files.Keys == {} {
      steps := [];
      assert d.files == map[];
      assert s.catalog[name := EMPTY] == s.catalog;
    } else {
      var step, e := DeleteOne(s, who, name);
      var rest := DirectoryEmpties(With(s, name, e), who, name);
      SetAgain(s, name, e, EMPTY);
      steps := [step] + rest;
      RunCons(s, step, rest, With(s, name, EMPTY));
    }
  }

  /** What becomes of a call once its directory is gone. */
  function AfterCleanup(c: Call, cause: Cause): Call {
    match cause
    case BuildFailed => c.(phase := Finished(Failed))
    case HardLinkDenied => c.(mode := Copy, phase := Creating)
    case RenameFailed => c.(phase := Validating(Winner))
  }

  /** A call can clean up all of its directory, and nothing else, whatever state that is in. */
  lemma CleanupCompletes(s: State, i: nat) returns (steps: seq<Step>, t: State)
    requires Inv(s) && i < |s.calls| && s.calls[i].phase.Cleaning?
    ensures Run(s, steps, t) && Inv(t)
    ensures var c := s.calls[i];
            t == s.(calls := s.calls[i := AfterCleanup(c, c.phase.cause)], catalog := s.catalog - {c.phase.name})
    ensures forall step :: step in steps ==> OfCall(step, i)
  {
    var c := s.calls[i];
    var name := c.phase.name;
    assert CallInv(s, c);
    var first := DirectoryEmpties(s, Owner(i), name);
    RunKeepsInv(s, first, With(s, name, EMPTY));
    var u := With(s, name, EMPTY);
    assert u.catalog - {name} == s.catalog - {name};
    t := s.(calls := s.calls[i := AfterCleanup(c, c.phase.cause)], catalog := s.catalog - {name});
    assert Next(u, CleansDirectory(i)) == Some(t);
    NextKeepsInv(u, CleansDirectory(i));
    RunOne(u, CleansDirectory(i));
    steps := first + [CleansDirectory(i)];
    RunConcat(s, first, u, [CleansDirectory(i)], t);
  }

  /** The outcome of a call, with its mirror under its key and a lease on it, and nothing else changed in the catalog. */
  predicate PublishedAlone(s: State, t: State, i: nat, mode: Mode)
    requires i < |s.calls|
  {
    var c := s.calls[i];
    && t.calls == s.calls[i := c.(mode := mode, phase := Finished(Published))]
    && t.leases == s.leases + multiset{c.digest} && t.publishers == s.publishers[c.digest := i]
    && t.alive == s.alive && t.dead == s.dead && t.reclaiming == s.reclaiming && t.removing == s.removing
  }

  lemma RenamedAndValidated(s: State, i: nat) returns (t: State)
    requires Inv(s) && i < |s.calls| && s.calls[i].phase.Publishing? && Key(s.calls[i].digest) !in s.catalog
    ensures Run(s, [Renames(i)] + [Validates(i, true)], t) && PublishedAlone(s, t, i, s.calls[i].mode)
    ensures var c := s.calls[i];
            t.catalog == (s.catalog - {c.phase.name})[Key(c.digest) := Directory(c.snapshot, Some(c.digest))]
  {
    assert CallInv(s, s.calls[i]);
    var u := Next(s, Renames(i)).value;
    t := Next(u, Validates(i, true)).value;
    RunOne(u, Validates(i, true));
    RunCons(s, Renames(i), [Validates(i, true)], t);
  }

  lemma MovedToKey(catalog: map<Name, Directory>, name: Name, k: Digest, d: Directory)
    requires name.Staging?
    ensures (catalog[name := d] - {name})[Key(k) := d] == (catalog - {name})[Key(k) := d]
    ensures name !in catalog ==> (catalog - {name})[Key(k) := d] == catalog[Key(k) := d]
  {
  }

  lemma BuildingPublishes(s: State, i: nat) returns (steps: seq<Step>, t: State)
    requires Inv(s) && i < |s.calls| && s.calls[i].phase.Building? && Key(s.calls[i].digest) !in s.catalog
    ensures Run(s, steps, t) && PublishedAlone(s, t, i, s.calls[i].mode)
    ensures forall step :: step in steps ==> OfCall(step, i)
    ensures var c := s.calls[i];
            t.catalog == (s.catalog - {c.phase.name})[Key(c.digest) := Directory(c.snapshot, Some(c.digest))]
  {
    var c := s.calls[i];
    assert CallInv(s, c);
    var first := BuildCompletes(s, i);
    var u := With(SetPhase(s, i, Publishing(c.phase.name)), c.phase.name, Directory(c.snapshot, Some(c.digest)));
    RunKeepsInv(s, first, u);
    t := RenamedAndValidated(u, i);
    MovedToKey(s.catalog, c.phase.name, c.digest, Directory(c.snapshot, Some(c.digest)));
    RunConcat(s, first, u, [Renames(i)] + [Validates(i, true)], t);
    steps := first + ([Renames(i)] + [Validates(i, true)]);
  }

  /** A call that has to build its mirror can, and publishes it, with nobody else's directory touched. */
  lemma CreatingPublishes(s: State, i: nat) returns (steps: seq<Step>, t: State)
    requires Inv(s) && i < |s.calls| && s.calls[i].phase.Creating? && Key(s.calls[i].digest) !in s.catalog
    ensures Run(s, steps, t) && PublishedAlone(s, t, i, s.calls[i].mode)
    ensures forall step :: step in steps ==> OfCall(step, i)
    ensures var c := s.calls[i]; t.catalog == s.catalog[Key(c.digest) := Directory(c.snapshot, Some(c.digest))]
  {
    var c := s.calls[i];
    var name := Staging(c.digest, c.process, Sequence(s, c.process));
    NextNameIsFresh(s, i);
    var u := Next(s, CreatesStaging(i)).value;
    NextKeepsInv(s, CreatesStaging(i));
    var rest;
    rest, t := BuildingPublishes(u, i);
    assert u.catalog - {name} == s.catalog - {name};
    MovedToKey(s.catalog, name, c.digest, Directory(c.snapshot, Some(c.digest)));
    RunCons(s, CreatesStaging(i), rest, t);
    steps := [CreatesStaging(i)] + rest;
  }

  /** Where the key is absent, a call's own steps can lead it to publish its source under the key. */
  lemma MissingMirrorIsPublished(s: State, i: nat) returns (steps: seq<Step>, t: State)
    requires Inv(s) && i < |s.calls| && s.calls[i].phase.Looking? && Key(s.calls[i].digest) !in s.catalog
    ensures Run(s, steps, t) && PublishedAlone(s, t, i, s.calls[i].mode)
    ensures forall step :: step in steps ==> OfCall(step, i)
    ensures var c := s.calls[i]; t.catalog == s.catalog[Key(c.digest) := Directory(c.snapshot, Some(c.digest))]
  {
    var u := SetPhase(s, i, Creating);
    NextKeepsInv(s, Looks(i));
    var rest;
    rest, t := CreatingPublishes(u, i);
    RunCons(s, Looks(i), rest, t);
    steps := [Looks(i)] + rest;
  }

  /** A mirror that is there and held by no removal passes the validation of any call that did not publish it itself. */
  lemma MirrorsPass(s: State, i: nat, outcome: Outcome)
    requires Inv(s) && i < |s.calls| && Key(s.calls[i].digest) in s.catalog && s.calls[i].digest !in s.removing
    requires (s.calls[i].phase == Validating(Existing) && outcome == Found)
             || (s.calls[i].phase == Validating(Winner) && outcome == Yielded)
    ensures Run(s, [Validates(i, true)], SetPhase(s, i, Finished(outcome)).(leases := s.leases + multiset{s.calls[i].digest}))
  {
    assert Complete(s, s.calls[i].digest);
    RunOne(s, Validates(i, true));
  }

  lemma LookingFinds(s: State, i: nat)
    requires i < |s.calls| && s.calls[i].phase.Looking? && Key(s.calls[i].digest) in s.catalog
    ensures Next(s, Looks(i)) == Some(SetPhase(s, i, Validating(Existing)))
  {
  }

  /** Where the key is there and no removal holds it, a call can only find it, and does. */
  lemma ExistingMirrorIsFound(s: State, i: nat)
    requires Inv(s) && i < |s.calls| && s.calls[i].phase.Looking?
    requires Key(s.calls[i].digest) in s.catalog && s.calls[i].digest !in s.removing
    ensures Run(s, [Looks(i)] + [Validates(i, true)],
                SetPhase(s, i, Finished(Found)).(leases := s.leases + multiset{s.calls[i].digest}))
  {
    var t := SetPhase(s, i, Finished(Found)).(leases := s.leases + multiset{s.calls[i].digest});
    LookingFinds(s, i);
    NextKeepsInv(s, Looks(i));
    MirrorsPass(SetPhase(s, i, Validating(Existing)), i, Found);
    RunCons(s, Looks(i), [Validates(i, true)], t);
  }

  /** The loser of a race takes its directory away and answers with the winner's mirror. */
  lemma LoserYields(s: State, i: nat) returns (steps: seq<Step>, t: State)
    requires Inv(s) && i < |s.calls| && s.calls[i].phase.Publishing?
    requires Key(s.calls[i].digest) in s.catalog && s.calls[i].digest !in s.removing
    ensures Run(s, steps, t) && t.calls == s.calls[i := s.calls[i].(phase := Finished(Yielded))]
    ensures t.catalog == s.catalog - {s.calls[i].phase.name} && t.leases == s.leases + multiset{s.calls[i].digest}
    ensures forall step :: step in steps ==> OfCall(step, i)
  {
    var c := s.calls[i];
    assert CallInv(s, c);
    var u := SetPhase(s, i, Cleaning(c.phase.name, RenameFailed));
    NextKeepsInv(s, Renames(i));
    var rest;
    rest, t := RefusedYields(u, i);
    RunCons(s, Renames(i), rest, t);
    steps := [Renames(i)] + rest;
  }

  lemma RefusedYields(s: State, i: nat) returns (steps: seq<Step>, t: State)
    requires Inv(s) && i < |s.calls| && s.calls[i].phase.Cleaning? && s.calls[i].phase.cause.RenameFailed?
    requires Key(s.calls[i].digest) in s.catalog && s.calls[i].digest !in s.removing
    ensures Run(s, steps, t) && t.calls == s.calls[i := s.calls[i].(phase := Finished(Yielded))]
    ensures t.catalog == s.catalog - {s.calls[i].phase.name} && t.leases == s.leases + multiset{s.calls[i].digest}
    ensures forall step :: step in steps ==> OfCall(step, i)
  {
    assert CallInv(s, s.calls[i]);
    var first, u := CleanupCompletes(s, i);
    MirrorsPass(u, i, Yielded);
    t := SetPhase(u, i, Finished(Yielded)).(leases := u.leases + multiset{u.calls[i].digest});
    RunConcat(s, first, u, [Validates(i, true)], t);
    steps := first + [Validates(i, true)];
  }

  /** Where a call can fail, and what it then answers or has still to clean up. */
  lemma FailuresEndTheCall(s: State, i: nat)
    requires i < |s.calls|
    ensures s.calls[i].phase.Creating? ==> Next(s, CreateFails(i)) == Some(SetPhase(s, i, Finished(NotCreated)))
    ensures s.calls[i].phase.Publishing? ==>
              Next(s, RenameFails(i)) == Some(SetPhase(s, i, Cleaning(s.calls[i].phase.name, RenameFailed)))
    ensures s.calls[i].phase.Cleaning? ==>
              Next(s, CleanupFails(i)) == Some(SetPhase(s, i, Finished(BuildCleanup(s.calls[i].phase.name))))
    ensures s.calls[i].phase.Validating? ==>
              Next(s, Validates(i, false)) ==
                Some(SetPhase(s, i, Finished(if s.calls[i].phase == Validating(Own) then PublishedUnread else Failed)))
  {
  }

  lemma EmptyOrRenamed(s: State, step: Step, name: Name)
    requires (OfBuild(step) || OfCleanup(step)) && Next(s, step).Some?
    requires name in s.catalog && name !in Next(s, step).value.catalog
    ensures Empty(s.catalog[name]) || (step.Renames? && Owned(s.calls[step.call]) == Some(name))
  {
    if OfCleanup(step) {
      assert name !in CleanStep(s, step).value.catalog;
    } else {
      assert name !in BuildStep(s, step).value.catalog;
    }
  }

  /** A directory leaves the catalog only once it is empty, or by its owner's rename. */
  lemma DirectoriesGoEmpty(s: State, step: Step, name: Name)
    requires Next(s, step).Some? && name in s.catalog && name !in Next(s, step).value.catalog
    ensures Empty(s.catalog[name]) || (step.Renames? && step.call < |s.calls| && Owned(s.calls[step.call]) == Some(name))
  {
    if OfBuild(step) || OfCleanup(step) {
      EmptyOrRenamed(s, step, name);
    } else if OfReconciler(step) {
      assert name !in ReconcileStep(s, step).value.catalog;
    }
  }

  /** A call whose hard links are denied takes its directory away and publishes a copy. */
  lemma DeniedLinksAreCopied(s: State, i: nat) returns (steps: seq<Step>, t: State)
    requires Inv(s) && i < |s.calls| && s.calls[i].phase.Building? && s.calls[i].mode.HardLink?
    requires Key(s.calls[i].digest) !in s.catalog
    ensures steps != [] && steps[0] == BuildFails(i, true) && Run(s, steps, t) && PublishedAlone(s, t, i, Copy)
    ensures forall step :: step in steps ==> OfCall(step, i)
    ensures var c := s.calls[i];
            t.catalog == (s.catalog - {c.phase.name})[Key(c.digest) := Directory(c.snapshot, Some(c.digest))]
  {
    var c := s.calls[i];
    assert CallInv(s, c);
    var u := SetPhase(s, i, Cleaning(c.phase.name, HardLinkDenied));
    NextKeepsInv(s, BuildFails(i, true));
    var middle, v := CleanupCompletes(u, i);
    var last;
    last, t := CreatingPublishes(v, i);
    assert s.calls[i := v.calls[i]][i := t.calls[i]] == s.calls[i := t.calls[i]];
    RunConcat(u, middle, v, last, t);
    RunCons(s, BuildFails(i, true), middle + last, t);
    steps := [BuildFails(i, true)] + (middle + last);
  }

  lemma FailureCleansUp(s: State, i: nat, step: Step)
    requires i < |s.calls|
    requires (s.calls[i].phase.Building? && (step == BuildFails(i, false) || (step == BuildFails(i, true) && s.calls[i].mode.Copy?)))
             || (s.calls[i].phase.Publishing? && step == PublishFails(i))
    ensures Next(s, step) == Some(SetPhase(s, i, Cleaning(s.calls[i].phase.name, BuildFailed)))
  {
  }

  /** Any other failure of a build, a copy that fails included, ends the call with its directory taken away. */
  lemma FailedBuildsLeaveNothing(s: State, i: nat, step: Step) returns (steps: seq<Step>, t: State)
    requires Inv(s) && i < |s.calls|
    requires (s.calls[i].phase.Building? && (step == BuildFails(i, false) || (step == BuildFails(i, true) && s.calls[i].mode.Copy?)))
             || (s.calls[i].phase.Publishing? && step == PublishFails(i))
    ensures steps != [] && steps[0] == step && Run(s, steps, t)
    ensures t == SetPhase(s, i, Finished(Failed)).(catalog := s.catalog - {s.calls[i].phase.name})
    ensures forall other :: other in steps ==> OfCall(other, i)
  {
    var u := SetPhase(s, i, Cleaning(s.calls[i].phase.name, BuildFailed));
    FailureCleansUp(s, i, step);
    NextKeepsInv(s, step);
    var rest;
    rest, t := CleanupCompletes(u, i);
    RunCons(s, step, rest, t);
    steps := [step] + rest;
  }

  /** An answer is final. */
  lemma EndsAreFinal(s: State, step: Step, i: nat)
    requires Next(s, step).Some? && i < |s.calls| && s.calls[i].phase.Finished?
    ensures i < |Next(s, step).value.calls| && Next(s, step).value.calls[i] == s.calls[i]
  {
    MovesItself(s, step, i);
  }

  /** What a call still has to do at most, from the moment it makes a directory. */
  function Round(c: Call): nat {
    2 * |c.snapshot| + 8
  }

  function SecondRound(c: Call): nat {
    if c.mode.HardLink? then Round(c) else 0
  }

  /** What a call still has to do at most, given how many entries its directory has. */
  function Rank(c: Call, entries: nat): int {
    match c.phase
    case Looking => Round(c) + SecondRound(c) + 1
    case Creating => Round(c) + SecondRound(c)
    case Building(_) => SecondRound(c) + 2 * |c.snapshot| + 7 - entries
    case Publishing(_) => |c.snapshot| + 5
    case Cleaning(_, cause) => entries + 3 + if cause.HardLinkDenied? then Round(c) else 0
    case Validating(_) => 2
    case _ => 0
  }

  function Size(s: State, name: Option<Name>): nat {
    if name.Some? && name.value in s.catalog then Entries(s.catalog[name.value]) else 0
  }

  function Remaining(s: State, i: nat): int
    requires i < |s.calls|
  {
    Rank(s.calls[i], Size(s, Owned(s.calls[i])))
  }

  lemma PartIsNoLarger(part: Snapshot, whole: Snapshot)
    requires forall p :: p in part ==> p in whole
    ensures |part| <= |whole|
  {
    assert part.Keys <= whole.Keys;
    SubsetIsNoLarger(part.Keys, whole.Keys);
    assert |part.Keys| == |part| && |whole.Keys| == |whole|;
  }

  lemma {:induction false} SubsetIsNoLarger(a: set<Path>, b: set<Path>)
    requires a <= b
    ensures |a| <= |b|
    decreases a
  {
    if a != {} {
      var x :| x in a;
      SubsetIsNoLarger(a - {x}, b - {x});
    }
  }

  lemma OneFileMore(files: Snapshot, path: Path, content: Content)
    requires path !in files
    ensures |files[path := content]| == |files| + 1
  {
    assert files[path := content].Keys == files.Keys + {path};
    assert |files[path := content]| == |files[path := content].Keys|;
  }

  lemma FilesFit(s: State, i: nat)
    requires Inv(s) && i < |s.calls| && (s.calls[i].phase.Building? || s.calls[i].phase.Publishing?)
    ensures s.calls[i].phase.name in s.catalog
    ensures var d := s.catalog[s.calls[i].phase.name];
            && |d.files| <= |s.calls[i].snapshot|
            && Entries(d) == |d.files| + if s.calls[i].phase.Publishing? then 1 else 0
  {
    assert CallInv(s, s.calls[i]);
    PartIsNoLarger(s.catalog[s.calls[i].phase.name].files, s.calls[i].snapshot);
  }

  lemma AddingCounts(s: State, i: nat, path: Path)
    requires Inv(s) && BuildStep(s, AddsFile(i, path)).Some?
    ensures Remaining(BuildStep(s, AddsFile(i, path)).value, i) < Remaining(s, i)
  {
    FilesFit(s, i);
    OneFileMore(s.catalog[s.calls[i].phase.name].files, path, s.calls[i].snapshot[path]);
  }

  lemma CreatingCounts(s: State, i: nat)
    requires Inv(s) && BuildStep(s, CreatesStaging(i)).Some?
    ensures Remaining(BuildStep(s, CreatesStaging(i)).value, i) < Remaining(s, i)
  {
    NextNameIsFresh(s, i);
  }

  lemma FinishingCounts(s: State, i: nat, step: Step)
    requires Inv(s) && OfBuild(step) && step.call == i && BuildStep(s, step).Some?
    requires step.WritesManifest? || step.BuildFails? || step.PublishFails? || step.Renames? || step.RenameFails?
    ensures Remaining(BuildStep(s, step).value, i) < Remaining(s, i)
  {
    FilesFit(s, i);
  }

  lemma SmallStepsCount(s: State, i: nat, step: Step)
    requires (step.Looks? || step.CreateFails? || step.Validates?) && step.call == i && BuildStep(s, step).Some?
    ensures Remaining(BuildStep(s, step).value, i) < Remaining(s, i)
  {
  }

  lemma BuildCounts(s: State, step: Step)
    requires Inv(s) && OfBuild(step) && BuildStep(s, step).Some?
    ensures step.call < |s.calls| && step.call < |BuildStep(s, step).value.calls|
    ensures Remaining(BuildStep(s, step).value, step.call) < Remaining(s, step.call)
  {
    var i := step.call;
    match step
    case AddsFile(_, path) => AddingCounts(s, i, path);
    case CreatesStaging(_) => CreatingCounts(s, i);
    case Looks(_) => SmallStepsCount(s, i, step);
    case CreateFails(_) => SmallStepsCount(s, i, step);
    case Validates(_, _) => SmallStepsCount(s, i, step);
    case _ => FinishingCounts(s, i, step);
  }

  lemma DeletingCounts(s: State, i: nat, step: Step)
    requires Inv(s) && (step.CleansFile? || step.CleansManifest?) && step.call == i && CleanStep(s, step).Some?
    ensures Remaining(CleanStep(s, step).value, i) < Remaining(s, i)
  {
    var d := s.catalog[s.calls[i].phase.name];
    if step.CleansFile? {
      OneFileLess(d.files, step.path);
    }
  }

  lemma DepartureCounts(s: State, i: nat, step: Step)
    requires Inv(s) && (step.CleansDirectory? || step.CleanupFails?) && step.call == i && CleanStep(s, step).Some?
    ensures Remaining(CleanStep(s, step).value, i) < Remaining(s, i)
  {
  }

  lemma CleanupCounts(s: State, step: Step)
    requires Inv(s) && OfCleanup(step) && CleanStep(s, step).Some?
    ensures step.call < |s.calls| && step.call < |CleanStep(s, step).value.calls|
    ensures Remaining(CleanStep(s, step).value, step.call) < Remaining(s, step.call)
  {
    if step.CleansFile? || step.CleansManifest? {
      DeletingCounts(s, step.call, step);
    } else {
      DepartureCounts(s, step.call, step);
    }
  }

  lemma OthersCreate(s: State, j: nat, i: nat)
    requires Inv(s) && i < |s.calls| && Owned(s.calls[i]).Some? && BuildStep(s, CreatesStaging(j)).Some?
    ensures Size(BuildStep(s, CreatesStaging(j)).value, Owned(s.calls[i])) == Size(s, Owned(s.calls[i]))
  {
    assert CallInv(s, s.calls[i]);
    NextNameIsFresh(s, j);
  }

  lemma OwnersDiffer(s: State, j: nat, i: nat)
    requires Inv(s) && i < |s.calls| && j < |s.calls| && i != j && Owned(s.calls[i]).Some?
    ensures Owned(s.calls[j]) != Owned(s.calls[i]) && Owned(s.calls[i]).value.Staging?
  {
    assert CallInv(s, s.calls[i]);
  }

  lemma OthersBuild(s: State, step: Step, i: nat)
    requires Inv(s) && i < |s.calls| && Owned(s.calls[i]).Some?
    requires OfBuild(step) && step.call != i && BuildStep(s, step).Some?
    ensures Size(BuildStep(s, step).value, Owned(s.calls[i])) == Size(s, Owned(s.calls[i]))
  {
    OwnersDiffer(s, step.call, i);
    if step.CreatesStaging? {
      OthersCreate(s, step.call, i);
    }
  }

  lemma OthersCleanUp(s: State, step: Step, i: nat)
    requires Inv(s) && i < |s.calls| && Owned(s.calls[i]).Some?
    requires OfCleanup(step) && step.call != i && CleanStep(s, step).Some?
    ensures Size(CleanStep(s, step).value, Owned(s.calls[i])) == Size(s, Owned(s.calls[i]))
  {
    assert CallInv(s, s.calls[i]);
    assert CallInv(s, s.calls[step.call]);
  }

  lemma OthersReclaim(s: State, step: Step, i: nat)
    requires Inv(s) && i < |s.calls| && Owned(s.calls[i]).Some? && ReconcileStep(s, step).Some?
    ensures Size(ReconcileStep(s, step).value, Owned(s.calls[i])) == Size(s, Owned(s.calls[i]))
  {
    assert CallInv(s, s.calls[i]);
    NobodyOwns(s, step.name, i);
  }

  lemma OthersLeaveDirectories(s: State, step: Step, i: nat)
    requires Inv(s) && i < |s.calls| && Owned(s.calls[i]).Some? && Next(s, step).Some? && !OfCall(step, i)
    ensures Size(Next(s, step).value, Owned(s.calls[i])) == Size(s, Owned(s.calls[i]))
  {
    assert CallInv(s, s.calls[i]);
    if OfBuild(step) {
      OthersBuild(s, step, i);
    } else if OfCleanup(step) {
      OthersCleanUp(s, step, i);
    } else if OfReconciler(step) {
      OthersReclaim(s, step, i);
    }
  }

  lemma RankIsNatural(s: State, i: nat)
    requires Inv(s) && i < |s.calls|
    ensures Remaining(s, i) >= 0
  {
    if s.calls[i].phase.Building? {
      FilesFit(s, i);
    }
  }

  lemma OthersDoNotHinder(s: State, step: Step, i: nat)
    requires Inv(s) && i < |s.calls| && Next(s, step).Some? && !OfCall(step, i)
    ensures i < |Next(s, step).value.calls| && Remaining(Next(s, step).value, i) <= Remaining(s, i)
  {
    MovesItself(s, step, i);
    RankIsNatural(s, i);
    if Next(s, step).value.calls[i] == s.calls[i] && Owned(s.calls[i]).Some? {
      OthersLeaveDirectories(s, step, i);
    }
  }

  function OwnSteps(steps: seq<Step>, i: nat): nat {
    if steps == [] then 0 else (if OfCall(steps[0], i) then 1 else 0) + OwnSteps(steps[1..], i)
  }

  /** Whatever the others do, a call comes to its end: it takes at most `Remaining` steps of its own. */
  lemma {:induction false} OwnStepsAreBounded(s: State, steps: seq<Step>, t: State, i: nat)
    requires Inv(s) && i < |s.calls| && Run(s, steps, t)
    ensures i < |t.calls| && OwnSteps(steps, i) <= Remaining(s, i) - Remaining(t, i)
    ensures s.calls[i].phase.Looking? ==> OwnSteps(steps, i) <= 4 * |s.calls[i].snapshot| + 17
    decreases |steps|
  {
    if steps != [] {
      var u := Next(s, steps[0]).value;
      NextKeepsInv(s, steps[0]);
      if OfCall(steps[0], i) {
        if OfBuild(steps[0]) {
          BuildCounts(s, steps[0]);
        } else {
          CleanupCounts(s, steps[0]);
        }
      } else {
        OthersDoNotHinder(s, steps[0], i);
      }
      OwnStepsAreBounded(u, steps[1..], t, i);
    }
    RunKeepsInv(s, steps, t);
    RankIsNatural(t, i);
  }

  /** From nothing: a process starts, calls, and publishes its source under the key. */
  lemma FirstCallPublishes(p: Process, snapshot: Snapshot, digest: Digest) returns (steps: seq<Step>, t: State)
    ensures Run(Initial, steps, t) && t.catalog == map[Key(digest) := Directory(snapshot, Some(digest))]
    ensures t.calls == [Call(p, snapshot, digest, HardLink, Finished(Published))] && t.leases == multiset{digest}
  {
    var u := FirstCall(p, snapshot, digest);
    var rest;
    rest, t := MissingMirrorIsPublished(u, 0);
    steps := [ProcessStarts(p)] + [CallBegins(p, snapshot, digest)] + rest;
    RunConcat(Initial, [ProcessStarts(p)] + [CallBegins(p, snapshot, digest)], u, rest, t);
  }

  lemma FirstCall(p: Process, snapshot: Snapshot, digest: Digest) returns (t: State)
    ensures Run(Initial, [ProcessStarts(p)] + [CallBegins(p, snapshot, digest)], t) && Inv(t)
    ensures t == Initial.(alive := {p}, calls := [Call(p, snapshot, digest, HardLink, Looking)])
  {
    InitialInv();
    var u := Initial.(alive := {p});
    LivesOfProcesses(Initial, p, snapshot, digest);
    NextKeepsInv(Initial, ProcessStarts(p));
    t := u.(calls := [Call(p, snapshot, digest, HardLink, Looking)]);
    LivesOfProcesses(u, p, snapshot, digest);
    NextKeepsInv(u, CallBegins(p, snapshot, digest));
    RunOne(u, CallBegins(p, snapshot, digest));
    RunCons(Initial, ProcessStarts(p), [CallBegins(p, snapshot, digest)], t);
  }

  // What reconciliation and removals can take away.

  predicate OfReclaim(step: Step, name: Name) {
    (step.ReconcilerLocks? || step.ReclaimsFile? || step.ReclaimsManifest? || step.ReclaimsDirectory?) && step.name == name
  }

  /** Whatever a dead process left in the catalog, reconciliation can take away, and nothing else with it. */
  lemma OrphansAreReclaimed(s: State, name: Name) returns (steps: seq<Step>)
    requires name.Staging? && name in s.catalog && name.creator in s.dead && name !in s.reclaiming
    ensures Run(s, steps, s.(catalog := s.catalog - {name}))
    ensures forall step :: step in steps ==> OfReclaim(step, name)
  {
    var u := s.(reclaiming := s.reclaiming + {name});
    var middle := DirectoryEmpties(u, Reconciler, name);
    var v := With(u, name, EMPTY);
    assert v.catalog - {name} == s.catalog - {name} && v.reclaiming - {name} == s.reclaiming;
    RunOne(v, ReclaimsDirectory(name));
    RunConcat(u, middle, v, [ReclaimsDirectory(name)], s.(catalog := s.catalog - {name}));
    RunCons(s, ReconcilerLocks(name), middle + [ReclaimsDirectory(name)], s.(catalog := s.catalog - {name}));
    steps := [ReconcilerLocks(name)] + (middle + [ReclaimsDirectory(name)]);
  }

  /** One pass at a time works on an orphan, and one that gives up leaves it to the next. */
  lemma ReclaimsCanBeRepeated(s: State, name: Name)
    requires name.Staging? && name in s.catalog && name.creator in s.dead
    ensures name in s.reclaiming ==> Next(s, ReconcilerLocks(name)).None?
    ensures name !in s.reclaiming ==> Run(s, [ReconcilerLocks(name)] + [ReclaimGivesUp(name)], s)
  {
    if name !in s.reclaiming {
      var t := s.(reclaiming := s.reclaiming + {name});
      assert t.reclaiming - {name} == s.reclaiming;
      RunOne(t, ReclaimGivesUp(name));
      RunCons(s, ReconcilerLocks(name), [ReclaimGivesUp(name)], s);
    }
  }

  predicate OfRemoval(step: Step, k: Digest) {
    (step.RemovalLocks? || step.RemovesFile? || step.RemovesManifest? || step.RemovesDirectory?) && step.digest == k
  }

  lemma LockedMirrorGoes(s: State, k: Digest) returns (steps: seq<Step>)
    requires Key(k) in s.catalog && k in s.removing
    ensures Run(s, steps, s.(catalog := s.catalog - {Key(k)}, removing := s.removing - {k}))
    ensures forall step :: step in steps ==> OfRemoval(step, k)
  {
    var first := DirectoryEmpties(s, Remover, Key(k));
    var u := With(s, Key(k), EMPTY);
    assert u.catalog - {Key(k)} == s.catalog - {Key(k)};
    RunOne(u, RemovesDirectory(k));
    RunConcat(s, first, u, [RemovesDirectory(k)], s.(catalog := s.catalog - {Key(k)}, removing := s.removing - {k}));
    steps := first + [RemovesDirectory(k)];
  }

  /** A mirror that nobody leases can be removed, and nothing else with it. */
  lemma UnleasedMirrorsCanGo(s: State, k: Digest) returns (steps: seq<Step>)
    requires Key(k) in s.catalog && k !in s.leases && k !in s.removing
    ensures Run(s, steps, s.(catalog := s.catalog - {Key(k)}))
    ensures forall step :: step in steps ==> OfRemoval(step, k)
  {
    var u := s.(removing := s.removing + {k});
    var rest := LockedMirrorGoes(u, k);
    assert u.removing - {k} == s.removing;
    RunCons(s, RemovalLocks(k), rest, s.(catalog := s.catalog - {Key(k)}));
    steps := [RemovalLocks(k)] + rest;
  }

  /**
  A reader gets a lease exactly on a mirror that is there and that no removal holds, and can give it back; a removal gets
  the mirror exactly if nobody leases it and no other removal holds it.
  */
  lemma LeasesComeAndGo(s: State, k: Digest)
    ensures Next(s, RemovalLocks(k)).Some? <==> Key(k) in s.catalog && k !in s.removing && k !in s.leases
    ensures Next(s, ReaderLeases(k)).Some? <==> Key(k) in s.catalog && k !in s.removing
    ensures Next(s, ReaderLeases(k)).Some? ==> Run(s, [ReaderLeases(k)] + [ReaderReleases(k)], s)
  {
    if Key(k) in s.catalog && k !in s.removing {
      LeaseIsReturned(s, k);
    }
  }

  lemma LeaseIsReturned(s: State, k: Digest)
    requires Key(k) in s.catalog && k !in s.removing
    ensures Run(s, [ReaderLeases(k)] + [ReaderReleases(k)], s)
  {
    var t := s.(leases := s.leases + multiset{k});
    assert t.leases - multiset{k} == s.leases;
    RunOne(t, ReaderReleases(k));
    RunCons(s, ReaderLeases(k), [ReaderReleases(k)], s);
  }
}
