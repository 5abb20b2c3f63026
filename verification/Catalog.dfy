/**
The shared mirror catalog as a machine of atomic steps.

Materializers, crashes, orphan reconciliation, removals and readers interleave. A source snapshot is a finite map
from relative paths to contents. A key is a digest of the source's metadata, so nothing is assumed of how it depends
on them. Removals run to their end once they have their locks: a removal killed halfway is outside this machine.
A validation that succeeds takes a lease, which whoever holds it, or the end of its process, may release any time.
*/
module Catalog {
  import opened Wrappers

  type Path = nat
  type Content = nat
  type Snapshot = map<Path, Content>
  type Digest = nat
  type Process = nat // one process incarnation: pid and creation time

  datatype Name = Key(digest: Digest) | Staging(digest: Digest, creator: Process, sequence: nat)

  datatype Directory = Directory(files: Snapshot, manifest: Option<Digest>)

  datatype Mode = HardLink | Copy

  datatype Outcome =
    | Found            // the mirror that was there already
    | Published        // this call's own directory, now the mirror
    | PublishedUnread  // it became the mirror, but the validation after that failed
    | Yielded          // the mirror of another call, found after the rename failed
    | Failed           // an error, with no directory of this call left behind
    | NotCreated       // no directory could be made
    | BuildCleanup(left: Name)

  /** Which mirror a call is about to validate. */
  datatype Goal = Existing | Own | Winner

  /** Why a call cleans up its directory. */
  datatype Cause = BuildFailed | HardLinkDenied | RenameFailed

  datatype Phase =
    | Looking
    | Creating
    | Building(name: Name)
    | Publishing(name: Name)
    | Cleaning(name: Name, cause: Cause)
    | Validating(goal: Goal)
    | Finished(outcome: Outcome)
    | Crashed

  /** One materialize call. */
  datatype Call = Call(process: Process, snapshot: Snapshot, digest: Digest, mode: Mode, phase: Phase)

  datatype State = State(
    alive: set<Process>,
    dead: set<Process>,
    catalog: map<Name, Directory>,
    calls: seq<Call>,
    reclaiming: set<Name>,
    removing: set<Digest>,
    leases: multiset<Digest>,
    sequences: map<Process, nat>, // each process counts the staging names it has tried
    makers: map<Name, nat>, // history: the call that made a staging directory
    publishers: map<Digest, nat>) // history: the call that published a mirror last

  const Initial := State({}, {}, map[], [], {}, {}, multiset{}, map[], map[], map[])

  datatype Step =
    | ProcessStarts(process: Process)
    | ProcessDies(process: Process)
    | CallBegins(process: Process, snapshot: Snapshot, digest: Digest)
    | Looks(call: nat)
    | CreatesStaging(call: nat)
    | CreateFails(call: nat)
    | AddsFile(call: nat, path: Path)
    | WritesManifest(call: nat)
    | BuildFails(call: nat, policyDenied: bool)
    | PublishFails(call: nat)
    | Renames(call: nat)
    | RenameFails(call: nat)
    | Validates(call: nat, succeeds: bool)
    | CleansFile(call: nat, path: Path)
    | CleansManifest(call: nat)
    | CleansDirectory(call: nat)
    | CleanupFails(call: nat)
    | ReconcilerLocks(name: Name)
    | ReclaimsFile(name: Name, path: Path)
    | ReclaimsManifest(name: Name)
    | ReclaimsDirectory(name: Name)
    | ReclaimGivesUp(name: Name)
    | ReaderLeases(digest: Digest)
    | ReaderReleases(digest: Digest)
    | RemovalLocks(digest: Digest)
    | RemovesFile(digest: Digest, path: Path)
    | RemovesManifest(digest: Digest)
    | RemovesDirectory(digest: Digest)

  function SetPhase(s: State, i: nat, phase: Phase): State
    requires i < |s.calls|
  {
    s.(calls := s.calls[i := s.calls[i].(phase := phase)])
  }

  function PutFile(s: State, name: Name, files: Snapshot): State
    requires name in s.catalog
  {
    s.(catalog := s.catalog[name := s.catalog[name].(files := files)])
  }

  function DropManifest(s: State, name: Name): State
    requires name in s.catalog
  {
    s.(catalog := s.catalog[name := s.catalog[name].(manifest := None)])
  }

  predicate Empty(d: Directory) {
    d.files == map[] && d.manifest.None?
  }

  predicate Active(c: Call) {
    !c.phase.Finished? && !c.phase.Crashed?
  }

  function Crash(c: Call, process: Process): Call {
    if c.process == process && Active(c) then c.(phase := Crashed) else c
  }

  function Sequence(s: State, p: Process): nat {
    if p in s.sequences then s.sequences[p] else 0
  }

  function ProcessStep(s: State, step: Step): Option<State> {
    match step
    case ProcessStarts(p) =>
      if p in s.alive || p in s.dead then None else Some(s.(alive := s.alive + {p}))
    case ProcessDies(p) =>
      if p !in s.alive then None
      else Some(s.(alive := s.alive - {p}, dead := s.dead + {p},
                   calls := seq(|s.calls|, i requires 0 <= i < |s.calls| => Crash(s.calls[i], p))))
    case CallBegins(p, snapshot, digest) =>
      if p !in s.alive then None else Some(s.(calls := s.calls + [Call(p, snapshot, digest, HardLink, Looking)]))
    case _ => None
  }

  /**
  A validation that succeeds: the mirror under the key can be opened, its manifest has the key, a call that has just
  published meets its own directory, and a lease is taken.
  */
  function Validated(s: State, i: nat): Option<State>
    requires i < |s.calls| && s.calls[i].phase.Validating?
  {
    var k := s.calls[i].digest;
    if Key(k) !in s.catalog || k in s.removing || s.catalog[Key(k)].manifest != Some(k) then None
    else if s.calls[i].phase.goal.Own? && (k !in s.publishers || s.publishers[k] != i) then None
    else
      var outcome := match s.calls[i].phase.goal case Existing => Found case Own => Published case Winner => Yielded;
      Some(SetPhase(s, i, Finished(outcome)).(leases := s.leases + multiset{k}))
  }

  function BuildStep(s: State, step: Step): Option<State> {
    match step
    case Looks(i) =>
      if i >= |s.calls| || !s.calls[i].phase.Looking? then None
      else if Key(s.calls[i].digest) in s.catalog then Some(SetPhase(s, i, Validating(Existing)))
      else Some(SetPhase(s, i, Creating))
    case CreatesStaging(i) =>
      if i >= |s.calls| || !s.calls[i].phase.Creating? then None
      else
        var p := s.calls[i].process;
        var name := Staging(s.calls[i].digest, p, Sequence(s, p));
        var counted := s.(sequences := s.sequences[p := Sequence(s, p) + 1]);
        if name in s.catalog then Some(counted)
        else Some(SetPhase(counted, i, Building(name)).(
                    catalog := s.catalog[name := Directory(map[], None)], makers := s.makers[name := i]))
    case CreateFails(i) =>
      if i >= |s.calls| || !s.calls[i].phase.Creating? then None else Some(SetPhase(s, i, Finished(NotCreated)))
    case AddsFile(i, path) =>
      if i >= |s.calls| || !s.calls[i].phase.Building? then None
      else
        var c := s.calls[i];
        if c.phase.name !in s.catalog || path !in c.snapshot || path in s.catalog[c.phase.name].files then None
        else Some(PutFile(s, c.phase.name, s.catalog[c.phase.name].files[path := c.snapshot[path]]))
    case WritesManifest(i) =>
      if i >= |s.calls| || !s.calls[i].phase.Building? then None
      else
        var c := s.calls[i];
        if c.phase.name !in s.catalog || c.snapshot.Keys != s.catalog[c.phase.name].files.Keys then None
        else Some(SetPhase(s, i, Publishing(c.phase.name)).(
                    catalog := s.catalog[c.phase.name := s.catalog[c.phase.name].(manifest := Some(c.digest))]))
    case BuildFails(i, denied) =>
      if i >= |s.calls| || !s.calls[i].phase.Building? then None
      else
        var cause := if denied && s.calls[i].mode.HardLink? then HardLinkDenied else BuildFailed;
        Some(SetPhase(s, i, Cleaning(s.calls[i].phase.name, cause)))
    case PublishFails(i) =>
      if i >= |s.calls| || !s.calls[i].phase.Publishing? then None
      else Some(SetPhase(s, i, Cleaning(s.calls[i].phase.name, BuildFailed)))
    case Renames(i) =>
      if i >= |s.calls| || !s.calls[i].phase.Publishing? then None
      else
        var c := s.calls[i];
        if c.phase.name !in s.catalog then None
        else if Key(c.digest) in s.catalog then Some(SetPhase(s, i, Cleaning(c.phase.name, RenameFailed)))
        else Some(SetPhase(s, i, Validating(Own)).(
                    catalog := (s.catalog - {c.phase.name})[Key(c.digest) := s.catalog[c.phase.name]],
                    publishers := s.publishers[c.digest := i]))
    case RenameFails(i) =>
      if i >= |s.calls| || !s.calls[i].phase.Publishing? then None
      else Some(SetPhase(s, i, Cleaning(s.calls[i].phase.name, RenameFailed)))
    case Validates(i, succeeds) =>
      if i >= |s.calls| || !s.calls[i].phase.Validating? then None
      else if succeeds then Validated(s, i)
      else Some(SetPhase(s, i, Finished(if s.calls[i].phase.goal.Own? then PublishedUnread else Failed)))
    case _ => None
  }

  function CleanStep(s: State, step: Step): Option<State> {
    match step
    case CleansFile(i, path) =>
      if i >= |s.calls| || !s.calls[i].phase.Cleaning? || s.calls[i].phase.name !in s.catalog then None
      else if path !in s.catalog[s.calls[i].phase.name].files then None
      else Some(PutFile(s, s.calls[i].phase.name, s.catalog[s.calls[i].phase.name].files - {path}))
    case CleansManifest(i) =>
      if i >= |s.calls| || !s.calls[i].phase.Cleaning? || s.calls[i].phase.name !in s.catalog then None
      else if s.catalog[s.calls[i].phase.name].manifest.None? then None
      else Some(DropManifest(s, s.calls[i].phase.name))
    case CleansDirectory(i) =>
      if i >= |s.calls| || !s.calls[i].phase.Cleaning? then None
      else
        var c := s.calls[i];
        if c.phase.name !in s.catalog || !Empty(s.catalog[c.phase.name]) then None
        else
          var next := match c.phase.cause
            case BuildFailed => c.(phase := Finished(Failed))
            case HardLinkDenied => c.(mode := Copy, phase := Creating)
            case RenameFailed => c.(phase := Validating(Winner));
          Some(s.(calls := s.calls[i := next], catalog := s.catalog - {c.phase.name}))
    case CleanupFails(i) =>
      if i >= |s.calls| || !s.calls[i].phase.Cleaning? then None
      else Some(SetPhase(s, i, Finished(BuildCleanup(s.calls[i].phase.name))))
    case _ => None
  }

  function ReconcileStep(s: State, step: Step): Option<State> {
    match step
    case ReconcilerLocks(name) =>
      if name.Staging? && name in s.catalog && name.creator in s.dead && name !in s.reclaiming then
        Some(s.(reclaiming := s.reclaiming + {name}))
      else None
    case ReclaimsFile(name, path) =>
      if name in s.reclaiming && name in s.catalog && path in s.catalog[name].files then
        Some(PutFile(s, name, s.catalog[name].files - {path}))
      else None
    case ReclaimsManifest(name) =>
      if name in s.reclaiming && name in s.catalog then Some(DropManifest(s, name)) else None
    case ReclaimsDirectory(name) =>
      if name in s.reclaiming && name in s.catalog && Empty(s.catalog[name]) then
        Some(s.(catalog := s.catalog - {name}, reclaiming := s.reclaiming - {name}))
      else None
    case ReclaimGivesUp(name) =>
      if name in s.reclaiming then Some(s.(reclaiming := s.reclaiming - {name})) else None
    case _ => None
  }

  function MirrorStep(s: State, step: Step): Option<State> {
    match step
    case ReaderLeases(k) =>
      if Key(k) in s.catalog && k !in s.removing then Some(s.(leases := s.leases + multiset{k})) else None
    case ReaderReleases(k) =>
      if k in s.leases then Some(s.(leases := s.leases - multiset{k})) else None
    case RemovalLocks(k) =>
      if Key(k) in s.catalog && k !in s.removing && k !in s.leases then Some(s.(removing := s.removing + {k})) else None
    case RemovesFile(k, path) =>
      if k in s.removing && Key(k) in s.catalog && path in s.catalog[Key(k)].files then
        Some(PutFile(s, Key(k), s.catalog[Key(k)].files - {path}))
      else None
    case RemovesManifest(k) =>
      if k in s.removing && Key(k) in s.catalog then Some(DropManifest(s, Key(k))) else None
    case RemovesDirectory(k) =>
      if k in s.removing && Key(k) in s.catalog && Empty(s.catalog[Key(k)]) then
        Some(s.(catalog := s.catalog - {Key(k)}, removing := s.removing - {k}))
      else None
    case _ => None
  }

  predicate OfProcess(step: Step) {
    step.ProcessStarts? || step.ProcessDies? || step.CallBegins?
  }

  predicate OfBuild(step: Step) {
    step.Looks? || step.CreatesStaging? || step.CreateFails? || step.AddsFile? || step.WritesManifest?
    || step.BuildFails? || step.PublishFails? || step.Renames? || step.RenameFails? || step.Validates?
  }

  predicate OfCleanup(step: Step) {
    step.CleansFile? || step.CleansManifest? || step.CleansDirectory? || step.CleanupFails?
  }

  predicate OfReconciler(step: Step) {
    step.ReconcilerLocks? || step.ReclaimsFile? || step.ReclaimsManifest? || step.ReclaimsDirectory? || step.ReclaimGivesUp?
  }

  function Next(s: State, step: Step): Option<State> {
    if OfProcess(step) then ProcessStep(s, step)
    else if OfBuild(step) then BuildStep(s, step)
    else if OfCleanup(step) then CleanStep(s, step)
    else if OfReconciler(step) then ReconcileStep(s, step)
    else MirrorStep(s, step)
  }

  // The invariant.

  function Owned(c: Call): Option<Name> {
    match c.phase
    case Building(name) => Some(name)
    case Publishing(name) => Some(name)
    case Cleaning(name, _) => Some(name)
    case _ => None
  }

  /** A mirror holds the snapshot of the call that published it, whose key is the mirror's name and in its manifest. */
  predicate Complete(s: State, k: Digest) {
    && Key(k) in s.catalog && k in s.publishers && s.publishers[k] < |s.calls|
    && var publisher := s.calls[s.publishers[k]];
       publisher.digest == k && s.catalog[Key(k)] == Directory(publisher.snapshot, Some(k))
  }

  /** What a call is asked to do never changes. */
  predicate SameCall(a: Call, b: Call) {
    a.process == b.process && a.snapshot == b.snapshot && a.digest == b.digest
  }

  ghost predicate CallInv(s: State, c: Call) {
    && (Active(c) ==> c.process in s.alive)
    && (Owned(c).Some? ==>
          var name := Owned(c).value;
          name.Staging? && name.creator == c.process && name in s.catalog)
    && (c.phase.Building? ==>
          && s.catalog[c.phase.name].manifest.None?
          && forall p :: p in s.catalog[c.phase.name].files ==>
               p in c.snapshot && s.catalog[c.phase.name].files[p] == c.snapshot[p])
    && (c.phase.Publishing? ==> s.catalog[c.phase.name] == Directory(c.snapshot, Some(c.digest)))
  }

  ghost predicate CallsInv(s: State) {
    && (forall i :: 0 <= i < |s.calls| ==> CallInv(s, s.calls[i]))
    && (forall i :: 0 <= i < |s.calls| && Owned(s.calls[i]).Some? ==>
          Owned(s.calls[i]).value in s.makers && s.makers[Owned(s.calls[i]).value] == i)
  }

  /** A staging directory belongs to a dead process, to a call at work on it, or to a reported BuildCleanup. */
  ghost predicate Accounted(s: State, name: Name)
    requires name.Staging?
  {
    && name in s.makers && s.makers[name] < |s.calls|
    && name.sequence < Sequence(s, name.creator)
    && var maker := s.calls[s.makers[name]];
       name.creator in s.dead || Owned(maker) == Some(name) || maker.phase == Finished(BuildCleanup(name))
  }

  ghost predicate StagingInv(s: State) {
    && (forall name :: name in s.catalog && name.Staging? ==> Accounted(s, name))
    && (forall name :: name in s.reclaiming ==> name.Staging? && name.creator in s.dead)
  }

  ghost predicate MirrorInv(s: State) {
    && (forall k :: Key(k) in s.catalog && k !in s.removing ==> Complete(s, k))
    && (forall k :: k in s.removing ==> Key(k) in s.catalog && k !in s.leases)
    && (forall k :: k in s.leases ==> Key(k) in s.catalog)
  }

  ghost predicate Inv(s: State) {
    s.alive !! s.dead && CallsInv(s) && StagingInv(s) && MirrorInv(s)
  }

  lemma DieKeepsInv(s: State, p: Process)
    requires Inv(s) && p in s.alive
    ensures Inv(ProcessStep(s, ProcessDies(p)).value)
  {
    var t := ProcessStep(s, ProcessDies(p)).value;
    forall i | 0 <= i < |t.calls|
      ensures CallInv(t, t.calls[i]) && (Owned(t.calls[i]).Some? ==> t.calls[i] == s.calls[i])
    {
      assert CallInv(s, s.calls[i]);
    }
    forall name | name in t.catalog && name.Staging?
      ensures Accounted(t, name)
    {
      assert Accounted(s, name);
      assert CallInv(s, s.calls[s.makers[name]]);
    }
    MirrorsUntouched(s, t);
  }

  lemma BeginKeepsInv(s: State, p: Process, snapshot: Snapshot, digest: Digest)
    requires Inv(s) && p in s.alive
    ensures Inv(ProcessStep(s, CallBegins(p, snapshot, digest)).value)
  {
    var t := ProcessStep(s, CallBegins(p, snapshot, digest)).value;
    forall i | 0 <= i < |t.calls|
      ensures CallInv(t, t.calls[i])
    {
      assert i < |s.calls| ==> CallInv(s, s.calls[i]);
    }
    forall name | name in t.catalog && name.Staging?
      ensures Accounted(t, name)
    {
      assert Accounted(s, name);
    }
  }

  lemma ProcessKeepsInv(s: State, step: Step)
    requires Inv(s) && ProcessStep(s, step).Some?
    ensures Inv(ProcessStep(s, step).value)
  {
    match step
    case ProcessStarts(p) =>
      var t := ProcessStep(s, step).value;
      forall name | name in t.catalog && name.Staging?
        ensures Accounted(t, name)
      {
        assert Accounted(s, name);
      }
    case ProcessDies(p) => DieKeepsInv(s, p);
    case CallBegins(p, snapshot, digest) => BeginKeepsInv(s, p, snapshot, digest);
  }

  /** A call moves on without touching the catalog: it keeps the directory it owns, or reports it, or owns none. */
  lemma PhaseKeepsInv(s: State, i: nat, next: Call, t: State)
    requires Inv(s) && i < |s.calls| && Active(s.calls[i])
    requires SameCall(next, s.calls[i]) && CallInv(s, next)
    requires Owned(next) == Owned(s.calls[i])
             || (Owned(next).None? && Owned(s.calls[i]).Some?
                 && next.phase == Finished(BuildCleanup(Owned(s.calls[i]).value)))
    requires t == s.(calls := s.calls[i := next])
    ensures Inv(t)
  {
    forall j | 0 <= j < |t.calls|
      ensures CallInv(t, t.calls[j])
    {
      assert CallInv(s, s.calls[j]);
    }
    forall name | name in t.catalog && name.Staging?
      ensures Accounted(t, name)
    {
      assert Accounted(s, name);
      assert CallInv(s, s.calls[i]);
    }
  }

  lemma NextNameIsFresh(s: State, i: nat)
    requires Inv(s) && i < |s.calls|
    ensures var p := s.calls[i].process;
            Staging(s.calls[i].digest, p, Sequence(s, p)) !in s.catalog
  {
    forall other | other in s.catalog && other.Staging?
      ensures other.sequence < Sequence(s, other.creator)
    {
      assert Accounted(s, other);
    }
  }

  lemma CreatedCalls(s: State, i: nat)
    requires Inv(s) && BuildStep(s, CreatesStaging(i)).Some?
    ensures CallsInv(BuildStep(s, CreatesStaging(i)).value)
  {
    var t := BuildStep(s, CreatesStaging(i)).value;
    NextNameIsFresh(s, i);
    forall j | 0 <= j < |t.calls|
      ensures CallInv(t, t.calls[j])
    {
      assert CallInv(s, s.calls[j]);
    }
    forall j | 0 <= j < |t.calls| && Owned(t.calls[j]).Some?
      ensures Owned(t.calls[j]).value in t.makers && t.makers[Owned(t.calls[j]).value] == j
    {
      assert CallInv(s, s.calls[j]);
    }
  }

  lemma CreateKeepsInv(s: State, i: nat)
    requires Inv(s) && BuildStep(s, CreatesStaging(i)).Some?
    ensures Inv(BuildStep(s, CreatesStaging(i)).value)
  {
    var t := BuildStep(s, CreatesStaging(i)).value;
    var p := s.calls[i].process;
    var name := Staging(s.calls[i].digest, p, Sequence(s, p));
    NextNameIsFresh(s, i);
    CreatedCalls(s, i);
    forall other | other in t.catalog && other.Staging?
      ensures Accounted(t, other)
    {
      if other != name {
        assert Accounted(s, other);
      }
    }
  }

  /** The one call that owns a directory rewrites it, moving to a phase that allows the new contents. */
  lemma OwnerKeepsInv(s: State, i: nat, next: Call, d: Directory)
    requires Inv(s) && i < |s.calls| && Owned(s.calls[i]).Some?
    requires SameCall(next, s.calls[i]) && Owned(next) == Owned(s.calls[i])
    requires CallInv(s.(catalog := s.catalog[Owned(next).value := d]), next)
    ensures Inv(s.(calls := s.calls[i := next], catalog := s.catalog[Owned(next).value := d]))
  {
    var name := Owned(next).value;
    var t := s.(calls := s.calls[i := next], catalog := s.catalog[name := d]);
    assert CallInv(s, s.calls[i]);
    forall j | 0 <= j < |t.calls|
      ensures CallInv(t, t.calls[j])
    {
      assert CallInv(s, s.calls[j]);
      assert CallInv(s.(catalog := s.catalog[name := d]), next);
    }
    forall other | other in t.catalog && other.Staging?
      ensures Accounted(t, other)
    {
      assert Accounted(s, other);
    }
    MirrorsUntouched(s, t);
  }

  lemma MirrorsUntouched(s: State, t: State)
    requires MirrorInv(s) && t.removing == s.removing && t.leases == s.leases && t.publishers == s.publishers
    requires |s.calls| <= |t.calls| && forall i :: 0 <= i < |s.calls| ==> SameCall(s.calls[i], t.calls[i])
    requires forall k :: (Key(k) in t.catalog <==> Key(k) in s.catalog)
    requires forall k :: Key(k) in s.catalog ==> t.catalog[Key(k)] == s.catalog[Key(k)]
    ensures MirrorInv(t)
  {
    forall k | Key(k) in t.catalog && k !in t.removing
      ensures Complete(t, k)
    {
      assert Complete(s, k);
    }
  }

  /** The directory a call owned is gone; the call owns nothing any more. */
  lemma ReleaseKeepsInv(s: State, i: nat, next: Call)
    requires Inv(s) && i < |s.calls| && Owned(s.calls[i]).Some?
    requires SameCall(next, s.calls[i]) && Owned(next).None? && (Active(next) ==> next.process in s.alive)
    ensures Inv(s.(calls := s.calls[i := next], catalog := s.catalog - {Owned(s.calls[i]).value}))
  {
    var name := Owned(s.calls[i]).value;
    var t := s.(calls := s.calls[i := next], catalog := s.catalog - {name});
    assert CallInv(s, s.calls[i]);
    forall j | 0 <= j < |t.calls|
      ensures CallInv(t, t.calls[j])
    {
      assert CallInv(s, s.calls[j]);
    }
    forall other | other in t.catalog && other.Staging?
      ensures Accounted(t, other)
    {
      assert Accounted(s, other);
    }
    MirrorsUntouched(s, t);
  }

  lemma RenameKeepsInv(s: State, i: nat, next: Call)
    requires Inv(s) && i < |s.calls| && s.calls[i].phase.Publishing?
    requires next == s.calls[i].(phase := Validating(Own))
    requires Key(next.digest) !in s.catalog
    ensures s.calls[i].phase.name in s.catalog
    ensures var name := s.calls[i].phase.name;
            Inv(s.(calls := s.calls[i := next], catalog := (s.catalog - {name})[Key(next.digest) := s.catalog[name]],
                   publishers := s.publishers[next.digest := i]))
  {
    var name := s.calls[i].phase.name;
    assert CallInv(s, s.calls[i]);
    var released := s.(calls := s.calls[i := next], catalog := s.catalog - {name});
    ReleaseKeepsInv(s, i, next);
    var t := released.(catalog := released.catalog[Key(next.digest) := s.catalog[name]],
                       publishers := s.publishers[next.digest := i]);
    forall j | 0 <= j < |t.calls|
      ensures CallInv(t, t.calls[j])
    {
      assert CallInv(released, released.calls[j]);
    }
    forall other | other in t.catalog && other.Staging?
      ensures Accounted(t, other)
    {
      assert Accounted(released, other);
    }
    forall k | Key(k) in t.catalog && k !in t.removing
      ensures Complete(t, k)
    {
      if k != next.digest {
        assert Complete(released, k);
      }
    }
  }

  lemma AddKeepsInv(s: State, i: nat, path: Path)
    requires Inv(s) && BuildStep(s, AddsFile(i, path)).Some?
    ensures Inv(BuildStep(s, AddsFile(i, path)).value)
  {
    var c := s.calls[i];
    assert CallInv(s, c);
    var d := s.catalog[c.phase.name];
    OwnerKeepsInv(s, i, c, d.(files := d.files[path := c.snapshot[path]]));
    assert s.calls[i := c] == s.calls;
  }

  lemma ManifestKeepsInv(s: State, i: nat)
    requires Inv(s) && BuildStep(s, WritesManifest(i)).Some?
    ensures Inv(BuildStep(s, WritesManifest(i)).value)
  {
    var c := s.calls[i];
    assert CallInv(s, c);
    var d := s.catalog[c.phase.name].(manifest := Some(c.digest));
    assert d.files == c.snapshot;
    OwnerKeepsInv(s, i, c.(phase := Publishing(c.phase.name)), d);
  }

  /** The steps of a building call that leave the catalog alone. */
  predicate OnlyMoves(s: State, step: Step) {
    step.Looks? || step.CreateFails? || step.BuildFails? || step.PublishFails? || step.RenameFails?
    || (step.Validates? && !step.succeeds)
    || (step.Renames? && step.call < |s.calls| && Key(s.calls[step.call].digest) in s.catalog)
  }

  lemma MoveKeepsInv(s: State, step: Step)
    requires Inv(s) && BuildStep(s, step).Some? && OnlyMoves(s, step)
    ensures Inv(BuildStep(s, step).value)
  {
    var t := BuildStep(s, step).value;
    assert CallInv(s, s.calls[step.call]);
    PhaseKeepsInv(s, step.call, t.calls[step.call], t);
  }

  lemma ValidationKeepsInv(s: State, i: nat)
    requires Inv(s) && BuildStep(s, Validates(i, true)).Some?
    ensures Inv(BuildStep(s, Validates(i, true)).value)
  {
    var t := BuildStep(s, Validates(i, true)).value;
    assert CallInv(s, s.calls[i]);
    PhaseKeepsInv(s, i, t.calls[i], t.(leases := s.leases));
    LeaseKeepsInv(t.(leases := s.leases), t);
  }

  lemma BuildKeepsInv(s: State, step: Step)
    requires Inv(s) && BuildStep(s, step).Some?
    ensures Inv(BuildStep(s, step).value)
  {
    if OnlyMoves(s, step) {
      MoveKeepsInv(s, step);
    } else if step.CreatesStaging? {
      CreateKeepsInv(s, step.call);
    } else if step.AddsFile? {
      AddKeepsInv(s, step.call, step.path);
    } else if step.WritesManifest? {
      ManifestKeepsInv(s, step.call);
    } else if step.Validates? {
      ValidationKeepsInv(s, step.call);
    } else {
      RenameKeepsInv(s, step.call, s.calls[step.call].(phase := Validating(Own)));
    }
  }

  lemma CleanKeepsInv(s: State, step: Step)
    requires Inv(s) && CleanStep(s, step).Some?
    ensures Inv(CleanStep(s, step).value)
  {
    var t := CleanStep(s, step).value;
    var i := step.call;
    var c := s.calls[i];
    assert CallInv(s, c);
    var d := s.catalog[c.phase.name];
    assert s.calls[i := c] == s.calls;
    match step
    case CleansFile(_, path) => OwnerKeepsInv(s, i, c, d.(files := d.files - {path}));
    case CleansManifest(_) => OwnerKeepsInv(s, i, c, d.(manifest := None));
    case CleansDirectory(_) => ReleaseKeepsInv(s, i, t.calls[i]);
    case CleanupFails(_) => PhaseKeepsInv(s, i, t.calls[i], t);
  }

  /** A dead process has no call at work, so its directories may be rewritten or taken away. */
  lemma NobodyOwns(s: State, name: Name, i: nat)
    requires Inv(s) && name.Staging? && name.creator in s.dead && i < |s.calls|
    ensures Owned(s.calls[i]) != Some(name)
  {
    assert CallInv(s, s.calls[i]);
  }

  lemma OrphanKeepsInv(s: State, name: Name, d: Directory)
    requires Inv(s) && name.Staging? && name.creator in s.dead && name in s.catalog
    ensures Inv(s.(catalog := s.catalog[name := d]))
    ensures Inv(s.(catalog := s.catalog - {name}, reclaiming := s.reclaiming - {name}))
  {
    var t := s.(catalog := s.catalog[name := d]);
    var u := s.(catalog := s.catalog - {name}, reclaiming := s.reclaiming - {name});
    forall i | 0 <= i < |s.calls|
      ensures CallInv(t, s.calls[i]) && CallInv(u, s.calls[i])
    {
      assert CallInv(s, s.calls[i]);
      NobodyOwns(s, name, i);
    }
    forall other | other in s.catalog && other.Staging?
      ensures Accounted(t, other) && Accounted(u, other)
    {
      assert Accounted(s, other);
    }
    MirrorsUntouched(s, t);
    MirrorsUntouched(s, u);
  }

  lemma ReconcileKeepsInv(s: State, step: Step)
    requires Inv(s) && ReconcileStep(s, step).Some?
    ensures Inv(ReconcileStep(s, step).value)
  {
    match step
    case ReconcilerLocks(name) => OnlyMarks(s, s.(reclaiming := s.reclaiming + {name}));
    case ReclaimsFile(name, path) => OrphanKeepsInv(s, name, s.catalog[name].(files := s.catalog[name].files - {path}));
    case ReclaimsManifest(name) => OrphanKeepsInv(s, name, s.catalog[name].(manifest := None));
    case ReclaimsDirectory(name) => OrphanKeepsInv(s, name, s.catalog[name]);
    case ReclaimGivesUp(name) => OnlyMarks(s, s.(reclaiming := s.reclaiming - {name}));
  }

  /** Locks and leases leave calls and directories alone. */
  lemma OnlyMarks(s: State, t: State)
    requires Inv(s)
    requires t == s.(reclaiming := t.reclaiming, removing := t.removing, leases := t.leases)
    requires forall name :: name in t.reclaiming ==> name.Staging? && name.creator in s.dead
    requires MirrorInv(t)
    ensures Inv(t)
  {
    forall i | 0 <= i < |t.calls|
      ensures CallInv(t, t.calls[i])
    {
      assert CallInv(s, s.calls[i]);
    }
    forall name | name in t.catalog && name.Staging?
      ensures Accounted(t, name)
    {
      assert Accounted(s, name);
    }
  }

  /** A locked mirror under removal may be in any state. */
  lemma RemovingKeepsInv(s: State, k: Digest, t: State)
    requires Inv(s) && k in s.removing
    requires t.removing == s.removing - {k} || t.removing == s.removing
    requires t == s.(catalog := t.catalog, removing := t.removing)
    requires forall name :: name != Key(k) ==> (name in t.catalog <==> name in s.catalog)
    requires forall name :: name != Key(k) && name in s.catalog ==> t.catalog[name] == s.catalog[name]
    requires Key(k) in t.catalog <==> k in t.removing
    ensures Inv(t)
  {
    forall i | 0 <= i < |t.calls|
      ensures CallInv(t, t.calls[i])
    {
      assert CallInv(s, s.calls[i]);
    }
    forall name | name in t.catalog && name.Staging?
      ensures Accounted(t, name)
    {
      assert Accounted(s, name);
    }
    forall other | Key(other) in t.catalog && other !in t.removing
      ensures Complete(t, other)
    {
      assert Complete(s, other);
    }
  }

  lemma LeaseKeepsInv(s: State, t: State)
    requires Inv(s) && t == s.(leases := t.leases)
    requires forall k :: k in t.leases && k !in s.leases ==> Key(k) in s.catalog && k !in s.removing
    ensures Inv(t)
  {
    forall k | Key(k) in t.catalog && k !in t.removing
      ensures Complete(t, k)
    {
      assert Complete(s, k);
    }
    OnlyMarks(s, t);
  }

  lemma LockKeepsInv(s: State, k: Digest, t: State)
    requires Inv(s) && Key(k) in s.catalog && k !in s.leases
    requires t == s.(removing := s.removing + {k})
    ensures Inv(t)
  {
    forall other | Key(other) in t.catalog && other !in t.removing
      ensures Complete(t, other)
    {
      assert Complete(s, other);
    }
    OnlyMarks(s, t);
  }

  lemma EditKeepsInv(s: State, k: Digest, d: Directory, t: State)
    requires Inv(s) && k in s.removing && t == s.(catalog := s.catalog[Key(k) := d])
    ensures Inv(t)
  {
    RemovingKeepsInv(s, k, t);
  }

  lemma RemovedKeepsInv(s: State, k: Digest, t: State)
    requires Inv(s) && k in s.removing && t == s.(catalog := s.catalog - {Key(k)}, removing := s.removing - {k})
    ensures Inv(t)
  {
    RemovingKeepsInv(s, k, t);
  }

  lemma LeasingKeepsInv(s: State, step: Step)
    requires Inv(s) && MirrorStep(s, step).Some? && (step.ReaderLeases? || step.ReaderReleases?)
    ensures Inv(MirrorStep(s, step).value)
  {
    LeaseKeepsInv(s, MirrorStep(s, step).value);
  }

  lemma RemovalKeepsInv(s: State, step: Step)
    requires Inv(s) && MirrorStep(s, step).Some? && (step.RemovesFile? || step.RemovesManifest? || step.RemovesDirectory?)
    ensures Inv(MirrorStep(s, step).value)
  {
    var t := MirrorStep(s, step).value;
    var name := Key(step.digest);
    if step.RemovesDirectory? {
      RemovedKeepsInv(s, step.digest, t);
    } else {
      EditKeepsInv(s, step.digest, t.catalog[name], t);
    }
  }

  lemma MirrorKeepsInv(s: State, step: Step)
    requires Inv(s) && MirrorStep(s, step).Some?
    ensures Inv(MirrorStep(s, step).value)
  {
    if step.ReaderLeases? || step.ReaderReleases? {
      LeasingKeepsInv(s, step);
    } else if step.RemovalLocks? {
      LockKeepsInv(s, step.digest, MirrorStep(s, step).value);
    } else {
      RemovalKeepsInv(s, step);
    }
  }

  lemma NextKeepsInv(s: State, step: Step)
    requires Inv(s) && Next(s, step).Some?
    ensures Inv(Next(s, step).value)
  {
    if OfProcess(step) {
      ProcessKeepsInv(s, step);
    } else if OfBuild(step) {
      BuildKeepsInv(s, step);
    } else if OfCleanup(step) {
      CleanKeepsInv(s, step);
    } else if OfReconciler(step) {
      ReconcileKeepsInv(s, step);
    } else {
      MirrorKeepsInv(s, step);
    }
  }

  /** Any interleaving: a sequence of steps, each enabled where it is taken. */
  ghost predicate Run(s: State, steps: seq<Step>, t: State)
    decreases |steps|
  {
    if steps == [] then s == t
    else Next(s, steps[0]).Some? && Run(Next(s, steps[0]).value, steps[1..], t)
  }

  lemma {:induction false} RunKeepsInv(s: State, steps: seq<Step>, t: State)
    requires Inv(s) && Run(s, steps, t)
    ensures Inv(t)
    decreases |steps|
  {
    if steps != [] {
      NextKeepsInv(s, steps[0]);
      RunKeepsInv(Next(s, steps[0]).value, steps[1..], t);
    }
  }

  // Main results.

  /**
  In every interleaving a mirror that a reader may open is a full copy of the source some call saw, whose
  digest is the mirror's name and in its manifest.
  */
  lemma ReadableMirrorsAreComplete(steps: seq<Step>, s: State, k: Digest)
    requires Run(Initial, steps, s) && Key(k) in s.catalog && k !in s.removing
    ensures s.catalog[Key(k)].manifest == Some(k)
    ensures exists i :: 0 <= i < |s.calls| && s.calls[i].digest == k && s.catalog[Key(k)].files == s.calls[i].snapshot
  {
    RunKeepsInv(Initial, steps, s);
    assert Complete(s, k);
  }

  /** A leased mirror stays: it is there, complete, and no removal holds it. */
  lemma LeasedMirrorsStay(steps: seq<Step>, s: State, k: Digest)
    requires Run(Initial, steps, s) && k in s.leases
    ensures Key(k) in s.catalog && k !in s.removing && Complete(s, k) && MirrorStep(s, RemovalLocks(k)).None?
  {
    RunKeepsInv(Initial, steps, s);
    assert Complete(s, k);
  }

  /** Every staging directory of a living process is being worked on by the call that made it, or that call reported it. */
  lemma StagingIsAccounted(steps: seq<Step>, s: State, name: Name)
    requires Run(Initial, steps, s) && name in s.catalog && name.Staging? && name.creator !in s.dead
    ensures exists i :: 0 <= i < |s.calls|
                        && (Owned(s.calls[i]) == Some(name) || s.calls[i].phase == Finished(BuildCleanup(name)))
  {
    RunKeepsInv(Initial, steps, s);
    assert Accounted(s, name);
  }

  /** Conversely, no finished call of a living process left a directory behind unless it says so. */
  lemma FinishedCallsLeaveNothing(steps: seq<Step>, s: State, name: Name, i: nat)
    requires Run(Initial, steps, s) && i < |s.calls| && s.calls[i].phase.Finished? && !s.calls[i].phase.outcome.BuildCleanup?
    requires name in s.catalog && name.Staging? && name in s.makers && s.makers[name] == i
    ensures name.creator in s.dead
  {
    RunKeepsInv(Initial, steps, s);
    assert Accounted(s, name);
  }

  /** Reconciliation never takes a directory from a call that is still at work. */
  lemma ReconciliationSparesTheLiving(steps: seq<Step>, s: State, name: Name)
    requires Run(Initial, steps, s) && name in s.reclaiming
    ensures name.Staging? && name.creator in s.dead
    ensures forall i :: 0 <= i < |s.calls| ==> Owned(s.calls[i]) != Some(name)
  {
    RunKeepsInv(Initial, steps, s);
    forall i | 0 <= i < |s.calls|
      ensures Owned(s.calls[i]) != Some(name)
    {
      NobodyOwns(s, name, i);
    }
  }

  predicate PublishesAs(s: State, step: Step, k: Digest) {
    && step.Renames? && step.call < |s.calls| && s.calls[step.call].digest == k
    && Next(s, step).Some? && Next(s, step).value.calls[step.call].phase == Validating(Own)
  }

  ghost predicate Same(s: State, t: State, k: Digest)
    requires Key(k) in s.catalog
  {
    Key(k) in t.catalog && k !in t.removing && t.catalog[Key(k)] == s.catalog[Key(k)]
  }

  lemma RenameSparesMirror(s: State, step: Step, k: Digest)
    requires step.Renames? && step.call < |s.calls| && CallInv(s, s.calls[step.call])
    requires BuildStep(s, step).Some? && Key(k) in s.catalog && k !in s.removing
    ensures Same(s, BuildStep(s, step).value, k)
    ensures s.calls[step.call].digest == k ==> BuildStep(s, step).value.calls[step.call].phase.Cleaning?
  {
  }

  lemma BuildSparesMirror(s: State, step: Step, k: Digest)
    requires OfBuild(step) && !step.Renames? && step.call < |s.calls| && CallInv(s, s.calls[step.call])
    requires BuildStep(s, step).Some? && Key(k) in s.catalog && k !in s.removing
    ensures Same(s, BuildStep(s, step).value, k)
  {
  }

  lemma CleanupSparesMirror(s: State, step: Step, k: Digest)
    requires OfCleanup(step) && step.call < |s.calls| && CallInv(s, s.calls[step.call])
    requires CleanStep(s, step).Some? && Key(k) in s.catalog && k !in s.removing
    ensures Same(s, CleanStep(s, step).value, k)
  {
  }

  lemma ReconcilerSparesMirror(s: State, step: Step, k: Digest)
    requires Inv(s) && ReconcileStep(s, step).Some? && Key(k) in s.catalog && k !in s.removing
    ensures Same(s, ReconcileStep(s, step).value, k)
  {
  }

  lemma OthersSpareMirror(s: State, step: Step, k: Digest)
    requires Inv(s) && MirrorStep(s, step).Some? && Key(k) in s.catalog && k !in s.removing && step != RemovalLocks(k)
    ensures Same(s, MirrorStep(s, step).value, k)
  {
  }

  lemma MirrorStaysOneStep(s: State, step: Step, k: Digest)
    requires Inv(s) && Next(s, step).Some? && Key(k) in s.catalog && k !in s.removing && step != RemovalLocks(k)
    ensures Same(s, Next(s, step).value, k)
    ensures !PublishesAs(s, step, k)
  {
    if step.Renames? {
      RenameSparesMirror(s, step, k);
    } else if OfBuild(step) {
      BuildSparesMirror(s, step, k);
    } else if OfCleanup(step) {
      CleanupSparesMirror(s, step, k);
    } else if OfReconciler(step) {
      ReconcilerSparesMirror(s, step, k);
    } else if !OfProcess(step) {
      OthersSpareMirror(s, step, k);
    }
  }

  ghost predicate SomePublishes(s: State, steps: seq<Step>, k: Digest)
    decreases |steps|
  {
    steps != [] && Next(s, steps[0]).Some?
    && (PublishesAs(s, steps[0], k) || SomePublishes(Next(s, steps[0]).value, steps[1..], k))
  }

  /**
  The non-replacing rename has one winner: as long as no removal locks a mirror, it stays byte for
  byte the same and nobody publishes under its key again.
  */
  lemma {:induction false} OneWinner(s: State, steps: seq<Step>, t: State, k: Digest)
    requires Inv(s) && Run(s, steps, t) && Key(k) in s.catalog && k !in s.removing
    requires RemovalLocks(k) !in steps
    ensures Key(k) in t.catalog && k !in t.removing && t.catalog[Key(k)] == s.catalog[Key(k)]
    ensures !SomePublishes(s, steps, k)
    decreases |steps|
  {
    if steps != [] {
      MirrorStaysOneStep(s, steps[0], k);
      NextKeepsInv(s, steps[0]);
      OneWinner(Next(s, steps[0]).value, steps[1..], t, k);
    }
  }

  lemma InitialInv()
    ensures Inv(Initial)
  {
  }
}
