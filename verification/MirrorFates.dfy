/**
What becomes of a build.

Building and publishing a mirror are one operation here, with the cleanup after a failure. Where nothing fails
outside, the size of the installation alone decides between four ends, and two of them leave a directory behind that
nothing can ever remove or read.
*/
module MirrorFates {
  import opened Bytes
  import opened MirrorLimits
  import opened TreeRemoval
  import opened WindowsPaths
  import opened Wrappers
  import SourceTree
  import StagingNames

  const MANIFEST: Path := [SourceTree.READY_MANIFEST]

  /** A staging tree as the passes over it see it. */
  function Kinds(tree: SourceTree.Tree): Tree {
    map p | p in tree :: if tree[p].Folder? then Directory else File
  }

  ghost function Mirror(source: SourceTree.Tree, manifest: Text): SourceTree.Tree {
    source[MANIFEST := SourceTree.File(manifest)]
  }

  lemma SoundIsRooted(tree: SourceTree.Tree)
    requires SourceTree.Sound(tree)
    ensures Rooted(Kinds(tree))
  {
  }

  lemma MirrorIsSound(source: SourceTree.Tree, manifest: Text)
    requires SourceTree.Sound(source) && MANIFEST !in source
    ensures SourceTree.Sound(Mirror(source, manifest))
  {
    SourceTree.StaysSound(source, MANIFEST, SourceTree.File(manifest));
  }

  /**
  How a build ends: published and readable, published but refused by its own readers, failed without a trace, or failed
  with its staging directory left behind.
  */
  datatype Outcome = Published | PublishedUnread | CleanedUp | LeftBehind

  datatype Publication = Publication(
    manifestFails: bool, acls: PassFaults, renameFails: bool, lease: PassFaults, removal: Faults)

  ghost predicate QuietPass(f: PassFaults) {
    forall p :: !f.enumerate(p) && !f.open(p) && !f.changed(p) && !f.grant(p)
  }

  ghost predicate QuietRemoval(f: Faults) {
    !f.rootChanged && forall p :: !f.enumerate(p) && f.lock(p).None? && !f.changed(p) && !f.delete(p)
  }

  ghost predicate Quiet(p: Publication) {
    !p.manifestFails && !p.renameFails && QuietPass(p.acls) && QuietPass(p.lease) && QuietRemoval(p.removal)
  }

  /** Nothing fails outside, from the first entry that is built to the last that is removed. */
  ghost predicate Undisturbed(source: SourceTree.Tree, faults: SourceTree.BuildFaults, p: Publication) {
    SourceTree.BuildUndisturbed(source, faults) && Quiet(p)
  }

  /** The file system below the catalog can hold this source and a readiness manifest beside it. */
  ghost predicate Holdable(source: SourceTree.Tree, alike: string -> string) {
    SourceTree.NamesDistinct(source, alike) && !SourceTree.Taken(source, MANIFEST, alike)
  }

  /** Removes what a failed build has made. */
  method CleanUp(volume: Volume, faults: Faults) returns (outcome: Outcome)
    requires Rooted(volume.entries)
    modifies volume
    ensures outcome.CleanedUp? || outcome.LeftBehind?
    ensures outcome.CleanedUp? <==> Cleared(old(volume.entries), [], faults) && Deletable(old(volume.entries), [], faults)
    ensures outcome.CleanedUp? ==> volume.entries == map[]
    ensures QuietRemoval(faults) ==> (outcome.CleanedUp? <==> WithinBounds(old(volume.entries), []))
  {
    var removed := RemoveOpenTree(volume, [], faults);
    outcome := if removed.Ok? then CleanedUp else LeftBehind;
  }

  /** Publication of a staged tree: access is granted, the directory renamed, and the mirror opened as a reader would. */
  method Publish(volume: Volume, allFiles: bool, p: Publication) returns (outcome: Outcome)
    requires Rooted(volume.entries)
    modifies volume
    ensures outcome.CleanedUp? ==> volume.entries == map[]
    ensures outcome.LeftBehind? ==>
              !(Cleared(old(volume.entries), [], p.removal) && Deletable(old(volume.entries), [], p.removal))
    ensures outcome.Published? || outcome.PublishedUnread? ==>
              volume.entries == old(volume.entries) && Publishable(old(volume.entries))
    ensures outcome.Published? ==> Leasable(old(volume.entries))
    ensures Quiet(p) ==> outcome == Fate(old(volume.entries))
  {
    var granted := SetAcls(volume, allFiles, p.acls);
    if granted.Err? || p.renameFails {
      outcome := CleanUp(volume, p.removal);
      return;
    }
    var leased := Inspect(volume, p.lease);
    outcome := if leased.Ok? then Published else PublishedUnread;
  }

  /** What the bounds alone decide about a staged tree. */
  ghost function Fate(tree: Tree): Outcome {
    if Publishable(tree) then (if Leasable(tree) then Published else PublishedUnread)
    else if WithinBounds(tree, []) then CleanedUp
    else LeftBehind
  }

  method WriteManifest(staging: SourceTree.Staging, manifest: Text, fails: bool)
    returns (r: Result<(), SourceTree.Failure>)
    requires SourceTree.Sound(staging.tree)
    modifies staging
    ensures SourceTree.Sound(staging.tree)
    ensures r.Ok? ==> staging.tree == Mirror(old(staging.tree), manifest) && MANIFEST !in old(staging.tree)
    ensures !fails && r.Err? ==> SourceTree.Taken(old(staging.tree), MANIFEST, staging.alike)
  {
    assert [] + [SourceTree.READY_MANIFEST] == MANIFEST;
    r := staging.Create([], SourceTree.READY_MANIFEST, SourceTree.File(manifest), fails);
    if r.Ok? {
      NotTakenIsNew(old(staging.tree), MANIFEST, staging.alike);
      MirrorIsSound(old(staging.tree), manifest);
    }
  }

  lemma NotTakenIsNew(tree: SourceTree.Tree, p: Path, alike: string -> string)
    requires p != [] && !SourceTree.Taken(tree, p, alike)
    ensures p !in tree
  {
  }

  /**
  A whole build in one mode. Whatever fails, a build without a trace has left nothing and a published mirror is the
  source with its manifest; where nothing fails outside, the size of the source decides how it ends.
  */
  method BuildMirror(ghost source: SourceTree.Tree, entries: seq<SourceTree.Entry>, staging: SourceTree.Staging,
                     mode: SourceTree.Mode, faults: SourceTree.BuildFaults, digest: Text -> nat, manifest: Text,
                     p: Publication)
    returns (outcome: Outcome, volume: Volume)
    requires SourceTree.Sound(source) && SourceTree.Listed(entries, source, source.Keys)
    requires staging.tree == map[[] := SourceTree.Folder]
    requires SourceTree.Coarser(staging.alike) && SourceTree.Injective(digest) && SourceTree.Locked(source, faults)
    modifies staging
    ensures fresh(volume)
    ensures outcome.CleanedUp? ==> volume.entries == map[]
    ensures outcome.Published? || outcome.PublishedUnread? ==>
              volume.entries == Kinds(Mirror(source, manifest)) && Publishable(volume.entries)
    ensures outcome.Published? ==> Leasable(volume.entries)
    ensures !mode.Legacy? && Undisturbed(source, faults, p) && Holdable(source, staging.alike) ==>
              outcome == Fate(Kinds(Mirror(source, manifest)))
  {
    var built := SourceTree.PopulateStaging(source, entries, staging, mode, faults, digest);
    if built.Ok? {
      built := WriteManifest(staging, manifest, p.manifestFails);
    }
    SoundIsRooted(staging.tree);
    volume := new Volume(Kinds(staging.tree));
    if built.Err? {
      outcome := CleanUp(volume, p.removal);
    } else {
      outcome := Publish(volume, mode.Copy?, p);
    }
  }

  // The size decides.

  ghost function Programs(source: SourceTree.Tree): set<Path> {
    set p | p in source && source[p].File? && Executable(p)
  }

  ghost predicate FoldersWithin(source: SourceTree.Tree) {
    forall p :: p in source && source[p].Folder? ==> |p| <= 64
  }

  lemma ManifestIsNoProgram()
    ensures !Executable(MANIFEST)
  {
    var name := SourceTree.READY_MANIFEST;
    assert name[|name| - 4..][0] == 'j';
    assert Fold(name[|name| - 4..])[0] == 'j';
  }

  /** Everything below the root of the mirror: what is below the root of the source, and the manifest. */
  lemma MirrorCounts(source: SourceTree.Tree, manifest: Text)
    requires SourceTree.Sound(source) && MANIFEST !in source
    ensures |Descendants(Kinds(Mirror(source, manifest)), [])| == |source|
    ensures var tree := Kinds(Mirror(source, manifest)); Executables(tree, tree.Keys) == Programs(source)
  {
    var tree := Kinds(Mirror(source, manifest));
    assert Descendants(tree, []) == source.Keys - {[]} + {MANIFEST};
    ManifestIsNoProgram();
  }

  lemma MirrorDepths(source: SourceTree.Tree, manifest: Text)
    requires SourceTree.Sound(source) && MANIFEST !in source
    ensures var tree := Kinds(Mirror(source, manifest));
            && ((forall d :: d in tree && tree[d] == Directory ==> |d| <= 64) <==> FoldersWithin(source))
            && ((forall p :: p in tree ==> |p| <= 64) <==>
                  !exists p :: p in source && |p| > 64)
  {
  }

  /**
  The end of an undisturbed build, from the size of the source alone (its root included, the manifest not): too many
  entries or too deep a folder leave the staging directory behind for good; only a file too deep is cleaned up after;
  and of what can be published, a tree of exactly the limit, or with too many programs, no reader will accept.
  */
  lemma FateBySize(source: SourceTree.Tree, manifest: Text)
    requires SourceTree.Sound(source) && MANIFEST !in source
    ensures Fate(Kinds(Mirror(source, manifest))) ==
      if |source| > 16_384 || !FoldersWithin(source) then LeftBehind
      else if exists p :: p in source && |p| > 64 then CleanedUp
      else if |source| < 16_384 && |Programs(source)| <= 64 then Published
      else PublishedUnread
  {
    MirrorCounts(source, manifest);
    MirrorDepths(source, manifest);
  }

  /** What is left behind stays: whatever the system grants, no removal of that tree may delete anything. */
  lemma LeftBehindStays(tree: Tree, faults: Faults)
    requires Fate(tree).LeftBehind?
    ensures !Cleared(tree, [], faults)
  {
  }

  // Three of the ends, one file apart.

  ghost function Leaf(k: nat): Path {
    [StagingNames.Decimal(k)]
  }

  /** A folder of `n` empty files with numbers for names. */
  ghost function Flat(n: nat): SourceTree.Tree {
    if n == 0 then map[[] := SourceTree.Folder] else Flat(n - 1)[Leaf(n) := SourceTree.File([])]
  }

  lemma LeafInjective(k: nat, n: nat)
    requires Leaf(k) == Leaf(n)
    ensures k == n
  {
    StagingNames.DecimalInjective(k, n);
  }

  predicate Numeral(name: string) {
    name != [] && forall i :: 0 <= i < |name| ==> '0' <= name[i] <= '9'
  }

  lemma NumberIsNumeral(k: nat)
    ensures Numeral(StagingNames.Decimal(k))
  {
    var name := StagingNames.Decimal(k);
    forall i | 0 <= i < |name|
      ensures '0' <= name[i] <= '9'
    {
      assert StagingNames.DigitOf(name[i]).Some?;
    }
  }

  lemma NumeralFolds(name: string)
    requires Numeral(name)
    ensures Fold(name) == name
  {
  }

  predicate NumberedPath(p: Path) {
    |p| == 1 && Numeral(p[0])
  }

  lemma NumberedPathIsValid(p: Path)
    requires NumberedPath(p)
    ensures ValidPath(p) && Parent(p) == []
  {
  }

  /** A folder of files with numbers for names. */
  ghost predicate NumberedFiles(tree: SourceTree.Tree) {
    && [] in tree && tree[[]] == SourceTree.Folder
    && (forall p :: p in tree && p != [] ==> NumberedPath(p) && tree[p] == SourceTree.File([]))
  }

  lemma {:induction false} FlatIsNumbered(n: nat)
    ensures NumberedFiles(Flat(n))
  {
    if n != 0 {
      FlatIsNumbered(n - 1);
      NumberIsNumeral(n);
    }
  }

  lemma {:induction false} LeafIsNew(k: nat, n: nat)
    requires k < n
    ensures Leaf(n) !in Flat(k)
  {
    if k != 0 {
      LeafIsNew(k - 1, n);
      if Leaf(k) == Leaf(n) {
        LeafInjective(k, n);
      }
    }
  }

  lemma OneEntryMore(tree: SourceTree.Tree, p: Path, node: SourceTree.Node)
    requires p !in tree
    ensures |tree[p := node]| == |tree| + 1
  {
    assert tree[p := node].Keys == tree.Keys + {p};
  }

  lemma {:induction false} FlatCounts(n: nat)
    ensures |Flat(n)| == n + 1
  {
    if n != 0 {
      FlatCounts(n - 1);
      LeafIsNew(n - 1, n);
      OneEntryMore(Flat(n - 1), Leaf(n), SourceTree.File([]));
    }
  }

  lemma NumberedIsSound(tree: SourceTree.Tree)
    requires NumberedFiles(tree)
    ensures SourceTree.Sound(tree) && FoldersWithin(tree) && forall p :: p in tree ==> |p| <= 1
  {
    forall p | p in tree && p != []
      ensures ValidPath(p) && Parent(p) == []
    {
      NumberedPathIsValid(p);
    }
  }

  lemma NumberedPathIsNoProgram(p: Path)
    requires NumberedPath(p)
    ensures !Executable(p)
  {
    var name := p[0];
    if |name| > 4 {
      assert Fold(name[|name| - 4..])[0] == FoldChar(name[|name| - 4]);
    }
  }

  lemma NoPrograms(tree: SourceTree.Tree)
    requires NumberedFiles(tree)
    ensures Programs(tree) == {}
  {
    forall p | p in tree && p != []
      ensures !Executable(p)
    {
      NumberedPathIsNoProgram(p);
    }
  }

  lemma NumberedName(p: Path, name: string)
    requires NumberedPath(p) && name != [] && name[0] == '.'
    ensures Fold(SourceTree.Last(p)) == p[0] && p[0] != Fold(name) && p != [name]
  {
    NumeralFolds(p[0]);
    assert Fold(name)[0] == '.';
  }

  /** Names that fold to themselves are kept apart, and so is a name with a dot in front. */
  lemma NumberedIsHoldable(tree: SourceTree.Tree, name: string)
    requires NumberedFiles(tree) && name != [] && name[0] == '.'
    ensures SourceTree.NamesDistinct(tree, Fold) && !SourceTree.Taken(tree, [name], Fold) && [name] !in tree
  {
    forall p | p in tree && p != []
      ensures Fold(SourceTree.Last(p)) == p[0] && p[0] != Fold(name) && p != [name]
    {
      NumberedName(p, name);
    }
    assert SourceTree.Last([name]) == name;
    OneNameEach(tree);
  }

  lemma OneNameEach(tree: SourceTree.Tree)
    requires forall p :: p in tree && p != [] ==> |p| == 1 && Fold(SourceTree.Last(p)) == p[0]
    ensures SourceTree.NamesDistinct(tree, Fold)
  {
  }

  /** One file more turns a readable mirror into one nobody can read, and a further one into one nobody can remove. */
  lemma FlatFates(n: nat, manifest: Text)
    ensures SourceTree.Sound(Flat(n)) && Holdable(Flat(n), Fold)
    ensures Fate(Kinds(Mirror(Flat(n), manifest))) ==
      if n + 1 < 16_384 then Published
      else if n + 1 == 16_384 then PublishedUnread
      else LeftBehind
  {
    FlatIsNumbered(n);
    FlatCounts(n);
    NumberedIsSound(Flat(n));
    NoPrograms(Flat(n));
    NumberedIsHoldable(Flat(n), SourceTree.READY_MANIFEST);
    FateBySize(Flat(n), manifest);
  }
}
