/**
Two-phase removal of a mirror tree, and the retry loop around it.

Every descendant is locked first; then the entries are deleted, files before directories and deeper before shallower.
Windows calls are steps that may fail, chosen by a `Faults` record.
*/
module TreeRemoval {
  import opened WindowsPaths
  import opened Wrappers
  import Sorting

  const MAX_MIRROR_ENTRIES: nat := 16_384
  const MAX_MIRROR_DEPTH: nat := 64

  /** The pause between two removal attempts, in nanoseconds like every duration here. */
  const REMOVAL_RETRY_INTERVAL: nat := 50_000_000

  datatype Kind = Directory | File

  type Tree = map<Path, Kind>

  /** Every entry except the top lies in a directory of the tree. */
  ghost predicate WellFormed(tree: Tree) {
    forall p {:trigger Parent(p)} :: p in tree && p != [] ==> Parent(p) in tree && tree[Parent(p)] == Directory
  }

  ghost function Children(tree: Tree, dir: Path): set<Path> {
    set p | p in tree && p != [] && Parent(p) == dir
  }

  ghost function Descendants(tree: Tree, root: Path): set<Path> {
    set p | p in tree && root < p
  }

  ghost function Without(tree: Tree, root: Path): Tree {
    map p | p in tree && !(root <= p) :: tree[p]
  }

  datatype Operation = LockRoot | LockEntry | Enumerate | Delete

  datatype Failure =
    | CallFailed(operation: Operation, sharingViolation: bool)
    | BoundsExceeded
    | ChangedDuringValidation
    | InspectionFailed

  /** A sharing violation from a lock taken before anything is deleted. */
  predicate Retryable(f: Failure) {
    f.CallFailed? && f.sharingViolation && (f.operation.LockRoot? || f.operation.LockEntry?)
  }

  /** Which calls fail; a lock fails with or without a sharing violation. */
  datatype Faults = Faults(
    lockRoot: Option<bool>,
    enumerate: Path -> bool,
    lock: Path -> Option<bool>,
    changed: Path -> bool,
    rootChanged: bool,
    delete: Path -> bool)

  class Volume {
    var entries: Tree

    constructor (entries: Tree)
      ensures this.entries == entries
    {
      this.entries := entries;
    }

    /** The children of an open directory, each once, in whatever order the system gives them. */
    method List(dir: Path, fails: bool) returns (r: Result<seq<Path>, Failure>)
      ensures fails ==> r == Err(CallFailed(Enumerate, false))
      ensures !fails ==> r.Ok?
      ensures r.Ok? ==> forall p :: p in r.value <==> p in Children(entries, dir)
      ensures r.Ok? ==> forall i, j :: 0 <= i < j < |r.value| ==> r.value[i] != r.value[j]
    {
      if fails {
        return Err(CallFailed(Enumerate, false));
      }
      var rest := set p | p in entries && p != [] && Parent(p) == dir;
      var listed: seq<Path> := [];
      while rest != {}
        invariant forall p :: p in Children(entries, dir) <==> p in rest || p in listed
        invariant forall p :: p in listed ==> p !in rest
        invariant forall i, j :: 0 <= i < j < |listed| ==> listed[i] != listed[j]
        decreases rest
      {
        var p :| p in rest;
        rest := rest - {p};
        listed := listed + [p];
      }
      return Ok(listed);
    }

    /** Deleting through an open handle; a directory must be empty by then. */
    method DeleteEntry(path: Path, fails: bool) returns (r: Result<(), Failure>)
      requires path in entries && forall p :: p in entries && path <= p ==> p == path
      modifies this
      ensures fails ==> r == Err(CallFailed(Delete, false)) && entries == old(entries)
      ensures !fails ==> r == Ok(()) && entries == old(entries) - {path}
    {
      if fails {
        return Err(CallFailed(Delete, false));
      }
      entries := entries - {path};
      return Ok(());
    }
  }

  datatype Removal = Removal(depth: nat, path: Path, directory: bool)

  function Paths(removals: seq<Removal>): set<Path> {
    set i | 0 <= i < |removals| :: removals[i].path
  }

  ghost predicate Distinct(removals: seq<Removal>) {
    forall i, j :: 0 <= i < j < |removals| ==> removals[i].path != removals[j].path
  }

  ghost predicate Describes(tree: Tree, root: Path, r: Removal) {
    && r.path in tree && root < r.path
    && r.depth == |r.path| - |root|
    && (r.directory <==> tree[r.path] == Directory)
  }

  /** What the removal may handle at all. */
  ghost predicate WithinBounds(tree: Tree, root: Path) {
    && |Descendants(tree, root)| <= 16_384
    && forall p :: p in tree && root <= p && tree[p] == Directory ==> |p| - |root| <= 64
  }

  lemma {:induction false} AllReached(tree: Tree, root: Path, expanded: set<Path>, p: Path)
    requires WellFormed(tree) && root in expanded
    requires forall d :: d in expanded && d in tree && tree[d] == Directory ==>
               forall q :: q in Children(tree, d) && tree[q] == Directory ==> q in expanded
    requires p in tree && root <= p && tree[p] == Directory
    ensures p in expanded
    decreases |p|
  {
    if p != root {
      var up := Parent(p);
      assert root <= up;
      AllReached(tree, root, expanded, up);
      assert p in Children(tree, up);
    }
  }

  lemma PathsSnoc(removals: seq<Removal>, r: Removal)
    ensures Paths(removals + [r]) == Paths(removals) + {r.path}
  {
    var all := removals + [r];
    assert forall i :: 0 <= i < |removals| ==> all[i] == removals[i];
    assert all[|removals|] == r;
    forall p | p in Paths(removals) + {r.path}
      ensures p in Paths(all)
    {
      if p == r.path {
        assert all[|removals|].path == p;
      } else {
        var i :| 0 <= i < |removals| && removals[i].path == p;
        assert all[i].path == p;
      }
    }
  }

  lemma {:induction false} DistinctCounts(removals: seq<Removal>)
    requires Distinct(removals)
    ensures |Paths(removals)| == |removals|
  {
    if removals != [] {
      var init := removals[..|removals| - 1];
      var last := removals[|removals| - 1];
      DistinctCounts(init);
      PathsSnoc(init, last);
      assert removals == init + [last];
      assert last.path !in Paths(init);
    }
  }

  // The order of deletion.

  /** Files before directories, then deeper before shallower. */
  predicate InOrder(a: Removal, b: Removal) {
    if a.directory != b.directory then b.directory else a.depth >= b.depth
  }

  /** The whole comparison, down to the normalized path. */
  predicate Precedes(a: Removal, b: Removal) {
    if a.directory != b.directory then b.directory
    else if a.depth != b.depth then a.depth > b.depth
    else Sorting.TextAtMost(Key(b.path), Key(a.path))
  }

  lemma PrecedesPreorder()
    ensures Sorting.Preorder(Precedes)
  {
    forall a: Removal, b: Removal
      ensures Precedes(a, b) || Precedes(b, a)
    {
      Sorting.TextTotal(Key(b.path), Key(a.path));
    }
    forall a: Removal, b: Removal, c: Removal | Precedes(a, b) && Precedes(b, c)
      ensures Precedes(a, c)
    {
      if a.directory == b.directory == c.directory && a.depth == b.depth == c.depth {
        Sorting.TextTransitive(Key(c.path), Key(b.path), Key(a.path));
      }
    }
  }

  ghost predicate Ordered(removals: seq<Removal>) {
    forall i, j :: 0 <= i < j < |removals| ==> InOrder(removals[i], removals[j])
  }

  lemma SortOrders(removals: seq<Removal>)
    ensures Ordered(Sorting.Sorted(removals, Precedes))
    ensures multiset(Sorting.Sorted(removals, Precedes)) == multiset(removals)
  {
    var sorted := Sorting.Sorted(removals, Precedes);
    PrecedesPreorder();
    Sorting.SortedOrdered(removals, Precedes);
    Sorting.SortedContents(removals, Precedes);
    assert forall i, j :: 0 <= i < j < |sorted| ==> Precedes(sorted[i], sorted[j]);
  }

  /** In deletion order nothing comes after the directory that holds it. */
  lemma ContentsComeFirst(tree: Tree, root: Path, removals: seq<Removal>, i: nat, j: nat)
    requires WellFormed(tree) && Ordered(removals) && i < |removals| && j < |removals|
    requires Describes(tree, root, removals[i]) && Describes(tree, root, removals[j])
    requires removals[i].path < removals[j].path
    ensures j < i
  {
    DirectoryAbove(tree, removals[i].path, removals[j].path);
  }

  lemma {:induction false} DirectoryAbove(tree: Tree, above: Path, p: Path)
    requires WellFormed(tree) && p in tree && above < p
    ensures above in tree && tree[above] == Directory
    decreases |p|
  {
    var up := Parent(p);
    if up == above {
    } else {
      assert above < up;
      DirectoryAbove(tree, above, up);
    }
  }

  /** The same removals in another order: same paths, still distinct, still described. */
  lemma SortedStillCovers(tree: Tree, root: Path, removals: seq<Removal>)
    requires Distinct(removals) && forall r :: r in removals ==> Describes(tree, root, r)
    ensures var sorted := Sorting.Sorted(removals, Precedes);
            && Paths(sorted) == Paths(removals)
            && Distinct(sorted)
            && (forall i :: 0 <= i < |sorted| ==> Describes(tree, root, sorted[i]))
  {
    var sorted := Sorting.Sorted(removals, Precedes);
    SortOrders(removals);
    forall i | 0 <= i < |sorted|
      ensures sorted[i] in removals
    {
      assert sorted[i] in multiset(sorted);
    }
    forall i | 0 <= i < |removals|
      ensures removals[i] in sorted
    {
      assert removals[i] in multiset(removals);
    }
    DistinctCounts(removals);
    SameSizeDistinct(sorted, removals);
  }

  lemma SameSizeDistinct(sorted: seq<Removal>, removals: seq<Removal>)
    requires multiset(sorted) == multiset(removals) && Distinct(removals)
    ensures Distinct(sorted) && Paths(sorted) == Paths(removals)
  {
    forall i, j | 0 <= i < j < |sorted|
      ensures sorted[i].path != sorted[j].path
    {
      assert sorted[i] in multiset(removals) && sorted[j] in multiset(removals);
      var a :| 0 <= a < |removals| && removals[a] == sorted[i];
      var b :| 0 <= b < |removals| && removals[b] == sorted[j];
      if sorted[i].path == sorted[j].path {
        assert a == b;
        Sorting.CountedTwice(sorted, i, j);
        OnePlace(removals, a);
      }
    }
    forall p
      ensures p in Paths(sorted) <==> p in Paths(removals)
    {
      if p in Paths(sorted) {
        var i :| 0 <= i < |sorted| && sorted[i].path == p;
        assert sorted[i] in multiset(removals);
      }
      if p in Paths(removals) {
        var i :| 0 <= i < |removals| && removals[i].path == p;
        assert removals[i] in multiset(sorted);
      }
    }
  }

  lemma OnePlace(s: seq<Removal>, i: nat)
    requires Distinct(s) && i < |s|
    ensures multiset(s)[s[i]] == 1
  {
    assert s == s[..i] + [s[i]] + s[i + 1..];
    assert s[i] !in s[..i] && s[i] !in s[i + 1..];
  }

  // The validation phase.

  /** Entries whose directory has been listed. */
  ghost function Locked(tree: Tree, expanded: set<Path>): set<Path> {
    set p | p in tree && p != [] && Parent(p) in expanded
  }

  ghost function Directories(tree: Tree, paths: set<Path>): set<Path> {
    set p | p in paths && p in tree && tree[p] == Directory
  }

  ghost predicate Waiting(tree: Tree, root: Path, e: Removal) {
    e.path in tree && tree[e.path] == Directory && root <= e.path && e.depth == |e.path| - |root|
  }

  lemma CountWithin(tree: Tree, root: Path, removals: seq<Removal>)
    requires Distinct(removals) && forall e :: e in removals ==> Describes(tree, root, e)
    ensures |removals| <= |Descendants(tree, root)|
  {
    DistinctCounts(removals);
    forall p | p in Paths(removals)
      ensures p in Descendants(tree, root)
    {
      var i :| 0 <= i < |removals| && removals[i].path == p;
      assert removals[i] in removals;
    }
    SubsetCount(Paths(removals), Descendants(tree, root));
  }

  lemma {:induction false} SubsetCount(a: set<Path>, b: set<Path>)
    requires a <= b
    ensures |a| <= |b|
    decreases a
  {
    if a != {} {
      var x :| x in a;
      SubsetCount(a - {x}, b - {x});
    }
  }

  lemma DistinctSnoc(removals: seq<Removal>, r: Removal)
    requires Distinct(removals) && r.path !in Paths(removals)
    ensures Distinct(removals + [r])
  {
    forall i | 0 <= i < |removals|
      ensures removals[i].path != r.path
    {
      assert removals[i].path in Paths(removals);
    }
  }

  lemma PopLast(pending: seq<Removal>)
    requires pending != [] && Distinct(pending)
    ensures var init := pending[..|pending| - 1];
            var last := pending[|pending| - 1];
            Distinct(init) && Paths(init) == Paths(pending) - {last.path} && last.path in Paths(pending)
  {
    var init := pending[..|pending| - 1];
    var last := pending[|pending| - 1];
    assert pending == init + [last];
    PathsSnoc(init, last);
    assert last.path !in Paths(init);
  }

  /** With nothing waiting, every directory under the root was listed, so every descendant is locked. */
  lemma WalkComplete(tree: Tree, root: Path, removals: seq<Removal>, expanded: set<Path>)
    requires WellFormed(tree) && root in tree && tree[root] == Directory
    requires Walk(tree, root, expanded, [], removals)
    ensures Paths(removals) == Descendants(tree, root)
    ensures |removals| <= MAX_MIRROR_ENTRIES ==> WithinBounds(tree, root)
  {
    forall p | p in Descendants(tree, root)
      ensures p in Paths(removals)
    {
      assert root <= Parent(p);
      AllReached(tree, root, expanded, Parent(p));
    }
    forall p | p in Paths(removals)
      ensures p in Descendants(tree, root)
    {
      var i :| 0 <= i < |removals| && removals[i].path == p;
      assert removals[i] in removals;
    }
    DistinctCounts(removals);
    forall p | p in tree && root <= p && tree[p] == Directory
      ensures |p| - |root| <= MAX_MIRROR_DEPTH
    {
      AllReached(tree, root, expanded, p);
    }
  }

  /** Every lock below the root is granted on an unchanged entry, and every directory from the root on can be listed. */
  ghost predicate Lockable(tree: Tree, root: Path, faults: Faults) {
    && (forall p :: p in Descendants(tree, root) ==> faults.lock(p).None? && !faults.changed(p))
    && (forall d :: d in tree && root <= d && tree[d] == Directory ==> !faults.enumerate(d))
  }

  /** An error of the validation phase is true: some call did fail in just that way, or the tree is too large. */
  ghost predicate Explains(tree: Tree, root: Path, faults: Faults, error: Failure) {
    match error
    case BoundsExceeded => !WithinBounds(tree, root)
    case ChangedDuringValidation => exists p :: p in Descendants(tree, root) && faults.changed(p)
    case InspectionFailed => false
    case CallFailed(operation, sharingViolation) =>
      match operation
      case LockEntry => exists p :: p in Descendants(tree, root) && faults.lock(p) == Some(sharingViolation)
      case Enumerate => exists d :: d in tree && root <= d && tree[d] == Directory && faults.enumerate(d)
      case _ => false
  }

  /** The locks of these entries were granted. */
  ghost predicate Granted(removals: seq<Removal>, faults: Faults) {
    forall e :: e in removals ==> faults.lock(e.path).None? && !faults.changed(e.path)
  }

  /** The state of the walk while the children of `dir` are being locked; `taken` are those already done. */
  ghost predicate Front(
      tree: Tree, root: Path, dir: Path, expanded: set<Path>, pending: seq<Removal>, removals: seq<Removal>, taken: set<Path>)
  {
    && Distinct(pending) && Distinct(removals)
    && (forall e :: e in removals ==> Describes(tree, root, e))
    && (forall e :: e in pending ==> Waiting(tree, root, e))
    && Paths(pending) !! expanded + {dir}
    && Paths(pending) + expanded + {dir} == {root} + Directories(tree, Paths(removals))
    && Paths(removals) == Locked(tree, expanded) + taken
  }

  lemma ChildIsNew(
      tree: Tree, root: Path, dir: Path, expanded: set<Path>, pending: seq<Removal>, removals: seq<Removal>,
      taken: set<Path>, entry: Removal)
    requires Front(tree, root, dir, expanded, pending, removals, taken)
    requires root <= dir && dir !in expanded && entry.path in Children(tree, dir) && entry.path !in taken
    requires entry.depth == |entry.path| - |root| && (entry.directory <==> tree[entry.path] == Directory)
    ensures Describes(tree, root, entry) && entry.path !in Paths(removals) && entry.path !in Paths(pending) + expanded + {dir}
    ensures Locked(tree, expanded) + (taken + {entry.path}) == Paths(removals) + {entry.path}
  {
    assert root <= Parent(entry.path) <= entry.path;
  }

  lemma DirectoriesGrow(tree: Tree, paths: set<Path>, p: Path)
    requires p in tree
    ensures Directories(tree, paths + {p}) == Directories(tree, paths) + if tree[p] == Directory then {p} else {}
  {
  }

  /** A taken child is recorded, and waits if it is a directory; the set equations of the walk go on holding. */
  lemma PathsGrow(
      tree: Tree, root: Path, dir: Path, expanded: set<Path>, pending: seq<Removal>, removals: seq<Removal>,
      taken: set<Path>, entry: Removal)
    requires Front(tree, root, dir, expanded, pending, removals, taken)
    requires entry.path in tree && (entry.directory <==> tree[entry.path] == Directory)
    requires entry.path !in expanded + {dir}
    requires Locked(tree, expanded) + (taken + {entry.path}) == Paths(removals) + {entry.path}
    ensures var grown := if entry.directory then pending + [entry] else pending;
            && Paths(grown) !! expanded + {dir}
            && Paths(grown) + expanded + {dir} == {root} + Directories(tree, Paths(removals + [entry]))
            && Paths(removals + [entry]) == Locked(tree, expanded) + (taken + {entry.path})
  {
    PathsSnoc(removals, entry);
    PathsSnoc(pending, entry);
    DirectoriesGrow(tree, Paths(removals), entry.path);
  }

  lemma TakeChild(
      tree: Tree, root: Path, dir: Path, expanded: set<Path>, pending: seq<Removal>, removals: seq<Removal>,
      taken: set<Path>, entry: Removal)
    requires Front(tree, root, dir, expanded, pending, removals, taken)
    requires root <= dir && dir !in expanded && entry.path in Children(tree, dir) && entry.path !in taken
    requires entry.depth == |entry.path| - |root| && (entry.directory <==> tree[entry.path] == Directory)
    ensures Describes(tree, root, entry) && Distinct(removals + [entry])
    ensures var grown := if entry.directory then pending + [entry] else pending;
            Front(tree, root, dir, expanded, grown, removals + [entry], taken + {entry.path})
  {
    ChildIsNew(tree, root, dir, expanded, pending, removals, taken, entry);
    DistinctSnoc(removals, entry);
    PathsGrow(tree, root, dir, expanded, pending, removals, taken, entry);
    if entry.directory {
      DistinctSnoc(pending, entry);
    }
  }

  function Taken(children: seq<Path>, i: nat): set<Path>
    requires i <= |children|
  {
    set k | 0 <= k < i :: children[k]
  }

  method LockOne(child: Path, faults: Faults) returns (r: Result<(), Failure>)
    ensures r.Ok? <==> faults.lock(child).None? && !faults.changed(child)
    ensures r.Err? ==>
              r.error == if faults.lock(child).Some? then CallFailed(LockEntry, faults.lock(child).value)
                         else ChangedDuringValidation
  {
    var fault := faults.lock(child);
    if fault.Some? {
      return Err(CallFailed(LockEntry, fault.value));
    }
    if faults.changed(child) {
      return Err(ChangedDuringValidation);
    }
    return Ok(());
  }

  /** One child: within the bounds and without a fault it is locked, and left waiting if it is a directory. */
  method LockChild(
      tree: Tree, root: Path, depth: nat, dir: Path, child: Path, waiting: seq<Removal>, locked: seq<Removal>,
      faults: Faults, ghost expanded: set<Path>, ghost taken: set<Path>)
    returns (r: Result<(seq<Removal>, seq<Removal>), Failure>)
    requires root <= dir && dir !in expanded && depth == |dir| - |root|
    requires child in Children(tree, dir) && child !in taken
    requires Front(tree, root, dir, expanded, waiting, locked, taken) && |locked| <= MAX_MIRROR_ENTRIES
    requires Granted(locked, faults)
    ensures r.Ok? ==> Front(tree, root, dir, expanded, r.value.0, r.value.1, taken + {child})
    ensures r.Ok? ==> |r.value.1| <= MAX_MIRROR_ENTRIES && Granted(r.value.1, faults)
    ensures r.Err? ==> Explains(tree, root, faults, r.error)
  {
    var entry := Removal(depth + 1, child, tree[child] == Directory);
    TakeChild(tree, root, dir, expanded, waiting, locked, taken, entry);
    if |locked| == MAX_MIRROR_ENTRIES {
      CountTaken(tree, root, locked, entry);
      return Err(BoundsExceeded);
    }
    var lock := LockOne(child, faults);
    if lock.Err? {
      assert child in Descendants(tree, root);
      return Err(lock.error);
    }
    return Ok((if tree[child] == Directory then waiting + [entry] else waiting, locked + [entry]));
  }

  /** One listed directory: every child in turn. */
  method LockChildren(
      tree: Tree, root: Path, depth: nat, dir: Path, children: seq<Path>, waiting: seq<Removal>, locked: seq<Removal>,
      faults: Faults, ghost expanded: set<Path>)
    returns (r: Result<(seq<Removal>, seq<Removal>), Failure>)
    requires root <= dir && dir !in expanded && depth == |dir| - |root|
    requires forall i :: 0 <= i < |children| ==> children[i] in Children(tree, dir)
    requires forall i, j :: 0 <= i < j < |children| ==> children[i] != children[j]
    requires Front(tree, root, dir, expanded, waiting, locked, {}) && |locked| <= MAX_MIRROR_ENTRIES
    requires Granted(locked, faults)
    ensures r.Ok? ==> Front(tree, root, dir, expanded, r.value.0, r.value.1, Taken(children, |children|))
    ensures r.Ok? ==> |r.value.1| <= MAX_MIRROR_ENTRIES && Granted(r.value.1, faults)
    ensures r.Err? ==> Explains(tree, root, faults, r.error)
  {
    r := Ok((waiting, locked));
    var i := 0;
    assert Taken(children, 0) == {};
    while i < |children|
      invariant 0 <= i <= |children| && r.Ok? && |r.value.1| <= MAX_MIRROR_ENTRIES && Granted(r.value.1, faults)
      invariant Front(tree, root, dir, expanded, r.value.0, r.value.1, Taken(children, i))
    {
      assert Taken(children, i + 1) == Taken(children, i) + {children[i]};
      r := LockChild(tree, root, depth, dir, children[i], r.value.0, r.value.1, faults, expanded, Taken(children, i));
      if r.Err? {
        return;
      }
      i := i + 1;
    }
  }

  lemma CountTaken(tree: Tree, root: Path, removals: seq<Removal>, entry: Removal)
    requires Distinct(removals + [entry]) && Describes(tree, root, entry)
    requires forall e :: e in removals ==> Describes(tree, root, e)
    ensures |removals| < |Descendants(tree, root)|
  {
    CountWithin(tree, root, removals + [entry]);
  }

  /** Between directories: those known so far are either listed or waiting, and the listed ones' contents are locked. */
  ghost predicate Walk(tree: Tree, root: Path, expanded: set<Path>, pending: seq<Removal>, removals: seq<Removal>) {
    && Distinct(pending) && Distinct(removals)
    && (forall e :: e in removals ==> Describes(tree, root, e))
    && (forall e :: e in pending ==> Waiting(tree, root, e))
    && (forall d :: d in expanded ==> d in tree && tree[d] == Directory && root <= d && |d| - |root| <= MAX_MIRROR_DEPTH)
    && Paths(pending) !! expanded
    && Paths(pending) + expanded == {root} + Directories(tree, Paths(removals))
    && Paths(removals) == Locked(tree, expanded)
  }

  lemma WalkStarts(tree: Tree, root: Path)
    requires root in tree && tree[root] == Directory
    ensures Walk(tree, root, {}, [Removal(0, root, true)], [])
  {
    PathsSnoc([], Removal(0, root, true));
    assert [] + [Removal(0, root, true)] == [Removal(0, root, true)];
  }

  lemma OpenDirectory(tree: Tree, root: Path, expanded: set<Path>, pending: seq<Removal>, removals: seq<Removal>)
    requires Walk(tree, root, expanded, pending, removals) && pending != []
    ensures var e := pending[|pending| - 1];
            && Waiting(tree, root, e) && e.path !in expanded
            && Front(tree, root, e.path, expanded, pending[..|pending| - 1], removals, {})
  {
    PopLast(pending);
    assert pending[|pending| - 1] in pending;
  }

  lemma CloseDirectory(
      tree: Tree, root: Path, dir: Path, expanded: set<Path>, pending: seq<Removal>, removals: seq<Removal>, taken: set<Path>)
    requires Front(tree, root, dir, expanded, pending, removals, taken) && taken == Children(tree, dir)
    requires forall d :: d in expanded + {dir} ==>
               d in tree && tree[d] == Directory && root <= d && |d| - |root| <= MAX_MIRROR_DEPTH
    ensures Walk(tree, root, expanded + {dir}, pending, removals)
  {
    assert Locked(tree, expanded + {dir}) == Locked(tree, expanded) + Children(tree, dir);
  }

  lemma TooDeep(tree: Tree, root: Path, dir: Path)
    requires dir in tree && tree[dir] == Directory && root <= dir && |dir| - |root| > MAX_MIRROR_DEPTH
    ensures !WithinBounds(tree, root)
  {
  }

  /**
  The validation phase: walk the tree from the root and lock every descendant exactly once. It has
  no `modifies` clause, so it cannot delete; it succeeds exactly if every listing and every lock was
  granted within the bounds, and otherwise its error names something that did happen.
  */
  method LockAll(volume: Volume, root: Path, faults: Faults) returns (r: Result<seq<Removal>, Failure>)
    requires WellFormed(volume.entries) && root in volume.entries && volume.entries[root] == Directory
    ensures r.Ok? ==> WithinBounds(volume.entries, root)
    ensures r.Ok? ==> Distinct(r.value) && Paths(r.value) == Descendants(volume.entries, root)
    ensures r.Ok? ==> forall e :: e in r.value ==> Describes(volume.entries, root, e)
    ensures r.Ok? <==> WithinBounds(volume.entries, root) && Lockable(volume.entries, root, faults)
    ensures r.Err? ==> Explains(volume.entries, root, faults, r.error)
  {
    var tree := volume.entries;
    var pending: seq<Removal> := [Removal(0, root, true)];
    var removals: seq<Removal> := [];
    ghost var expanded: set<Path> := {};
    WalkStarts(tree, root);
    while pending != []
      invariant |removals| <= MAX_MIRROR_ENTRIES && Walk(tree, root, expanded, pending, removals)
      invariant Granted(removals, faults) && forall d :: d in expanded ==> !faults.enumerate(d)
      decreases tree.Keys - expanded
    {
      var Removal(depth, dir, _) := pending[|pending| - 1];
      OpenDirectory(tree, root, expanded, pending, removals);
      pending := pending[..|pending| - 1];
      if depth > MAX_MIRROR_DEPTH || |removals| > MAX_MIRROR_ENTRIES {
        TooDeep(tree, root, dir);
        return Err(BoundsExceeded);
      }
      var listed := volume.List(dir, faults.enumerate(dir));
      if listed.Err? {
        assert dir in tree && root <= dir && tree[dir] == Directory && faults.enumerate(dir);
        ExplainedIsNotLockable(tree, root, faults, listed.error);
        return Err(listed.error);
      }
      var locked := LockChildren(tree, root, depth, dir, listed.value, pending, removals, faults, expanded);
      if locked.Err? {
        ExplainedIsNotLockable(tree, root, faults, locked.error);
        return Err(locked.error);
      }
      pending, removals := locked.value.0, locked.value.1;
      assert Taken(listed.value, |listed.value|) == Children(tree, dir);
      CloseDirectory(tree, root, dir, expanded, pending, removals, Children(tree, dir));
      expanded := expanded + {dir};
    }
    WalkComplete(tree, root, removals, expanded);
    WalkGranted(tree, root, removals, expanded, faults);
    return Ok(removals);
  }

  lemma WalkGranted(tree: Tree, root: Path, removals: seq<Removal>, expanded: set<Path>, faults: Faults)
    requires WellFormed(tree) && root in tree && tree[root] == Directory && Walk(tree, root, expanded, [], removals)
    requires Paths(removals) == Descendants(tree, root)
    requires Granted(removals, faults) && forall d :: d in expanded ==> !faults.enumerate(d)
    ensures Lockable(tree, root, faults)
  {
    forall p | p in Descendants(tree, root)
      ensures faults.lock(p).None? && !faults.changed(p)
    {
      var i :| 0 <= i < |removals| && removals[i].path == p;
      assert removals[i] in removals;
    }
    forall d | d in tree && root <= d && tree[d] == Directory
      ensures !faults.enumerate(d)
    {
      AllReached(tree, root, expanded, d);
    }
  }

  lemma ExplainedIsNotLockable(tree: Tree, root: Path, faults: Faults, error: Failure)
    requires Explains(tree, root, faults, error)
    ensures !(WithinBounds(tree, root) && Lockable(tree, root, faults))
  {
  }

  // The whole removal.

  /** The condition under which anything may be deleted at all. */
  ghost predicate Cleared(tree: Tree, root: Path, faults: Faults) {
    WithinBounds(tree, root) && Lockable(tree, root, faults) && !faults.rootChanged
  }

  /** No delete of the root or of anything below it fails. */
  ghost predicate Deletable(tree: Tree, root: Path, faults: Faults) {
    !faults.delete(root) && forall p :: p in Descendants(tree, root) ==> !faults.delete(p)
  }

  ghost predicate Removed(before: Tree, after: Tree, gone: set<Path>) {
    after == map p | p in before && p !in gone :: before[p]
  }

  ghost function Gone(sorted: seq<Removal>, i: nat): set<Path>
    requires i <= |sorted|
  {
    Paths(sorted[..i])
  }

  /** When its turn comes, an entry is still there and holds nothing. */
  lemma ReadyToDelete(before: Tree, root: Path, sorted: seq<Removal>, i: nat, now: Tree)
    requires WellFormed(before) && Ordered(sorted) && Distinct(sorted) && i < |sorted|
    requires forall k :: 0 <= k < |sorted| ==> Describes(before, root, sorted[k])
    requires Paths(sorted) == Descendants(before, root)
    requires Removed(before, now, Gone(sorted, i))
    ensures sorted[i].path in now
    ensures forall p :: p in now && sorted[i].path <= p ==> p == sorted[i].path
    ensures Removed(before, now - {sorted[i].path}, Gone(sorted, i + 1))
  {
    var path := sorted[i].path;
    forall p | p in now && path <= p
      ensures p == path
    {
      if p != path {
        NothingBelow(before, root, sorted, i, p);
      }
    }
    PathsSnoc(sorted[..i], sorted[i]);
    assert sorted[..i + 1] == sorted[..i] + [sorted[i]];
    assert forall j :: 0 <= j < i ==> sorted[..i][j].path != path;
  }

  lemma NothingBelow(before: Tree, root: Path, sorted: seq<Removal>, i: nat, p: Path)
    requires WellFormed(before) && Ordered(sorted) && i < |sorted|
    requires forall k :: 0 <= k < |sorted| ==> Describes(before, root, sorted[k])
    requires Paths(sorted) == Descendants(before, root)
    requires p in before && sorted[i].path < p
    ensures p in Gone(sorted, i)
  {
    assert root < sorted[i].path < p;
    assert p in Paths(sorted);
    var j :| 0 <= j < |sorted| && sorted[j].path == p;
    ContentsComeFirst(before, root, sorted, i, j);
    assert sorted[..i][j].path == p;
  }

  /**
  Validate, then mutate. Nothing is deleted unless every descendant was locked, unchanged and within
  the bounds, and the root is still the same; from then on only a failing delete can stop it. Unless a
  delete itself fails, the outcome is all or nothing.
  */
  method RemoveOpenTree(volume: Volume, root: Path, faults: Faults)
    returns (r: Result<(), Failure>)
    requires WellFormed(volume.entries) && root in volume.entries && volume.entries[root] == Directory
    modifies volume
    ensures volume.entries != old(volume.entries) ==> Cleared(old(volume.entries), root, faults)
    ensures r.Ok? <==> Cleared(old(volume.entries), root, faults) && Deletable(old(volume.entries), root, faults)
    ensures r.Ok? ==> volume.entries == Without(old(volume.entries), root)
    ensures r == Err(CallFailed(Delete, false)) ==>
              && Cleared(old(volume.entries), root, faults)
              && (exists gone :: gone <= Descendants(old(volume.entries), root)
                                 && Removed(old(volume.entries), volume.entries, gone))
    ensures r.Err? && r.error != CallFailed(Delete, false) ==>
              && volume.entries == old(volume.entries)
              && (Explains(old(volume.entries), root, faults, r.error)
                  || (r.error.ChangedDuringValidation? && faults.rootChanged
                      && WithinBounds(old(volume.entries), root) && Lockable(old(volume.entries), root, faults)))
  {
    var tree := volume.entries;
    var locked := LockAll(volume, root, faults);
    if locked.Err? {
      return Err(locked.error);
    }
    if faults.rootChanged {
      return Err(ChangedDuringValidation);
    }
    var sorted := Sorting.Sorted(locked.value, Precedes);
    SortOrders(locked.value);
    SortedStillCovers(tree, root, locked.value);
    r := DeleteAll(volume, root, tree, sorted, faults);
    if r.Ok? {
      RootLast(tree, root, volume.entries);
      r := volume.DeleteEntry(root, faults.delete(root));
    }
  }

  lemma RootLast(tree: Tree, root: Path, now: Tree)
    requires root in tree && Removed(tree, now, Descendants(tree, root))
    ensures root in now && (forall p :: p in now && root <= p ==> p == root)
    ensures now - {root} == Without(tree, root)
  {
  }

  method DeleteAll(volume: Volume, root: Path, ghost tree: Tree, sorted: seq<Removal>, faults: Faults)
    returns (r: Result<(), Failure>)
    requires volume.entries == tree && WellFormed(tree)
    requires Ordered(sorted) && Distinct(sorted) && Paths(sorted) == Descendants(tree, root)
    requires forall k :: 0 <= k < |sorted| ==> Describes(tree, root, sorted[k])
    modifies volume
    ensures r.Ok? ==> Removed(tree, volume.entries, Descendants(tree, root))
    ensures r.Err? ==> r.error == CallFailed(Delete, false)
    ensures r.Err? ==> exists gone :: gone <= Descendants(tree, root) && Removed(tree, volume.entries, gone)
    ensures r.Ok? <==> forall p :: p in Descendants(tree, root) ==> !faults.delete(p)
  {
    var i := 0;
    while i < |sorted|
      invariant 0 <= i <= |sorted|
      invariant forall j :: 0 <= j < i ==> !faults.delete(sorted[j].path)
      invariant Removed(tree, volume.entries, Gone(sorted, i))
    {
      ReadyToDelete(tree, root, sorted, i, volume.entries);
      var deleted := volume.DeleteEntry(sorted[i].path, faults.delete(sorted[i].path));
      if deleted.Err? {
        GonePart(sorted, i);
        assert sorted[i].path in Paths(sorted);
        return Err(deleted.error);
      }
      i := i + 1;
    }
    assert sorted[..i] == sorted;
    return Ok(());
  }

  lemma GonePart(sorted: seq<Removal>, i: nat)
    requires i <= |sorted|
    ensures Gone(sorted, i) <= Paths(sorted)
  {
    forall p | p in Gone(sorted, i)
      ensures p in Paths(sorted)
    {
      var j :| 0 <= j < i && sorted[..i][j].path == p;
      assert sorted[j].path == p;
    }
  }

  // The retry loop.

  /** The environment's part in one attempt: its checks, its faults, how long it takes, how long the sleep overruns. */
  datatype Attempt = Attempt(inspectionFails: bool, tokenMismatch: bool, faults: Faults, duration: nat, overrun: nat)

  datatype RemovalEnd = RemovedAfter | Fatal(error: Failure) | RetryExhausted(error: Failure)

  /** Nothing stands in the way of deleting: the checks passed, and the root and everything below it was locked. */
  ghost predicate MayDelete(tree: Tree, root: Path, a: Attempt) {
    !a.inspectionFails && !a.tokenMismatch && a.faults.lockRoot.None? && Cleared(tree, root, a.faults)
  }

  /** A sharing violation kept this attempt from locking the root or something below it. */
  ghost predicate SharingViolated(tree: Tree, root: Path, a: Attempt) {
    && !a.inspectionFails && !a.tokenMismatch
    && (a.faults.lockRoot == Some(true) || exists p :: p in Descendants(tree, root) && a.faults.lock(p) == Some(true))
  }

  /** Nothing but sharing violations, of the root or of entries below it, stands in the way of this attempt. */
  ghost predicate OnlyShared(tree: Tree, root: Path, a: Attempt) {
    && SharingViolated(tree, root, a) && a.faults.lockRoot != Some(false)
    && WithinBounds(tree, root)
    && (forall d :: d in tree && root <= d && tree[d] == Directory ==> !a.faults.enumerate(d))
    && (forall p :: p in Descendants(tree, root) ==> a.faults.lock(p) != Some(false) && !a.faults.changed(p))
  }

  /** The two errors that a removal waits out. */
  predicate IsSharing(f: Failure) {
    f == CallFailed(LockRoot, true) || f == CallFailed(LockEntry, true)
  }

  lemma OnlySharedIsSharing(tree: Tree, root: Path, a: Attempt, error: Failure)
    requires OnlyShared(tree, root, a) && Explains(tree, root, a.faults, error)
    ensures error == CallFailed(LockEntry, true)
  {
  }

  /** One attempt: it deletes only what it has locked. */
  method RemoveValidated(volume: Volume, root: Path, attempt: Attempt)
    returns (r: Result<(), Failure>)
    requires WellFormed(volume.entries) && root in volume.entries && volume.entries[root] == Directory
    modifies volume
    ensures volume.entries != old(volume.entries) ==> MayDelete(old(volume.entries), root, attempt)
    ensures r.Ok? <==> MayDelete(old(volume.entries), root, attempt) && Deletable(old(volume.entries), root, attempt.faults)
    ensures r.Ok? ==> volume.entries == Without(old(volume.entries), root)
    ensures r.Err? && r.error != CallFailed(Delete, false) ==> volume.entries == old(volume.entries)
    ensures r == Err(CallFailed(Delete, false)) ==> MayDelete(old(volume.entries), root, attempt)
    ensures r == Err(CallFailed(LockRoot, true)) ==> attempt.faults.lockRoot == Some(true)
    ensures r == Err(CallFailed(LockEntry, true)) ==>
              exists p :: p in Descendants(old(volume.entries), root) && attempt.faults.lock(p) == Some(true)
    ensures r.Err? && IsSharing(r.error) ==> SharingViolated(old(volume.entries), root, attempt)
    ensures OnlyShared(old(volume.entries), root, attempt) ==> r.Err? && IsSharing(r.error)
    ensures attempt.inspectionFails || attempt.tokenMismatch ==> r == Err(InspectionFailed)
    ensures !attempt.inspectionFails && !attempt.tokenMismatch && attempt.faults.lockRoot.Some? ==>
              r == Err(CallFailed(LockRoot, attempt.faults.lockRoot.value))
  {
    if attempt.inspectionFails || attempt.tokenMismatch {
      return Err(InspectionFailed);
    }
    if attempt.faults.lockRoot.Some? {
      return Err(CallFailed(LockRoot, attempt.faults.lockRoot.value));
    }
    ghost var tree := volume.entries;
    r := RemoveOpenTree(volume, root, attempt.faults);
    if OnlyShared(tree, root, attempt) {
      OnlySharedIsSharing(tree, root, attempt, r.error);
    }
  }

  datatype AttemptError = FatalError(error: Failure) | RetryableSharing(error: Failure)

  /**
  One attempt and what its failure means. It is to be retried where nothing but a sharing violation of the root or of
  an entry stood in the way, only for such a violation, and then nothing has been deleted.
  */
  method RemoveOnce(volume: Volume, root: Path, attempt: Attempt)
    returns (r: Result<(), AttemptError>)
    requires WellFormed(volume.entries) && root in volume.entries && volume.entries[root] == Directory
    modifies volume
    ensures volume.entries != old(volume.entries) ==> MayDelete(old(volume.entries), root, attempt)
    ensures r.Ok? <==> MayDelete(old(volume.entries), root, attempt) && Deletable(old(volume.entries), root, attempt.faults)
    ensures r.Ok? ==> volume.entries == Without(old(volume.entries), root)
    ensures OnlyShared(old(volume.entries), root, attempt) ==> r.Err? && r.error.RetryableSharing?
    ensures r.Err? && r.error.RetryableSharing? ==>
              && (r.error.error == CallFailed(LockRoot, true) || r.error.error == CallFailed(LockEntry, true))
              && SharingViolated(old(volume.entries), root, attempt) && volume.entries == old(volume.entries)
    ensures r.Err? && r.error.FatalError? ==>
              && r.error.error != CallFailed(LockRoot, true) && r.error.error != CallFailed(LockEntry, true)
              && (r.error.error != CallFailed(Delete, false) ==> volume.entries == old(volume.entries))
  {
    var result := RemoveValidated(volume, root, attempt);
    if result.Ok? {
      return Ok(());
    }
    return Err(if Retryable(result.error) then RetryableSharing(result.error) else FatalError(result.error));
  }

  /** How many pauses fit into the budget. */
  function Pauses(budget: nat): (n: nat)
    ensures n * 50_000_000 >= budget && (n > 0 ==> (n - 1) * 50_000_000 < budget)
  {
    var n := (budget + REMOVAL_RETRY_INTERVAL - 1) / REMOVAL_RETRY_INTERVAL;
    Ceiling(budget, n);
    n
  }

  lemma Ceiling(budget: nat, n: nat)
    requires n == (budget + REMOVAL_RETRY_INTERVAL - 1) / REMOVAL_RETRY_INTERVAL
    ensures n * REMOVAL_RETRY_INTERVAL >= budget && (n > 0 ==> (n - 1) * REMOVAL_RETRY_INTERVAL < budget)
  {
  }

  lemma PausesFit(budget: nat, k: nat)
    requires k * REMOVAL_RETRY_INTERVAL < budget
    ensures k + 1 <= Pauses(budget)
  {
    assert budget + REMOVAL_RETRY_INTERVAL - 1 >= (k + 1) * REMOVAL_RETRY_INTERVAL;
    DivideAtLeast(budget + REMOVAL_RETRY_INTERVAL - 1, k + 1);
  }

  lemma DivideAtLeast(n: nat, k: nat)
    requires n >= k * REMOVAL_RETRY_INTERVAL
    ensures n / REMOVAL_RETRY_INTERVAL >= k
  {
    var q := n / REMOVAL_RETRY_INTERVAL;
    assert n < (q + 1) * REMOVAL_RETRY_INTERVAL;
  }

  /** What the environment does in attempt `k`. */
  function At(schedule: nat -> Attempt, k: nat): Attempt {
    schedule(k)
  }

  /** What is paused after an attempt that ended at `done`: 50 ms, or what is left of the budget. */
  function Pause(maxWait: nat, done: nat): nat {
    if maxWait <= done then 0 else if maxWait - done < 50_000_000 then maxWait - done else 50_000_000
  }

  /** When attempt `k` begins, if it comes to that: after the attempts before it and the pauses between them. */
  function StartOf(schedule: nat -> Attempt, maxWait: nat, k: nat): nat {
    if k == 0 then 0
    else
      var done := StartOf(schedule, maxWait, k - 1) + At(schedule, k - 1).duration;
      done + Pause(maxWait, done) + At(schedule, k - 1).overrun
  }

  function EndOf(schedule: nat -> Attempt, maxWait: nat, k: nat): nat {
    StartOf(schedule, maxWait, k) + At(schedule, k).duration
  }

  /** What the pauses before attempt `k` add up to, without their overruns. */
  function Slept(schedule: nat -> Attempt, maxWait: nat, k: nat): nat {
    if k == 0 then 0 else Slept(schedule, maxWait, k - 1) + Pause(maxWait, EndOf(schedule, maxWait, k - 1))
  }

  /** Attempt `k` met a sharing violation and ended before the budget was spent. */
  ghost predicate GoesOn(tree: Tree, root: Path, schedule: nat -> Attempt, maxWait: nat, k: nat) {
    SharingViolated(tree, root, At(schedule, k)) && EndOf(schedule, maxWait, k) < maxWait
  }

  ghost predicate AllGoOn(tree: Tree, root: Path, schedule: nat -> Attempt, maxWait: nat, n: nat) {
    forall k :: 0 <= k < n ==> GoesOn(tree, root, schedule, maxWait, k)
  }

  lemma OneMoreGoesOn(tree: Tree, root: Path, schedule: nat -> Attempt, maxWait: nat, n: nat)
    requires AllGoOn(tree, root, schedule, maxWait, n) && GoesOn(tree, root, schedule, maxWait, n)
    ensures AllGoOn(tree, root, schedule, maxWait, n + 1)
  {
  }

  /** As long as it goes on, the pauses stay within the budget, and so many of them do not fit. */
  lemma {:induction false} InTime(tree: Tree, root: Path, schedule: nat -> Attempt, maxWait: nat, n: nat)
    requires AllGoOn(tree, root, schedule, maxWait, n)
    ensures Slept(schedule, maxWait, n) <= StartOf(schedule, maxWait, n)
    ensures Slept(schedule, maxWait, n) <= maxWait && n <= Pauses(maxWait)
    ensures StartOf(schedule, maxWait, n) < maxWait ==> n * 50_000_000 <= StartOf(schedule, maxWait, n)
  {
    if n > 0 {
      InTime(tree, root, schedule, maxWait, n - 1);
      assert GoesOn(tree, root, schedule, maxWait, n - 1);
      PausesFit(maxWait, n - 1);
    }
  }

  /** What the end of a removal says about its last attempt, the tree before and after it, and the time when it ended. */
  ghost predicate Ends(tree: Tree, after: Tree, root: Path, a: Attempt, done: nat, maxWait: nat, end: RemovalEnd) {
    && (after != tree ==> MayDelete(tree, root, a))
    && (OnlyShared(tree, root, a) ==> end.RetryExhausted?)
    && (end.RemovedAfter? <==> MayDelete(tree, root, a) && Deletable(tree, root, a.faults))
    && match end
       case RemovedAfter => after == Without(tree, root)
       case RetryExhausted(error) =>
         && (error == CallFailed(LockRoot, true) || error == CallFailed(LockEntry, true))
         && done >= maxWait && after == tree && SharingViolated(tree, root, a)
       case Fatal(error) =>
         && error != CallFailed(LockRoot, true) && error != CallFailed(LockEntry, true)
         && (error != CallFailed(Delete, false) ==> after == tree)
  }

  /** One attempt and, unless it is to be repeated, the end. */
  method RemoveOrWait(volume: Volume, root: Path, attempt: Attempt, began: nat, maxWait: nat)
    returns (end: Option<RemovalEnd>)
    requires WellFormed(volume.entries) && root in volume.entries && volume.entries[root] == Directory
    modifies volume
    ensures end.Some? ==>
              Ends(old(volume.entries), volume.entries, root, attempt, began + attempt.duration, maxWait, end.value)
    ensures end.None? ==>
              && SharingViolated(old(volume.entries), root, attempt) && volume.entries == old(volume.entries)
              && began + attempt.duration < maxWait
  {
    var r := RemoveOnce(volume, root, attempt);
    if r.Ok? {
      return Some(RemovedAfter);
    }
    if r.error.FatalError? {
      return Some(Fatal(r.error.error));
    }
    if began + attempt.duration >= maxWait {
      return Some(RetryExhausted(r.error.error));
    }
    return None;
  }

  /**
  Retries while the removal meets a sharing violation, within a budget. A sleep lasts at least as long
  as asked; nothing else is assumed of time. Every attempt starts from the full tree, every attempt but
  the last met a sharing violation, and only the last can have deleted anything, once it held all locks.
  An attempt that ends in a sharing violation before the budget is spent is never the last.
  */
  method RemoveWithRetry(
      volume: Volume, root: Path, schedule: nat -> Attempt, maxWait: nat)
    returns (end: RemovalEnd, attempts: nat, waited: nat)
    requires WellFormed(volume.entries) && root in volume.entries && volume.entries[root] == Directory
    modifies volume
    ensures 1 <= attempts <= Pauses(maxWait) + 1
    ensures waited == Slept(schedule, maxWait, attempts - 1) && waited <= maxWait
    ensures AllGoOn(old(volume.entries), root, schedule, maxWait, attempts - 1)
    ensures Ends(old(volume.entries), volume.entries, root, At(schedule, attempts - 1),
                 EndOf(schedule, maxWait, attempts - 1), maxWait, end)
  {
    attempts, waited := 0, 0;
    var clock: nat := 0;
    ghost var tree := volume.entries;
    while true
      invariant volume.entries == tree
      invariant AllGoOn(tree, root, schedule, maxWait, attempts)
      invariant clock == StartOf(schedule, maxWait, attempts) && waited == Slept(schedule, maxWait, attempts)
      decreases if clock < maxWait then maxWait - clock else 0, if clock < maxWait then 1 else 0
    {
      InTime(tree, root, schedule, maxWait, attempts);
      var attempt := At(schedule, attempts);
      var ended := RemoveOrWait(volume, root, attempt, clock, maxWait);
      attempts := attempts + 1;
      if ended.Some? {
        return ended.value, attempts, waited;
      }
      OneMoreGoesOn(tree, root, schedule, maxWait, attempts - 1);
      clock := clock + attempt.duration;
      var remaining := maxWait - clock;
      var delay := if REMOVAL_RETRY_INTERVAL < remaining then REMOVAL_RETRY_INTERVAL else remaining;
      clock := clock + delay + attempt.overrun;
      waited := waited + delay;
    }
  }
}
