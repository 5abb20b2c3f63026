/**
How large an installation may be.

Each pass over a mirror has bounds of its own: the one that grants the application packages access before
publication, the one that locks the published mirror for its readers, and the one that locks a tree for removal.
How many entries there are and how deep they lie decides which of them a tree passes, and with that what becomes of
a build.
*/
module MirrorLimits {
  import opened TreeRemoval
  import opened WindowsPaths
  import opened Wrappers
  import SourceTree

  const MAX_MIRROR_EXECUTABLES: nat := 64

  datatype Refusal = TooLarge | Changed | CallRefused

  /** Which calls of a pass fail; `grant` is the setting of an access list. */
  datatype PassFaults = PassFaults(
    enumerate: Path -> bool,
    open: Path -> bool,
    changed: Path -> bool,
    grant: Path -> bool)

  // The bounds.

  ghost predicate Publishable(tree: Tree) {
    |Descendants(tree, [])| <= 16_384 && forall p :: p in tree ==> |p| <= 64
  }

  predicate Executable(p: Path) {
    p != [] && |p[|p| - 1]| > 4 && Fold(p[|p| - 1][|p[|p| - 1]| - 4..]) == ".exe"
  }

  /** A program's name ends in `.exe`, in any letter case, after at least one character. */
  lemma ProgramsEndInExe(p: Path)
    requires p != []
    ensures var name := p[|p| - 1];
            Executable(p) <==>
              && |name| >= 5 && name[|name| - 4] == '.'
              && (name[|name| - 3] == 'e' || name[|name| - 3] == 'E')
              && (name[|name| - 2] == 'x' || name[|name| - 2] == 'X')
              && (name[|name| - 1] == 'e' || name[|name| - 1] == 'E')
  {
    var name := p[|p| - 1];
    if |name| >= 5 {
      var folded := Fold(name[|name| - 4..]);
      assert folded == ".exe" <==> folded[0] == '.' && folded[1] == 'e' && folded[2] == 'x' && folded[3] == 'e';
    }
  }

  ghost function Executables(tree: Tree, paths: set<Path>): set<Path> {
    set p | p in paths && p in tree && tree[p] == File && Executable(p)
  }

  /** The root counts as an entry here, and the depth of files does not matter. */
  ghost predicate Leasable(tree: Tree) {
    && |Descendants(tree, [])| < 16_384
    && (forall d :: d in tree && tree[d] == Directory ==> |d| <= 64)
    && |Executables(tree, tree.Keys)| <= 64
  }

  /** What can be published, or be read, can be removed. */
  lemma BoundsNest(tree: Tree)
    ensures Publishable(tree) || Leasable(tree) ==> WithinBounds(tree, [])
  {
  }

  // What the walks share.

  ghost predicate Rooted(tree: Tree) {
    WellFormed(tree) && [] in tree && tree[[]] == Directory
  }

  /** Every directory can be listed, and every entry opened and found unchanged. */
  ghost predicate Accessible(tree: Tree, f: PassFaults) {
    && (forall p :: p in Descendants(tree, []) ==> !f.open(p) && !f.changed(p))
    && (forall d :: d in tree && tree[d] == Directory ==> !f.enumerate(d))
  }

  ghost predicate AllOpened(recorded: seq<Removal>, f: PassFaults) {
    forall e :: e in recorded ==> !f.open(e.path) && !f.changed(e.path)
  }

  lemma Recorded(recorded: seq<Removal>, p: Path) returns (e: Removal)
    requires p in Paths(recorded)
    ensures e in recorded && e.path == p
  {
    var i :| 0 <= i < |recorded| && recorded[i].path == p;
    e := recorded[i];
  }

  /** A walk that has come to its end has seen everything. */
  lemma WalkEnds(tree: Tree, expanded: set<Path>, recorded: seq<Removal>, f: PassFaults)
    requires Rooted(tree) && Walk(tree, [], expanded, [], recorded)
    requires AllOpened(recorded, f) && forall d :: d in expanded ==> !f.enumerate(d)
    ensures Paths(recorded) == Descendants(tree, []) && |Descendants(tree, [])| == |recorded|
    ensures Accessible(tree, f)
  {
    WalkComplete(tree, [], recorded, expanded);
    DistinctCounts(recorded);
    forall p | p in Descendants(tree, [])
      ensures !f.open(p) && !f.changed(p)
    {
      var e := Recorded(recorded, p);
    }
    forall d | d in tree && tree[d] == Directory
      ensures !f.enumerate(d)
    {
      AllReached(tree, [], expanded, d);
    }
  }

  lemma AllTaken(children: seq<Path>, all: set<Path>)
    requires forall p :: p in children <==> p in all
    ensures Taken(children, |children|) == all
  {
  }

  lemma TakenSoFar(children: seq<Path>, i: nat)
    requires i <= |children|
    ensures Taken(children, 0) == {}
    ensures i < |children| ==> Taken(children, i + 1) == Taken(children, i) + {children[i]}
  {
  }

  /** The directory whose turn it is, is the root or was recorded. */
  lemma WaitingWasRecorded(tree: Tree, expanded: set<Path>, pending: seq<Removal>, recorded: seq<Removal>)
    requires Walk(tree, [], expanded, pending, recorded) && pending != []
    ensures var dir := pending[|pending| - 1].path; dir == [] || dir in Paths(recorded)
  {
    assert pending[|pending| - 1].path in Paths(pending);
  }

  // Granting access.

  ghost predicate Grants(tree: Tree, allFiles: bool, f: PassFaults) {
    forall p :: p in tree && (tree[p] == Directory || allFiles) ==> !f.grant(p)
  }

  ghost predicate AllGranted(recorded: seq<Removal>, allFiles: bool, f: PassFaults) {
    forall e :: e in recorded ==> |e.path| <= MAX_MIRROR_DEPTH && (e.directory || allFiles ==> !f.grant(e.path))
  }

  /** One child: counted, opened, and given its access list if it is a directory or every file gets one. */
  method GrantChild(
      tree: Tree, depth: nat, dir: Path, child: Path, waiting: seq<Removal>, visited: nat, allFiles: bool, f: PassFaults,
      ghost expanded: set<Path>, ghost recorded: seq<Removal>, ghost taken: set<Path>)
    returns (r: Result<seq<Removal>, Refusal>, ghost entry: Removal)
    requires dir !in expanded && depth == |dir| && child in Children(tree, dir) && child !in taken
    requires Front(tree, [], dir, expanded, waiting, recorded, taken) && visited == |recorded| <= MAX_MIRROR_ENTRIES
    requires AllOpened(recorded, f) && AllGranted(recorded, allFiles, f)
    ensures r.Ok? ==> Front(tree, [], dir, expanded, r.value, recorded + [entry], taken + {child})
    ensures r.Ok? ==> visited < MAX_MIRROR_ENTRIES
    ensures r.Ok? ==> AllOpened(recorded + [entry], f) && AllGranted(recorded + [entry], allFiles, f)
    ensures r == Err(TooLarge) ==> !Publishable(tree)
    ensures r.Err? ==> !(Publishable(tree) && Accessible(tree, f) && Grants(tree, allFiles, f))
  {
    entry := Removal(depth + 1, child, tree[child] == Directory);
    TakeChild(tree, [], dir, expanded, waiting, recorded, taken, entry);
    assert child in Descendants(tree, []);
    if visited == MAX_MIRROR_ENTRIES {
      CountTaken(tree, [], recorded, entry);
      return Err(TooLarge), entry;
    }
    if depth + 1 > MAX_MIRROR_DEPTH {
      return Err(TooLarge), entry;
    }
    if f.open(child) {
      return Err(CallRefused), entry;
    }
    if f.changed(child) {
      return Err(Changed), entry;
    }
    if (tree[child] == Directory || allFiles) && f.grant(child) {
      return Err(CallRefused), entry;
    }
    return Ok(if tree[child] == Directory then waiting + [Removal(depth + 1, child, true)] else waiting), entry;
  }

  method GrantChildren(
      tree: Tree, depth: nat, dir: Path, children: seq<Path>, waiting: seq<Removal>, visited: nat, allFiles: bool,
      f: PassFaults, ghost expanded: set<Path>, ghost recorded: seq<Removal>)
    returns (r: Result<(seq<Removal>, nat), Refusal>, ghost more: seq<Removal>)
    requires dir !in expanded && depth == |dir|
    requires forall i :: 0 <= i < |children| ==> children[i] in Children(tree, dir)
    requires forall i, j :: 0 <= i < j < |children| ==> children[i] != children[j]
    requires Front(tree, [], dir, expanded, waiting, recorded, {}) && visited == |recorded| <= MAX_MIRROR_ENTRIES
    requires AllOpened(recorded, f) && AllGranted(recorded, allFiles, f)
    ensures r.Ok? ==> Front(tree, [], dir, expanded, r.value.0, more, Taken(children, |children|))
    ensures r.Ok? ==> r.value.1 == |more| <= MAX_MIRROR_ENTRIES && AllOpened(more, f) && AllGranted(more, allFiles, f)
    ensures r == Err(TooLarge) ==> !Publishable(tree)
    ensures r.Err? ==> !(Publishable(tree) && Accessible(tree, f) && Grants(tree, allFiles, f))
  {
    r, more := Ok((waiting, visited)), recorded;
    TakenSoFar(children, 0);
    for i := 0 to |children|
      invariant r.Ok? && r.value.1 == |more| <= MAX_MIRROR_ENTRIES && AllOpened(more, f) && AllGranted(more, allFiles, f)
      invariant Front(tree, [], dir, expanded, r.value.0, more, Taken(children, i))
    {
      TakenSoFar(children, i);
      var next;
      ghost var entry;
      next, entry := GrantChild(tree, depth, dir, children[i], r.value.0, r.value.1, allFiles, f,
                                expanded, more, Taken(children, i));
      if next.Err? {
        return Err(next.error), more;
      }
      r, more := Ok((next.value, r.value.1 + 1)), more + [entry];
    }
  }

  lemma GrantingEnds(tree: Tree, recorded: seq<Removal>, allFiles: bool, f: PassFaults)
    requires Rooted(tree) && Paths(recorded) == Descendants(tree, []) && !f.grant([])
    requires (forall e :: e in recorded ==> Describes(tree, [], e)) && AllGranted(recorded, allFiles, f)
    ensures Grants(tree, allFiles, f) && forall p :: p in tree ==> |p| <= MAX_MIRROR_DEPTH
  {
    forall p | p in tree && p != []
      ensures |p| <= MAX_MIRROR_DEPTH && (tree[p] == Directory || allFiles ==> !f.grant(p))
    {
      var e := Recorded(recorded, p);
    }
  }

  /** Grants access to the whole tree; it succeeds exactly if the tree is within its bounds and no call fails. */
  method SetAcls(volume: Volume, allFiles: bool, f: PassFaults) returns (r: Result<(), Refusal>)
    requires Rooted(volume.entries)
    ensures r.Ok? <==>
      Publishable(volume.entries) && Accessible(volume.entries, f) && Grants(volume.entries, allFiles, f)
    ensures r == Err(TooLarge) ==> !Publishable(volume.entries)
  {
    var tree := volume.entries;
    if f.grant([]) {
      return Err(CallRefused);
    }
    var pending: seq<Removal>, visited := [Removal(0, [], true)], 0;
    ghost var expanded: set<Path>, recorded: seq<Removal> := {}, [];
    WalkStarts(tree, []);
    while pending != []
      invariant Walk(tree, [], expanded, pending, recorded) && visited == |recorded| <= MAX_MIRROR_ENTRIES
      invariant AllOpened(recorded, f) && AllGranted(recorded, allFiles, f)
      invariant forall d :: d in expanded ==> !f.enumerate(d)
      decreases tree.Keys - expanded
    {
      var Removal(depth, dir, _) := pending[|pending| - 1];
      OpenDirectory(tree, [], expanded, pending, recorded);
      Shallow(tree, expanded, pending, recorded, allFiles, f);
      pending := pending[..|pending| - 1];
      var listed := volume.List(dir, f.enumerate(dir));
      if listed.Err? {
        return Err(CallRefused);
      }
      var marked;
      marked, recorded := GrantChildren(tree, depth, dir, listed.value, pending, visited, allFiles, f,
                                        expanded, recorded);
      if marked.Err? {
        return Err(marked.error);
      }
      pending, visited := marked.value.0, marked.value.1;
      AllTaken(listed.value, Children(tree, dir));
      CloseDirectory(tree, [], dir, expanded, pending, recorded, Children(tree, dir));
      expanded := expanded + {dir};
    }
    WalkEnds(tree, expanded, recorded, f);
    GrantingEnds(tree, recorded, allFiles, f);
    return Ok(());
  }

  lemma Shallow(
      tree: Tree, expanded: set<Path>, pending: seq<Removal>, recorded: seq<Removal>, allFiles: bool, f: PassFaults)
    requires Walk(tree, [], expanded, pending, recorded) && pending != [] && AllGranted(recorded, allFiles, f)
    ensures |pending[|pending| - 1].path| <= MAX_MIRROR_DEPTH
  {
    WaitingWasRecorded(tree, expanded, pending, recorded);
    var dir := pending[|pending| - 1].path;
    if dir != [] {
      var e := Recorded(recorded, dir);
    }
  }

  // Leasing a published mirror.

  /** The executables seen so far. */
  ghost predicate Lists(found: seq<Path>, tree: Tree, recorded: seq<Removal>) {
    && SourceTree.Distinct(found)
    && (forall p :: p in found <==> p in Executables(tree, Paths(recorded)))
  }

  lemma {:induction false} DistinctSize(found: seq<Path>, all: set<Path>)
    requires SourceTree.Distinct(found) && forall p :: p in found <==> p in all
    ensures |found| == |all|
    decreases |found|
  {
    if found == [] {
      assert all == {};
    } else {
      var rest := found[1..];
      assert found == [found[0]] + rest;
      DistinctSize(rest, all - {found[0]});
    }
  }

  lemma ExecutablesGrow(tree: Tree, paths: set<Path>, p: Path)
    requires p in tree
    ensures Executables(tree, paths + {p}) ==
            Executables(tree, paths) + if tree[p] == File && Executable(p) then {p} else {}
  {
  }

  lemma OneMoreEntry(tree: Tree, found: seq<Path>, recorded: seq<Removal>, entry: Removal)
    requires Lists(found, tree, recorded) && entry.path in tree && entry.path !in Paths(recorded)
    ensures Lists(if tree[entry.path] == File && Executable(entry.path) then found + [entry.path] else found,
                  tree, recorded + [entry])
  {
    PathsSnoc(recorded, entry);
    ExecutablesGrow(tree, Paths(recorded), entry.path);
    SourceTree.DistinctConcat(found, [entry.path]);
  }

  /** A further executable beyond the limit shows that there are too many. */
  lemma TooManyExecutables(tree: Tree, found: seq<Path>, recorded: seq<Removal>, p: Path)
    requires Lists(found, tree, recorded) && |found| == MAX_MIRROR_EXECUTABLES
    requires p in tree && p !in Paths(recorded) && tree[p] == File && Executable(p)
    ensures !Leasable(tree)
  {
    DistinctSize(found + [p], Executables(tree, Paths(recorded)) + {p});
    SubsetCount(Executables(tree, Paths(recorded)) + {p}, Executables(tree, tree.Keys));
  }

  /** One child: locked for reading, counted, and noted if it is an executable. `locks` counts the root as well. */
  method LeaseChild(
      tree: Tree, depth: nat, dir: Path, child: Path, waiting: seq<Removal>, locks: nat, found: seq<Path>, f: PassFaults,
      ghost expanded: set<Path>, ghost recorded: seq<Removal>, ghost taken: set<Path>)
    returns (r: Result<(seq<Removal>, seq<Path>), Refusal>, ghost entry: Removal)
    requires dir !in expanded && depth == |dir| && child in Children(tree, dir) && child !in taken
    requires Front(tree, [], dir, expanded, waiting, recorded, taken) && locks == |recorded| + 1 <= MAX_MIRROR_ENTRIES
    requires AllOpened(recorded, f) && Lists(found, tree, recorded) && |found| <= MAX_MIRROR_EXECUTABLES
    ensures r.Ok? ==> Front(tree, [], dir, expanded, r.value.0, recorded + [entry], taken + {child})
    ensures r.Ok? ==> locks < MAX_MIRROR_ENTRIES && AllOpened(recorded + [entry], f)
    ensures r.Ok? ==> Lists(r.value.1, tree, recorded + [entry]) && |r.value.1| <= MAX_MIRROR_EXECUTABLES
    ensures r == Err(TooLarge) ==> !Leasable(tree)
    ensures r.Err? ==> !(Leasable(tree) && Accessible(tree, f))
  {
    entry := Removal(depth + 1, child, tree[child] == Directory);
    ChildIsNew(tree, [], dir, expanded, waiting, recorded, taken, entry);
    TakeChild(tree, [], dir, expanded, waiting, recorded, taken, entry);
    OneMoreEntry(tree, found, recorded, entry);
    assert child in Descendants(tree, []);
    if locks == MAX_MIRROR_ENTRIES {
      CountTaken(tree, [], recorded, entry);
      return Err(TooLarge), entry;
    }
    if f.open(child) {
      return Err(CallRefused), entry;
    }
    if f.changed(child) {
      return Err(Changed), entry;
    }
    if tree[child] == Directory {
      return Ok((waiting + [Removal(depth + 1, child, true)], found)), entry;
    }
    if !Executable(child) {
      return Ok((waiting, found)), entry;
    }
    if |found| == MAX_MIRROR_EXECUTABLES {
      TooManyExecutables(tree, found, recorded, child);
      return Err(TooLarge), entry;
    }
    return Ok((waiting, found + [child])), entry;
  }

  method LeaseChildren(
      tree: Tree, depth: nat, dir: Path, children: seq<Path>, waiting: seq<Removal>, locks: nat, found: seq<Path>,
      f: PassFaults, ghost expanded: set<Path>, ghost recorded: seq<Removal>)
    returns (r: Result<(seq<Removal>, nat, seq<Path>), Refusal>, ghost more: seq<Removal>)
    requires dir !in expanded && depth == |dir|
    requires forall i :: 0 <= i < |children| ==> children[i] in Children(tree, dir)
    requires forall i, j :: 0 <= i < j < |children| ==> children[i] != children[j]
    requires Front(tree, [], dir, expanded, waiting, recorded, {}) && locks == |recorded| + 1 <= MAX_MIRROR_ENTRIES
    requires AllOpened(recorded, f) && Lists(found, tree, recorded) && |found| <= MAX_MIRROR_EXECUTABLES
    ensures r.Ok? ==> Front(tree, [], dir, expanded, r.value.0, more, Taken(children, |children|))
    ensures r.Ok? ==> r.value.1 == |more| + 1 <= MAX_MIRROR_ENTRIES && AllOpened(more, f)
    ensures r.Ok? ==> Lists(r.value.2, tree, more) && |r.value.2| <= MAX_MIRROR_EXECUTABLES
    ensures r == Err(TooLarge) ==> !Leasable(tree)
    ensures r.Err? ==> !(Leasable(tree) && Accessible(tree, f))
  {
    var pending, count, seen := waiting, locks, found;
    more := recorded;
    TakenSoFar(children, 0);
    for i := 0 to |children|
      invariant count == |more| + 1 <= MAX_MIRROR_ENTRIES && AllOpened(more, f)
      invariant Lists(seen, tree, more) && |seen| <= MAX_MIRROR_EXECUTABLES
      invariant Front(tree, [], dir, expanded, pending, more, Taken(children, i))
    {
      TakenSoFar(children, i);
      var next;
      ghost var entry;
      next, entry := LeaseChild(tree, depth, dir, children[i], pending, count, seen, f,
                                expanded, more, Taken(children, i));
      if next.Err? {
        return Err(next.error), more;
      }
      pending, count, seen := next.value.0, count + 1, next.value.1;
      more := more + [entry];
    }
    return Ok((pending, count, seen)), more;
  }

  lemma LeasingEnds(tree: Tree, expanded: set<Path>, recorded: seq<Removal>, found: seq<Path>)
    requires Rooted(tree) && Walk(tree, [], expanded, [], recorded) && Paths(recorded) == Descendants(tree, [])
    requires Lists(found, tree, recorded)
    ensures forall p :: p in found <==> p in Executables(tree, tree.Keys)
    ensures |found| == |Executables(tree, tree.Keys)|
    ensures forall d :: d in tree && tree[d] == Directory ==> |d| <= MAX_MIRROR_DEPTH
  {
    assert Executables(tree, Paths(recorded)) == Executables(tree, tree.Keys);
    DistinctSize(found, Executables(tree, tree.Keys));
    forall d | d in tree && tree[d] == Directory
      ensures |d| <= MAX_MIRROR_DEPTH
    {
      AllReached(tree, [], expanded, d);
    }
  }

  /** What the walk keeps between directories. */
  ghost predicate Leasing(
      tree: Tree, expanded: set<Path>, pending: seq<Removal>, recorded: seq<Removal>, locks: nat, found: seq<Path>,
      f: PassFaults)
  {
    && Walk(tree, [], expanded, pending, recorded) && locks == |recorded| + 1 <= MAX_MIRROR_ENTRIES
    && AllOpened(recorded, f) && (forall d :: d in expanded ==> !f.enumerate(d))
    && Lists(found, tree, recorded) && |found| <= MAX_MIRROR_EXECUTABLES
  }

  lemma LeasingCloses(
      tree: Tree, expanded: set<Path>, pending: seq<Removal>, recorded: seq<Removal>, children: seq<Path>,
      waiting: seq<Removal>, more: seq<Removal>)
    requires Rooted(tree) && pending != [] && Walk(tree, [], expanded, pending, recorded)
    requires var dir := pending[|pending| - 1].path;
             && |dir| <= MAX_MIRROR_DEPTH && (forall p :: p in children <==> p in Children(tree, dir))
             && Front(tree, [], dir, expanded, waiting, more, Taken(children, |children|))
    ensures Walk(tree, [], expanded + {pending[|pending| - 1].path}, waiting, more)
  {
    var dir := pending[|pending| - 1].path;
    OpenDirectory(tree, [], expanded, pending, recorded);
    AllTaken(children, Children(tree, dir));
    CloseDirectory(tree, [], dir, expanded, waiting, more, Children(tree, dir));
  }

  /** The last of the waiting directories: within the bounds, it is listed and its children are locked. */
  method LeaseDirectory(
      volume: Volume, pending: seq<Removal>, locks: nat, found: seq<Path>, f: PassFaults,
      ghost expanded: set<Path>, ghost recorded: seq<Removal>)
    returns (r: Result<(seq<Removal>, nat, seq<Path>), Refusal>, ghost more: seq<Removal>)
    requires Rooted(volume.entries) && pending != []
    requires Leasing(volume.entries, expanded, pending, recorded, locks, found, f)
    ensures pending[|pending| - 1].path in volume.entries.Keys - expanded
    ensures r.Ok? ==> Leasing(volume.entries, expanded + {pending[|pending| - 1].path}, r.value.0, more,
                              r.value.1, r.value.2, f)
    ensures r == Err(TooLarge) ==> !Leasable(volume.entries)
    ensures r.Err? ==> !(Leasable(volume.entries) && Accessible(volume.entries, f))
  {
    var tree := volume.entries;
    var Removal(depth, dir, _) := pending[|pending| - 1];
    OpenDirectory(tree, [], expanded, pending, recorded);
    more := recorded;
    if depth > MAX_MIRROR_DEPTH || locks > MAX_MIRROR_ENTRIES {
      return Err(TooLarge), more;
    }
    var listed := volume.List(dir, f.enumerate(dir));
    if listed.Err? {
      return Err(CallRefused), more;
    }
    r, more := LeaseChildren(tree, depth, dir, listed.value, pending[..|pending| - 1], locks, found, f, expanded, recorded);
    if r.Ok? {
      LeasingCloses(tree, expanded, pending, recorded, listed.value, r.value.0, more);
    }
  }

  /** Locks a whole mirror for reading and lists its executables; exactly the trees within its bounds can be leased. */
  method Inspect(volume: Volume, f: PassFaults) returns (r: Result<seq<Path>, Refusal>)
    requires Rooted(volume.entries)
    ensures r.Ok? <==> Leasable(volume.entries) && Accessible(volume.entries, f)
    ensures r.Ok? ==> SourceTree.Distinct(r.value)
                      && forall p :: p in r.value <==> p in Executables(volume.entries, volume.entries.Keys)
    ensures r == Err(TooLarge) ==> !Leasable(volume.entries)
  {
    var tree := volume.entries;
    var pending: seq<Removal>, locks, found: seq<Path> := [Removal(0, [], true)], 1, [];
    ghost var expanded: set<Path>, recorded: seq<Removal> := {}, [];
    WalkStarts(tree, []);
    while pending != []
      invariant Leasing(tree, expanded, pending, recorded, locks, found, f)
      decreases tree.Keys - expanded
    {
      ghost var dir := pending[|pending| - 1].path;
      var leased;
      leased, recorded := LeaseDirectory(volume, pending, locks, found, f, expanded, recorded);
      if leased.Err? {
        return Err(leased.error);
      }
      pending, locks, found := leased.value.0, leased.value.1, leased.value.2;
      expanded := expanded + {dir};
    }
    WalkEnds(tree, expanded, recorded, f);
    LeasingEnds(tree, expanded, recorded, found);
    return Ok(found);
  }
}
