/**
Taking stock of the browser's installation directory and rebuilding it.

The program compares names by folding ASCII letters; which names the file system takes for the same is a parameter,
and may be coarser. Calls that may fail are decided by fault records.
*/
module SourceTree {
  import opened Bytes
  import opened Sorting
  import opened WindowsPaths
  import opened Wrappers

  const READY_MANIFEST := ".dig2browser-runtime-ready.json"

  datatype Node = Folder | File(content: Text)

  type Tree = map<Path, Node>

  function Last(p: Path): string
    requires p != []
  {
    p[|p| - 1]
  }

  ghost predicate Sound(tree: Tree) {
    && [] in tree && tree[[]] == Folder
    && (forall p :: p in tree ==> ValidPath(p))
    && (forall p {:trigger Parent(p)} :: p in tree && p != [] ==> Parent(p) in tree && tree[Parent(p)] == Folder)
  }

  /** No two entries differ only in the case of ASCII letters. */
  ghost predicate KeysDistinct(tree: Tree) {
    forall p, q :: p in tree && q in tree && Key(p) == Key(q) ==> p == q
  }

  datatype Entry = Entry(path: Path, node: Node)

  ghost function Entries(tree: Tree, paths: set<Path>): set<Entry>
    requires paths <= tree.Keys
  {
    set p | p in paths :: Entry(p, tree[p])
  }

  /** A list of some entries of a tree, each once. */
  ghost predicate Listed(entries: seq<Entry>, tree: Tree, paths: set<Path>) {
    paths <= tree.Keys && multiset(entries) == multiset(Entries(tree, paths))
  }

  predicate EntryAtMost(a: Entry, b: Entry) {
    TextAtMost(Key(a.path), Key(b.path))
  }

  predicate DepthAtMost(a: Entry, b: Entry) {
    |a.path| <= |b.path|
  }

  lemma EntryPreorder()
    ensures Preorder(EntryAtMost)
  {
    forall a: Entry, b: Entry
      ensures EntryAtMost(a, b) || EntryAtMost(b, a)
    {
      TextTotal(Key(a.path), Key(b.path));
    }
    forall a: Entry, b: Entry, c: Entry | EntryAtMost(a, b) && EntryAtMost(b, c)
      ensures EntryAtMost(a, c)
    {
      TextTransitive(Key(a.path), Key(b.path), Key(c.path));
    }
  }

  datatype Failure = CallFailed | SourceChanged | Reserved | MissingParent | Collision | LegacyMode

  // Collecting.

  datatype ScanFaults = ScanFaults(
    inspect: Path -> bool,
    enumerate: Path -> bool,
    open: Path -> bool,
    replaced: Path -> bool) // the opened file is not the one enumerated

  ghost predicate ScanUndisturbed(f: ScanFaults) {
    forall p :: !f.inspect(p) && !f.enumerate(p) && !f.open(p) && !f.replaced(p)
  }

  ghost predicate Distinct(paths: seq<Path>) {
    forall i, j :: 0 <= i < j < |paths| ==> paths[i] != paths[j]
  }

  /** Every directory of the tree lists its children, each once, in some order. */
  ghost predicate Enumerates(listing: Path -> seq<Path>, tree: Tree) {
    forall dir :: dir in tree && tree[dir] == Folder ==>
      && Distinct(listing(dir))
      && (forall p :: p in listing(dir) <==> p in tree && p != [] && Parent(p) == dir)
  }

  /** What the worklist keeps: nothing twice, parents before children, and no child of a visited directory forgotten. */
  ghost predicate Walk(tree: Tree, visited: set<Path>, pending: seq<Path>) {
    && visited <= tree.Keys && Distinct(pending)
    && (forall p :: p in pending ==> p in tree && p !in visited)
    && (forall p :: (p in visited || p in pending) && p != [] ==> Parent(p) in visited)
    && (forall p :: p in tree && p != [] && Parent(p) in visited ==> p in visited || p in pending)
    && ([] in visited || [] in pending)
  }

  function Pop(pending: seq<Path>): seq<Path>
    requires pending != []
  {
    pending[..|pending| - 1]
  }

  lemma PopMembers(pending: seq<Path>)
    requires pending != [] && Distinct(pending)
    ensures Distinct(Pop(pending)) && pending[|pending| - 1] !in Pop(pending)
    ensures forall p :: p in pending <==> p in Pop(pending) || p == pending[|pending| - 1]
  {
    assert pending == Pop(pending) + [pending[|pending| - 1]];
  }

  lemma DistinctConcat(a: seq<Path>, b: seq<Path>)
    requires Distinct(a) && Distinct(b) && forall p :: p in a ==> p !in b
    ensures Distinct(a + b)
  {
    var both := a + b;
    forall i, j | 0 <= i < j < |both|
      ensures both[i] != both[j]
    {
      if i < |a| <= j {
        assert both[i] in a && both[j] == b[j - |a|] && both[j] in b;
      }
    }
  }

  lemma WalkStep(tree: Tree, visited: set<Path>, pending: seq<Path>, found: seq<Path>)
    requires Sound(tree) && pending != [] && Walk(tree, visited, pending) && Distinct(found)
    requires forall p :: p in found <==> p in tree && p != [] && Parent(p) == pending[|pending| - 1]
    ensures Walk(tree, visited + {pending[|pending| - 1]}, Pop(pending) + found)
  {
    PopMembers(pending);
    DistinctConcat(Pop(pending), found);
  }

  lemma {:induction false} AllVisited(tree: Tree, visited: set<Path>, p: Path)
    requires Sound(tree) && Walk(tree, visited, []) && p in tree
    ensures p in visited
    decreases |p|
  {
    if p != [] {
      AllVisited(tree, visited, Parent(p));
    }
  }

  lemma ListedMore(entries: seq<Entry>, tree: Tree, paths: set<Path>, p: Path)
    requires Listed(entries, tree, paths) && p in tree && p !in paths
    ensures Listed(entries + [Entry(p, tree[p])], tree, paths + {p})
  {
    assert Entries(tree, paths + {p}) == Entries(tree, paths) + {Entry(p, tree[p])};
  }

  ghost predicate Scan(tree: Tree, visited: set<Path>, pending: seq<Path>, entries: seq<Entry>) {
    Walk(tree, visited, pending) && Listed(entries, tree, visited) && [READY_MANIFEST] !in visited
  }

  lemma ScanStarts(tree: Tree)
    requires Sound(tree)
    ensures Scan(tree, {}, [[]], [])
  {
    assert Entries(tree, {}) == {};
  }

  lemma ScanStep(tree: Tree, visited: set<Path>, pending: seq<Path>, entries: seq<Entry>, relative: Path, found: seq<Path>)
    requires Sound(tree) && Scan(tree, visited, pending, entries) && pending != [] && Distinct(found)
    requires relative == pending[|pending| - 1] && relative != [READY_MANIFEST]
    requires forall p :: p in found <==> p in tree && p != [] && Parent(p) == relative
    ensures relative in tree
    ensures Scan(tree, visited + {relative}, Pop(pending) + found, entries + [Entry(relative, tree[relative])])
    ensures |tree.Keys - (visited + {relative})| < |tree.Keys - visited|
  {
    WalkStep(tree, visited, pending, found);
    ListedMore(entries, tree, visited, relative);
    Shrinks(tree.Keys, visited, relative);
  }

  /** Opens the children of a directory one by one. */
  method OpenChildren(children: seq<Path>, faults: ScanFaults) returns (r: Result<seq<Path>, Failure>)
    ensures r.Ok? ==> r.value == children
    ensures ScanUndisturbed(faults) ==> r.Ok?
    ensures r.Err? ==> r.error != Reserved
  {
    var handles: seq<Path> := [];
    for i := 0 to |children|
      invariant handles == children[..i]
    {
      if faults.open(children[i]) {
        return Err(CallFailed);
      }
      if faults.replaced(children[i]) {
        return Err(SourceChanged);
      }
      handles := handles + [children[i]];
    }
    return Ok(handles);
  }

  /** Looks at one entry and opens what is in it. */
  method OpenEntry(tree: Tree, relative: Path, listing: Path -> seq<Path>, faults: ScanFaults)
    returns (r: Result<seq<Path>, Failure>)
    requires Sound(tree) && Enumerates(listing, tree) && relative in tree
    ensures r.Ok? ==> relative != [READY_MANIFEST] && Distinct(r.value) &&
                      forall p :: p in r.value <==> p in tree && p != [] && Parent(p) == relative
    ensures r == Err(Reserved) ==> relative == [READY_MANIFEST]
    ensures ScanUndisturbed(faults) ==> if relative == [READY_MANIFEST] then r == Err(Reserved) else r.Ok?
  {
    if relative == [READY_MANIFEST] {
      return Err(Reserved);
    }
    if faults.inspect(relative) {
      return Err(CallFailed);
    }
    if tree[relative].File? {
      return Ok([]);
    }
    if faults.enumerate(relative) {
      return Err(CallFailed);
    }
    r := OpenChildren(listing(relative), faults);
  }

  lemma Collected(tree: Tree, visited: set<Path>, entries: seq<Entry>)
    requires Sound(tree) && Scan(tree, visited, [], entries)
    ensures [READY_MANIFEST] !in tree
    ensures Listed(Sorted(entries, EntryAtMost), tree, tree.Keys) && Ordered(Sorted(entries, EntryAtMost), EntryAtMost)
  {
    forall p | p in tree
      ensures p in visited
    {
      AllVisited(tree, visited, p);
    }
    EntryPreorder();
    SortedContents(entries, EntryAtMost);
    SortedOrdered(entries, EntryAtMost);
  }

  /** The complete list of entries in the order of their keys; a reserved name at the top is refused. */
  method CollectSourceTree(tree: Tree, listing: Path -> seq<Path>, faults: ScanFaults)
    returns (r: Result<seq<Entry>, Failure>)
    requires Sound(tree) && Enumerates(listing, tree)
    ensures r.Ok? ==> Listed(r.value, tree, tree.Keys) && Ordered(r.value, EntryAtMost) && [READY_MANIFEST] !in tree
    ensures r == Err(Reserved) ==> [READY_MANIFEST] in tree
    ensures ScanUndisturbed(faults) ==> if [READY_MANIFEST] in tree then r == Err(Reserved) else r.Ok?
  {
    var pending: seq<Path>, entries: seq<Entry> := [[]], [];
    ghost var visited: set<Path> := {};
    ScanStarts(tree);
    while pending != []
      invariant Scan(tree, visited, pending, entries)
      decreases |tree.Keys - visited|
    {
      var relative := pending[|pending| - 1];
      var found := OpenEntry(tree, relative, listing, faults);
      if found.Err? {
        return Err(found.error);
      }
      ScanStep(tree, visited, pending, entries, relative, found.value);
      pending := Pop(pending) + found.value;
      entries := entries + [Entry(relative, tree[relative])];
      visited := visited + {relative};
    }
    Collected(tree, visited, entries);
    return Ok(Sorted(entries, EntryAtMost));
  }

  lemma Shrinks(all: set<Path>, visited: set<Path>, p: Path)
    requires p in all && p !in visited
    ensures |all - (visited + {p})| < |all - visited|
  {
    assert all - visited == (all - (visited + {p})) + {p};
  }

  /** Whatever order the directories are enumerated in, the list of entries, and with it the fingerprint, is the same. */
  lemma OneListOfEntries(tree: Tree, entries: seq<Entry>, entries': seq<Entry>)
    requires KeysDistinct(tree)
    requires Listed(entries, tree, tree.Keys) && Ordered(entries, EntryAtMost)
    requires Listed(entries', tree, tree.Keys) && Ordered(entries', EntryAtMost)
    ensures entries == entries'
  {
    forall a, b | a in entries && b in entries && EntryAtMost(a, b) && EntryAtMost(b, a)
      ensures a == b
    {
      TextTotal(Key(a.path), Key(b.path));
      assert a in multiset(entries) && b in multiset(entries);
    }
    OneOrder(entries, entries', EntryAtMost);
  }

  // Copying one file.

  /** The reads of a first pass, what the written file reads back as, and what a second pass over the source reads. */
  datatype Reading = Reading(chunks: seq<Text>, readBack: Text, again: Text)

  /** Everything read before the first empty read. */
  function FirstPass(chunks: seq<Text>): Text {
    if chunks == [] || chunks[0] == [] then [] else chunks[0] + FirstPass(chunks[1..])
  }

  ghost predicate Injective(digest: Text -> nat) {
    forall a, b :: digest(a) == digest(b) ==> a == b
  }

  /** Accepts a copy exactly when both passes and the written file agree and have the recorded size. */
  method CopyFile(size: nat, reading: Reading, digest: Text -> nat) returns (r: Result<Text, Failure>)
    requires size <= U64_MAX && Injective(digest)
    ensures r.Ok? ==> r.value == FirstPass(reading.chunks)
    ensures r.Err? ==> r.error == SourceChanged
    ensures r.Ok? <==> var all := FirstPass(reading.chunks);
                       |all| == size && reading.readBack == all && reading.again == all
  {
    var copied := 0;
    var target: Text := [];
    ghost var all := FirstPass(reading.chunks);
    var i := 0;
    while i < |reading.chunks| && reading.chunks[i] != []
      invariant 0 <= i <= |reading.chunks| && copied == |target|
      invariant all == target + FirstPass(reading.chunks[i..])
    {
      assert reading.chunks[i..][1..] == reading.chunks[i + 1..];
      assert target + (reading.chunks[i] + FirstPass(reading.chunks[i + 1..])) ==
             target + reading.chunks[i] + FirstPass(reading.chunks[i + 1..]);
      target := target + reading.chunks[i];
      if copied + |reading.chunks[i]| > U64_MAX {
        return Err(SourceChanged);
      }
      copied := copied + |reading.chunks[i]|;
      i := i + 1;
    }
    assert FirstPass(reading.chunks[i..]) == [] && target == all;
    if copied != size || |reading.readBack| != size {
      return Err(SourceChanged);
    }
    if digest(target) != digest(reading.readBack) || digest(target) != digest(reading.again) {
      return Err(SourceChanged);
    }
    return Ok(target);
  }

  // Rebuilding the tree.

  ghost function Selected(tree: Tree, folders: bool): set<Path> {
    set p | p in tree && p != [] && tree[p].Folder? == folders
  }

  predicate Keeps(e: Entry, folders: bool) {
    e.path != [] && e.node.Folder? == folders
  }

  function Kept(entries: seq<Entry>, folders: bool): seq<Entry> {
    if entries == [] then []
    else (if Keeps(entries[0], folders) then [entries[0]] else []) + Kept(entries[1..], folders)
  }

  lemma {:induction false} KeptCounts(entries: seq<Entry>, folders: bool, e: Entry)
    ensures multiset(Kept(entries, folders))[e] == if Keeps(e, folders) then multiset(entries)[e] else 0
  {
    if entries != [] {
      KeptCounts(entries[1..], folders, e);
      assert entries == [entries[0]] + entries[1..];
    }
  }

  lemma KeptListed(entries: seq<Entry>, tree: Tree, folders: bool)
    requires Sound(tree) && Listed(entries, tree, tree.Keys)
    ensures Listed(Kept(entries, folders), tree, Selected(tree, folders))
  {
    var kept := multiset(Kept(entries, folders));
    forall e: Entry
      ensures kept[e] == multiset(Entries(tree, Selected(tree, folders)))[e]
    {
      KeptCounts(entries, folders, e);
      assert e in Entries(tree, Selected(tree, folders)) <==> e in Entries(tree, tree.Keys) && Keeps(e, folders);
    }
  }

  lemma SortedListed(entries: seq<Entry>, tree: Tree, paths: set<Path>)
    requires Listed(entries, tree, paths)
    ensures Listed(Sorted(entries, DepthAtMost), tree, paths) && Ordered(Sorted(entries, DepthAtMost), DepthAtMost)
  {
    SortedContents(entries, DepthAtMost);
    SortedOrdered(entries, DepthAtMost);
  }

  ghost function Done(entries: seq<Entry>, n: nat): set<Path>
    requires n <= |entries|
  {
    set i | 0 <= i < n :: entries[i].path
  }

  lemma ListedMember(entries: seq<Entry>, tree: Tree, paths: set<Path>, e: Entry)
    requires Listed(entries, tree, paths)
    ensures e in entries <==> e.path in paths && e.node == tree[e.path]
  {
    assert e in entries <==> e in multiset(entries);
    assert e in multiset(Entries(tree, paths)) <==> e in Entries(tree, paths);
  }

  lemma ListedNext(entries: seq<Entry>, tree: Tree, paths: set<Path>, n: nat)
    requires Listed(entries, tree, paths) && n < |entries|
    ensures entries[n].path in paths && entries[n].node == tree[entries[n].path]
    ensures entries[n].path !in Done(entries, n)
    ensures Done(entries, n + 1) == Done(entries, n) + {entries[n].path}
  {
    ListedMember(entries, tree, paths, entries[n]);
    if entries[n].path in Done(entries, n) {
      var i :| 0 <= i < n && entries[i].path == entries[n].path;
      ListedMember(entries, tree, paths, entries[i]);
      CountedTwice(entries, i, n);
    }
  }

  lemma ListedWhole(entries: seq<Entry>, tree: Tree, paths: set<Path>)
    requires Listed(entries, tree, paths)
    ensures Done(entries, |entries|) == paths
  {
    forall p | p in paths
      ensures p in Done(entries, |entries|)
    {
      ListedMember(entries, tree, paths, Entry(p, tree[p]));
      var i :| 0 <= i < |entries| && entries[i] == Entry(p, tree[p]);
      assert entries[i].path == p;
    }
    forall i | 0 <= i < |entries|
      ensures entries[i].path in paths
    {
      ListedMember(entries, tree, paths, entries[i]);
    }
  }

  /** What a file system makes of names before it compares them; it tells apart no names that the program does not. */
  ghost predicate Coarser(alike: string -> string) {
    forall a, b :: ValidName(a) && ValidName(b) && Fold(a) == Fold(b) ==> alike(a) == alike(b)
  }

  /** Something in the same directory already has that name, as the file system sees it. */
  ghost predicate Taken(tree: Tree, p: Path, alike: string -> string)
    requires p != []
  {
    exists q :: q in tree && q != [] && Parent(q) == Parent(p) && alike(Last(q)) == alike(Last(p))
  }

  /** No directory holds two entries whose names the file system takes for the same. */
  ghost predicate NamesDistinct(tree: Tree, alike: string -> string) {
    forall p, q ::
      p in tree && q in tree && p != [] && q != [] && Parent(p) == Parent(q) && alike(Last(p)) == alike(Last(q))
      ==> p == q
  }

  lemma FoldNamesSnoc(p: Path)
    requires p != []
    ensures FoldNames(p) == FoldNames(Parent(p)) + [Fold(Last(p))]
  {
  }

  lemma SameSnoc<T>(a: seq<T>, x: T, b: seq<T>, y: T)
    ensures a + [x] == b + [y] <==> a == b && x == y
  {
    if a + [x] == b + [y] {
      assert (a + [x])[..|a|] == a && (b + [y])[..|b|] == b;
      assert (a + [x])[|a|] == x && (b + [y])[|b|] == y;
    }
  }

  lemma SplitLast(p: Path, q: Path)
    requires p != [] && q != []
    ensures FoldNames(p) == FoldNames(q) <==> FoldNames(Parent(p)) == FoldNames(Parent(q)) && Fold(Last(p)) == Fold(Last(q))
  {
    FoldNamesSnoc(p);
    FoldNamesSnoc(q);
    SameSnoc(FoldNames(Parent(p)), Fold(Last(p)), FoldNames(Parent(q)), Fold(Last(q)));
  }

  /** Siblings are kept apart by their names just when their keys differ. */
  lemma TakenByKey(tree: Tree, p: Path, q: Path)
    requires Sound(tree) && KeysDistinct(tree) && ValidPath(p) && p != [] && Parent(p) in tree
    requires q in tree && q != []
    ensures Key(p) == Key(q) <==> Parent(q) == Parent(p) && Fold(Last(q)) == Fold(Last(p))
  {
    SameKey(p, q);
    SplitLast(p, q);
    SameKey(Parent(p), Parent(q));
  }

  lemma EmptyKey(p: Path)
    requires ValidPath(p)
    ensures Key(p) == Key([]) <==> p == []
  {
    SameKey(p, []);
  }

  /** What rebuilding keeps: a part of the source, and a handle for every directory of it, found by its key. */
  ghost predicate Building(source: Tree, built: Tree, handles: map<string, Path>, alike: string -> string) {
    && Sound(built) && KeysDistinct(built) && NamesDistinct(built, alike) && Coarser(alike)
    && (forall p :: p in built ==> p in source && built[p] == source[p])
    && HandlesFind(built, handles)
  }

  lemma KeysStayDistinct(built: Tree, p: Path, node: Node, alike: string -> string)
    requires Sound(built) && KeysDistinct(built) && ValidPath(p) && p != [] && Parent(p) in built
    requires Coarser(alike) && !Taken(built, p, alike)
    ensures p !in built && KeysDistinct(built[p := node])
  {
    forall q | q in built
      ensures Key(q) != Key(p)
    {
      if q == [] {
        EmptyKey(p);
      } else {
        TakenByKey(built, p, q);
      }
    }
  }

  lemma NamesStayDistinct(built: Tree, p: Path, node: Node, alike: string -> string)
    requires NamesDistinct(built, alike) && p != [] && p !in built && !Taken(built, p, alike)
    ensures NamesDistinct(built[p := node], alike)
  {
  }

  /** Names that the file system keeps apart have different keys throughout the tree. */
  lemma {:induction false} NamesThenKeys(tree: Tree, alike: string -> string, p: Path, q: Path)
    requires Sound(tree) && Coarser(alike) && NamesDistinct(tree, alike) && p in tree && q in tree && Key(p) == Key(q)
    ensures p == q
    decreases |p|
  {
    SameKey(p, q);
    if p != [] && q != [] {
      SplitLast(p, q);
      SameKey(Parent(p), Parent(q));
      NamesThenKeys(tree, alike, Parent(p), Parent(q));
    }
  }

  lemma StaysSound(built: Tree, p: Path, node: Node)
    requires Sound(built) && ValidPath(p) && p != [] && p !in built && Parent(p) in built && built[Parent(p)] == Folder
    ensures Sound(built[p := node])
  {
  }

  ghost predicate HandlesFind(built: Tree, handles: map<string, Path>) {
    forall p :: p in built && built[p].Folder? ==> Key(p) in handles && handles[Key(p)] == p
  }

  lemma HandlesStillFind(built: Tree, handles: map<string, Path>, p: Path, node: Node)
    requires HandlesFind(built, handles) && p !in built && KeysDistinct(built[p := node])
    ensures HandlesFind(built[p := node], if node.Folder? then handles[Key(p) := p] else handles)
  {
    var next := built[p := node];
    forall q | q in built
      ensures Key(q) != Key(p)
    {
      assert q in next && p in next;
    }
  }

  lemma AddNode(source: Tree, built: Tree, handles: map<string, Path>, alike: string -> string, p: Path)
    requires Sound(source) && Building(source, built, handles, alike)
    requires p in source && p != [] && Parent(p) in built && !Taken(built, p, alike)
    ensures Building(source, built[p := source[p]], if source[p].Folder? then handles[Key(p) := p] else handles, alike)
  {
    KeysStayDistinct(built, p, source[p], alike);
    NamesStayDistinct(built, p, source[p], alike);
    StaysSound(built, p, source[p]);
    HandlesStillFind(built, handles, p, source[p]);
  }

  lemma TakenMeansCollision(source: Tree, built: Tree, handles: map<string, Path>, alike: string -> string, p: Path)
    requires Building(source, built, handles, alike) && p in source && p !in built && p != [] && Taken(built, p, alike)
    ensures !NamesDistinct(source, alike)
  {
    var q :| q in built && q != [] && Parent(q) == Parent(p) && alike(Last(q)) == alike(Last(p));
    assert q in source;
  }

  datatype Mode = HardLink | Copy | Legacy

  datatype BuildFaults = BuildFaults(create: Path -> bool, link: Path -> bool, reading: Path -> Reading)

  /** Files are opened so that nobody can write them, so a second pass reads what was there. */
  ghost predicate Locked(source: Tree, faults: BuildFaults) {
    forall p :: p in source && source[p].File? ==>
      |source[p].content| <= U64_MAX && faults.reading(p).again == source[p].content
  }

  ghost predicate BuildUndisturbed(source: Tree, faults: BuildFaults) {
    && (forall p :: !faults.create(p) && !faults.link(p))
    && (forall p :: p in source && source[p].File? ==>
          FirstPass(faults.reading(p).chunks) == source[p].content && faults.reading(p).readBack == source[p].content)
  }

  class Staging {
    const alike: string -> string
    var tree: Tree

    constructor (alike: string -> string)
      ensures tree == map[[] := Folder] && this.alike == alike
    {
      this.alike := alike;
      tree := map[[] := Folder];
    }

    /** Creates a node under a name that must be new in its directory. */
    method Create(parent: Path, name: string, node: Node, fails: bool) returns (r: Result<(), Failure>)
      modifies this
      ensures r.Ok? ==> !Taken(old(tree), parent + [name], alike) && tree == old(tree)[parent + [name] := node]
      ensures r.Err? ==> tree == old(tree)
      ensures !fails && r.Err? ==> Taken(old(tree), parent + [name], alike)
      ensures r.Err? ==> r.error != MissingParent
    {
      if fails {
        return Err(CallFailed);
      }
      if exists q :: q in tree && q != [] && Parent(q) == parent && alike(Last(q)) == alike(name) {
        assert Parent(parent + [name]) == parent;
        return Err(Collision);
      }
      assert Parent(parent + [name]) == parent;
      tree := tree[parent + [name] := node];
      return Ok(());
    }

    method Write(path: Path, content: Text)
      requires path in tree
      modifies this
      ensures tree == old(tree)[path := File(content)]
    {
      tree := tree[path := File(content)];
    }
  }

  ghost predicate FoldersBuilt(source: Tree, directories: seq<Entry>, n: nat, built: Tree, handles: map<string, Path>,
                              alike: string -> string)
  {
    && n <= |directories| && Building(source, built, handles, alike)
    && built.Keys == {[]} + Done(directories, n)
  }

  /** Parents come before children, so a directory's parent has been made when its turn comes. */
  lemma FolderReady(source: Tree, directories: seq<Entry>, n: nat, built: Tree, handles: map<string, Path>,
                    alike: string -> string)
    requires Sound(source) && Listed(directories, source, Selected(source, true)) && Ordered(directories, DepthAtMost)
    requires FoldersBuilt(source, directories, n, built, handles, alike) && n < |directories|
    ensures var p := directories[n].path;
            p in source && p != [] && source[p] == Folder && p !in built && Parent(p) in built && built[Parent(p)] == Folder
  {
    var p := directories[n].path;
    var paths := Selected(source, true);
    ListedNext(directories, source, paths, n);
    if Parent(p) != [] {
      var above := Entry(Parent(p), Folder);
      ListedMember(directories, source, paths, above);
      var j :| 0 <= j < |directories| && directories[j] == above;
      assert forall k :: n < k < |directories| ==> DepthAtMost(directories[n], directories[k]);
      assert directories[j].path in Done(directories, n);
    }
  }

  lemma FolderBuilt(source: Tree, directories: seq<Entry>, n: nat, built: Tree, handles: map<string, Path>,
                    alike: string -> string)
    requires Sound(source) && Listed(directories, source, Selected(source, true)) && Ordered(directories, DepthAtMost)
    requires FoldersBuilt(source, directories, n, built, handles, alike) && n < |directories|
    requires directories[n].path != [] && !Taken(built, directories[n].path, alike)
    ensures var p := directories[n].path;
            FoldersBuilt(source, directories, n + 1, built[p := Folder], handles[Key(p) := p], alike)
  {
    FolderReady(source, directories, n, built, handles, alike);
    AddNode(source, built, handles, alike, directories[n].path);
    ListedNext(directories, source, Selected(source, true), n);
  }

  lemma ParentFound(built: Tree, handles: map<string, Path>, path: Path)
    requires HandlesFind(built, handles) && path != [] && Parent(path) in built && built[Parent(path)] == Folder
    ensures Key(Parent(path)) in handles && handles[Key(Parent(path))] + [Last(path)] == path
  {
    assert Parent(path) + [Last(path)] == path;
  }

  /** Finds the handle of the parent directory, which is always there, and creates one entry in it. */
  method CreateBelow(ghost source: Tree, path: Path, node: Node, staging: Staging, handles: map<string, Path>, fails: bool)
    returns (r: Result<(), Failure>)
    requires Sound(source) && Building(source, staging.tree, handles, staging.alike) && path != [] && path in source
    requires path !in staging.tree && Parent(path) in staging.tree && staging.tree[Parent(path)] == Folder
    modifies staging
    ensures r.Ok? ==> !Taken(old(staging.tree), path, staging.alike) && staging.tree == old(staging.tree)[path := node]
    ensures r.Err? ==> staging.tree == old(staging.tree) && r.error != MissingParent
    ensures r.Err? && !fails ==> !NamesDistinct(source, staging.alike)
  {
    ParentFound(staging.tree, handles, path);
    if Key(Parent(path)) !in handles {
      return Err(MissingParent);
    }
    var parent := handles[Key(Parent(path))];
    r := staging.Create(parent, Last(path), node, fails);
    if r.Err? && !fails {
      TakenMeansCollision(source, staging.tree, handles, staging.alike, path);
    }
  }

  method BuildFolders(ghost source: Tree, directories: seq<Entry>, staging: Staging, faults: BuildFaults)
    returns (r: Result<map<string, Path>, Failure>)
    requires Sound(source) && Listed(directories, source, Selected(source, true)) && Ordered(directories, DepthAtMost)
    requires Coarser(staging.alike) && staging.tree == map[[] := Folder]
    modifies staging
    ensures r.Ok? ==> FoldersBuilt(source, directories, |directories|, staging.tree, r.value, staging.alike)
    ensures Sound(staging.tree) && staging.tree.Keys <= source.Keys
    ensures r.Err? ==> r.error != MissingParent
    ensures BuildUndisturbed(source, faults) && r.Err? ==> !NamesDistinct(source, staging.alike)
  {
    var handles: map<string, Path> := map[Key([]) := []];
    for n := 0 to |directories|
      invariant FoldersBuilt(source, directories, n, staging.tree, handles, staging.alike)
    {
      FolderReady(source, directories, n, staging.tree, handles, staging.alike);
      var path := directories[n].path;
      ghost var before := staging.tree;
      var created := CreateBelow(source, path, Folder, staging, handles, faults.create(path));
      if created.Err? {
        return Err(created.error);
      }
      FolderBuilt(source, directories, n, before, handles, staging.alike);
      handles := handles[Key(path) := path];
    }
    return Ok(handles);
  }

  ghost predicate FilesBuilt(source: Tree, files: seq<Entry>, n: nat, built: Tree, handles: map<string, Path>,
                             alike: string -> string)
  {
    && n <= |files| && Building(source, built, handles, alike)
    && built.Keys == {[]} + Selected(source, true) + Done(files, n)
  }

  lemma FileReady(source: Tree, files: seq<Entry>, n: nat, built: Tree, handles: map<string, Path>, alike: string -> string)
    requires Sound(source) && Listed(files, source, Selected(source, false))
    requires FilesBuilt(source, files, n, built, handles, alike) && n < |files|
    ensures FileTurn(source, files[n], built, handles, alike) && built.Keys + {files[n].path} <= source.Keys
  {
    ListedNext(files, source, Selected(source, false), n);
  }

  lemma FileBuilt(source: Tree, files: seq<Entry>, n: nat, built: Tree, handles: map<string, Path>, alike: string -> string)
    requires Sound(source) && Listed(files, source, Selected(source, false))
    requires FilesBuilt(source, files, n, built, handles, alike) && n < |files|
    requires files[n].path != [] && !Taken(built, files[n].path, alike)
    ensures FilesBuilt(source, files, n + 1, built[files[n].path := files[n].node], handles, alike)
  {
    FileReady(source, files, n, built, handles, alike);
    AddNode(source, built, handles, alike, files[n].path);
    ListedNext(files, source, Selected(source, false), n);
  }

  /** It is the turn of a file: its directory is there, and it is not. */
  ghost predicate FileTurn(source: Tree, file: Entry, built: Tree, handles: map<string, Path>, alike: string -> string) {
    && Sound(source) && Building(source, built, handles, alike)
    && file.path in source && file.path != [] && source[file.path] == file.node && file.node.File?
    && file.path !in built && Parent(file.path) in built && built[Parent(file.path)] == Folder
  }

  /** A copy that is accepted holds what the file holds. */
  method CopyContents(ghost source: Tree, file: Entry, faults: BuildFaults, digest: Text -> nat)
    returns (r: Result<Text, Failure>)
    requires file.path in source && source[file.path] == file.node && file.node.File?
    requires Injective(digest) && Locked(source, faults)
    ensures r.Ok? ==> File(r.value) == file.node
    ensures r.Err? ==> r.error == SourceChanged && !BuildUndisturbed(source, faults)
  {
    r := CopyFile(|file.node.content|, faults.reading(file.path), digest);
  }

  lemma Rewritten(built: Tree, p: Path, first: Node, last: Node)
    requires Sound(built) && ValidPath(p) && p != [] && p !in built && Parent(p) in built && built[Parent(p)] == Folder
    ensures built[p := first][p := last] == built[p := last]
    ensures Sound(built[p := first]) && built[p := first].Keys == built.Keys + {p}
    ensures Sound(built[p := last]) && built[p := last].Keys == built.Keys + {p}
  {
    StaysSound(built, p, first);
    StaysSound(built, p, last);
  }

  method CopyInto(ghost source: Tree, file: Entry, staging: Staging, handles: map<string, Path>, faults: BuildFaults,
                  digest: Text -> nat)
    returns (r: Result<(), Failure>)
    requires FileTurn(source, file, staging.tree, handles, staging.alike) && Injective(digest) && Locked(source, faults)
    modifies staging
    ensures r.Ok? ==> !Taken(old(staging.tree), file.path, staging.alike)
    ensures r.Ok? ==> staging.tree == old(staging.tree)[file.path := file.node]
    ensures Sound(staging.tree) && staging.tree.Keys <= old(staging.tree.Keys) + {file.path}
    ensures r.Err? ==> r.error != MissingParent
    ensures BuildUndisturbed(source, faults) && r.Err? ==> !NamesDistinct(source, staging.alike)
  {
    var path := file.path;
    Rewritten(staging.tree, path, File([]), file.node);
    r := CreateBelow(source, path, File([]), staging, handles, faults.create(path));
    if r.Ok? {
      var copied := CopyContents(source, file, faults, digest);
      if copied.Err? {
        return Err(copied.error);
      }
      staging.Write(path, copied.value);
    }
  }

  /** Links or copies one file. */
  method BuildFile(ghost source: Tree, file: Entry, staging: Staging, handles: map<string, Path>, mode: Mode,
                   faults: BuildFaults, digest: Text -> nat)
    returns (r: Result<(), Failure>)
    requires FileTurn(source, file, staging.tree, handles, staging.alike) && Injective(digest) && Locked(source, faults)
    modifies staging
    ensures r.Ok? ==> !Taken(old(staging.tree), file.path, staging.alike)
    ensures r.Ok? ==> staging.tree == old(staging.tree)[file.path := file.node]
    ensures r.Ok? ==> !mode.Legacy?
    ensures Sound(staging.tree) && staging.tree.Keys <= old(staging.tree.Keys) + {file.path}
    ensures r.Err? ==> r.error != MissingParent
    ensures BuildUndisturbed(source, faults) && !mode.Legacy? && r.Err? ==> !NamesDistinct(source, staging.alike)
  {
    StaysSound(staging.tree, file.path, file.node);
    match mode {
      case HardLink =>
        r := CreateBelow(source, file.path, file.node, staging, handles, faults.link(file.path));
      case Copy =>
        r := CopyInto(source, file, staging, handles, faults, digest);
      case Legacy =>
        r := Err(LegacyMode);
    }
  }

  method BuildFiles(ghost source: Tree, files: seq<Entry>, staging: Staging, handles: map<string, Path>, mode: Mode,
                    faults: BuildFaults, digest: Text -> nat)
    returns (r: Result<(), Failure>)
    requires Sound(source) && Listed(files, source, Selected(source, false)) && Injective(digest) && Locked(source, faults)
    requires FilesBuilt(source, files, 0, staging.tree, handles, staging.alike)
    modifies staging
    ensures r.Ok? ==> FilesBuilt(source, files, |files|, staging.tree, handles, staging.alike)
    ensures r.Ok? && mode.Legacy? ==> files == []
    ensures Sound(staging.tree) && staging.tree.Keys <= source.Keys
    ensures r.Err? ==> r.error != MissingParent
    ensures BuildUndisturbed(source, faults) && !mode.Legacy? && r.Err? ==> !NamesDistinct(source, staging.alike)
  {
    for n := 0 to |files|
      invariant FilesBuilt(source, files, n, staging.tree, handles, staging.alike) && (mode.Legacy? ==> n == 0)
    {
      FileReady(source, files, n, staging.tree, handles, staging.alike);
      ghost var before := staging.tree;
      r := BuildFile(source, files[n], staging, handles, mode, faults, digest);
      if r.Err? {
        return r;
      }
      FileBuilt(source, files, n, before, handles, staging.alike);
    }
    return Ok(());
  }

  lemma WholeTree(source: Tree, files: seq<Entry>, built: Tree, handles: map<string, Path>, alike: string -> string)
    requires Sound(source) && Listed(files, source, Selected(source, false))
    requires FilesBuilt(source, files, |files|, built, handles, alike)
    ensures built == source && NamesDistinct(source, alike)
  {
    ListedWhole(files, source, Selected(source, false));
    assert built.Keys == source.Keys;
  }

  /**
  Rebuilds the source exactly, or fails; no parent is ever missing. If nothing goes wrong outside, it
  succeeds exactly for the trees that the file system below the catalog can hold.
  */
  method PopulateStaging(ghost source: Tree, entries: seq<Entry>, staging: Staging, mode: Mode, faults: BuildFaults,
                         digest: Text -> nat)
    returns (r: Result<(), Failure>)
    requires Sound(source) && Listed(entries, source, source.Keys) && staging.tree == map[[] := Folder]
    requires Coarser(staging.alike) && Injective(digest) && Locked(source, faults)
    modifies staging
    ensures r.Ok? ==> staging.tree == source && NamesDistinct(source, staging.alike)
    ensures r.Ok? && mode.Legacy? ==> forall p :: p in source ==> source[p].Folder?
    ensures r.Err? ==> r.error != MissingParent
    ensures Sound(staging.tree) && staging.tree.Keys <= source.Keys
    ensures BuildUndisturbed(source, faults) && !mode.Legacy? ==> (r.Ok? <==> NamesDistinct(source, staging.alike))
  {
    var directories := Sorted(Kept(entries, true), DepthAtMost);
    var files := Kept(entries, false);
    KeptListed(entries, source, true);
    SortedListed(Kept(entries, true), source, Selected(source, true));
    KeptListed(entries, source, false);
    var handles := BuildFolders(source, directories, staging, faults);
    if handles.Err? {
      return Err(handles.error);
    }
    ListedWhole(directories, source, Selected(source, true));
    assert Done(files, 0) == {};
    r := BuildFiles(source, files, staging, handles.value, mode, faults, digest);
    if r.Ok? {
      WholeTree(source, files, staging.tree, handles.value, staging.alike);
      ListedWhole(files, source, Selected(source, false));
      if mode.Legacy? {
        forall p | p in source
          ensures source[p].Folder?
        {
          assert p !in Selected(source, false);
        }
      }
    }
  }
}
