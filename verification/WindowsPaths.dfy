/** Windows paths and the normal form they are compared and hashed in. */
module WindowsPaths {
  import opened Fields

  const BACKSLASH: char := '\\'

  const VERBATIM: string := "\\\\?\\"
  const VERBATIM_UNC: string := "\\\\?\\unc\\"

  function Lower(c: char): char {
    if 'A' <= c <= 'Z' then 'a' + (c - 'A') else c
  }

  /** Only the letters from A to Z have another case, 32 places on. */
  lemma LowerIsAscii(c: char)
    ensures Lower(c) == if 65 <= c as int <= 90 then (c as int + 32) as char else c
    ensures Lower('A') == 'a' && Lower('Z') == 'z'
  {
  }

  function FoldChar(c: char): char {
    if c == '/' then BACKSLASH else Lower(c)
  }

  function Fold(path: string): (r: string)
    ensures |r| == |path| && forall i :: 0 <= i < |r| ==> r[i] == FoldChar(path[i])
  {
    if path == [] then [] else [FoldChar(path[0])] + Fold(path[1..])
  }

  /** Whether a path starts with a lower-case prefix, whatever the case of its ASCII letters. */
  predicate StartsWith(path: string, prefix: string) {
    |path| >= |prefix| && forall i :: 0 <= i < |prefix| ==> Lower(path[i]) == prefix[i]
  }

  function WithoutPrefix(path: string): string {
    if StartsWith(path, VERBATIM_UNC) then [BACKSLASH, BACKSLASH] + path[|VERBATIM_UNC|..]
    else if StartsWith(path, VERBATIM) then path[|VERBATIM|..]
    else path
  }

  function Trimmed(path: string): (r: string)
    ensures r <= path
  {
    if |path| > 3 && path[|path| - 1] == BACKSLASH then Trimmed(path[..|path| - 1]) else path
  }

  function Normal(path: string): string {
    Trimmed(Fold(WithoutPrefix(path)))
  }

  method Normalize(path: string) returns (units: string)
    ensures units == Normal(path)
  {
    units := path;
    if StartsWith(units, VERBATIM_UNC) {
      var unc := [BACKSLASH, BACKSLASH];
      unc := unc + units[|VERBATIM_UNC|..];
      units := unc;
    } else if StartsWith(units, VERBATIM) {
      units := units[|VERBATIM|..];
    }
    ghost var body := units;
    for i := 0 to |units|
      invariant |units| == |body|
      invariant forall k :: 0 <= k < |body| ==> units[k] == if k < i then FoldChar(body[k]) else body[k]
    {
      if units[i] == '/' {
        units := units[i := BACKSLASH];
      } else if 'A' <= units[i] <= 'Z' {
        units := units[i := Lower(units[i])];
      }
    }
    assert units == Fold(body);
    while |units| > 3 && units[|units| - 1] == BACKSLASH
      invariant Trimmed(units) == Trimmed(Fold(body))
      decreases |units|
    {
      units := units[..|units| - 1];
    }
  }

  // The normal form is not always normal.

  predicate Slash(c: char) {
    c == BACKSLASH || c == '/'
  }

  /** A verbatim prefix, with slashes of either kind, that something other than slashes follows. */
  ghost predicate HidesPrefix(path: string) {
    && |path| > 4 && Slash(path[0]) && Slash(path[1]) && path[2] == '?' && Slash(path[3])
    && exists i :: 4 <= i < |path| && !Slash(path[i])
  }

  lemma {:induction false} TrimmedKeeps(path: string, i: nat)
    requires 3 <= i < |path| && path[i] != BACKSLASH
    ensures i < |Trimmed(path)|
  {
    if |path| > 3 && path[|path| - 1] == BACKSLASH {
      assert path[..|path| - 1][i] == path[i];
      TrimmedKeeps(path[..|path| - 1], i);
    }
  }

  lemma {:induction false} TrimmedDrops(path: string)
    requires |path| >= 3 && forall i :: 3 <= i < |path| ==> path[i] == BACKSLASH
    ensures |Trimmed(path)| == 3
  {
    if |path| > 3 {
      TrimmedDrops(path[..|path| - 1]);
    }
  }

  lemma {:induction false} TrimmedTwice(path: string)
    ensures Trimmed(Trimmed(path)) == Trimmed(path)
  {
    if |path| > 3 && path[|path| - 1] == BACKSLASH {
      TrimmedTwice(path[..|path| - 1]);
    }
  }

  predicate Verbatim(path: string) {
    |path| >= 4 && path[0] == BACKSLASH && path[1] == BACKSLASH && path[2] == '?' && path[3] == BACKSLASH
  }

  lemma VerbatimIsPrefix(path: string)
    ensures StartsWith(path, VERBATIM) <==> Verbatim(path)
    ensures StartsWith(path, VERBATIM_UNC) ==> Verbatim(path)
  {
    assert VERBATIM[0] == BACKSLASH && VERBATIM[1] == BACKSLASH && VERBATIM[2] == '?' && VERBATIM[3] == BACKSLASH;
    assert forall i :: 0 <= i < 4 ==> VERBATIM_UNC[i] == VERBATIM[i];
  }

  lemma HiddenPrefixAppears(body: string)
    requires HidesPrefix(body)
    ensures Verbatim(Trimmed(Fold(body)))
  {
    var i :| 4 <= i < |body| && !Slash(body[i]);
    TrimmedKeeps(Fold(body), i);
  }

  lemma OnlyHiddenPrefixAppears(body: string)
    requires Verbatim(Trimmed(Fold(body)))
    ensures HidesPrefix(body)
  {
    var folded := Fold(body);
    var normal := Trimmed(folded);
    assert forall k :: 0 <= k < 4 ==> normal[k] == folded[k];
    if forall i :: 4 <= i < |body| ==> Slash(body[i]) {
      TrimmedDrops(folded);
    }
  }

  lemma NormalHidesPrefix(path: string)
    ensures Verbatim(Normal(path)) <==> HidesPrefix(WithoutPrefix(path))
  {
    var body := WithoutPrefix(path);
    if HidesPrefix(body) {
      HiddenPrefixAppears(body);
    } else if Verbatim(Trimmed(Fold(body))) {
      OnlyHiddenPrefixAppears(body);
    }
  }

  lemma NormalIsFolded(path: string)
    ensures Fold(Normal(path)) == Normal(path)
  {
    var folded := Fold(WithoutPrefix(path));
    var normal := Trimmed(folded);
    forall i | 0 <= i < |normal|
      ensures Fold(normal)[i] == normal[i]
    {
      assert normal[i] == folded[i];
      FoldedOnce(WithoutPrefix(path)[i]);
    }
  }

  lemma FoldedOnce(c: char)
    ensures FoldChar(FoldChar(c)) == FoldChar(c)
  {
  }

  /** Normalizing twice is normalizing once exactly when no second verbatim prefix hides behind the first. */
  lemma NormalTwice(path: string)
    ensures Normal(Normal(path)) == Normal(path) <==> !HidesPrefix(WithoutPrefix(path))
  {
    var normal := Normal(path);
    NormalHidesPrefix(path);
    VerbatimIsPrefix(normal);
    if Verbatim(normal) {
      assert |Normal(normal)| <= |WithoutPrefix(normal)| < |normal|;
    } else {
      NormalIsFolded(path);
      TrimmedTwice(Fold(WithoutPrefix(path)));
    }
  }

  /** A verbatim prefix written with forward slashes hides one that the second pass removes. */
  lemma NormalTwiceFails(path: string)
    requires path == "//?/c"
    ensures Normal(Normal(path)) != Normal(path)
  {
    NormalTwice(path);
    VerbatimIsPrefix(path);
    assert path[0] == '/' && path[1] == '/' && path[2] == '?' && path[3] == '/' && path[4] == 'c';
    assert !Slash(path[4]) && HidesPrefix(path);
    assert WithoutPrefix(path) == path;
  }

  // Relative paths.

  type Path = seq<string>

  function Parent(p: Path): Path
    requires p != []
  {
    p[..|p| - 1]
  }

  predicate ValidName(name: string) {
    name != [] && forall i :: 0 <= i < |name| ==> !Slash(name[i])
  }

  predicate ValidPath(path: Path) {
    forall i :: 0 <= i < |path| ==> ValidName(path[i])
  }

  function Text(path: Path): string {
    if path == [] then [] else Join(path, BACKSLASH)
  }

  function Key(path: Path): string {
    Normal(Text(path))
  }

  function FoldNames(path: Path): (r: Path)
    ensures |r| == |path| && forall i :: 0 <= i < |r| ==> r[i] == Fold(path[i])
  {
    if path == [] then [] else [Fold(path[0])] + FoldNames(path[1..])
  }

  lemma FoldConcat(a: string, b: string)
    ensures Fold(a + b) == Fold(a) + Fold(b)
  {
  }

  lemma {:induction false} FoldJoined(path: Path)
    requires path != []
    ensures Fold(Join(path, BACKSLASH)) == Join(FoldNames(path), BACKSLASH)
  {
    if |path| > 1 {
      FoldJoined(path[1..]);
      FoldConcat(path[0] + [BACKSLASH], Join(path[1..], BACKSLASH));
      FoldConcat(path[0], [BACKSLASH]);
      assert FoldNames(path)[1..] == FoldNames(path[1..]);
    }
  }

  lemma {:induction false} JoinedEnds(path: Path)
    requires path != [] && ValidPath(path)
    ensures var text := Join(path, BACKSLASH);
            text != [] && !Slash(text[0]) && !Slash(text[|text| - 1])
  {
    if |path| > 1 {
      JoinedEnds(path[1..]);
    }
  }

  lemma NoPrefixToDrop(text: string)
    requires text != [] && !Slash(text[0])
    ensures WithoutPrefix(text) == text
  {
    assert Lower(text[0]) != BACKSLASH;
    assert VERBATIM[0] == BACKSLASH && VERBATIM_UNC[0] == BACKSLASH;
  }

  lemma EndsInNoSlash(text: string)
    requires text != [] && !Slash(text[|text| - 1])
    ensures Trimmed(Fold(text)) == Fold(text)
  {
    assert Fold(text)[|text| - 1] == FoldChar(text[|text| - 1]);
  }

  lemma OnlyFolded(text: string)
    requires text != [] && !Slash(text[0]) && !Slash(text[|text| - 1])
    ensures Normal(text) == Fold(text)
  {
    NoPrefixToDrop(text);
    EndsInNoSlash(text);
  }

  /** On the relative paths of a tree normalizing only folds the letters of the names. */
  lemma KeyFoldsNames(path: Path)
    requires ValidPath(path)
    ensures Key(path) == Text(FoldNames(path))
  {
    if path != [] {
      var text := Join(path, BACKSLASH);
      JoinedEnds(path);
      FoldJoined(path);
      OnlyFolded(text);
    }
  }

  lemma FoldedNameValid(name: string)
    requires ValidName(name)
    ensures ValidName(Fold(name)) && BACKSLASH !in Fold(name)
  {
    assert forall k :: 0 <= k < |name| ==> Fold(name)[k] == FoldChar(name[k]) && !Slash(FoldChar(name[k]));
  }

  lemma FoldedNamesValid(path: Path)
    requires ValidPath(path)
    ensures ValidPath(FoldNames(path)) && forall i :: 0 <= i < |path| ==> BACKSLASH !in FoldNames(path)[i]
  {
    forall i | 0 <= i < |path|
      ensures ValidName(Fold(path[i])) && BACKSLASH !in Fold(path[i])
    {
      FoldedNameValid(path[i]);
    }
  }

  /** Two relative paths have the same key exactly when their names agree up to the case of letters. */
  lemma SameKey(a: Path, b: Path)
    requires ValidPath(a) && ValidPath(b)
    ensures Key(a) == Key(b) <==> FoldNames(a) == FoldNames(b)
  {
    KeyFoldsNames(a);
    KeyFoldsNames(b);
    FoldedNamesValid(a);
    FoldedNamesValid(b);
    if a != [] {
      JoinedEnds(FoldNames(a));
      SplitJoined(FoldNames(a), BACKSLASH);
    }
    if b != [] {
      JoinedEnds(FoldNames(b));
      SplitJoined(FoldNames(b), BACKSLASH);
    }
  }
}
