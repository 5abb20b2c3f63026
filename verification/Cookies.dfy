/**
The plaintext cookie file and the domain filter of the cookie jar. A cookie is one line of tab-separated fields, so what
comes back from a saved jar depends on what its fields hold.
*/
module Cookies {
  import opened Fields
  import opened Wrappers

  const TAB: char := '\t'
  const LF: char := '\n'
  const CR: char := '\r'
  const EQUALS: char := '='
  const DOT: char := '.'

  datatype Cookie = Cookie(name: string, value: string, domain: string, path: string,
                           secure: bool, httpOnly: bool, expires: Option<int>)

  // Writing.

  function Columns(c: Cookie): seq<string> {
    [c.name + [EQUALS] + c.value, c.domain, c.path, if c.secure then "secure" else "", if c.httpOnly then "httponly" else ""]
  }

  function Line(c: Cookie): string {
    Join(Columns(c), TAB)
  }

  function Content(jar: seq<Cookie>): string {
    if jar == [] then [] else Line(jar[0]) + [LF] + Content(jar[1..])
  }

  lemma ContentNext(written: string, jar: seq<Cookie>, i: nat)
    requires i < |jar|
    ensures written + Content(jar[i..]) == written + Line(jar[i]) + [LF] + Content(jar[i + 1..])
  {
    assert jar[i..][1..] == jar[i + 1..];
  }

  /** Refuses to overwrite; otherwise writes one line for every cookie. */
  method SaveToInsecureFile(jar: seq<Cookie>, present: bool) returns (file: Option<string>)
    ensures file == if present then None else Some(Content(jar))
  {
    if present {
      return None;
    }
    var written: string := [];
    assert jar[0..] == jar;
    for i := 0 to |jar|
      invariant written + Content(jar[i..]) == Content(jar)
    {
      ContentNext(written, jar, i);
      written := written + Line(jar[i]) + [LF];
    }
    assert written + [] == written;
    return Some(written);
  }

  // Reading.

  function WithoutCr(line: string): string {
    if line != [] && line[|line| - 1] == CR then line[..|line| - 1] else line
  }

  /** The lines of a file: a final empty one does not count, and a carriage return before a line feed is dropped. */
  function Lines(pieces: seq<string>): seq<string> {
    if |pieces| == 0 then []
    else if |pieces| == 1 then (if pieces[0] == [] then [] else pieces)
    else [WithoutCr(pieces[0])] + Lines(pieces[1..])
  }

  /** The same pieces with carriage returns before the line feeds between them. */
  function CrLf(pieces: seq<string>): seq<string> {
    if |pieces| <= 1 then pieces else [pieces[0] + ['\r']] + CrLf(pieces[1..])
  }

  /** Line ends of either kind are read alike. */
  lemma {:induction false} CrLfReadsAlike(pieces: seq<string>)
    requires forall i :: 0 <= i < |pieces| ==> pieces[i] == [] || pieces[i][|pieces[i]| - 1] != '\r'
    ensures Lines(CrLf(pieces)) == Lines(pieces)
  {
    if |pieces| > 1 {
      CrLfReadsAlike(pieces[1..]);
      assert CrLf(pieces)[1..] == CrLf(pieces[1..]);
      assert |CrLf(pieces[1..])| >= 1;
      assert (pieces[0] + ['\r'])[..|pieces[0]|] == pieces[0];
    }
  }

  predicate Contains(s: string, part: string) {
    part <= s || (s != [] && Contains(s[1..], part))
  }

  /** The text before and after the first separator. */
  function CutOnce(s: string, separator: char): Option<(string, string)> {
    var fields := Split(s, separator);
    if |fields| < 2 then None else Some((fields[0], Join(fields[1..], separator)))
  }

  function ParseLine(line: string): Option<Cookie> {
    var parts := Split(line, TAB);
    if |parts| < 4 then None
    else
      var pair := CutOnce(parts[0], EQUALS);
      if pair.None? then None
      else
        Some(Cookie(pair.value.0, pair.value.1, parts[1], parts[2], Contains(parts[3], "secure"),
                    |parts| > 4 && Contains(parts[4], "httponly"), None))
  }

  function ParseLines(lines: seq<string>): seq<Cookie> {
    if lines == [] then []
    else
      var first := ParseLine(lines[0]);
      (if first.Some? then [first.value] else []) + ParseLines(lines[1..])
  }

  function Parsed(content: string): seq<Cookie> {
    ParseLines(Lines(Split(content, LF)))
  }

  method LoadPlaintext(content: string) returns (jar: seq<Cookie>)
    ensures jar == Parsed(content)
  {
    var lines := Lines(Split(content, LF));
    jar := [];
    assert lines[0..] == lines;
    for i := 0 to |lines|
      invariant jar + ParseLines(lines[i..]) == ParseLines(lines)
    {
      assert lines[i..][1..] == lines[i + 1..];
      var cookie := ParseLine(lines[i]);
      if cookie.Some? {
        assert jar + ([cookie.value] + ParseLines(lines[i + 1..])) == jar + [cookie.value] + ParseLines(lines[i + 1..]);
        jar := jar + [cookie.value];
      } else {
        assert [] + ParseLines(lines[i + 1..]) == ParseLines(lines[i + 1..]);
      }
    }
  }

  // Round trip.

  predicate Clean(s: string) {
    TAB !in s && LF !in s
  }

  /** The cookies a file can hold. */
  predicate Plain(c: Cookie) {
    EQUALS !in c.name && Clean(c.name) && Clean(c.value) && Clean(c.domain) && Clean(c.path) && c.expires.None?
  }

  lemma CutJoined(name: string, value: string)
    requires EQUALS !in name
    ensures CutOnce(name + [EQUALS] + value, EQUALS) == Some((name, value))
  {
    SplitOnce(name, value, EQUALS);
    SplitFields(value, EQUALS);
    assert Split(name + [EQUALS] + value, EQUALS)[1..] == Split(value, EQUALS);
  }

  lemma FlagsRead(c: Cookie)
    ensures Contains(Columns(c)[3], "secure") <==> c.secure
    ensures Contains(Columns(c)[4], "httponly") <==> c.httpOnly
  {
  }

  lemma LineReads(c: Cookie)
    requires Plain(c)
    ensures ParseLine(Line(c)) == Some(c)
  {
    SplitJoined(Columns(c), TAB);
    CutJoined(c.name, c.value);
    FlagsRead(c);
  }

  lemma {:induction false} JoinContents(fields: seq<string>, x: char)
    requires fields != [] && x != TAB && forall i :: 0 <= i < |fields| ==> x !in fields[i]
    ensures x !in Join(fields, TAB)
  {
    if |fields| > 1 {
      JoinContents(fields[1..], x);
    }
  }

  lemma {:induction false} JoinedEnd(fields: seq<string>)
    requires |fields| > 1
    ensures var text, last := Join(fields, TAB), fields[|fields| - 1];
            text != [] && text[|text| - 1] == if last == [] then TAB else last[|last| - 1]
  {
    if |fields| > 2 {
      JoinedEnd(fields[1..]);
    }
  }

  lemma LineIsWhole(c: Cookie)
    requires Plain(c)
    ensures LF !in Line(c) && WithoutCr(Line(c)) == Line(c)
  {
    JoinContents(Columns(c), LF);
    JoinedEnd(Columns(c));
  }

  lemma {:induction false} PlainJarReads(jar: seq<Cookie>)
    requires forall c :: c in jar ==> Plain(c)
    ensures Parsed(Content(jar)) == jar
  {
    if jar != [] {
      var c, later := jar[0], Content(jar[1..]);
      assert forall d :: d in jar[1..] ==> d in jar;
      PlainJarReads(jar[1..]);
      LineIsWhole(c);
      LineReads(c);
      SplitOnce(Line(c), later, LF);
      FirstLineParsed(c, Split(later, LF));
      assert jar == [c] + jar[1..];
    }
  }

  lemma FirstLineParsed(c: Cookie, later: seq<string>)
    requires later != [] && WithoutCr(Line(c)) == Line(c) && ParseLine(Line(c)) == Some(c)
    ensures ParseLines(Lines([Line(c)] + later)) == [c] + ParseLines(Lines(later))
  {
    var pieces := [Line(c)] + later;
    assert pieces[1..] == later;
    var lines := Lines(pieces);
    assert lines == [Line(c)] + Lines(later);
    assert lines[1..] == Lines(later);
  }

  lemma {:induction false} LinesHaveNoFeed(pieces: seq<string>)
    requires forall i :: 0 <= i < |pieces| ==> LF !in pieces[i]
    ensures forall i :: 0 <= i < |Lines(pieces)| ==> LF !in Lines(pieces)[i]
  {
    if |pieces| > 1 {
      LinesHaveNoFeed(pieces[1..]);
    }
  }

  lemma CutIsPlain(s: string, x: char)
    requires x !in s && CutOnce(s, EQUALS).Some?
    ensures var pair := CutOnce(s, EQUALS).value;
            EQUALS !in pair.0 && x !in pair.0 && x !in pair.1
  {
    var fields := Split(s, EQUALS);
    SplitFields(s, EQUALS);
    SplitContents(s, EQUALS, x);
    assert s == fields[0] + [EQUALS] + Join(fields[1..], EQUALS);
    assert forall c :: c in Join(fields[1..], EQUALS) ==> c in s;
  }

  lemma ParsedLineIsPlain(line: string)
    requires LF !in line && ParseLine(line).Some?
    ensures Plain(ParseLine(line).value)
  {
    var parts := Split(line, TAB);
    SplitFields(line, TAB);
    SplitContents(line, TAB, LF);
    CutIsPlain(parts[0], TAB);
    CutIsPlain(parts[0], LF);
  }

  lemma {:induction false} ParsedLinesArePlain(lines: seq<string>)
    requires forall i :: 0 <= i < |lines| ==> LF !in lines[i]
    ensures forall c :: c in ParseLines(lines) ==> Plain(c)
  {
    if lines != [] {
      ParsedLinesArePlain(lines[1..]);
      if ParseLine(lines[0]).Some? {
        ParsedLineIsPlain(lines[0]);
      }
    }
  }

  /** A file gives back the jar it was saved from exactly when every cookie is plain:
    * no tabs or line feeds, no equals sign in a name, and no expiry date, which files do not keep. */
  lemma SavedJarLoads(jar: seq<Cookie>)
    ensures Parsed(Content(jar)) == jar <==> forall c :: c in jar ==> Plain(c)
  {
    if forall c :: c in jar ==> Plain(c) {
      PlainJarReads(jar);
    } else {
      SplitFields(Content(jar), LF);
      LinesHaveNoFeed(Split(Content(jar), LF));
      ParsedLinesArePlain(Lines(Split(Content(jar), LF)));
    }
  }

  // Domains.

  function Lower(s: string): string {
    if s == [] then [] else [if 'A' <= s[0] <= 'Z' then 'a' + (s[0] - 'A') else s[0]] + Lower(s[1..])
  }

  function WithoutDots(s: string): string {
    if s != [] && s[0] == DOT then WithoutDots(s[1..]) else s
  }

  function Host(domain: string): string {
    Lower(WithoutDots(domain))
  }

  predicate EndsWith(s: string, suffix: string) {
    |s| >= |suffix| && s[|s| - |suffix|..] == suffix
  }

  predicate Matches(requested: string, c: Cookie) {
    var own := Host(c.domain);
    requested == own ||
    (EndsWith(requested, own) && var prefix := requested[..|requested| - |own|]; prefix != [] && prefix[|prefix| - 1] == DOT)
  }

  function Filtered(jar: seq<Cookie>, requested: string): seq<Cookie> {
    if jar == [] then []
    else (if Matches(requested, jar[0]) then [jar[0]] else []) + Filtered(jar[1..], requested)
  }

  function ForDomain(jar: seq<Cookie>, domain: string): seq<Cookie> {
    Filtered(jar, Host(domain))
  }

  lemma {:induction false} LoweredAt(s: string)
    ensures |Lower(s)| == |s|
    ensures forall i :: 0 <= i < |s| ==> Lower(s)[i] == if 'A' <= s[i] <= 'Z' then s[i] + ' ' else s[i]
  {
    if s != [] {
      LoweredAt(s[1..]);
    }
  }

  lemma {:induction false} DotsDropped(s: string) returns (dots: nat)
    ensures dots <= |s| && WithoutDots(s) == s[dots..]
    ensures (forall i :: 0 <= i < dots ==> s[i] == '.') && (dots < |s| ==> s[dots] != '.')
  {
    if s == [] || s[0] != '.' {
      dots := 0;
    } else {
      var rest := DotsDropped(s[1..]);
      dots := rest + 1;
    }
  }

  /** The host of a domain: what follows its leading dots, in small letters. */
  lemma HostOfADomain(domain: string) returns (dots: nat)
    ensures dots <= |domain| && |Host(domain)| == |domain| - dots
    ensures (forall i :: 0 <= i < dots ==> domain[i] == '.') && (dots < |domain| ==> domain[dots] != '.')
    ensures forall i :: dots <= i < |domain| ==>
              Host(domain)[i - dots] == if 'A' <= domain[i] <= 'Z' then domain[i] + ' ' else domain[i]
  {
    dots := DotsDropped(domain);
    LoweredAt(domain[dots..]);
  }

  /** A cookie is sent exactly to its own host and the hosts below it. */
  lemma MatchesAtAndBelow(requested: string, c: Cookie)
    ensures Matches(requested, c) <==>
      requested == Host(c.domain) || exists above: string :: requested == above + [DOT] + Host(c.domain)
  {
    var own := Host(c.domain);
    if Matches(requested, c) && requested != own {
      var prefix := requested[..|requested| - |own|];
      assert requested == prefix[..|prefix| - 1] + [DOT] + own;
    }
    forall above: string | requested == above + [DOT] + own
      ensures Matches(requested, c)
    {
      BelowMatches(above, c);
    }
  }

  lemma BelowMatches(above: string, c: Cookie)
    ensures Matches(above + [DOT] + Host(c.domain), c)
  {
    var own := Host(c.domain);
    var requested := above + [DOT] + own;
    assert requested[|requested| - |own|..] == own;
    assert requested[..|requested| - |own|] == above + [DOT];
  }

  lemma {:induction false} FilteredMembers(jar: seq<Cookie>, requested: string, c: Cookie)
    ensures c in Filtered(jar, requested) <==> c in jar && Matches(requested, c)
  {
    if jar != [] {
      FilteredMembers(jar[1..], requested, c);
      assert jar == [jar[0]] + jar[1..];
    }
  }

  lemma MatchesBelow(requested: string, above: string, c: Cookie)
    requires Matches(requested, c)
    ensures Matches(above + [DOT] + requested, c)
  {
    var own := Host(c.domain);
    if requested == own {
      BelowMatches(above, c);
    } else {
      var prefix := requested[..|requested| - |own|];
      var between := prefix[..|prefix| - 1];
      BelowMatches(above + [DOT] + between, c);
      assert above + [DOT] + requested == (above + [DOT] + between) + [DOT] + own;
    }
  }

  /** A host below another sees every cookie the other sees. */
  lemma HostsBelowSeeMore(jar: seq<Cookie>, domain: string, below: string, above: string, c: Cookie)
    requires Host(below) == above + [DOT] + Host(domain) && c in ForDomain(jar, domain)
    ensures c in ForDomain(jar, below)
  {
    FilteredMembers(jar, Host(domain), c);
    FilteredMembers(jar, Host(below), c);
    MatchesBelow(Host(domain), above, c);
  }
}
