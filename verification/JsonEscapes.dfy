/** Repairing unknown backslash escapes inside the strings of a JSON text. */
module JsonEscapes {
  const QUOTE: char := '\"'
  const BACKSLASH: char := '\\'

  predicate Recognised(c: char) {
    c in {QUOTE, BACKSLASH, '/', 'b', 'f', 'n', 'r', 't', 'u'}
  }

  /** The characters that may follow a backslash, in the words of section 7 of RFC 8259. */
  lemma RecognisedAreJsons(c: char)
    ensures Recognised(c) <==> c in "\"\\/bfnrtu"
  {
  }

  predicate HexDigit(c: char) {
    '0' <= c <= '9' || 'a' <= c <= 'f' || 'A' <= c <= 'F'
  }

  lemma HexDigits(c: char)
    ensures HexDigit(c) <==> c in "0123456789abcdefABCDEF"
  {
  }

  // Reading a text.

  /** One thing read: a unit of text, or an escape; `Unknown` is a backslash before a character no escape starts with. */
  datatype Item =
    | Outside(c: char)
    | Inside(c: char)
    | Escape(c: char)
    | Unicode(digits: string)
    | Unknown
    | Dangling

  /** Where the escape of a `\u` and the at most four characters it takes ends. */
  function UnicodeEnd(s: string): (n: nat)
    requires |s| >= 2
    ensures 2 <= n <= |s|
  {
    if |s| < 6 then |s| else 6
  }

  /** The items of a text; the lenient reader takes an unknown `\x` for a backslash and then x. */
  function Read(s: string, inString: bool, lenient: bool): seq<Item>
    decreases |s|
  {
    if s == [] then []
    else if !inString then [Outside(s[0])] + Read(s[1..], s[0] == QUOTE, lenient)
    else if s[0] == QUOTE then [Outside(s[0])] + Read(s[1..], false, lenient)
    else if s[0] != BACKSLASH then [Inside(s[0])] + Read(s[1..], true, lenient)
    else if |s| == 1 then [Dangling]
    else if s[1] == 'u' then [Unicode(s[2..UnicodeEnd(s)])] + Read(s[UnicodeEnd(s)..], true, lenient)
    else if Recognised(s[1]) then [Escape(s[1])] + Read(s[2..], true, lenient)
    else [if lenient then Escape(BACKSLASH) else Unknown] + Read(s[1..], true, lenient)
  }

  /** No backslash inside a string is followed by a character that starts no escape. */
  predicate AllRecognised(s: string) {
    Unknown !in Read(s, false, false)
  }

  /** What section 7 of RFC 8259 asks of escapes: recognised, complete, and four hexadecimal digits after `\u`. */
  predicate ValidEscapes(items: seq<Item>) {
    forall i :: 0 <= i < |items| ==>
      && !items[i].Unknown? && !items[i].Dangling?
      && (items[i].Unicode? ==> |items[i].digits| == 4 && forall k :: 0 <= k < 4 ==> HexDigit(items[i].digits[k]))
  }

  // Rewriting it.

  function Sanitized(s: string, inString: bool): string
    decreases |s|
  {
    if s == [] then []
    else if !inString then [s[0]] + Sanitized(s[1..], s[0] == QUOTE)
    else if s[0] == QUOTE then [s[0]] + Sanitized(s[1..], false)
    else if s[0] != BACKSLASH || |s| == 1 then [s[0]] + Sanitized(s[1..], true)
    else if s[1] == 'u' then s[..UnicodeEnd(s)] + Sanitized(s[UnicodeEnd(s)..], true)
    else if Recognised(s[1]) then s[..2] + Sanitized(s[2..], true)
    else [BACKSLASH, BACKSLASH] + Sanitized(s[1..], true)
  }

  method SanitizeJsonEscapes(s: string) returns (out: string)
    ensures out == Sanitized(s, false)
  {
    out := [];
    var inString := false;
    var i := 0;
    assert s[0..] == s;
    while i < |s|
      invariant 0 <= i <= |s|
      invariant out + Sanitized(s[i..], inString) == Sanitized(s, false)
      decreases |s| - i
    {
      SanitizedHead(out, s, i, inString);
      var c := s[i];
      i := i + 1;
      if c == QUOTE && !inString {
        inString := true;
        out := out + [c];
      } else if c == QUOTE {
        inString := false;
        out := out + [c];
      } else if c == BACKSLASH && inString {
        if i == |s| {
          out := out + [BACKSLASH];
        } else if Recognised(s[i]) {
          var next := s[i];
          out := out + [BACKSLASH, next];
          i := i + 1;
          if next == 'u' {
            ghost var before, start := out, i;
            for k := 0 to 4
              invariant start <= i <= |s| && i == (if start + k < |s| then start + k else |s|)
              invariant out == before + s[start..i]
            {
              if i < |s| {
                out := out + [s[i]];
                i := i + 1;
              }
            }
          }
        } else {
          out := out + [BACKSLASH, BACKSLASH];
        }
      } else {
        out := out + [c];
      }
    }
  }

  lemma Regroup(a: string, b: string, c: string)
    ensures a + (b + c) == a + b + c
  {
  }

  lemma RestOfRest(s: string, i: nat, n: nat)
    requires i + n <= |s|
    ensures s[i..][n..] == s[i + n..] && s[i..][..n] == s[i..i + n]
  {
  }

  lemma UnicodePart(s: string, i: nat, end: nat)
    requires i + 2 <= end <= |s| && s[i] == BACKSLASH && s[i + 1] == 'u'
    ensures s[i..end] == [BACKSLASH, 'u'] + s[i + 2..end]
  {
  }

  /** What one turn appends, and where it goes on. */
  lemma SanitizedTurn(s: string, i: nat, inString: bool)
    requires i < |s|
    ensures var todo := Sanitized(s[i..], inString);
            if !inString || s[i] == QUOTE then todo == [s[i]] + Sanitized(s[i + 1..], !inString && s[i] == QUOTE)
            else if s[i] != BACKSLASH || i + 1 == |s| then todo == [s[i]] + Sanitized(s[i + 1..], true)
            else if s[i + 1] == 'u' then
              var end := if i + 6 < |s| then i + 6 else |s|;
              todo == s[i..end] + Sanitized(s[end..], true)
            else if Recognised(s[i + 1]) then todo == s[i..i + 2] + Sanitized(s[i + 2..], true)
            else todo == [BACKSLASH, BACKSLASH] + Sanitized(s[i + 1..], true)
  {
    RestOfRest(s, i, 1);
    if i + 1 < |s| {
      RestOfRest(s, i, 2);
      RestOfRest(s, i, UnicodeEnd(s[i..]));
    }
  }

  /** One turn of the rewriting. */
  lemma SanitizedHead(out: string, s: string, i: nat, inString: bool)
    requires i < |s|
    ensures var now := out + Sanitized(s[i..], inString);
            if !inString || s[i] == QUOTE then
              now == out + [s[i]] + Sanitized(s[i + 1..], !inString && s[i] == QUOTE)
            else if s[i] != BACKSLASH || i + 1 == |s| then
              now == out + [s[i]] + Sanitized(s[i + 1..], true)
            else if s[i + 1] == 'u' then
              var end := if i + 6 < |s| then i + 6 else |s|;
              now == out + ([BACKSLASH, 'u'] + s[i + 2..end]) + Sanitized(s[end..], true)
            else if Recognised(s[i + 1]) then
              now == out + [BACKSLASH, s[i + 1]] + Sanitized(s[i + 2..], true)
            else
              now == out + [BACKSLASH, BACKSLASH] + Sanitized(s[i + 1..], true)
  {
    SanitizedTurn(s, i, inString);
    if !inString || s[i] == QUOTE {
      Regroup(out, [s[i]], Sanitized(s[i + 1..], !inString && s[i] == QUOTE));
    } else if s[i] != BACKSLASH || i + 1 == |s| {
      Regroup(out, [s[i]], Sanitized(s[i + 1..], true));
    } else if s[i + 1] == 'u' {
      var end := if i + 6 < |s| then i + 6 else |s|;
      UnicodePart(s, i, end);
      Regroup(out, s[i..end], Sanitized(s[end..], true));
    } else if Recognised(s[i + 1]) {
      assert s[i..i + 2] == [BACKSLASH, s[i + 1]];
      Regroup(out, s[i..i + 2], Sanitized(s[i + 2..], true));
    } else {
      Regroup(out, [BACKSLASH, BACKSLASH], Sanitized(s[i + 1..], true));
    }
  }

  // What rewriting keeps.

  /** Reading the rewritten text strictly is reading the original leniently. */
  lemma {:induction false} MeaningKept(s: string, inString: bool)
    ensures Read(Sanitized(s, inString), inString, false) == Read(s, inString, true)
    decreases |s|
  {
    var t := Sanitized(s, inString);
    if s == [] {
    } else if !inString || s[0] == QUOTE {
      MeaningKept(s[1..], !inString && s[0] == QUOTE);
      assert t[1..] == Sanitized(s[1..], !inString && s[0] == QUOTE);
    } else if s[0] != BACKSLASH {
      MeaningKept(s[1..], true);
      assert t[1..] == Sanitized(s[1..], true);
    } else if |s| == 1 {
      assert t == s;
    } else if s[1] == 'u' {
      MeaningKept(s[UnicodeEnd(s)..], true);
      UnicodeKept(s);
    } else if Recognised(s[1]) {
      MeaningKept(s[2..], true);
      assert t[2..] == Sanitized(s[2..], true) && t[0] == s[0] && t[1] == s[1];
    } else {
      MeaningKept(s[1..], true);
      assert t[2..] == Sanitized(s[1..], true);
    }
  }

  lemma UnicodeKept(s: string)
    requires |s| >= 2 && s[0] == BACKSLASH && s[1] == 'u'
    ensures var t, n := Sanitized(s, true), UnicodeEnd(s);
            && |t| >= 2 && t[0] == BACKSLASH && t[1] == 'u' && UnicodeEnd(t) == n
            && t[..n] == s[..n] && t[2..n] == s[2..n] && t[n..] == Sanitized(s[n..], true)
  {
    var t, n := Sanitized(s, true), UnicodeEnd(s);
    assert t == s[..n] + Sanitized(s[n..], true);
    if |s| < 6 {
      assert s[n..] == [] && t == s[..n];
    }
    assert t[..n] == s[..n] && t[n..] == Sanitized(s[n..], true);
    assert t[2..n] == t[..n][2..] && s[2..n] == s[..n][2..];
    assert t[0] == t[..n][0] && t[1] == t[..n][1];
  }

  lemma {:induction false} LenientReadsAll(s: string, inString: bool)
    ensures Unknown !in Read(s, inString, true)
    decreases |s|
  {
    if s == [] {
    } else if !inString || s[0] == QUOTE {
      LenientReadsAll(s[1..], !inString && s[0] == QUOTE);
    } else if s[0] != BACKSLASH {
      LenientReadsAll(s[1..], true);
    } else if |s| == 1 {
    } else if s[1] == 'u' {
      LenientReadsAll(s[UnicodeEnd(s)..], true);
    } else if Recognised(s[1]) {
      LenientReadsAll(s[2..], true);
    } else {
      LenientReadsAll(s[1..], true);
    }
  }

  /** Exactly the texts without unknown escapes are left alone. */
  lemma {:induction false} OnlyUnknownChange(s: string, inString: bool)
    ensures Sanitized(s, inString) == s <==> Unknown !in Read(s, inString, false)
    ensures |Sanitized(s, inString)| >= |s|
    decreases |s|
  {
    var t := Sanitized(s, inString);
    if s == [] {
    } else if !inString || s[0] == QUOTE {
      OnlyUnknownChange(s[1..], !inString && s[0] == QUOTE);
      assert t[1..] == Sanitized(s[1..], !inString && s[0] == QUOTE);
      SameAfter(s, t, 1);
    } else if s[0] != BACKSLASH || |s| == 1 {
      OnlyUnknownChange(s[1..], true);
      assert t[1..] == Sanitized(s[1..], true);
      SameAfter(s, t, 1);
    } else if s[1] == 'u' {
      OnlyUnknownChange(s[UnicodeEnd(s)..], true);
      UnicodeKept(s);
      SameAfter(s, t, UnicodeEnd(s));
    } else if Recognised(s[1]) {
      OnlyUnknownChange(s[2..], true);
      assert t[2..] == Sanitized(s[2..], true) && t[..2] == s[..2];
      SameAfter(s, t, 2);
    } else {
      OnlyUnknownChange(s[1..], true);
      assert Read(s, inString, false)[0] == Unknown;
    }
  }

  lemma SameAfter(s: string, t: string, n: nat)
    requires n <= |s| && n <= |t| && s[..n] == t[..n]
    ensures s == t <==> s[n..] == t[n..]
  {
    assert s == s[..n] + s[n..] && t == t[..n] + t[n..];
  }

  /** The rewritten text has no unknown escape left, so rewriting it again changes nothing. */
  lemma SanitizedIsClean(s: string)
    ensures AllRecognised(Sanitized(s, false))
    ensures Sanitized(Sanitized(s, false), false) == Sanitized(s, false)
  {
    MeaningKept(s, false);
    LenientReadsAll(s, false);
    OnlyUnknownChange(Sanitized(s, false), false);
  }

  /** A strict JSON reader accepts the escapes of the rewritten text exactly when the original's own `\u` escapes
    * are complete and it does not end in a lone backslash inside a string. */
  lemma AcceptedWhenUnicodeIsComplete(s: string)
    ensures ValidEscapes(Read(Sanitized(s, false), false, false)) <==> ValidEscapes(Read(s, false, true))
  {
    MeaningKept(s, false);
  }
}
