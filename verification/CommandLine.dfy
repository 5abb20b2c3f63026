/** Building a Windows command line out of an executable and its arguments, and the parsing it is meant for. */
module CommandLine {
  import opened Wrappers

  newtype Unit = x: int | 0 <= x < 0x1_0000

  type Wide = seq<Unit> // a string in UTF-16 code units

  const NUL: Unit := 0
  const TAB: Unit := 9
  const SPACE: Unit := 32
  const QUOTE: Unit := 34
  const BACKSLASH: Unit := 92

  datatype BuildError = ContainsNul

  predicate Blank(unit: Unit) {
    unit == 32 || unit == 9
  }

  predicate NeedsQuotes(argument: Wide) {
    argument == [] || exists i :: 0 <= i < |argument| && (Blank(argument[i]) || argument[i] == QUOTE)
  }

  function Slashes(n: nat): (r: Wide)
    ensures |r| == n && forall i :: 0 <= i < n ==> r[i] == 92
  {
    seq(n, _ => BACKSLASH)
  }

  // What is written.

  /** The inside of a quoted argument, with `n` backslashes seen just before it. */
  function Escaped(n: nat, s: Wide): Wide
    decreases |s|
  {
    if s == [] then Slashes(2 * n)
    else if s[0] == BACKSLASH then Escaped(n + 1, s[1..])
    else Slashes(if s[0] == QUOTE then 2 * n + 1 else n) + [s[0]] + Escaped(0, s[1..])
  }

  function Encoded(argument: Wide): Wide {
    if NeedsQuotes(argument) then [QUOTE] + Escaped(0, argument) + [QUOTE] else argument
  }

  function EncodedAll(arguments: seq<Wide>): Wide {
    if arguments == [] then [] else [32] + Encoded(arguments[0]) + EncodedAll(arguments[1..])
  }

  function Line(executable: Wide, arguments: seq<Wide>): Wide {
    Encoded(executable) + EncodedAll(arguments)
  }

  class CommandBuffer {
    var units: Wide

    constructor ()
      ensures units == []
    {
      units := [];
    }

    method Append(argument: Wide) returns (r: Result<(), BuildError>)
      modifies this
      ensures r.Err? <==> NUL in argument
      ensures units == old(units) + (if r.Ok? then Encoded(argument) else [])
    {
      if NUL in argument {
        return Err(ContainsNul);
      }
      if !NeedsQuotes(argument) {
        units := units + argument;
        return Ok(());
      }
      AppendQuoted(argument);
      return Ok(());
    }

    method AppendQuoted(argument: Wide)
      modifies this
      ensures units == old(units) + ([QUOTE] + Escaped(0, argument) + [QUOTE])
    {
      ghost var goal := units + ([QUOTE] + Escaped(0, argument) + [QUOTE]);
      var backslashes: nat := 0;
      var i := 0;
      assert argument[0..] == argument;
      Regrouped(units, [QUOTE], Escaped(0, argument), [QUOTE]);
      units := units + [QUOTE];
      while i < |argument|
        invariant 0 <= i <= |argument|
        invariant goal == units + (Escaped(backslashes, argument[i..]) + [QUOTE])
      {
        var unit := argument[i];
        EscapedHead(units, backslashes, argument, i);
        i := i + 1;
        if unit == BACKSLASH {
          backslashes := backslashes + 1;
          continue;
        }
        if unit == QUOTE {
          units := units + Slashes(backslashes * 2 + 1);
        } else {
          units := units + Slashes(backslashes);
        }
        backslashes := 0;
        units := units + [unit];
      }
      units := units + Slashes(backslashes * 2);
      units := units + [QUOTE];
    }
  }

  lemma Regrouped(a: Wide, b: Wide, c: Wide, d: Wide)
    ensures a + (b + c + d) == (a + b) + (c + d)
    ensures (a + b + c) + d == a + (b + (c + d))
  {
  }

  lemma EscapedHead(units: Wide, n: nat, argument: Wide, i: nat)
    requires i < |argument|
    ensures var later := argument[i + 1..];
            units + (Escaped(n, argument[i..]) + [QUOTE]) ==
              if argument[i] == BACKSLASH then units + (Escaped(n + 1, later) + [QUOTE])
              else units + Slashes(if argument[i] == QUOTE then n * 2 + 1 else n) + [argument[i]] + (Escaped(0, later) + [QUOTE])
  {
    assert argument[i..][1..] == argument[i + 1..];
    if argument[i] != BACKSLASH {
      var run := Slashes(if argument[i] == QUOTE then n * 2 + 1 else n);
      assert Escaped(n, argument[i..]) == run + [argument[i]] + Escaped(0, argument[i + 1..]);
      Regrouped(units, run, [argument[i]], Escaped(0, argument[i + 1..]) + [QUOTE]);
      Regrouped(run, [argument[i]], Escaped(0, argument[i + 1..]), [QUOTE]);
    }
  }

  lemma EncodedNext(units: Wide, arguments: seq<Wide>, i: nat)
    requires i < |arguments|
    ensures units + EncodedAll(arguments[i..]) == units + [SPACE] + Encoded(arguments[i]) + EncodedAll(arguments[i + 1..])
  {
    assert arguments[i..][1..] == arguments[i + 1..];
  }

  /** The command line, terminated by NUL; an error exactly when some string contains NUL. */
  method BuildCommandLine(executable: Wide, arguments: seq<Wide>) returns (r: Result<Wide, BuildError>)
    ensures r.Err? <==> 0 in executable || exists i :: 0 <= i < |arguments| && 0 in arguments[i]
    ensures r.Ok? ==> r.value == Line(executable, arguments) + [0]
  {
    var command := new CommandBuffer();
    var first := command.Append(executable);
    if first.Err? {
      return Err(first.error);
    }
    assert [] + Encoded(executable) == Encoded(executable);
    assert arguments[0..] == arguments;
    var i := 0;
    while i < |arguments|
      invariant 0 <= i <= |arguments|
      invariant forall j :: 0 <= j < i ==> NUL !in arguments[j]
      invariant Line(executable, arguments) == command.units + EncodedAll(arguments[i..])
    {
      EncodedNext(command.units, arguments, i);
      command.units := command.units + [SPACE];
      var next := command.Append(arguments[i]);
      if next.Err? {
        return Err(next.error);
      }
      i := i + 1;
    }
    return Ok(command.units + [NUL]);
  }

  // How a program reads its command line back: the documented rules of CommandLineToArgvW.

  /** One argument and what follows it, with `n` backslashes seen just before.
    * Inside quotes, a doubled quote stands for one if `doubling`. */
  function TakeArgument(n: nat, s: Wide, quoted: bool, doubling: bool): (Wide, Wide)
    decreases |s|
  {
    if s == [] || (Blank(s[0]) && !quoted) then (Slashes(n), s)
    else if s[0] == BACKSLASH then TakeArgument(n + 1, s[1..], quoted, doubling)
    else if s[0] == QUOTE && n % 2 == 1 then
      Before(Slashes(n / 2) + [QUOTE], TakeArgument(0, s[1..], quoted, doubling))
    else if s[0] == QUOTE && doubling && quoted && |s| > 1 && s[1] == QUOTE then
      Before(Slashes(n / 2) + [QUOTE], TakeArgument(0, s[2..], true, doubling))
    else if s[0] == QUOTE then
      Before(Slashes(n / 2), TakeArgument(0, s[1..], !quoted, doubling))
    else
      Before(Slashes(n) + [s[0]], TakeArgument(0, s[1..], quoted, doubling))
  }

  function Before(units: Wide, taken: (Wide, Wide)): (Wide, Wide) {
    (units + taken.0, taken.1)
  }

  lemma {:induction false} TakesSuffix(n: nat, s: Wide, quoted: bool, doubling: bool)
    ensures |TakeArgument(n, s, quoted, doubling).1| <= |s|
    decreases |s|
  {
    if s == [] || (Blank(s[0]) && !quoted) {
    } else if s[0] == BACKSLASH {
      TakesSuffix(n + 1, s[1..], quoted, doubling);
    } else {
      TakesSuffix(0, s[1..], quoted, doubling);
      TakesSuffix(0, s[1..], !quoted, doubling);
      if |s| > 1 {
        TakesSuffix(0, s[2..], true, doubling);
      }
    }
  }

  lemma TakesSomething(s: Wide, doubling: bool)
    requires s != [] && !Blank(s[0])
    ensures |TakeArgument(0, s, false, doubling).1| < |s|
  {
    TakesSuffix(1, s[1..], false, doubling);
    TakesSuffix(0, s[1..], false, doubling);
    TakesSuffix(0, s[1..], true, doubling);
  }

  function TakeArguments(s: Wide, doubling: bool): seq<Wide>
    decreases |s|
  {
    if s == [] then []
    else if Blank(s[0]) then TakeArguments(s[1..], doubling)
    else
      TakesSomething(s, doubling);
      var (argument, rest) := TakeArgument(0, s, false, doubling);
      [argument] + TakeArguments(rest, doubling)
  }

  /** The units before the first one that is a quote, or that is blank. */
  function UpTo(s: Wide, quote: bool): (n: nat)
    ensures n <= |s|
    ensures n < |s| ==> if quote then s[n] == QUOTE else Blank(s[n])
    ensures forall i :: 0 <= i < n ==> if quote then s[i] != QUOTE else !Blank(s[i])
  {
    if s == [] || (if quote then s[0] == QUOTE else Blank(s[0])) then 0 else 1 + UpTo(s[1..], quote)
  }

  /** The program name has no escapes: it runs to the next quote if it starts with one, else to the next blank. */
  function TakeProgram(s: Wide): (Wide, Wide) {
    if s != [] && s[0] == QUOTE then
      var n := UpTo(s[1..], true);
      (s[1..][..n], if n < |s[1..]| then s[1..][n + 1..] else [])
    else
      var n := UpTo(s, false);
      (s[..n], s[n..])
  }

  function Parsed(line: Wide, doubling: bool): seq<Wide> {
    var (program, rest) := TakeProgram(line);
    [program] + TakeArguments(rest, doubling)
  }

  // Writing and reading back.

  predicate Delimited(rest: Wide) {
    rest == [] || rest[0] == SPACE
  }

  lemma {:induction false} SlashesTaken(n: nat, k: nat, rest: Wide, quoted: bool, doubling: bool)
    ensures TakeArgument(n, Slashes(k) + rest, quoted, doubling) == TakeArgument(n + k, rest, quoted, doubling)
    decreases k
  {
    if k == 0 {
      assert Slashes(k) + rest == rest;
    } else {
      assert (Slashes(k) + rest)[1..] == Slashes(k - 1) + rest;
      SlashesTaken(n + 1, k - 1, rest, quoted, doubling);
    }
  }

  lemma {:induction false} PlainTaken(n: nat, s: Wide, rest: Wide, doubling: bool)
    requires Delimited(rest) && forall i :: 0 <= i < |s| ==> !Blank(s[i]) && s[i] != QUOTE
    ensures TakeArgument(n, s + rest, false, doubling) == (Slashes(n) + s, rest)
    decreases |s|
  {
    if s == [] {
      assert s + rest == rest;
      assert Slashes(n) + s == Slashes(n);
    } else if s[0] == BACKSLASH {
      assert (s + rest)[1..] == s[1..] + rest;
      PlainTaken(n + 1, s[1..], rest, doubling);
      OneMore(n, s);
    } else {
      assert (s + rest)[1..] == s[1..] + rest;
      PlainTaken(0, s[1..], rest, doubling);
      Rebuilt(n, s);
    }
  }

  lemma Rebuilt(n: nat, s: Wide)
    requires s != []
    ensures Slashes(n) + [s[0]] + (Slashes(0) + s[1..]) == Slashes(n) + s
  {
  }

  lemma OneMore(n: nat, s: Wide)
    requires s != [] && s[0] == BACKSLASH
    ensures Slashes(n + 1) + s[1..] == Slashes(n) + s
  {
    assert Slashes(n + 1) == Slashes(n) + [BACKSLASH];
    assert s == [BACKSLASH] + s[1..];
  }

  /** A quote after an odd run of backslashes, or another unit after any run, belongs to the argument. */
  lemma HeadTaken(n: nat, unit: Unit, later: Wide, doubling: bool)
    requires unit != BACKSLASH
    ensures var k := if unit == QUOTE then 2 * n + 1 else n;
            TakeArgument(0, Slashes(k) + ([unit] + later), true, doubling) ==
              Before(Slashes(n) + [unit], TakeArgument(0, later, true, doubling))
  {
    var k := if unit == QUOTE then 2 * n + 1 else n;
    var line := [unit] + later;
    SlashesTaken(0, k, line, true, doubling);
    assert line[1..] == later;
  }

  lemma ClosingTaken(n: nat, rest: Wide, doubling: bool)
    requires Delimited(rest)
    ensures TakeArgument(0, Slashes(2 * n) + ([QUOTE] + rest), true, doubling) == (Slashes(n), rest)
  {
    var line := [QUOTE] + rest;
    SlashesTaken(0, 2 * n, line, true, doubling);
    assert line[1..] == rest;
    assert TakeArgument(0, rest, false, doubling) == (Slashes(0), rest);
    assert Slashes(n) + Slashes(0) == Slashes(n);
  }

  lemma {:induction false} EscapedTaken(n: nat, s: Wide, rest: Wide, doubling: bool)
    requires Delimited(rest)
    ensures TakeArgument(0, Escaped(n, s) + ([QUOTE] + rest), true, doubling) == (Slashes(n) + s, rest)
    decreases |s|
  {
    if s == [] {
      ClosingTaken(n, rest, doubling);
      assert Slashes(n) + s == Slashes(n);
    } else if s[0] == BACKSLASH {
      EscapedTaken(n + 1, s[1..], rest, doubling);
      OneMore(n, s);
    } else {
      EscapedTaken(0, s[1..], rest, doubling);
      var later := Escaped(0, s[1..]);
      Regrouped(Slashes(if s[0] == QUOTE then 2 * n + 1 else n), [s[0]], later, [QUOTE] + rest);
      HeadTaken(n, s[0], later + ([QUOTE] + rest), doubling);
      Rebuilt(n, s);
    }
  }

  lemma EncodedTaken(argument: Wide, rest: Wide, doubling: bool)
    requires Delimited(rest)
    ensures TakeArgument(0, Encoded(argument) + rest, false, doubling) == (argument, rest)
  {
    assert Slashes(0) + argument == argument;
    if NeedsQuotes(argument) {
      OpeningTaken(Escaped(0, argument), rest, doubling);
      EscapedTaken(0, argument, rest, doubling);
    } else {
      PlainTaken(0, argument, rest, doubling);
    }
  }

  lemma OpeningTaken(body: Wide, rest: Wide, doubling: bool)
    ensures TakeArgument(0, [QUOTE] + body + [QUOTE] + rest, false, doubling) ==
            TakeArgument(0, body + ([QUOTE] + rest), true, doubling)
  {
    var line := [QUOTE] + body + [QUOTE] + rest;
    assert line[1..] == body + ([QUOTE] + rest);
    var taken := TakeArgument(0, line[1..], true, doubling);
    assert Slashes(0) + taken.0 == taken.0;
  }

  lemma NextTaken(argument: Wide, rest: Wide, doubling: bool)
    requires Delimited(rest)
    ensures TakeArguments([SPACE] + Encoded(argument) + rest, doubling) == [argument] + TakeArguments(rest, doubling)
  {
    var line := Encoded(argument) + rest;
    assert ([SPACE] + Encoded(argument) + rest)[1..] == line;
    assert Encoded(argument) != [] && line[0] == Encoded(argument)[0];
    EncodedTaken(argument, rest, doubling);
  }

  lemma {:induction false} ArgumentsTaken(arguments: seq<Wide>, doubling: bool)
    ensures TakeArguments(EncodedAll(arguments), doubling) == arguments
  {
    if arguments != [] {
      NextTaken(arguments[0], EncodedAll(arguments[1..]), doubling);
      ArgumentsTaken(arguments[1..], doubling);
    }
  }

  /** The executable names a program can read back. */
  predicate Readable(executable: Wide) {
    QUOTE !in executable && !(NeedsQuotes(executable) && executable != [] && executable[|executable| - 1] == BACKSLASH)
  }

  lemma {:induction false} EscapedUnits(n: nat, s: Wide, unit: Unit)
    requires unit != BACKSLASH && unit !in s
    ensures unit !in Escaped(n, s)
    decreases |s|
  {
    if s != [] {
      EscapedUnits(if s[0] == BACKSLASH then n + 1 else 0, s[1..], unit);
    }
  }

  lemma SameTail(n: nat, s: Wide, later: Wide)
    requires s != []
    ensures Slashes(n) + [s[0]] + later == Slashes(n) + s <==> later == s[1..]
  {
    var whole := Slashes(n) + [s[0]] + later;
    assert Slashes(n) + s == Slashes(n) + [s[0]] + s[1..];
    assert whole[n + 1..] == later;
    assert (Slashes(n) + s)[n + 1..] == s[1..];
  }

  predicate EndsInBackslash(n: nat, s: Wide) {
    if s == [] then n > 0 else s[|s| - 1] == BACKSLASH
  }

  /** Without quotes only the backslashes at the very end grow. */
  lemma {:induction false} EscapedNoQuote(n: nat, s: Wide)
    requires QUOTE !in s
    ensures Escaped(n, s) == Slashes(n) + s <==> !EndsInBackslash(n, s)
    decreases |s|
  {
    if s == [] {
      assert Slashes(n) + s == Slashes(n);
      assert |Slashes(2 * n)| == 2 * n;
    } else if s[0] == BACKSLASH {
      EscapedNoQuote(n + 1, s[1..]);
      OneMore(n, s);
      assert EndsInBackslash(n, s) == EndsInBackslash(n + 1, s[1..]);
    } else {
      EscapedNoQuote(0, s[1..]);
      assert Slashes(0) + s[1..] == s[1..];
      SameTail(n, s, Escaped(0, s[1..]));
      assert EndsInBackslash(n, s) == EndsInBackslash(0, s[1..]);
    }
  }

  lemma {:induction false} UpToClosing(body: Wide, rest: Wide)
    requires QUOTE !in body
    ensures UpTo(body + ([QUOTE] + rest), true) == |body|
  {
    if body == [] {
      assert body + ([QUOTE] + rest) == [QUOTE] + rest;
    } else {
      assert (body + ([QUOTE] + rest))[1..] == body[1..] + ([QUOTE] + rest);
      UpToClosing(body[1..], rest);
    }
  }

  lemma QuotedProgramTaken(body: Wide, rest: Wide)
    requires QUOTE !in body
    ensures TakeProgram([QUOTE] + body + [QUOTE] + rest) == (body, rest)
  {
    var line := [QUOTE] + body + [QUOTE] + rest;
    var inside := body + ([QUOTE] + rest);
    assert line[1..] == inside;
    UpToClosing(body, rest);
    assert inside[..|body|] == body && inside[|body| + 1..] == rest;
  }

  lemma PlainProgramTaken(executable: Wide, rest: Wide)
    requires !NeedsQuotes(executable) && Delimited(rest)
    ensures TakeProgram(Encoded(executable) + rest) == (executable, rest)
  {
    var line := executable + rest;
    var n := UpTo(line, false);
    assert forall i :: 0 <= i < |executable| ==> line[i] == executable[i];
    assert rest != [] ==> line[|executable|] == rest[0];
    assert n == |executable|;
  }

  lemma QuotedProgramHasNoQuote(line: Wide)
    requires line != [] && line[0] == QUOTE
    ensures QUOTE !in TakeProgram(line).0
  {
    var n := UpTo(line[1..], true);
    assert forall i :: 0 <= i < n ==> line[1..][..n][i] == line[1..][i];
  }

  lemma SpacedProgramKept(executable: Wide)
    requires NeedsQuotes(executable) && QUOTE !in executable
    ensures Escaped(0, executable) == executable <==> Readable(executable)
  {
    EscapedNoQuote(0, executable);
    assert Slashes(0) + executable == executable;
  }

  lemma SpacedProgramTaken(executable: Wide, rest: Wide)
    requires NeedsQuotes(executable) && QUOTE !in executable
    ensures TakeProgram(Encoded(executable) + rest) == (Escaped(0, executable), rest)
  {
    EscapedUnits(0, executable, QUOTE);
    QuotedProgramTaken(Escaped(0, executable), rest);
  }

  lemma QuoteIsLost(executable: Wide, rest: Wide)
    requires QUOTE in executable
    ensures TakeProgram(Encoded(executable) + rest).0 != executable
  {
    QuotedProgramHasNoQuote(Encoded(executable) + rest);
  }

  lemma ProgramTaken(executable: Wide, rest: Wide)
    requires Delimited(rest)
    ensures TakeProgram(Encoded(executable) + rest).0 == executable <==> Readable(executable)
    ensures QUOTE !in executable ==> TakeProgram(Encoded(executable) + rest).1 == rest
  {
    if QUOTE in executable {
      QuoteIsLost(executable, rest);
    } else if NeedsQuotes(executable) {
      SpacedProgramTaken(executable, rest);
      SpacedProgramKept(executable);
    } else {
      PlainProgramTaken(executable, rest);
    }
  }

  /** The terminator is the only NUL, so a reader sees the whole line. */
  lemma {:induction false} LineHasNoNul(executable: Wide, arguments: seq<Wide>)
    requires NUL !in executable && forall i :: 0 <= i < |arguments| ==> NUL !in arguments[i]
    ensures NUL !in Line(executable, arguments)
    decreases |arguments|
  {
    EscapedUnits(0, executable, NUL);
    if arguments != [] {
      LineHasNoNul(arguments[0], arguments[1..]);
    }
  }

  /** Exactly the readable executable names come back together with their arguments. */
  lemma LineReadsBack(executable: Wide, arguments: seq<Wide>, doubling: bool)
    ensures Parsed(Line(executable, arguments), doubling) == [executable] + arguments <==> Readable(executable)
  {
    ProgramTaken(executable, EncodedAll(arguments));
    if Readable(executable) {
      ArgumentsReadBack(executable, arguments, doubling);
    } else {
      assert Parsed(Line(executable, arguments), doubling)[0] != ([executable] + arguments)[0];
    }
  }

  /** Whatever the arguments are, they come back after any executable name without a quote in it. */
  lemma ArgumentsReadBack(executable: Wide, arguments: seq<Wide>, doubling: bool)
    requires QUOTE !in executable
    ensures Parsed(Line(executable, arguments), doubling)[1..] == arguments
  {
    ProgramTaken(executable, EncodedAll(arguments));
    ArgumentsTaken(arguments, doubling);
  }
}
