/** The names of staging directories, which carry the identity of their creator, and the pass that reclaims orphans. */
module StagingNames {
  import opened Fields
  import opened Wrappers

  const U32_LIMIT: nat := 0x1_0000_0000
  const U64_LIMIT: nat := 0x1_0000_0000_0000_0000
  const U128_LIMIT: nat := 0x1_0000_0000_0000_0000_0000_0000_0000_0000
  const STAGING_ATTEMPTS: nat := 64
  const KEY_LENGTH: nat := 64
  const STILL_ACTIVE: nat := 259

  // Digits.

  function Digit(d: nat): char
    requires d < 16
  {
    if d < 10 then '0' + d as char else 'a' + (d - 10) as char
  }

  /** The value of a decimal or lower-case hexadecimal digit. */
  function DigitOf(c: char): (d: Option<nat>)
    ensures d.Some? ==> d.value < 16 && Digit(d.value) == c
  {
    if '0' <= c <= '9' then Some((c - '0') as nat)
    else if 'a' <= c <= 'f' then Some((c - 'a') as nat + 10)
    else None
  }

  lemma DigitRead(d: nat)
    requires d < 16
    ensures DigitOf(Digit(d)) == Some(d)
  {
  }

  predicate Digits(s: string, base: nat) {
    forall i :: 0 <= i < |s| ==> DigitOf(s[i]).Some? && DigitOf(s[i]).value < base
  }

  function Value(s: string, base: nat): nat
    requires Digits(s, base)
  {
    if s == [] then 0 else Value(s[..|s| - 1], base) * base + DigitOf(s[|s| - 1]).value
  }

  /** A number as it is printed in decimal. */
  function Decimal(n: nat): (s: string)
    ensures s != [] && Digits(s, 10) && Value(s, 10) == n
  {
    DigitRead(n % 10);
    if n < 10 then [Digit(n)]
    else
      var front := Decimal(n / 10);
      assert (front + [Digit(n % 10)])[..|front|] == front;
      front + [Digit(n % 10)]
  }

  /** A number as it is printed in hexadecimal, padded with zeros to a width it fits in. */
  function Hex(n: nat, width: nat): (s: string)
    requires n < Power(width)
    ensures |s| == width && Digits(s, 16) && Value(s, 16) == n
  {
    DigitRead(n % 16);
    if width == 0 then []
    else
      var front := Hex(n / 16, width - 1);
      assert (front + [Digit(n % 16)])[..|front|] == front;
      front + [Digit(n % 16)]
  }

  function Power(width: nat): nat {
    if width == 0 then 1 else 16 * Power(width - 1)
  }

  lemma HexExtended(front: string, last: char)
    requires Digits(front, 16) && Value(front, 16) < Power(|front|) && Hex(Value(front, 16), |front|) == front
    requires DigitOf(last).Some?
    ensures var s := front + [last];
            Digits(s, 16) && Value(s, 16) < Power(|s|) && Hex(Value(s, 16), |s|) == s
  {
    var s, d := front + [last], DigitOf(last).value;
    assert s[..|s| - 1] == front;
    var n := Value(s, 16);
    assert n == Value(front, 16) * 16 + d;
    assert n / 16 == Value(front, 16) && n % 16 == d;
  }

  lemma {:induction false} HexOfValue(s: string)
    requires Digits(s, 16)
    ensures Value(s, 16) < Power(|s|) && Hex(Value(s, 16), |s|) == s
  {
    if s != [] {
      var front := s[..|s| - 1];
      HexOfValue(front);
      HexExtended(front, s[|s| - 1]);
      assert s == front + [s[|s| - 1]];
    }
  }

  lemma SixteenDigits()
    ensures Power(16) == U64_LIMIT
  {
    assert Power(4) == 0x1_0000;
    assert Power(8) == 0x1_0000_0000;
    assert Power(12) == 0x1_0000_0000_0000;
  }

  /** How an unsigned number is parsed: an optional plus sign, then digits, some of which may be leading zeros. */
  function ParseUnsigned(s: string, limit: nat): Option<nat> {
    var digits := if s != [] && s[0] == '+' then s[1..] else s;
    if digits == [] || !Digits(digits, 10) || Value(digits, 10) >= limit then None else Some(Value(digits, 10))
  }

  function ParseCanonicalDecimal(s: string, limit: nat): Option<nat> {
    var parsed := ParseUnsigned(s, limit);
    if parsed.Some? && Decimal(parsed.value) == s then parsed else None
  }

  /** Exactly the printed forms of the numbers in range are canonical. */
  lemma CanonicalIsPrinted(s: string, limit: nat, n: nat)
    ensures ParseCanonicalDecimal(s, limit) == Some(n) <==> n < limit && s == Decimal(n)
  {
    if s == Decimal(n) {
      assert DigitOf(s[0]).Some?;
    }
  }

  // Names.

  /** One incarnation of a process: its number and the time it was created at. */
  datatype Creator = Creator(pid: nat, created: nat)

  predicate RealCreator(c: Creator) {
    0 < c.pid < 0x1_0000_0000 && 0 < c.created < 0x1_0000_0000_0000_0000
  }

  predicate ContentKey(key: string) {
    |key| == KEY_LENGTH && Digits(key, 16)
  }

  const PREFIX := ".staging-"

  function HexTime(created: nat): string
    requires created < U64_LIMIT
  {
    SixteenDigits();
    Hex(created, 16)
  }

  function NameFields(key: string, creator: Creator, nonce: nat, sequence: nat): seq<string>
    requires creator.created < U64_LIMIT
  {
    ["v2", key, Decimal(creator.pid), HexTime(creator.created), Decimal(nonce), Decimal(sequence)]
  }

  function Name(key: string, creator: Creator, nonce: nat, sequence: nat): string
    requires creator.created < U64_LIMIT
  {
    PREFIX + Join(NameFields(key, creator, nonce, sequence), '-')
  }

  /** The names a process can give the staging directories it makes. */
  ghost predicate Printed(name: string, creator: Creator) {
    RealCreator(creator) &&
    exists key, nonce: nat, sequence: nat ::
      ContentKey(key) && nonce < 0x1_0000_0000_0000_0000_0000_0000_0000_0000 && sequence < 0x1_0000_0000_0000_0000
      && name == Name(key, creator, nonce, sequence)
  }

  /** Such a name in full; the creation time has 16 hexadecimal digits. */
  lemma NameReads(key: string, creator: Creator, nonce: nat, sequence: nat)
    requires RealCreator(creator)
    ensures Name(key, creator, nonce, sequence) ==
            ".staging-" + ("v2" + "-" + key + "-" + Decimal(creator.pid) + "-" + HexTime(creator.created)
                           + "-" + Decimal(nonce) + "-" + Decimal(sequence))
    ensures |HexTime(creator.created)| == 16
  {
    var fields := NameFields(key, creator, nonce, sequence);
    JoinSix(fields[0], fields[1], fields[2], fields[3], fields[4], fields[5], '-');
    assert ['-'] == "-";
  }

  lemma JoinOne(a: string, rest: seq<string>, dash: char)
    requires rest != []
    ensures Join([a] + rest, dash) == a + [dash] + Join(rest, dash)
  {
    assert ([a] + rest)[1..] == rest;
  }

  lemma JoinSix(a: string, b: string, c: string, d: string, e: string, f: string, dash: char)
    ensures Join([a, b, c, d, e, f], dash) == a + [dash] + b + [dash] + c + [dash] + d + [dash] + e + [dash] + f
  {
    JoinOne(e, [f], dash);
    assert [e] + [f] == [e, f];
    JoinOne(d, [e, f], dash);
    assert [d] + [e, f] == [d, e, f];
    JoinOne(c, [d, e, f], dash);
    assert [c] + [d, e, f] == [c, d, e, f];
    JoinOne(b, [c, d, e, f], dash);
    assert [b] + [c, d, e, f] == [b, c, d, e, f];
    JoinOne(a, [b, c, d, e, f], dash);
    assert [a] + [b, c, d, e, f] == [a, b, c, d, e, f];
  }

  /** A key in full. */
  lemma KeysAreLowerHex(key: string)
    ensures ContentKey(key) <==> |key| == 64 && forall i :: 0 <= i < 64 ==> '0' <= key[i] <= '9' || 'a' <= key[i] <= 'f'
  {
    if ContentKey(key) {
      assert forall i :: 0 <= i < |key| ==> DigitOf(key[i]).Some?;
    }
  }

  /** A printed number has no leading zero. */
  lemma {:induction false} NoLeadingZero(n: nat)
    ensures Decimal(n)[0] == '0' <==> n == 0
  {
    if n >= 10 {
      NoLeadingZero(n / 10);
      assert Decimal(n)[0] == Decimal(n / 10)[0];
    }
  }

  function ParseFields(fields: seq<string>): Option<Creator> {
    if |fields| != 6 || fields[0] != "v2" then None
    else if !ContentKey(fields[1]) then None
    else
      var pid := ParseCanonicalDecimal(fields[2], U32_LIMIT);
      if pid.None? || pid.value == 0 then None
      else if |fields[3]| != 16 || !Digits(fields[3], 16) then None
      else
        var created := Value(fields[3], 16);
        if created == 0 then None
        else if ParseCanonicalDecimal(fields[4], U128_LIMIT).None? then None
        else if ParseCanonicalDecimal(fields[5], U64_LIMIT).None? then None
        else Some(Creator(pid.value, created))
  }

  function ParseCreator(name: string): Option<Creator> {
    if PREFIX <= name then ParseFields(Split(name[|PREFIX|..], '-')) else None
  }

  lemma NoDash(s: string, base: nat)
    requires Digits(s, base)
    ensures '-' !in s
  {
    assert forall i :: 0 <= i < |s| ==> DigitOf(s[i]).Some?;
  }

  lemma SplitName(key: string, creator: Creator, nonce: nat, sequence: nat)
    requires creator.created < U64_LIMIT && ContentKey(key)
    ensures var name := Name(key, creator, nonce, sequence);
            PREFIX <= name && Split(name[|PREFIX|..], '-') == NameFields(key, creator, nonce, sequence)
  {
    var fields := NameFields(key, creator, nonce, sequence);
    NoDash(key, 16);
    NoDash(fields[2], 10);
    NoDash(fields[3], 16);
    NoDash(fields[4], 10);
    NoDash(fields[5], 10);
    SplitJoined(fields, '-');
    assert (PREFIX + Join(fields, '-'))[|PREFIX|..] == Join(fields, '-');
  }

  lemma PrintedParses(key: string, creator: Creator, nonce: nat, sequence: nat)
    requires RealCreator(creator) && ContentKey(key) && nonce < U128_LIMIT && sequence < U64_LIMIT
    ensures ParseCreator(Name(key, creator, nonce, sequence)) == Some(creator)
  {
    SplitName(key, creator, nonce, sequence);
    CanonicalIsPrinted(Decimal(creator.pid), U32_LIMIT, creator.pid);
    CanonicalIsPrinted(Decimal(nonce), U128_LIMIT, nonce);
    CanonicalIsPrinted(Decimal(sequence), U64_LIMIT, sequence);
    SixteenDigits();
  }

  lemma TimeIsPrinted(field: string)
    requires |field| == 16 && Digits(field, 16)
    ensures Value(field, 16) < U64_LIMIT && HexTime(Value(field, 16)) == field
  {
    SixteenDigits();
    HexOfValue(field);
  }

  lemma ParsedFields(fields: seq<string>, creator: Creator) returns (nonce: nat, sequence: nat)
    requires ParseFields(fields) == Some(creator)
    ensures RealCreator(creator) && ContentKey(fields[1]) && nonce < U128_LIMIT && sequence < U64_LIMIT
    ensures fields == NameFields(fields[1], creator, nonce, sequence)
  {
    nonce := ParseCanonicalDecimal(fields[4], U128_LIMIT).value;
    sequence := ParseCanonicalDecimal(fields[5], U64_LIMIT).value;
    CanonicalIsPrinted(fields[2], U32_LIMIT, creator.pid);
    CanonicalIsPrinted(fields[4], U128_LIMIT, nonce);
    CanonicalIsPrinted(fields[5], U64_LIMIT, sequence);
    TimeIsPrinted(fields[3]);
  }

  lemma ParsedIsPrinted(name: string, creator: Creator)
    requires ParseCreator(name) == Some(creator)
    ensures Printed(name, creator)
  {
    var rest := name[|PREFIX|..];
    SplitFields(rest, '-');
    var fields := Split(rest, '-');
    var nonce, sequence := ParsedFields(fields, creator);
    assert name == PREFIX + rest;
    assert name == Name(fields[1], creator, nonce, sequence);
  }

  /** The parser accepts exactly the names that can be printed, and returns the identity printed in them. */
  lemma ParsesExactlyThePrinted(name: string, creator: Creator)
    ensures ParseCreator(name) == Some(creator) <==> Printed(name, creator)
  {
    if ParseCreator(name) == Some(creator) {
      ParsedIsPrinted(name, creator);
    } else if Printed(name, creator) {
      var key, nonce: nat, sequence: nat :| ContentKey(key) && nonce < U128_LIMIT && sequence < U64_LIMIT &&
        name == Name(key, creator, nonce, sequence);
      PrintedParses(key, creator, nonce, sequence);
    }
  }

  lemma DecimalInjective(m: nat, n: nat)
    requires Decimal(m) == Decimal(n)
    ensures m == n
  {
    assert Value(Decimal(m), 10) == m;
  }

  /** No two different choices print the same name. */
  lemma NamesAreDistinct(key: string, creator: Creator, nonce: nat, sequence: nat,
                         key': string, creator': Creator, nonce': nat, sequence': nat)
    requires ContentKey(key) && creator.created < U64_LIMIT && ContentKey(key') && creator'.created < U64_LIMIT
    requires Name(key, creator, nonce, sequence) == Name(key', creator', nonce', sequence')
    ensures key == key' && creator == creator' && nonce == nonce' && sequence == sequence'
  {
    SplitName(key, creator, nonce, sequence);
    SplitName(key', creator', nonce', sequence');
    var fields := Split(Name(key, creator, nonce, sequence)[|PREFIX|..], '-');
    assert fields[1] == key && fields[1] == key';
    assert fields[2] == Decimal(creator.pid) && fields[2] == Decimal(creator'.pid);
    assert fields[3] == HexTime(creator.created) && fields[3] == HexTime(creator'.created);
    assert fields[4] == Decimal(nonce) && fields[4] == Decimal(nonce');
    assert fields[5] == Decimal(sequence) && fields[5] == Decimal(sequence');
    DecimalInjective(creator.pid, creator'.pid);
    DecimalInjective(nonce, nonce');
    DecimalInjective(sequence, sequence');
    SixteenDigits();
    assert Value(fields[3], 16) == creator.created;
  }

  // Liveness of a creator.

  datatype CreatorState = Alive | Dead | Unverifiable

  /** What the system answers about a process number: `exit` is none when the exit code cannot be read. */
  datatype Probe =
    | OpenFailed(invalidParameter: bool)
    | TimesFailed
    | Times(created: nat, exit: Option<nat>)

  function StateOf(creator: Creator, probe: Probe): CreatorState {
    match probe
    case OpenFailed(invalidParameter) => if invalidParameter then Dead else Unverifiable
    case TimesFailed => Unverifiable
    case Times(created, exit) =>
      if created == 0 || created != creator.created then Dead
      else if exit.None? then Unverifiable
      else if exit.value == STILL_ACTIVE then Alive
      else Dead
  }

  /** The processes that can be opened; one that has exited stays openable while somebody holds a handle to it. */
  datatype Process = Process(created: nat, exited: Option<nat>)

  type Processes = map<nat, Process>

  predicate Running(processes: Processes, creator: Creator) {
    creator.pid in processes && processes[creator.pid] == Process(creator.created, None)
  }

  /** An exit code that reads like that of a running process. */
  predicate LooksRunning(processes: Processes, creator: Creator) {
    creator.pid in processes && processes[creator.pid] == Process(creator.created, Some(STILL_ACTIVE))
  }

  predicate Truthful(processes: Processes, pid: nat, probe: Probe) {
    match probe
    case OpenFailed(invalidParameter) => invalidParameter ==> pid !in processes
    case TimesFailed => pid in processes
    case Times(created, exit) =>
      && pid in processes && created == processes[pid].created
      && (exit.Some? ==>
            exit.value == if processes[pid].exited.None? then STILL_ACTIVE else processes[pid].exited.value)
  }

  predicate Conclusive(probe: Probe) {
    probe == OpenFailed(true) || (probe.Times? && probe.exit.Some?)
  }

  /** A running creator is never taken for dead; conclusive answers find every other one dead,
    * unless its exit code is the one that stands for running. */
  lemma DeadMeansGone(processes: Processes, creator: Creator, probe: Probe)
    requires RealCreator(creator) && Truthful(processes, creator.pid, probe)
    ensures StateOf(creator, probe).Dead? ==> !Running(processes, creator)
    ensures Conclusive(probe) ==>
      (StateOf(creator, probe).Dead? <==> !Running(processes, creator) && !LooksRunning(processes, creator))
  {
  }

  // The catalog.

  /** A name in the file system; one that is not well-formed Unicode cannot be looked into. */
  datatype EntryName = Unicode(text: string) | IllFormed(units: seq<nat>)

  datatype Kind = Directory | Other

  type Entries = map<EntryName, Kind>

  /** One entry of a listing, what the system answers about its creator, and whether it can be locked and removed. */
  datatype Visit = Visit(name: EntryName, probe: Probe, removable: bool)

  /** What the pass takes for an orphan. */
  predicate Condemned(name: EntryName, kind: Kind, probe: Probe) {
    && name.Unicode? && kind.Directory?
    && var creator := ParseCreator(name.text); creator.Some? && StateOf(creator.value, probe).Dead?
  }

  datatype CreateError = NoIdentity | Exhausted | Refused

  class StagingCatalog {
    var entries: Entries
    var sequence: nat // shared by every call in the process; wraps around

    constructor ()
      ensures entries == map[] && sequence == 0
    {
      entries, sequence := map[], 0;
    }

    /** The name of the `n`-th attempt that started at `first`. */
    method NextName(key: string, creator: Creator, nonce: nat, ghost first: nat, ghost n: nat) returns (name: string)
      requires RealCreator(creator) && sequence == Wrapped(first + n)
      modifies this`sequence
      ensures name == Tries(key, creator, nonce, first)(n) && sequence == Wrapped(first + (n + 1))
    {
      name := Name(key, creator, nonce, sequence);
      NextWrapped(first + n);
      sequence := Wrapped(sequence + 1);
    }

    /** Creates a directory unless something has that name. */
    method CreateExclusive(name: EntryName) returns (created: bool)
      modifies this`entries
      ensures created <==> name !in old(entries)
      ensures entries == if created then old(entries)[name := Directory] else old(entries)
    {
      created := name !in entries;
      if created {
        entries := entries[name := Directory];
      }
    }

    /** The names in turn, each created unless something has it. */
    method CreateFirstFree(key: string, creator: Creator, nonce: nat, refused: nat)
      returns (r: Result<string, CreateError>, ghost n: nat)
      requires RealCreator(creator) && sequence < U64_LIMIT
      modifies this
      ensures sequence < U64_LIMIT
      ensures entries == if r.Ok? then old(entries)[Unicode(r.value) := Directory] else old(entries)
      ensures Ends(old(entries), Tries(key, creator, nonce, old(sequence)), refused, n, r)
    {
      ghost var tries := Tries(key, creator, nonce, sequence);
      for attempt := 0 to STAGING_ATTEMPTS
        invariant sequence == Wrapped(old(sequence) + attempt) && sequence < U64_LIMIT && entries == old(entries)
        invariant attempt <= refused && AllTaken(entries, tries, attempt)
      {
        n := attempt;
        var name := NextName(key, creator, nonce, old(sequence), attempt);
        if attempt == refused {
          return Err(Refused), n;
        }
        var created := CreateExclusive(Unicode(name));
        if created {
          return Ok(name), n;
        }
        OneMoreTaken(entries, tries, attempt);
      }
      return Err(Exhausted), STAGING_ATTEMPTS;
    }

    /**
    A directory under the first name in turn that nothing has; `refused` is the attempt at which the system
    fails for another reason. A refusal counts only if it is reached, and a free name reached before it is taken.
    */
    method CreateStagingDirectory(key: string, identity: Option<Creator>, nonce: nat, refused: nat)
      returns (r: Result<string, CreateError>)
      requires ContentKey(key) && nonce < U128_LIMIT && sequence < U64_LIMIT
      requires identity.Some? ==> RealCreator(identity.value)
      modifies this
      ensures sequence < U64_LIMIT
      ensures entries == if r.Ok? then old(entries)[Unicode(r.value) := Directory] else old(entries)
      ensures r == Err(NoIdentity) <==> identity.None?
      ensures r.Ok? ==> Printed(r.value, identity.value) && Unicode(r.value) !in old(entries)
      ensures identity.Some? ==>
                var tries := Tries(key, identity.value, nonce, old(sequence));
                && (r == Err(Refused) <==> refused < STAGING_ATTEMPTS && AllTaken(old(entries), tries, refused))
                && (r == Err(Exhausted) <==> STAGING_ATTEMPTS <= refused && AllTaken(old(entries), tries, STAGING_ATTEMPTS))
                && (r.Ok? ==> exists n :: 0 <= n < STAGING_ATTEMPTS && n < refused && FirstFree(old(entries), tries, n)
                                          && r.value == tries(n))
    {
      if identity.None? {
        return Err(NoIdentity);
      }
      ghost var n;
      r, n := CreateFirstFree(key, identity.value, nonce, refused);
      EndsExactly(old(entries), Tries(key, identity.value, nonce, old(sequence)), refused, n, r);
      NameIsPrinted(key, identity.value, nonce, Wrapped(old(sequence) + n));
    }

    /** One entry of the pass. */
    method Consider(visit: Visit)
      requires visit.name in entries
      modifies this`entries
      ensures entries == old(entries) - if Goes(old(entries), visit) then {visit.name} else {}
    {
      if visit.name.IllFormed? || !(PREFIX <= visit.name.text) || entries[visit.name].Other? {
        return;
      }
      var creator := ParseCreator(visit.name.text);
      if creator.None? {
        return;
      }
      match StateOf(creator.value, visit.probe) {
        case Alive =>
        case Unverifiable =>
        case Dead =>
          if visit.removable {
            entries := entries - {visit.name};
          }
      }
    }

    /** One best-effort pass over a listing of the catalog; a listing that fails ends it at once. */
    method ReconcileOrphanedStaging(listing: Option<seq<Visit>>)
      requires listing.Some? ==> Lists(listing.value, entries)
      modifies this`entries
      ensures entries == old(entries) - if listing.Some? then Orphans(old(entries), listing.value) else {}
    {
      if listing.None? {
        return;
      }
      var visits := listing.value;
      for i := 0 to |visits|
        invariant entries == old(entries) - Orphans(old(entries), visits[..i])
      {
        OrphansGrow(old(entries), entries, visits, i);
        Consider(visits[i]);
      }
      assert visits[..|visits|] == visits;
    }
  }

  function Wrapped(n: nat): nat {
    n % U64_LIMIT
  }

  lemma NextWrapped(n: nat)
    ensures Wrapped(Wrapped(n) + 1) == Wrapped(n + 1)
  {
  }

  /** The names a call tries, in turn. */
  ghost function Tries(key: string, creator: Creator, nonce: nat, first: nat): nat -> string
    requires RealCreator(creator)
  {
    (n: nat) => Name(key, creator, nonce, Wrapped(first + n))
  }

  ghost predicate AllTaken(entries: Entries, tries: nat -> string, n: nat) {
    forall k :: 0 <= k < n ==> Unicode(tries(k)) in entries
  }

  lemma OneMoreTaken(entries: Entries, tries: nat -> string, n: nat)
    requires AllTaken(entries, tries, n) && Unicode(tries(n)) in entries
    ensures AllTaken(entries, tries, n + 1)
  {
  }

  ghost predicate FirstFree(entries: Entries, tries: nat -> string, n: nat) {
    AllTaken(entries, tries, n) && Unicode(tries(n)) !in entries
  }

  /** How the attempts end at the `n`-th of them. */
  ghost predicate Ends(entries: Entries, tries: nat -> string, refused: nat, n: nat, r: Result<string, CreateError>) {
    && n <= refused && n <= STAGING_ATTEMPTS && AllTaken(entries, tries, n)
    && match r
       case Ok(name) => n < refused && n < STAGING_ATTEMPTS && FirstFree(entries, tries, n) && name == tries(n)
       case Err(Refused) => n == refused && n < STAGING_ATTEMPTS
       case Err(Exhausted) => n == STAGING_ATTEMPTS
       case Err(NoIdentity) => false
  }

  lemma EndsExactly(entries: Entries, tries: nat -> string, refused: nat, n: nat, r: Result<string, CreateError>)
    requires Ends(entries, tries, refused, n, r)
    ensures r == Err(Refused) <==> refused < STAGING_ATTEMPTS && AllTaken(entries, tries, refused)
    ensures r == Err(Exhausted) <==> STAGING_ATTEMPTS <= refused && AllTaken(entries, tries, STAGING_ATTEMPTS)
  {
    if r.Ok? {
      assert Unicode(tries(n)) !in entries;
    }
  }

  lemma NameIsPrinted(key: string, creator: Creator, nonce: nat, sequence: nat)
    requires RealCreator(creator) && ContentKey(key) && nonce < U128_LIMIT && sequence < U64_LIMIT
    ensures Printed(Name(key, creator, nonce, sequence), creator)
  {
  }

  /** The listing names every entry once. */
  ghost predicate Lists(visits: seq<Visit>, entries: Entries) {
    && (forall i, j :: 0 <= i < j < |visits| ==> visits[i].name != visits[j].name)
    && (forall i :: 0 <= i < |visits| ==> visits[i].name in entries)
    && (forall name :: name in entries ==> exists i :: 0 <= i < |visits| && visits[i].name == name)
  }

  predicate Goes(entries: Entries, visit: Visit)
    requires visit.name in entries
  {
    Condemned(visit.name, entries[visit.name], visit.probe) && visit.removable
  }

  ghost function Orphans(entries: Entries, visits: seq<Visit>): set<EntryName>
    requires forall i :: 0 <= i < |visits| ==> visits[i].name in entries
  {
    if visits == [] then {}
    else
      var last := visits[|visits| - 1];
      Orphans(entries, visits[..|visits| - 1]) + if Goes(entries, last) then {last.name} else {}
  }

  lemma OneMoreVisit(front: seq<Visit>, last: Visit, v: Visit)
    ensures v in front + [last] <==> v in front || v == last
  {
    assert (front + [last])[|front|] == last;
  }

  /** Exactly the names some visit finds removable and orphaned. */
  lemma {:induction false} OrphansAreTheGoing(entries: Entries, visits: seq<Visit>, name: EntryName)
    requires forall i :: 0 <= i < |visits| ==> visits[i].name in entries
    ensures name in Orphans(entries, visits) <==>
      exists v :: v in visits && v.name == name && v.name in entries && Goes(entries, v)
  {
    if visits != [] {
      var front, last := visits[..|visits| - 1], visits[|visits| - 1];
      assert visits == front + [last];
      OrphansAreTheGoing(entries, front, name);
      forall v
        ensures v in visits <==> v in front || v == last
      {
        OneMoreVisit(front, last, v);
      }
    }
  }

  lemma {:induction false} OrphansAreVisited(entries: Entries, visits: seq<Visit>)
    requires forall i :: 0 <= i < |visits| ==> visits[i].name in entries
    ensures forall name :: name in Orphans(entries, visits) ==> exists i :: 0 <= i < |visits| && visits[i].name == name
  {
    if visits != [] {
      var front := visits[..|visits| - 1];
      assert forall i :: 0 <= i < |front| ==> front[i] == visits[i];
      OrphansAreVisited(entries, front);
    }
  }

  lemma NotYetGone(entries: Entries, visits: seq<Visit>, n: nat)
    requires n < |visits| && Lists(visits, entries)
    ensures visits[n].name !in Orphans(entries, visits[..n])
  {
    OrphansAreVisited(entries, visits[..n]);
    assert forall i :: 0 <= i < n ==> visits[..n][i] == visits[i];
  }

  lemma OneMoreOrphan(entries: Entries, visits: seq<Visit>, n: nat)
    requires n < |visits| && forall i :: 0 <= i < |visits| ==> visits[i].name in entries
    ensures Orphans(entries, visits[..n + 1]) ==
      Orphans(entries, visits[..n]) + if Goes(entries, visits[n]) then {visits[n].name} else {}
  {
    assert visits[..n + 1][..n] == visits[..n];
  }

  lemma TakenInTurn(entries: Entries, a: set<EntryName>, b: set<EntryName>)
    ensures entries - (a + b) == entries - a - b
  {
  }

  lemma OrphansGrow(before: Entries, now: Entries, visits: seq<Visit>, n: nat)
    requires n < |visits| && Lists(visits, before) && now == before - Orphans(before, visits[..n])
    ensures visits[n].name in now
    ensures before - Orphans(before, visits[..n + 1]) == now - if Goes(now, visits[n]) then {visits[n].name} else {}
  {
    NotYetGone(before, visits, n);
    OneMoreOrphan(before, visits, n);
    var last := if Goes(before, visits[n]) then {visits[n].name} else {};
    TakenInTurn(before, Orphans(before, visits[..n]), last);
  }

  /** Nothing that could not have been made by `CreateStagingDirectory` is ever condemned. */
  lemma OnlyPrintedNamesAreCondemned(name: EntryName, kind: Kind, probe: Probe)
    requires Condemned(name, kind, probe)
    ensures name.Unicode? && kind.Directory? && exists creator :: Printed(name.text, creator)
  {
    ParsesExactlyThePrinted(name.text, ParseCreator(name.text).value);
  }

  /** A whole pass spares every directory whose creator runs when it is asked about; one whose creator can be judged
    * and which can be locked and removed goes exactly if that creator is gone for good. */
  lemma PassReclaimsTheOrphans(entries: Entries, visits: seq<Visit>, visit: Visit, processes: Processes, creator: Creator)
    requires Lists(visits, entries) && visit in visits && visit.name.Unicode? && Printed(visit.name.text, creator)
    requires Truthful(processes, creator.pid, visit.probe)
    ensures var left := entries - Orphans(entries, visits);
            && (Running(processes, creator) ==> visit.name in left)
            && (Conclusive(visit.probe) && visit.removable && entries[visit.name].Directory? ==>
                  (visit.name !in left <==> !Running(processes, creator) && !LooksRunning(processes, creator)))
  {
    OrphansAreTheGoing(entries, visits, visit.name);
    ParsesExactlyThePrinted(visit.name.text, creator);
    DeadMeansGone(processes, creator, visit.probe);
    assert forall v :: v in visits && v.name == visit.name ==> v == visit;
  }
}
