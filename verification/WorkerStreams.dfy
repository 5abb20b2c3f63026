/** Writing the frames of the worker protocol and reading them from streams that deliver a few bytes at a time. */
module WorkerStreams {
  import opened Bytes
  import opened LittleEndian
  import opened Utf8
  import opened WorkerFrames
  import opened Wrappers

  // Reading.

  /** What a reader says to its caller, without the rest of the stream. */
  function RequestAnswer(taken: Result<Option<Taken<Request>>, ReadError>): Result<Option<Request>, ReadError> {
    if taken.Err? then Err(taken.error)
    else if taken.value.None? then Ok(None)
    else Ok(Some(taken.value.value.value))
  }

  function ResponseAnswer(taken: Result<Taken<Response>, ReadError>): Result<Response, ReadError> {
    if taken.Err? then Err(taken.error) else Ok(taken.value.value)
  }

  function Continued(read: seq<Request>, later: (seq<Request>, Option<ReadError>)): (seq<Request>, Option<ReadError>) {
    (read + later.0, later.1)
  }

  lemma NoneLater(read: seq<Request>, error: Option<ReadError>)
    ensures Continued(read, ([], error)) == (read, error)
  {
    assert read + [] == read;
  }

  lemma OneLater(read: seq<Request>, request: Request, later: (seq<Request>, Option<ReadError>))
    ensures Continued(read, ([request] + later.0, later.1)) == Continued(read + [request], later)
  {
    assert read + ([request] + later.0) == read + [request] + later.0;
  }

  lemma RequestsOne(s: Text, request: Request, rest: Text)
    requires TakeRequest(s) == Ok(Some(Taken(request, rest)))
    ensures |rest| < |s| && Requests(s) == ([request] + Requests(rest).0, Requests(rest).1)
  {
    RequestsShrink(s, request, rest);
  }

  lemma RequestsEnd(s: Text)
    requires TakeRequest(s).Err? || TakeRequest(s).value.None?
    ensures Requests(s) == ([], if TakeRequest(s).Err? then Some(TakeRequest(s).error) else None)
  {
  }

  /** A stream whose reads may each return fewer bytes than asked for. */
  class ShortReader {
    var rest: Text
    var sizes: seq<nat> // how much the coming reads are ready to deliver

    constructor (rest: Text, sizes: seq<nat>)
      ensures this.rest == rest && this.sizes == sizes
    {
      this.rest, this.sizes := rest, sizes;
    }

    /** At least one byte unless the stream is at its end, and no more than asked for. */
    method Read(most: nat) returns (bytes: Text)
      requires most > 0
      modifies this
      ensures old(rest) == bytes + rest && |bytes| <= most
      ensures bytes == [] <==> old(rest) == []
    {
      var ready := if sizes == [] then most else sizes[0];
      sizes := if sizes == [] then [] else sizes[1..];
      var n := if ready == 0 then 1 else if ready > most then most else ready;
      n := if n > |rest| then |rest| else n;
      bytes, rest := rest[..n], rest[n..];
    }

    /** Exactly so many bytes, however many reads that takes. */
    method ReadExact(n: nat) returns (r: Result<Text, ReadError>)
      modifies this
      ensures n <= |old(rest)| ==> r == Ok(old(rest)[..n]) && rest == old(rest)[n..]
      ensures n > |old(rest)| ==> r == Err(Ended) && rest == []
    {
      var bytes: Text := [];
      while |bytes| < n
        invariant old(rest) == bytes + rest && |bytes| <= n
        decreases n - |bytes|
      {
        var more := Read(n - |bytes|);
        if more == [] {
          return Err(Ended);
        }
        bytes := bytes + more;
      }
      return Ok(bytes);
    }

    /** The result depends on the bytes of the stream only, not on how they arrive. */
    method ReadRequest() returns (r: Result<Option<Request>, ReadError>)
      modifies this
      ensures r == RequestAnswer(TakeRequest(old(rest)))
      ensures r.Ok? && r.value.Some? ==> rest == TakeRequest(old(rest)).value.value.rest
    {
      ghost var s := rest;
      var first := Read(4);
      if first == [] {
        return Ok(None);
      }
      var more := ReadExact(REQUEST_HEADER_BYTES - |first|);
      if more.Err? {
        return Err(more.error);
      }
      var header := first + more.value;
      assert s == header + rest;
      OnlyTheHeaderCounts(header, rest);
      var fields := RequestHeader(header);
      if fields.Err? {
        return Err(fields.error);
      }
      var (kind, id, profile, url) := fields.value;
      r := ReadPayload(kind, id, profile, url);
    }

    method ReadPayload(kind: Kind, id: nat, profile: nat, url: nat) returns (r: Result<Option<Request>, ReadError>)
      modifies this
      ensures r == RequestAnswer(TakePayload(kind, id, profile, url, old(rest)))
      ensures r.Ok? ==> r.value.Some? && rest == TakePayload(kind, id, profile, url, old(rest)).value.value.rest
    {
      ghost var s := rest;
      var payload := ReadExact(profile + url);
      if payload.Err? {
        return Err(payload.error);
      }
      assert payload.value[..profile] == s[..profile] && payload.value[profile..] == s[profile..profile + url];
      if !ValidUtf8(payload.value[..profile]) {
        return Err(Malformed);
      }
      if !ValidUtf8(payload.value[profile..]) {
        return Err(Malformed);
      }
      return Ok(Some(Request(kind, id, payload.value[..profile], payload.value[profile..])));
    }

    /** One more request of a stream of which `read` have been read. */
    method ReadNext(ghost read: seq<Request>) returns (r: Result<Option<Request>, ReadError>)
      modifies this
      ensures var all := Continued(read, Requests(old(rest)));
              && (r.Err? ==> all == (read, Some(r.error)))
              && (r == Ok(None) ==> all == (read, None))
              && (r.Ok? && r.value.Some? ==>
                    |rest| < |old(rest)| && all == Continued(read + [r.value.value], Requests(rest)))
    {
      ghost var here := rest;
      r := ReadRequest();
      if r.Err? {
        RequestsEnd(here);
        NoneLater(read, Some(r.error));
      } else if r.value.None? {
        RequestsEnd(here);
        NoneLater(read, None);
      } else {
        RequestsOne(here, r.value.value, rest);
        OneLater(read, r.value.value, Requests(rest));
      }
    }

    /** Every request up to the end of the stream or the first error. */
    method ReadRequests() returns (requests: seq<Request>, error: Option<ReadError>)
      modifies this
      ensures (requests, error) == Requests(old(rest))
    {
      requests := [];
      ghost var goal := Requests(rest);
      assert [] + goal.0 == goal.0;
      while true
        invariant Continued(requests, Requests(rest)) == goal
        decreases |rest|
      {
        var next := ReadNext(requests);
        if next.Err? {
          return requests, Some(next.error);
        }
        if next.value.None? {
          return requests, None;
        }
        requests := requests + [next.value.value];
      }
    }

    method ReadField(n: nat, utf8: bool) returns (r: Result<Text, ReadError>)
      modifies this
      ensures var cut := Cut(old(rest), n, utf8);
              if cut.Err? then r == Err(cut.error) else r == Ok(cut.value.value) && rest == cut.value.rest
    {
      r := ReadExact(n);
      if r.Ok? && utf8 && !ValidUtf8(r.value) {
        return Err(Malformed);
      }
    }

    method ReadResponse() returns (r: Result<Response, ReadError>)
      modifies this
      ensures r == ResponseAnswer(TakeResponse(old(rest)))
      ensures r.Ok? ==> rest == TakeResponse(old(rest)).value.rest
    {
      ghost var s := rest;
      var header := ReadExact(RESPONSE_HEADER_BYTES);
      if header.Err? {
        return Err(header.error);
      }
      var front, back := header.value[..FRONT_BYTES], header.value[FRONT_BYTES..];
      assert s == front + back + rest;
      TakenInParts(front, back, rest);
      var f := TakeFront(front);
      if f.Err? {
        return Err(f.error);
      }
      var b := TakeBack(back);
      if b.Err? {
        return Err(b.error);
      }
      r := ReadBody(f.value, b.value);
    }

    method ReadBody(f: Front, b: Back) returns (r: Result<Response, ReadError>)
      modifies this
      ensures r == ResponseAnswer(TakeBody(f, b, old(rest)))
      ensures r.Ok? ==> rest == TakeBody(f, b, old(rest)).value.rest
    {
      var finalUrl := ReadField(b.finalUrl, true);
      if finalUrl.Err? {
        return Err(finalUrl.error);
      }
      var title := ReadField(b.title, true);
      if title.Err? {
        return Err(title.error);
      }
      var error := ReadField(b.error, true);
      if error.Err? {
        return Err(error.error);
      }
      var html := ReadField(b.html, false);
      if html.Err? {
        return Err(html.error);
      }
      var png := ReadField(b.png, false);
      if png.Err? {
        return Err(png.error);
      }
      return Ok(Response(f, b.duration, finalUrl.value, title.value, error.value, html.value, png.value));
    }
  }

  // Writing requests.

  datatype ProtocolError = InvalidRequest | ResponseTooLarge

  predicate IdByte(b: byte) {
    '0' as int <= b as int <= '9' as int || 'A' as int <= b as int <= 'Z' as int || 'a' as int <= b as int <= 'z' as int ||
    b as int in {'-' as int, '_' as int, '.' as int}
  }

  const DOT: byte := 46

  function Stem(id: Text): Text {
    if id == [] || id[0] == DOT then [] else [id[0]] + Stem(id[1..])
  }

  function Upper(id: Text): Text {
    if id == [] then [] else [if 97 <= id[0] <= 122 then id[0] - 32 else id[0]] + Upper(id[1..])
  }

  function Ascii(s: string): Text
    requires forall i :: 0 <= i < |s| ==> s[i] as int < 128
  {
    if s == [] then [] else [s[0] as int as byte] + Ascii(s[1..])
  }

  predicate Numbered(name: Text, prefix: Text) {
    |name| == |prefix| + 1 && prefix <= name && 49 <= name[|prefix|] <= 57
  }

  predicate Reserved(name: Text) {
    name in {Ascii("CON"), Ascii("PRN"), Ascii("AUX"), Ascii("NUL")} ||
    Numbered(name, Ascii("COM")) || Numbered(name, Ascii("LPT"))
  }

  /** A profile name that is safe as a path component. */
  predicate ValidProfile(id: Text) {
    && 1 <= |id| <= 128 && (forall i :: 0 <= i < |id| ==> IdByte(id[i]))
    && id[|id| - 1] != DOT && !Reserved(Upper(Stem(id)))
  }

  /** A byte is a capital letter or its small one. */
  predicate Folds(b: byte, capital: char) {
    b as int == capital as int || b as int == capital as int + 32
  }

  predicate Spells(name: Text, word: string) {
    |name| == |word| && forall i :: 0 <= i < |word| ==> Folds(name[i], word[i])
  }

  /** What Windows takes for a device, in any letter case. */
  predicate DeviceName(name: Text) {
    || Spells(name, "CON") || Spells(name, "PRN") || Spells(name, "AUX") || Spells(name, "NUL")
    || (|name| == 4 && (Spells(name[..3], "COM") || Spells(name[..3], "LPT")) && '1' as int <= name[3] as int <= '9' as int)
  }

  predicate LetterOrDigit(b: byte) {
    48 <= b <= 57 || 65 <= b <= 90 || 97 <= b <= 122
  }

  lemma {:induction false} UpperAt(id: Text)
    ensures |Upper(id)| == |id|
    ensures forall i :: 0 <= i < |id| ==> Upper(id)[i] == if 97 <= id[i] <= 122 then id[i] - 32 else id[i]
  {
    if id != [] {
      UpperAt(id[1..]);
    }
  }

  /** The part of a name before its first dot. */
  lemma {:induction false} StemEndsAtTheDot(id: Text)
    ensures Stem(id) <= id && 46 !in Stem(id) && (Stem(id) == id || id[|Stem(id)|] == 46)
  {
    if id != [] && id[0] != DOT {
      StemEndsAtTheDot(id[1..]);
    }
  }

  lemma AsciiOfThree(a: char, b: char, c: char)
    requires a as int < 128 && b as int < 128 && c as int < 128
    ensures Ascii([a, b, c]) == [a as int as byte, b as int as byte, c as int as byte]
  {
    assert [a, b, c][1..] == [b, c];
    assert [b, c][1..] == [c];
    assert [c][1..] == [];
    assert Ascii([c]) == [c as int as byte];
    assert Ascii([b, c]) == [b as int as byte, c as int as byte];
  }

  lemma SpellsUpper(name: Text, a: char, b: char, c: char)
    requires 'A' <= a <= 'Z' && 'A' <= b <= 'Z' && 'A' <= c <= 'Z'
    ensures Ascii([a, b, c]) == [a as int as byte, b as int as byte, c as int as byte]
    ensures Upper(name) == Ascii([a, b, c]) <==> Spells(name, [a, b, c])
  {
    UpperAt(name);
    AsciiOfThree(a, b, c);
    var word := Ascii([a, b, c]);
    if |name| == 3 {
      assert Upper(name)[0] == word[0] <==> Folds(name[0], [a, b, c][0]);
      assert Upper(name)[1] == word[1] <==> Folds(name[1], [a, b, c][1]);
      assert Upper(name)[2] == word[2] <==> Folds(name[2], [a, b, c][2]);
      assert Upper(name) == word <==> forall i :: 0 <= i < 3 ==> Upper(name)[i] == word[i];
    }
  }

  lemma {:induction false} UpperOfFront(id: Text, n: nat)
    requires n <= |id|
    ensures n <= |Upper(id)| && Upper(id[..n]) == Upper(id)[..n]
  {
    UpperAt(id);
    UpperAt(id[..n]);
  }

  lemma NumberedUpper(name: Text, a: char, b: char, c: char)
    requires 'A' <= a <= 'Z' && 'A' <= b <= 'Z' && 'A' <= c <= 'Z'
    ensures Numbered(Upper(name), Ascii([a, b, c])) <==>
              |name| == 4 && Spells(name[..3], [a, b, c]) && '1' as int <= name[3] as int <= '9' as int
  {
    UpperAt(name);
    if |name| == 4 {
      SpellsUpper(name[..3], a, b, c);
      UpperOfFront(name, 3);
    } else {
      SpellsUpper(name, a, b, c);
    }
  }

  lemma ReservedAreDevices(name: Text)
    ensures Reserved(Upper(name)) <==> DeviceName(name)
  {
    SpellsUpper(name, 'C', 'O', 'N');
    SpellsUpper(name, 'P', 'R', 'N');
    SpellsUpper(name, 'A', 'U', 'X');
    SpellsUpper(name, 'N', 'U', 'L');
    NumberedUpper(name, 'C', 'O', 'M');
    NumberedUpper(name, 'L', 'P', 'T');
  }

  /**
  The accepted profile names: 1 to 128 letters, digits, dashes, underscores and dots, the last not a dot, and what stands
  before the first dot no name of a device. So a name has no separator, is neither `.` nor `..`, and is just itself on disk.
  */
  lemma ProfilesExactly(id: Text)
    ensures ValidProfile(id) <==>
              && 1 <= |id| <= 128 && id[|id| - 1] != 46 && !DeviceName(Stem(id))
              && forall i :: 0 <= i < |id| ==> LetterOrDigit(id[i]) || id[i] == 45 || id[i] == 95 || id[i] == 46
    ensures ValidProfile(id) ==> 47 !in id && 92 !in id && 58 !in id && 0 !in id && id != [46] && id != [46, 46]
  {
    ReservedAreDevices(Stem(id));
    assert forall b: byte :: IdByte(b) <==> LetterOrDigit(b) || b == 45 || b == 95 || b == 46;
  }

  /** What a request must satisfy to be sent; `web` recognises the http and https addresses that name a host. */
  predicate ValidRequest(r: Request, web: Text -> bool) {
    match r.kind
    case Capture => ValidProfile(r.profile) && web(r.url)
    case Health => r.profile == [] && r.url == []
    case Stop => r.profile == [] && r.url == []
  }

  class FrameBuffer {
    var bytes: Text
    ghost var fields: seq<Field>

    ghost predicate Valid()
      reads this
    {
      bytes == PackAll(fields)
    }

    constructor ()
      ensures Valid() && fields == []
    {
      bytes, fields := [], [];
    }

    method Put(value: nat, width: nat)
      requires Valid()
      modifies this
      ensures Valid() && fields == old(fields) + [Field(value, width)]
    {
      PackAllSnoc(fields, Field(value, width));
      bytes := bytes + Pack(value, width);
      fields := fields + [Field(value, width)];
    }
  }

  method EncodeRequest(r: Request, web: Text -> bool) returns (encoded: Result<Text, ProtocolError>)
    ensures encoded.Ok? <==>
              && 22 + |r.profile| + |r.url| <= 65_536
              && if r.kind.Capture? then ValidProfile(r.profile) && web(r.url) else r.profile == [] && r.url == []
    ensures encoded ==
      if ValidRequest(r, web) && REQUEST_HEADER_BYTES + |r.profile| + |r.url| <= MAX_REQUEST_BYTES then Ok(RequestLayout(r))
      else Err(InvalidRequest)
  {
    if !ValidRequest(r, web) {
      return Err(InvalidRequest);
    }
    if |r.profile| >= 0x1_0000 || |r.url| >= 0x1_0000_0000 {
      return Err(InvalidRequest);
    }
    if REQUEST_HEADER_BYTES + |r.profile| + |r.url| > MAX_REQUEST_BYTES {
      return Err(InvalidRequest);
    }
    var header := BuildRequestHeader(r);
    return Ok(header + r.profile + r.url);
  }

  method BuildRequestHeader(r: Request) returns (header: Text)
    ensures header == RequestPrefix(r)
  {
    var frame := new FrameBuffer();
    frame.Put(REQUEST_MAGIC, 4);
    frame.Put(PROTOCOL_VERSION, 2);
    frame.Put(KindByte(r.kind), 1);
    frame.Put(0, 1);
    frame.Put(r.id, 8);
    frame.Put(|r.profile|, 2);
    frame.Put(|r.url|, 4);
    assert frame.fields == RequestFields(r.kind, r.id, |r.profile|, |r.url|);
    header := frame.bytes;
  }

  // Writing responses.

  /** Copies a number into a header, right after what has been written before. */
  method Put(header: array<byte>, at: nat, field: Field, ghost front: Text, ghost fields: seq<Field>)
    requires at + field.width <= header.Length && header[..at] == front + PackAll(fields)
    modifies header
    ensures header[..at + field.width] == front + PackAll(fields + [field])
  {
    var bytes := Pack(field.value, field.width);
    for i := 0 to field.width
      invariant header[..at] == front + PackAll(fields)
      invariant header[at..at + i] == bytes[..i]
    {
      header[at + i] := bytes[i];
      assert header[at..at + (i + 1)] == header[at..at + i] + [bytes[i]];
      assert bytes[..i + 1] == bytes[..i] + [bytes[i]];
    }
    PackAllSnoc(fields, field);
    assert header[..at + field.width] == header[..at] + header[at..at + field.width];
    assert bytes[..field.width] == bytes;
  }

  method PutFront(header: array<byte>, f: Front)
    requires header.Length == RESPONSE_HEADER_BYTES
    modifies header
    ensures header[..FRONT_BYTES] == PackAll(FrontFields(f))
  {
    ghost var fields := FrontFields(f);
    Put(header, 0, Field(RESPONSE_MAGIC, 4), [], []);
    Put(header, 4, Field(PROTOCOL_VERSION, 2), [], fields[..1]);
    assert fields[..1] + [fields[1]] == fields[..2];
    Put(header, 6, Field(StatusByte(f.status), 1), [], fields[..2]);
    assert fields[..2] + [fields[2]] == fields[..3];
    Put(header, 7, Field(KindByte(f.kind), 1), [], fields[..3]);
    assert fields[..3] + [fields[3]] == fields[..4];
    Put(header, 8, Field(f.id, 8), [], fields[..4]);
    assert fields[..4] + [fields[4]] == fields[..5];
    Put(header, 16, Field(HttpWord(f.http), 2), [], fields[..5]);
    assert fields[..5] + [fields[5]] == fields[..6];
    Put(header, 18, Field(0, 2), [], fields[..6]);
    assert fields[..6] + [fields[6]] == fields;
  }

  method PutBack(header: array<byte>, b: Back, ghost front: Text)
    requires header.Length == RESPONSE_HEADER_BYTES && header[..FRONT_BYTES] == front
    modifies header
    ensures header[..] == front + PackAll(BackFields(b))
  {
    ghost var fields := BackFields(b);
    Put(header, 20, Field(b.duration, 8), front, []);
    Put(header, 28, Field(b.finalUrl, 4), front, fields[..1]);
    assert fields[..1] + [fields[1]] == fields[..2];
    Put(header, 32, Field(b.title, 4), front, fields[..2]);
    assert fields[..2] + [fields[2]] == fields[..3];
    Put(header, 36, Field(b.error, 4), front, fields[..3]);
    assert fields[..3] + [fields[3]] == fields[..4];
    Put(header, 40, Field(b.html, 8), front, fields[..4]);
    assert fields[..4] + [fields[4]] == fields[..5];
    Put(header, 48, Field(b.png, 8), front, fields[..5]);
    assert fields[..5] + [fields[5]] == fields;
    assert header[..RESPONSE_HEADER_BYTES] == header[..];
  }

  /** The header of a response within the limits. */
  method BuildHeader(r: Response) returns (header: Result<Text, ProtocolError>)
    ensures header == if WithinLimits(BackOf(r)) then Ok(ResponseHeader(r.front, BackOf(r))) else Err(ResponseTooLarge)
  {
    if !WithinLimits(BackOf(r)) {
      return Err(ResponseTooLarge);
    }
    var bytes := new byte[RESPONSE_HEADER_BYTES](_ => 0);
    PutFront(bytes, r.front);
    PutBack(bytes, BackOf(r), bytes[..FRONT_BYTES]);
    return Ok(bytes[..]);
  }

  method EncodeResponse(r: Response) returns (encoded: Result<Text, ProtocolError>)
    ensures encoded == if WithinLimits(BackOf(r)) then Ok(ResponseLayout(r)) else Err(ResponseTooLarge)
  {
    var header := BuildHeader(r);
    if header.Err? {
      return Err(header.error);
    }
    var bytes := header.value;
    bytes := bytes + r.finalUrl;
    bytes := bytes + r.title;
    bytes := bytes + r.error;
    bytes := bytes + r.html;
    bytes := bytes + r.png;
    BodyAppended(header.value, r);
    return Ok(bytes);
  }

  lemma BodyAppended(start: Text, r: Response)
    ensures start + r.finalUrl + r.title + r.error + r.html + r.png == start + ResponseBody(r)
  {
  }

  datatype WriteError = Refused(error: ProtocolError) | Broken

  /** The writing end of a connection, which breaks after some number of bytes. */
  class Pipe {
    var written: Text
    var room: nat

    constructor (room: nat)
      ensures written == [] && this.room == room
    {
      written, this.room := [], room;
    }

    method WriteAll(bytes: Text) returns (ok: bool)
      modifies this
      ensures ok <==> |bytes| <= old(room)
      ensures ok ==> written == old(written) + bytes && room == old(room) - |bytes|
      ensures !ok ==> room == 0 && written == old(written) + bytes[..old(room)]
    {
      ok := |bytes| <= room;
      var n := if ok then |bytes| else room;
      written, room := written + bytes[..n], room - n;
    }

    /** Writes what `EncodeResponse` returns, or as much of it as the connection takes, or nothing if it is too large. */
    method WriteResponse(r: Response) returns (result: Result<(), WriteError>)
      modifies this
      ensures !WithinLimits(BackOf(r)) ==> result == Err(Refused(ResponseTooLarge)) && written == old(written)
      ensures WithinLimits(BackOf(r)) ==>
        var frame := ResponseLayout(r);
        if |frame| <= old(room) then result == Ok(()) && written == old(written) + frame
        else result == Err(Broken) && written == old(written) + frame[..old(room)]
    {
      var header := BuildHeader(r);
      if header.Err? {
        return Err(Refused(header.error));
      }
      Appended(header.value, r);
      var ok := WriteParts([header.value, r.finalUrl, r.title, r.error, r.html, r.png]);
      return if ok then Ok(()) else Err(Broken);
    }

    method WriteParts(parts: seq<Text>) returns (ok: bool)
      modifies this
      ensures ok <==> |Flat(parts)| <= old(room)
      ensures written == old(written) + if ok then Flat(parts) else Flat(parts)[..old(room)]
    {
      for i := 0 to |parts|
        invariant written == old(written) + Flat(parts[..i]) && room == old(room) - |Flat(parts[..i])|
      {
        FlatSnoc(parts, i);
        ok := WriteAll(parts[i]);
        if !ok {
          FlatPrefix(parts, i + 1);
          CutShort(Flat(parts[..i]), parts[i], Flat(parts), old(room));
          return false;
        }
      }
      assert parts[..|parts|] == parts;
      ok := true;
    }
  }

  lemma CutShort(before: Text, part: Text, whole: Text, room: nat)
    requires before + part <= whole && |before| <= room < |before + part|
    ensures whole[..room] == before + part[..room - |before|]
  {
    assert whole[..|before + part|] == before + part;
  }

  function Flat(parts: seq<Text>): Text {
    if parts == [] then [] else Flat(parts[..|parts| - 1]) + parts[|parts| - 1]
  }

  lemma FlatSnoc(parts: seq<Text>, i: nat)
    requires i < |parts|
    ensures Flat(parts[..i + 1]) == Flat(parts[..i]) + parts[i]
  {
    assert parts[..i + 1][..i] == parts[..i];
  }

  lemma {:induction false} FlatPrefix(parts: seq<Text>, i: nat)
    requires i <= |parts|
    ensures Flat(parts[..i]) <= Flat(parts)
    decreases |parts| - i
  {
    if i == |parts| {
      assert parts[..i] == parts;
    } else {
      FlatSnoc(parts, i);
      FlatPrefix(parts, i + 1);
    }
  }

  lemma FlatOf(a: Text, b: Text, c: Text)
    ensures Flat([a, b, c]) == a + b + c
  {
    var parts := [a, b, c];
    FlatSnoc(parts, 2);
    FlatSnoc(parts, 1);
    FlatSnoc(parts, 0);
    assert parts[..3] == parts && parts[..0] == [];
    assert [] + a == a;
  }

  lemma {:induction false} FlatConcat(s: seq<Text>, t: seq<Text>)
    ensures Flat(s + t) == Flat(s) + Flat(t)
    decreases |t|
  {
    if t == [] {
      assert s + t == s && Flat(s) + [] == Flat(s);
    } else {
      var front, last := t[..|t| - 1], t[|t| - 1];
      assert (s + t)[..|s + t| - 1] == s + front;
      FlatConcat(s, front);
      assert Flat(s) + (Flat(front) + last) == Flat(s) + Flat(front) + last;
    }
  }

  lemma Appended(header: Text, r: Response)
    ensures Flat([header, r.finalUrl, r.title, r.error, r.html, r.png]) == header + ResponseBody(r)
  {
    var first, second := [header, r.finalUrl, r.title], [r.error, r.html, r.png];
    FlatOf(header, r.finalUrl, r.title);
    FlatOf(r.error, r.html, r.png);
    FlatConcat(first, second);
    assert first + second == [header, r.finalUrl, r.title, r.error, r.html, r.png];
    PartsRegrouped(header, r);
  }

  lemma PartsRegrouped(header: Text, r: Response)
    ensures header + r.finalUrl + r.title + (r.error + r.html + r.png) == header + ResponseBody(r)
  {
  }

  // Failure responses.

  predicate Control(c: char) {
    c as int < 0x20 || 0x7F <= c as int < 0xA0
  }

  function Printable(s: string): string {
    if s == [] then [] else (if Control(s[0]) then [] else [s[0]]) + Printable(s[1..])
  }

  /** The longest beginning of a text whose encoding fits. */
  function Fitting(s: string, room: nat): string {
    if s == [] || |EncodeChar(s[0])| > room then [] else [s[0]] + Fitting(s[1..], room - |EncodeChar(s[0])|)
  }

  function Sanitized(message: string): string {
    Fitting(Printable(message), MAX_ERROR_BYTES)
  }

  method SanitizeError(message: string) returns (sanitized: string)
    ensures sanitized == Sanitized(message)
  {
    sanitized := [];
    assert message[0..] == message;
    for i := 0 to |message|
      invariant |Encode(sanitized)| <= MAX_ERROR_BYTES
      invariant Remaining(sanitized, message, i) == Sanitized(message)
    {
      var c := message[i];
      SanitizeStep(sanitized, message, i);
      if Control(c) {
        continue;
      }
      if |Encode(sanitized)| + |EncodeChar(c)| > MAX_ERROR_BYTES {
        break;
      }
      sanitized := sanitized + [c];
    }
  }

  /** What the characters from `i` on still add. */
  function Remaining(sanitized: string, message: string, i: nat): string
    requires i <= |message| && |Encode(sanitized)| <= MAX_ERROR_BYTES
  {
    sanitized + Fitting(Printable(message[i..]), MAX_ERROR_BYTES - |Encode(sanitized)|)
  }

  lemma EncodeSnoc(s: string, c: char)
    ensures |Encode(s + [c])| == |Encode(s)| + |EncodeChar(c)|
  {
    EncodeConcat(s, [c]);
    assert Encode([c]) == EncodeChar(c) + Encode([]);
  }

  lemma SanitizeStep(sanitized: string, message: string, i: nat)
    requires i < |message| && |Encode(sanitized)| <= MAX_ERROR_BYTES
    ensures var c := message[i];
            && |Encode(sanitized + [c])| == |Encode(sanitized)| + |EncodeChar(c)|
            && Remaining(sanitized, message, i) ==
                 if Control(c) then Remaining(sanitized, message, i + 1)
                 else if |Encode(sanitized + [c])| > MAX_ERROR_BYTES then sanitized
                 else Remaining(sanitized + [c], message, i + 1)
  {
    var c, later := message[i], Printable(message[i + 1..]);
    assert message[i..][1..] == message[i + 1..];
    EncodeSnoc(sanitized, c);
    if !Control(c) {
      assert Printable(message[i..]) == [c] + later && ([c] + later)[1..] == later;
      assert sanitized + [] == sanitized;
      var room := MAX_ERROR_BYTES - |Encode(sanitized)|;
      if |EncodeChar(c)| <= room {
        var fitting := Fitting(later, room - |EncodeChar(c)|);
        assert sanitized + ([c] + fitting) == sanitized + [c] + fitting;
      }
    } else {
      assert Printable(message[i..]) == [] + later == later;
    }
  }

  lemma {:induction false} FittingIsLongest(s: string, room: nat)
    ensures Fitting(s, room) <= s && |Encode(Fitting(s, room))| <= room
    ensures Fitting(s, room) != s ==> |Encode(s[..|Fitting(s, room)| + 1])| > room
  {
    if s != [] && |EncodeChar(s[0])| <= room {
      var later := Fitting(s[1..], room - |EncodeChar(s[0])|);
      FittingIsLongest(s[1..], room - |EncodeChar(s[0])|);
      assert s == [s[0]] + s[1..];
      if later != s[1..] {
        var shorter := s[1..][..|later| + 1];
        assert s[..|later| + 2] == [s[0]] + shorter;
        assert Encode(s[..|later| + 2]) == EncodeChar(s[0]) + Encode(shorter);
      }
    } else if s != [] {
      assert Encode(s[..1]) == EncodeChar(s[0]) + [];
    }
  }

  lemma {:induction false} NothingControls(s: string)
    ensures forall c :: c in Printable(s) ==> !Control(c) && c in s
  {
    if s != [] {
      NothingControls(s[1..]);
    }
  }

  /** What is left of a message: no control characters, within the limit, and cut only when the next one would not fit. */
  lemma SanitizedMessage(message: string)
    ensures var s := Sanitized(message);
            && (forall c :: c in s ==> !Control(c))
            && s <= Printable(message) && |Encode(s)| <= MAX_ERROR_BYTES
            && (s != Printable(message) ==> |Encode(Printable(message)[..|s| + 1])| > MAX_ERROR_BYTES)
  {
    NothingControls(message);
    FittingIsLongest(Printable(message), MAX_ERROR_BYTES);
  }

  function Failure(r: Request, status: Status, message: string): Response {
    Response(Front(status, r.kind, r.id, None), 0, [], [], Encode(Sanitized(message)), [], [])
  }

  /** Whatever goes wrong, the failure response to a request can be sent and read. */
  lemma FailuresCanBeSent(r: Request, status: Status, message: string, rest: Text)
    requires r.id <= U64_MAX
    ensures ResponseFits(Failure(r, status, message))
    ensures TakeResponse(ResponseLayout(Failure(r, status, message)) + rest) == Ok(Taken(Failure(r, status, message), rest))
  {
    SanitizedMessage(message);
    EncodedIsValid(Sanitized(message));
    ResponseReadsBack(Failure(r, status, message), rest);
  }
}
