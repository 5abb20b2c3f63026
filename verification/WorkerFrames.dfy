/**
The two binary frames of the worker protocol and the streams they travel in: the layouts that are written, what readers
take off the front of a stream, and how far the two are inverse to each other.
*/
module WorkerFrames {
  import opened Bytes
  import opened LittleEndian
  import opened Utf8
  import opened Wrappers

  const MAX_REQUEST_BYTES: nat := 64 * 1024
  const MAX_FINAL_URL_BYTES: nat := 16 * 1024
  const MAX_TITLE_BYTES: nat := 16 * 1024
  const MAX_ERROR_BYTES: nat := 1024
  const MAX_HTML_BYTES: nat := 32 * 1024 * 1024
  const MAX_PNG_BYTES: nat := 32 * 1024 * 1024

  const PROTOCOL_VERSION: nat := 1
  const REQUEST_MAGIC: nat := 0x51_42_32_44 // the bytes of "D2BQ"
  const RESPONSE_MAGIC: nat := 0x52_42_32_44 // the bytes of "D2BR"
  const REQUEST_HEADER_BYTES: nat := 22
  const RESPONSE_HEADER_BYTES: nat := 56

  lemma Magic()
    ensures Pack(REQUEST_MAGIC, 4) == [0x44, 0x32, 0x42, 0x51]
    ensures Pack(RESPONSE_MAGIC, 4) == [0x44, 0x32, 0x42, 0x52]
  {
    assert Pack(0x51, 1) == [0x51] && Pack(0x52, 1) == [0x52];
    assert Pack(0x51_42, 2) == [0x42, 0x51] && Pack(0x52_42, 2) == [0x42, 0x52];
    assert Pack(0x51_42_32, 3) == [0x32, 0x42, 0x51] && Pack(0x52_42_32, 3) == [0x32, 0x42, 0x52];
  }

  datatype Kind = Capture | Health | Stop

  function KindByte(kind: Kind): nat {
    match kind case Capture => 1 case Health => 2 case Stop => 3
  }

  function KindOf(wire: nat): (kind: Option<Kind>)
    ensures kind.Some? ==> KindByte(kind.value) == wire
    ensures kind.None? ==> forall k: Kind :: KindByte(k) != wire
  {
    if wire == 1 then Some(Capture) else if wire == 2 then Some(Health) else if wire == 3 then Some(Stop) else None
  }

  /** A frame read from the front of a stream, and the rest of the stream. */
  datatype Taken<T> = Taken(value: T, rest: Text)

  datatype ReadError = Ended | Malformed | TooLarge

  lemma FirstAndLater<T>(s: seq<T>)
    requires s != []
    ensures s == [s[0]] + s[1..]
  {
  }

  // Requests.

  datatype Request = Request(kind: Kind, id: nat, profile: Text, url: Text)

  function RequestFields(kind: Kind, id: nat, profile: nat, url: nat): seq<Field> {
    [Field(REQUEST_MAGIC, 4), Field(1, 2), Field(KindByte(kind), 1), Field(0, 1), Field(id, 8),
     Field(profile, 2), Field(url, 4)]
  }

  function RequestPrefix(r: Request): Text {
    PackAll(RequestFields(r.kind, r.id, |r.profile|, |r.url|))
  }

  const REQUEST_WIDTHS: seq<nat> := [4, 2, 1, 1, 8, 2, 4]

  function RequestLayout(r: Request): Text {
    RequestPrefix(r) + r.profile + r.url
  }

  /** A request whose frame is within the limit. */
  predicate RequestFits(r: Request) {
    r.id <= U64_MAX && ValidUtf8(r.profile) && ValidUtf8(r.url) &&
    22 + |r.profile| + |r.url| <= 65_536
  }

  function RequestOf(fields: seq<Field>): Result<(Kind, nat, nat, nat), ReadError>
    requires |fields| == 7
  {
    var kind := KindOf(fields[2].value);
    if kind.None? then Err(Malformed)
    else if fields[0].value != REQUEST_MAGIC || fields[1].value != PROTOCOL_VERSION || fields[3].value != 0 then
      Err(Malformed)
    else if REQUEST_HEADER_BYTES + fields[5].value + fields[6].value > MAX_REQUEST_BYTES then Err(Malformed)
    else Ok((kind.value, fields[4].value, fields[5].value, fields[6].value))
  }

  lemma RequestWidths()
    ensures Total(REQUEST_WIDTHS) == REQUEST_HEADER_BYTES
  {
    assert REQUEST_WIDTHS[1..] == [2, 1, 1, 8, 2, 4];
    assert [2, 1, 1, 8, 2, 4][1..] == [1, 1, 8, 2, 4];
    assert [1, 1, 8, 2, 4][1..] == [1, 8, 2, 4];
    assert [1, 8, 2, 4][1..] == [8, 2, 4];
    assert [8, 2, 4][1..] == [2, 4];
    assert [2, 4][1..] == [4] && [4][1..] == [];
  }

  function RequestHeader(s: Text): Result<(Kind, nat, nat, nat), ReadError>
    requires |s| >= REQUEST_HEADER_BYTES
  {
    RequestWidths();
    RequestOf(UnpackAll(s[..REQUEST_HEADER_BYTES], REQUEST_WIDTHS))
  }

  /** Reads a request off the front of a stream; none at its end. */
  function TakeRequest(s: Text): Result<Option<Taken<Request>>, ReadError> {
    if s == [] then Ok(None)
    else if |s| < REQUEST_HEADER_BYTES then Err(Ended)
    else
      var header := RequestHeader(s);
      if header.Err? then Err(header.error)
      else
        var (kind, id, profile, url) := header.value;
        TakePayload(kind, id, profile, url, s[REQUEST_HEADER_BYTES..])
  }

  function TakePayload(kind: Kind, id: nat, profile: nat, url: nat, s: Text): Result<Option<Taken<Request>>, ReadError> {
    if |s| < profile + url then Err(Ended)
    else if !ValidUtf8(s[..profile]) then Err(Malformed)
    else if !ValidUtf8(s[profile..profile + url]) then Err(Malformed)
    else Ok(Some(Taken(Request(kind, id, s[..profile], s[profile..profile + url]), s[profile + url..])))
  }

  lemma RequestFieldsFit(kind: Kind, id: nat, profile: nat, url: nat)
    requires id <= U64_MAX && REQUEST_HEADER_BYTES + profile + url <= MAX_REQUEST_BYTES
    ensures var fields := RequestFields(kind, id, profile, url);
            && Fits(fields) && |fields| == |REQUEST_WIDTHS|
            && (forall i :: 0 <= i < |fields| ==> fields[i].width == REQUEST_WIDTHS[i])
            && RequestOf(fields) == Ok((kind, id, profile, url))
  {
    RangeValues();
  }

  lemma RequestPrefixReads(kind: Kind, id: nat, profile: nat, url: nat, header: Text)
    requires id <= U64_MAX && REQUEST_HEADER_BYTES + profile + url <= MAX_REQUEST_BYTES
    requires header == PackAll(RequestFields(kind, id, profile, url))
    ensures |header| == REQUEST_HEADER_BYTES && RequestHeader(header) == Ok((kind, id, profile, url))
  {
    var fields := RequestFields(kind, id, profile, url);
    RequestFieldsFit(kind, id, profile, url);
    RequestWidths();
    RecordReads(fields, REQUEST_WIDTHS);
    assert header[..REQUEST_HEADER_BYTES] == header;
  }

  lemma RangeValues()
    ensures Range(1) == 0x100 && Range(2) == 0x1_0000 && Range(4) == 0x1_0000_0000 && Range(8) == U64_MAX + 1
  {
    assert Range(3) == 0x100_0000;
    assert Range(5) == 0x100_0000_0000 && Range(6) == 0x1_0000_0000_0000;
  }

  lemma OnlyTheHeaderCounts(header: Text, body: Text)
    requires |header| == REQUEST_HEADER_BYTES
    ensures RequestHeader(header + body) == RequestHeader(header)
    ensures (header + body)[REQUEST_HEADER_BYTES..] == body
  {
    assert (header + body)[..REQUEST_HEADER_BYTES] == header == header[..REQUEST_HEADER_BYTES];
  }

  lemma PayloadReads(kind: Kind, id: nat, profile: Text, url: Text, rest: Text)
    requires ValidUtf8(profile) && ValidUtf8(url)
    ensures TakePayload(kind, id, |profile|, |url|, profile + url + rest) ==
            Ok(Some(Taken(Request(kind, id, profile, url), rest)))
  {
    var s := profile + url + rest;
    assert s[..|profile|] == profile;
    assert s[|profile|..|profile| + |url|] == url;
    assert s[|profile| + |url|..] == rest;
  }

  lemma TakenByHeader(header: Text, body: Text, kind: Kind, id: nat, profile: nat, url: nat)
    requires |header| == REQUEST_HEADER_BYTES && RequestHeader(header) == Ok((kind, id, profile, url))
    ensures TakeRequest(header + body) == TakePayload(kind, id, profile, url, body)
  {
    OnlyTheHeaderCounts(header, body);
  }

  lemma LayoutRegrouped(r: Request, rest: Text)
    ensures RequestLayout(r) + rest == RequestPrefix(r) + (r.profile + r.url + rest)
  {
  }

  lemma RequestReadsBack(r: Request, rest: Text)
    requires RequestFits(r)
    ensures TakeRequest(RequestLayout(r) + rest) == Ok(Some(Taken(r, rest)))
  {
    var header := RequestPrefix(r);
    RequestPrefixReads(r.kind, r.id, |r.profile|, |r.url|, header);
    TakenByHeader(header, r.profile + r.url + rest, r.kind, r.id, |r.profile|, |r.url|);
    PayloadReads(r.kind, r.id, r.profile, r.url, rest);
    LayoutRegrouped(r, rest);
  }

  lemma RequestHeaderIsCanonical(s: Text, kind: Kind, id: nat, profile: nat, url: nat)
    requires |s| >= REQUEST_HEADER_BYTES && RequestHeader(s) == Ok((kind, id, profile, url))
    ensures id <= U64_MAX && REQUEST_HEADER_BYTES + profile + url <= MAX_REQUEST_BYTES
    ensures s[..REQUEST_HEADER_BYTES] == PackAll(RequestFields(kind, id, profile, url))
  {
    RequestWidths();
    RangeValues();
    var header := s[..REQUEST_HEADER_BYTES];
    var fields := UnpackAll(header, REQUEST_WIDTHS);
    PackAllUnpacked(header, REQUEST_WIDTHS);
    assert fields == RequestFields(kind, id, profile, url);
  }

  lemma PayloadIsCanonical(kind: Kind, id: nat, profile: nat, url: nat, s: Text, r: Request, rest: Text)
    requires TakePayload(kind, id, profile, url, s) == Ok(Some(Taken(r, rest)))
    ensures s == r.profile + r.url + rest && |r.profile| == profile && |r.url| == url
    ensures r.kind == kind && r.id == id && ValidUtf8(r.profile) && ValidUtf8(r.url)
  {
  }

  lemma CutAt(s: Text, n: nat)
    requires n <= |s|
    ensures s == s[..n] + s[n..]
  {
  }

  lemma RequestIsCanonical(s: Text, r: Request, rest: Text)
    requires TakeRequest(s) == Ok(Some(Taken(r, rest)))
    ensures RequestFits(r) && s == RequestLayout(r) + rest
  {
    var (kind, id, profile, url) := RequestHeader(s).value;
    var body := s[REQUEST_HEADER_BYTES..];
    RequestHeaderIsCanonical(s, kind, id, profile, url);
    PayloadIsCanonical(kind, id, profile, url, body, r, rest);
    CutAt(s, REQUEST_HEADER_BYTES);
    LayoutRegrouped(r, rest);
  }

  /** A stream is read as a request exactly when it starts with the layout of that request. */
  lemma TakesExactlyTheLayout(s: Text, r: Request, rest: Text)
    ensures TakeRequest(s) == Ok(Some(Taken(r, rest))) <==> RequestFits(r) && s == RequestLayout(r) + rest
  {
    if TakeRequest(s) == Ok(Some(Taken(r, rest))) {
      RequestIsCanonical(s, r, rest);
    } else if RequestFits(r) && s == RequestLayout(r) + rest {
      RequestReadsBack(r, rest);
    }
  }

  lemma RequestsShrink(s: Text, r: Request, rest: Text)
    requires TakeRequest(s) == Ok(Some(Taken(r, rest)))
    ensures |rest| < |s|
  {
  }

  /** All requests of a stream, and the error it ends with, if any. */
  function Requests(s: Text): (seq<Request>, Option<ReadError>)
    decreases |s|
  {
    var first := TakeRequest(s);
    if first.Err? then ([], Some(first.error))
    else if first.value.None? then ([], None)
    else
      var Taken(request, rest) := first.value.value;
      RequestsShrink(s, request, rest);
      var later := Requests(rest);
      ([request] + later.0, later.1)
  }

  lemma RequestsStep(r: Request, rest: Text)
    requires RequestFits(r)
    ensures Requests(RequestLayout(r) + rest) == ([r] + Requests(rest).0, Requests(rest).1)
  {
    RequestReadsBack(r, rest);
  }

  function RequestStream(requests: seq<Request>): Text {
    if requests == [] then [] else RequestLayout(requests[0]) + RequestStream(requests[1..])
  }

  /** The concatenated frames of any requests are read back as those requests, with nothing left over. */
  lemma {:induction false} StreamReadsBack(requests: seq<Request>)
    requires forall i :: 0 <= i < |requests| ==> RequestFits(requests[i])
    ensures Requests(RequestStream(requests)) == (requests, None)
    decreases |requests|
  {
    if requests != [] {
      var first, later := requests[0], requests[1..];
      FirstAndLater(requests);
      StreamReadsBack(later);
      RequestsStep(first, RequestStream(later));
    }
  }

  // Responses.

  datatype Status = Fine | Invalid | Unavailable | CaptureFailed | Oversized | Protocol

  function StatusByte(status: Status): nat {
    match status
    case Fine => 0 case Invalid => 1 case Unavailable => 2
    case CaptureFailed => 3 case Oversized => 4 case Protocol => 5
  }

  function StatusOf(wire: nat): (status: Option<Status>)
    ensures status.Some? ==> StatusByte(status.value) == wire
    ensures status.None? ==> forall k: Status :: StatusByte(k) != wire
  {
    if wire == 0 then Some(Fine) else if wire == 1 then Some(Invalid) else if wire == 2 then Some(Unavailable)
    else if wire == 3 then Some(CaptureFailed) else if wire == 4 then Some(Oversized)
    else if wire == 5 then Some(Protocol) else None
  }

  /** The first part of a response header. */
  datatype Front = Front(status: Status, kind: Kind, id: nat, http: Option<nat>)

  /** The second part: the duration and the lengths of the texts. */
  datatype Back = Back(duration: nat, finalUrl: nat, title: nat, error: nat, html: nat, png: nat)

  datatype Response = Response(front: Front, duration: nat, finalUrl: Text, title: Text, error: Text, html: Text, png: Text)

  function BackOf(r: Response): Back {
    Back(r.duration, |r.finalUrl|, |r.title|, |r.error|, |r.html|, |r.png|)
  }

  function HttpWord(http: Option<nat>): nat {
    if http.None? then 0 else http.value
  }

  function HttpOf(wire: nat): Result<Option<nat>, ReadError> {
    if wire == 0 then Ok(None) else if 100 <= wire <= 599 then Ok(Some(wire)) else Err(Malformed)
  }

  /** The HTTP statuses a reader accepts. */
  predicate HttpReadable(http: Option<nat>) {
    http.None? || 100 <= http.value <= 599
  }

  predicate WithinLimits(b: Back) {
    && b.finalUrl <= MAX_FINAL_URL_BYTES && b.title <= MAX_TITLE_BYTES && b.error <= MAX_ERROR_BYTES
    && b.html <= MAX_HTML_BYTES && b.png <= MAX_PNG_BYTES
  }

  /** What is within the limits, in bytes; so the texts of a response never come to more than 67,142,656 bytes. */
  lemma LimitsOfAResponse(b: Back)
    ensures WithinLimits(b) <==>
              b.finalUrl <= 16_384 && b.title <= 16_384 && b.error <= 1_024 && b.html <= 33_554_432 && b.png <= 33_554_432
    ensures WithinLimits(b) ==> b.finalUrl + b.title + b.error + b.html + b.png <= 67_142_656
  {
  }

  predicate FrontFits(f: Front) {
    f.id <= U64_MAX && HttpWord(f.http) < 0x1_0000
  }

  predicate BackFits(b: Back) {
    b.duration <= U64_MAX && WithinLimits(b)
  }

  /** The values of the original's types that pass its validation. */
  predicate ResponseFits(r: Response) {
    FrontFits(r.front) && BackFits(BackOf(r)) && ValidUtf8(r.finalUrl) && ValidUtf8(r.title) && ValidUtf8(r.error)
  }

  function FrontFields(f: Front): seq<Field> {
    [Field(RESPONSE_MAGIC, 4), Field(1, 2), Field(StatusByte(f.status), 1), Field(KindByte(f.kind), 1),
     Field(f.id, 8), Field(HttpWord(f.http), 2), Field(0, 2)]
  }

  function BackFields(b: Back): seq<Field> {
    [Field(b.duration, 8), Field(b.finalUrl, 4), Field(b.title, 4), Field(b.error, 4), Field(b.html, 8), Field(b.png, 8)]
  }

  const FRONT_WIDTHS: seq<nat> := [4, 2, 1, 1, 8, 2, 2]
  const BACK_WIDTHS: seq<nat> := [8, 4, 4, 4, 8, 8]
  const FRONT_BYTES: nat := 20
  const BACK_BYTES: nat := 36

  function ResponseHeader(f: Front, b: Back): Text {
    PackAll(FrontFields(f)) + PackAll(BackFields(b))
  }

  function ResponseBody(r: Response): Text {
    r.finalUrl + (r.title + (r.error + (r.html + r.png)))
  }

  function ResponseLayout(r: Response): Text {
    ResponseHeader(r.front, BackOf(r)) + ResponseBody(r)
  }

  lemma ResponseWidths()
    ensures Total(FRONT_WIDTHS) == FRONT_BYTES && Total(BACK_WIDTHS) == BACK_BYTES
    ensures FRONT_BYTES + BACK_BYTES == RESPONSE_HEADER_BYTES
  {
    var f, b := FRONT_WIDTHS, BACK_WIDTHS;
    TotalSplit(f, 4);
    TotalSplit(b, 3);
    assert f[..4] == [4, 2, 1, 1] && f[4..] == [8, 2, 2];
    assert b[..3] == [8, 4, 4] && b[3..] == [4, 8, 8];
    assert Total([4, 2, 1, 1]) == 8 && Total([8, 2, 2]) == 12 && Total([8, 4, 4]) == 16 && Total([4, 8, 8]) == 20;
  }

  lemma {:induction false} TotalSplit(widths: seq<nat>, n: nat)
    requires n <= |widths|
    ensures Total(widths) == Total(widths[..n]) + Total(widths[n..])
  {
    if n > 0 {
      TotalSplit(widths[1..], n - 1);
      assert widths[1..][..n - 1] == widths[..n][1..] && widths[1..][n - 1..] == widths[n..];
    } else {
      assert widths[0..] == widths;
    }
  }

  function FrontFrom(fields: seq<Field>): Result<Front, ReadError>
    requires |fields| == 7
  {
    var status, kind, http := StatusOf(fields[2].value), KindOf(fields[3].value), HttpOf(fields[5].value);
    if fields[0].value != RESPONSE_MAGIC || fields[1].value != PROTOCOL_VERSION || fields[6].value != 0 then Err(Malformed)
    else if status.None? || kind.None? then Err(Malformed)
    else if http.Err? then Err(http.error)
    else Ok(Front(status.value, kind.value, fields[4].value, http.value))
  }

  function BackFrom(fields: seq<Field>): Result<Back, ReadError>
    requires |fields| == 6
  {
    var b := Back(fields[0].value, fields[1].value, fields[2].value, fields[3].value, fields[4].value, fields[5].value);
    if WithinLimits(b) then Ok(b) else Err(TooLarge)
  }

  function TakeFront(s: Text): Result<Front, ReadError>
    requires |s| == FRONT_BYTES
  {
    ResponseWidths();
    FrontFrom(UnpackAll(s, FRONT_WIDTHS))
  }

  function TakeBack(s: Text): Result<Back, ReadError>
    requires |s| == BACK_BYTES
  {
    ResponseWidths();
    BackFrom(UnpackAll(s, BACK_WIDTHS))
  }

  function Cut(s: Text, n: nat, utf8: bool): Result<Taken<Text>, ReadError> {
    if |s| < n then Err(Ended)
    else if utf8 && !ValidUtf8(s[..n]) then Err(Malformed)
    else Ok(Taken(s[..n], s[n..]))
  }

  function TakeBody(f: Front, b: Back, s: Text): Result<Taken<Response>, ReadError> {
    var finalUrl := Cut(s, b.finalUrl, true);
    if finalUrl.Err? then Err(finalUrl.error)
    else
      var title := Cut(finalUrl.value.rest, b.title, true);
      if title.Err? then Err(title.error)
      else
        var error := Cut(title.value.rest, b.error, true);
        if error.Err? then Err(error.error)
        else
          var html := Cut(error.value.rest, b.html, false);
          if html.Err? then Err(html.error)
          else
            var png := Cut(html.value.rest, b.png, false);
            if png.Err? then Err(png.error)
            else
              Ok(Taken(Response(f, b.duration, finalUrl.value.value, title.value.value, error.value.value,
                                html.value.value, png.value.value), png.value.rest))
  }

  function TakeAfter(f: Result<Front, ReadError>, b: Result<Back, ReadError>, s: Text): Result<Taken<Response>, ReadError> {
    if f.Err? then Err(f.error) else if b.Err? then Err(b.error) else TakeBody(f.value, b.value, s)
  }

  /** Reads a response off the front of a stream. */
  function TakeResponse(s: Text): Result<Taken<Response>, ReadError> {
    if |s| < RESPONSE_HEADER_BYTES then Err(Ended)
    else
      TakeAfter(TakeFront(s[..FRONT_BYTES]), TakeBack(s[FRONT_BYTES..RESPONSE_HEADER_BYTES]), s[RESPONSE_HEADER_BYTES..])
  }

  lemma FrontFieldsFit(f: Front)
    requires FrontFits(f)
    ensures var fields := FrontFields(f);
            && Fits(fields) && |fields| == |FRONT_WIDTHS|
            && (forall i :: 0 <= i < |fields| ==> fields[i].width == FRONT_WIDTHS[i])
            && (HttpReadable(f.http) ==> FrontFrom(fields) == Ok(f))
  {
    RangeValues();
  }

  lemma BackFieldsFit(b: Back)
    requires BackFits(b)
    ensures var fields := BackFields(b);
            && Fits(fields) && |fields| == |BACK_WIDTHS|
            && (forall i :: 0 <= i < |fields| ==> fields[i].width == BACK_WIDTHS[i])
            && BackFrom(fields) == Ok(b)
  {
    RangeValues();
  }

  lemma FrontReads(f: Front, s: Text)
    requires FrontFits(f) && s == PackAll(FrontFields(f))
    ensures |s| == FRONT_BYTES && (HttpReadable(f.http) ==> TakeFront(s) == Ok(f))
  {
    FrontFieldsFit(f);
    ResponseWidths();
    RecordReads(FrontFields(f), FRONT_WIDTHS);
  }

  lemma BackReads(b: Back, s: Text)
    requires BackFits(b) && s == PackAll(BackFields(b))
    ensures |s| == BACK_BYTES && TakeBack(s) == Ok(b)
  {
    BackFieldsFit(b);
    ResponseWidths();
    RecordReads(BackFields(b), BACK_WIDTHS);
  }

  lemma FieldsOfFront(fields: seq<Field>, f: Front)
    requires |fields| == 7 && (forall i :: 0 <= i < 7 ==> fields[i].width == FRONT_WIDTHS[i]) && Fits(fields)
    requires FrontFrom(fields) == Ok(f)
    ensures FrontFits(f) && HttpReadable(f.http) && fields == FrontFields(f)
  {
    RangeValues();
    var expected := FrontFields(f);
    assert forall i :: 0 <= i < 7 ==> fields[i] == expected[i];
  }

  lemma FieldsOfBack(fields: seq<Field>, b: Back)
    requires |fields| == 6 && (forall i :: 0 <= i < 6 ==> fields[i].width == BACK_WIDTHS[i]) && Fits(fields)
    requires BackFrom(fields) == Ok(b)
    ensures BackFits(b) && fields == BackFields(b)
  {
    RangeValues();
    var expected := BackFields(b);
    assert forall i :: 0 <= i < 6 ==> fields[i] == expected[i];
  }

  lemma FrontIsCanonical(s: Text, f: Front)
    requires |s| == FRONT_BYTES && TakeFront(s) == Ok(f)
    ensures FrontFits(f) && HttpReadable(f.http) && s == PackAll(FrontFields(f))
  {
    ResponseWidths();
    PackAllUnpacked(s, FRONT_WIDTHS);
    FieldsOfFront(UnpackAll(s, FRONT_WIDTHS), f);
  }

  lemma BackIsCanonical(s: Text, b: Back)
    requires |s| == BACK_BYTES && TakeBack(s) == Ok(b)
    ensures BackFits(b) && s == PackAll(BackFields(b))
  {
    ResponseWidths();
    PackAllUnpacked(s, BACK_WIDTHS);
    FieldsOfBack(UnpackAll(s, BACK_WIDTHS), b);
  }

  lemma CutReads(x: Text, rest: Text, utf8: bool)
    requires utf8 ==> ValidUtf8(x)
    ensures Cut(x + rest, |x|, utf8) == Ok(Taken(x, rest))
  {
    assert (x + rest)[..|x|] == x && (x + rest)[|x|..] == rest;
  }

  lemma CutIsCanonical(s: Text, n: nat, utf8: bool)
    requires Cut(s, n, utf8).Ok?
    ensures var taken := Cut(s, n, utf8).value;
            s == taken.value + taken.rest && |taken.value| == n && (utf8 ==> ValidUtf8(taken.value))
  {
  }

  lemma BodyReads(r: Response, rest: Text)
    requires ResponseFits(r)
    ensures TakeBody(r.front, BackOf(r), ResponseBody(r) + rest) == Ok(Taken(r, rest))
  {
    var png := r.png + rest;
    var html := r.html + png;
    var error := r.error + html;
    var title := r.title + error;
    BodyRegrouped(r, rest);
    CutReads(r.finalUrl, title, true);
    CutReads(r.title, error, true);
    CutReads(r.error, html, true);
    CutReads(r.html, png, false);
    CutReads(r.png, rest, false);
  }

  lemma BodyIsCanonical(f: Front, b: Back, s: Text, r: Response, rest: Text)
    requires TakeBody(f, b, s) == Ok(Taken(r, rest))
    ensures r.front == f && BackOf(r) == b && s == ResponseBody(r) + rest
    ensures ValidUtf8(r.finalUrl) && ValidUtf8(r.title) && ValidUtf8(r.error)
  {
    var finalUrl := Cut(s, b.finalUrl, true).value;
    var title := Cut(finalUrl.rest, b.title, true).value;
    var error := Cut(title.rest, b.error, true).value;
    var html := Cut(error.rest, b.html, false).value;
    CutIsCanonical(s, b.finalUrl, true);
    CutIsCanonical(finalUrl.rest, b.title, true);
    CutIsCanonical(title.rest, b.error, true);
    CutIsCanonical(error.rest, b.html, false);
    CutIsCanonical(html.rest, b.png, false);
    BodyRegrouped(r, rest);
  }

  lemma BodyRegrouped(r: Response, rest: Text)
    ensures ResponseBody(r) + rest == r.finalUrl + (r.title + (r.error + (r.html + (r.png + rest))))
  {
    var a, b, c := r.html + r.png, r.error + (r.html + r.png), r.title + (r.error + (r.html + r.png));
    assert a + rest == r.html + (r.png + rest);
    assert b + rest == r.error + (a + rest);
    assert c + rest == r.title + (b + rest);
    assert ResponseBody(r) + rest == r.finalUrl + (c + rest);
  }

  lemma TakenInParts(front: Text, back: Text, body: Text)
    requires |front| == FRONT_BYTES && |back| == BACK_BYTES
    ensures TakeResponse(front + back + body) == TakeAfter(TakeFront(front), TakeBack(back), body)
  {
    var s := front + back + body;
    assert s[..FRONT_BYTES] == front && s[FRONT_BYTES..RESPONSE_HEADER_BYTES] == back && s[RESPONSE_HEADER_BYTES..] == body;
  }

  lemma ResponseRegrouped(front: Text, back: Text, body: Text, rest: Text)
    ensures front + back + body + rest == front + back + (body + rest)
  {
  }

  lemma PartsRead(r: Response, rest: Text, front: Text, back: Text)
    requires ResponseFits(r) && HttpReadable(r.front.http)
    requires front == PackAll(FrontFields(r.front)) && back == PackAll(BackFields(BackOf(r)))
    ensures |front| == FRONT_BYTES && |back| == BACK_BYTES
    ensures TakeAfter(TakeFront(front), TakeBack(back), ResponseBody(r) + rest) == Ok(Taken(r, rest))
  {
    FrontReads(r.front, front);
    BackReads(BackOf(r), back);
    BodyReads(r, rest);
  }

  lemma ResponseReadsBack(r: Response, rest: Text)
    requires ResponseFits(r) && HttpReadable(r.front.http)
    ensures TakeResponse(ResponseLayout(r) + rest) == Ok(Taken(r, rest))
  {
    var front, back := PackAll(FrontFields(r.front)), PackAll(BackFields(BackOf(r)));
    PartsRead(r, rest, front, back);
    TakenInParts(front, back, ResponseBody(r) + rest);
    ResponseRegrouped(front, back, ResponseBody(r), rest);
  }

  lemma PartsAreCanonical(front: Text, back: Text, body: Text, r: Response, rest: Text)
    requires |front| == FRONT_BYTES && |back| == BACK_BYTES
    requires TakeAfter(TakeFront(front), TakeBack(back), body) == Ok(Taken(r, rest))
    ensures ResponseFits(r) && HttpReadable(r.front.http) && front + back == ResponseHeader(r.front, BackOf(r))
    ensures body == ResponseBody(r) + rest
  {
    var f, b := TakeFront(front).value, TakeBack(back).value;
    BodyIsCanonical(f, b, body, r, rest);
    FrontIsCanonical(front, f);
    BackIsCanonical(back, b);
  }

  lemma CutInParts(s: Text) returns (front: Text, back: Text, body: Text)
    requires |s| >= RESPONSE_HEADER_BYTES
    ensures |front| == FRONT_BYTES && |back| == BACK_BYTES && s == front + back + body
  {
    front, back, body := s[..FRONT_BYTES], s[FRONT_BYTES..RESPONSE_HEADER_BYTES], s[RESPONSE_HEADER_BYTES..];
  }

  lemma ResponseIsCanonical(s: Text, r: Response, rest: Text)
    requires TakeResponse(s) == Ok(Taken(r, rest))
    ensures ResponseFits(r) && HttpReadable(r.front.http) && s == ResponseLayout(r) + rest
  {
    var front, back, body := CutInParts(s);
    TakenInParts(front, back, body);
    PartsAreCanonical(front, back, body, r, rest);
    ResponseRegrouped(front, back, ResponseBody(r), rest);
  }

  /** A valid response comes back from its frame exactly when its HTTP status is none or within 100 to 599. */
  lemma ResponseRoundTrip(r: Response, rest: Text)
    requires ResponseFits(r)
    ensures TakeResponse(ResponseLayout(r) + rest) == Ok(Taken(r, rest)) <==> HttpReadable(r.front.http)
  {
    if HttpReadable(r.front.http) {
      ResponseReadsBack(r, rest);
    } else if TakeResponse(ResponseLayout(r) + rest) == Ok(Taken(r, rest)) {
      ResponseIsCanonical(ResponseLayout(r) + rest, r, rest);
    }
  }

  function ResponseStream(responses: seq<Response>): Text {
    if responses == [] then [] else ResponseLayout(responses[0]) + ResponseStream(responses[1..])
  }

  /** The first `n` responses of a stream and what follows them. */
  function Responses(s: Text, n: nat): Result<Taken<seq<Response>>, ReadError>
    decreases n
  {
    if n == 0 then Ok(Taken([], s))
    else
      var first := TakeResponse(s);
      if first.Err? then Err(first.error)
      else
        var later := Responses(first.value.rest, n - 1);
        if later.Err? then Err(later.error) else Ok(Taken([first.value.value] + later.value.value, later.value.rest))
  }

  predicate Readable(r: Response) {
    ResponseFits(r) && HttpReadable(r.front.http)
  }

  lemma ResponsesStep(r: Response, rest: Text, later: seq<Response>, end: Text, s: Text, n: nat)
    requires Readable(r) && Responses(rest, |later|) == Ok(Taken(later, end))
    requires s == ResponseLayout(r) + rest && n == |later| + 1
    ensures Responses(s, n) == Ok(Taken([r] + later, end))
  {
    ResponseReadsBack(r, rest);
  }

  /** The concatenated frames of valid, readable responses are read back as those responses, with nothing left over. */
  lemma {:induction false} ResponsesReadBack(responses: seq<Response>)
    requires forall r :: r in responses ==> Readable(r)
    ensures Responses(ResponseStream(responses), |responses|) == Ok(Taken(responses, []))
    decreases |responses|
  {
    if responses != [] {
      var first, later := responses[0], responses[1..];
      var rest := ResponseStream(later);
      assert forall r :: r in later ==> r in responses;
      ResponsesReadBack(later);
      ResponsesStep(first, rest, later, [], ResponseStream(responses), |responses|);
      FirstAndLater(responses);
    }
  }
}
