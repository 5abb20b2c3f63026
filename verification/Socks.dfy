/**
The SOCKS5 CONNECT reader in front of the anonymizing proxy (section 4 of RFC 1928), which takes names only: address
literals are refused, and what is read off the stream is just the request.
*/
module Socks {
  import opened Bytes
  import opened Fields
  import opened Utf8
  import opened WorkerFrames
  import opened WorkerStreams
  import opened Wrappers

  const GENERAL_FAILURE: byte := 1
  const COMMAND_UNSUPPORTED: byte := 7
  const ADDRESS_TYPE_UNSUPPORTED: byte := 8

  const DOT: byte := 46
  const DASH: byte := 45

  predicate LetterOrDigit(b: byte) {
    48 <= b <= 57 || 65 <= b <= 90 || 97 <= b <= 122
  }

  predicate Label(name: Text) {
    && 1 <= |name| <= 63 && name[0] != DASH && name[|name| - 1] != DASH
    && forall i :: 0 <= i < |name| ==> LetterOrDigit(name[i]) || name[i] == DASH
  }

  function DecimalValue(s: Text): nat {
    if s == [] then 0 else DecimalValue(s[..|s| - 1]) * 10 + (if s[|s| - 1] >= 48 then s[|s| - 1] as nat - 48 else 0)
  }

  /** A decimal number up to 255 without leading zeros. */
  predicate Octet(s: Text) {
    && 1 <= |s| <= 3 && (forall i :: 0 <= i < |s| ==> 48 <= s[i] <= 57)
    && (|s| > 1 ==> s[0] != 48) && DecimalValue(s) <= 255
  }

  /** An IPv4 literal. The other kind of literal has a colon in it, which no label allows. */
  predicate IpLiteral(host: Text) {
    var parts := Split(host, DOT);
    |parts| == 4 && forall i :: 0 <= i < 4 ==> Octet(parts[i])
  }

  predicate HostIsDnsName(host: Text) {
    && 1 <= |host| <= 255 && !IpLiteral(host)
    && var labels := Split(host, DOT); forall i :: 0 <= i < |labels| ==> Label(labels[i])
  }

  datatype Target = Target(host: Text, port: nat)

  function At(s: Text, i: nat): Option<byte> {
    if i < |s| then Some(s[i]) else None
  }

  function DecodeSocksConnect(request: Text): Result<Target, byte> {
    if At(request, 0) != Some(5) then Err(GENERAL_FAILURE)
    else if At(request, 1) != Some(1) then Err(COMMAND_UNSUPPORTED)
    else if At(request, 3) == Some(1) || At(request, 3) == Some(4) then Err(ADDRESS_TYPE_UNSUPPORTED)
    else if At(request, 3) == Some(3) then
      if At(request, 4).None? then Err(GENERAL_FAILURE)
      else
        var len := request[4] as nat;
        if len == 0 || |request| != 5 + len + 2 then Err(GENERAL_FAILURE)
        else if !ValidUtf8(request[5..5 + len]) then Err(ADDRESS_TYPE_UNSUPPORTED)
        else if !HostIsDnsName(request[5..5 + len]) then Err(ADDRESS_TYPE_UNSUPPORTED)
        else
          var port := request[5 + len] as nat * 256 + request[6 + len] as nat;
          if port == 0 then Err(GENERAL_FAILURE) else Ok(Target(request[5..5 + len], port))
    else Err(ADDRESS_TYPE_UNSUPPORTED)
  }

  /** How much of a stream belongs to the request that starts it; none when the stream or the address type does not fit. */
  function RequestLength(s: Text): Result<nat, byte> {
    if |s| < 4 then Err(GENERAL_FAILURE)
    else if s[3] == 1 then Ok(10)
    else if s[3] == 4 then Ok(22)
    else if s[3] != 3 then Err(ADDRESS_TYPE_UNSUPPORTED)
    else if |s| < 5 then Err(GENERAL_FAILURE)
    else Ok(5 + s[4] as nat + 2)
  }

  function TakeConnect(s: Text): Result<Target, byte> {
    var length := RequestLength(s);
    if length.Err? then Err(length.error)
    else if |s| < length.value then Err(GENERAL_FAILURE)
    else DecodeSocksConnect(s[..length.value])
  }

  /** Reads the address in the pieces its type announces; what comes of it depends on the bytes only. */
  method ReadConnect(stream: ShortReader) returns (r: Result<Target, byte>)
    modifies stream
    ensures r == TakeConnect(old(stream.rest))
    ensures r.Ok? ==> stream.rest == old(stream.rest)[RequestLength(old(stream.rest)).value..]
  {
    ghost var s := stream.rest;
    var head := stream.ReadExact(4);
    if head.Err? {
      return Err(GENERAL_FAILURE);
    }
    var request := head.value;
    var rest := 0;
    if request[3] == 1 {
      rest := 6;
    } else if request[3] == 4 {
      rest := 18;
    } else if request[3] == 3 {
      var length := stream.ReadExact(1);
      if length.Err? {
        return Err(GENERAL_FAILURE);
      }
      request := request + length.value;
      rest := length.value[0] as nat + 2;
    } else {
      return Err(ADDRESS_TYPE_UNSUPPORTED);
    }
    assert s == request + stream.rest;
    var address := stream.ReadExact(rest);
    if address.Err? {
      return Err(GENERAL_FAILURE);
    }
    request := request + address.value;
    assert s[..RequestLength(s).value] == request;
    r := DecodeSocksConnect(request);
  }

  /** The CONNECT request for a domain name, with any reserved byte. */
  function ConnectBytes(t: Target, reserved: byte): Text
    requires |t.host| <= 255 && t.port < 0x1_0000
  {
    [5, 1, reserved, 3, |t.host| as byte] + t.host + [(t.port / 256) as byte, (t.port % 256) as byte]
  }

  lemma {:induction false} AsciiIsValid(s: Text)
    requires forall i :: 0 <= i < |s| ==> s[i] < 0x80
    ensures ValidUtf8(s)
  {
    if s != [] {
      AsciiIsValid(s[1..]);
    }
  }

  /** A letter, a digit, a dash or a dot. */
  predicate NameByte(b: byte) {
    48 <= b <= 57 || 65 <= b <= 90 || 97 <= b <= 122 || b == 45 || b == 46
  }

  lemma {:induction false} JoinedAscii(labels: seq<Text>)
    requires labels != [] && forall i :: 0 <= i < |labels| ==> Label(labels[i])
    ensures forall b :: b in Join(labels, DOT) ==> NameByte(b)
  {
    if |labels| > 1 {
      JoinedAscii(labels[1..]);
    }
  }

  lemma NamesAreTexts(host: Text)
    requires HostIsDnsName(host)
    ensures ValidUtf8(host) && forall i :: 0 <= i < |host| ==> NameByte(host[i])
  {
    SplitFields(host, DOT);
    JoinedAscii(Split(host, DOT));
    assert forall i :: 0 <= i < |host| ==> host[i] in host;
    AsciiIsValid(host);
  }

  lemma ConnectReads(t: Target, reserved: byte, rest: Text)
    requires HostIsDnsName(t.host) && 0 < t.port < 0x1_0000
    ensures TakeConnect(ConnectBytes(t, reserved) + rest) == Ok(t)
  {
    var request := ConnectBytes(t, reserved);
    NamesAreTexts(t.host);
    assert (request + rest)[..|request|] == request;
    assert request[5..5 + |t.host|] == t.host;
  }

  lemma ConnectIsCanonical(s: Text, t: Target)
    requires TakeConnect(s) == Ok(t)
    ensures HostIsDnsName(t.host) && 0 < t.port < 0x1_0000 && ConnectBytes(t, s[2]) <= s
  {
    var request := s[..RequestLength(s).value];
    var len := request[4] as nat;
    assert request == request[..5] + request[5..5 + len] + request[5 + len..];
    assert request[..5] == [5, 1, s[2], 3, len as byte];
    assert request[5 + len..] == [request[5 + len], request[6 + len]];
  }

  /** A target is read exactly from the streams that start with a CONNECT request naming it:
    * a DNS name, no address literal, and a port that is not zero; the reserved byte does not matter. */
  lemma ReadsExactlyConnect(s: Text, t: Target)
    ensures TakeConnect(s) == Ok(t) <==>
      HostIsDnsName(t.host) && 0 < t.port < 0x1_0000 && exists reserved: byte :: ConnectBytes(t, reserved) <= s
  {
    if TakeConnect(s) == Ok(t) {
      ConnectIsCanonical(s, t);
    }
    forall reserved: byte | HostIsDnsName(t.host) && 0 < t.port < 0x1_0000 && ConnectBytes(t, reserved) <= s
      ensures TakeConnect(s) == Ok(t)
    {
      var request := ConnectBytes(t, reserved);
      assert s == request + s[|request|..];
      ConnectReads(t, reserved, s[|request|..]);
    }
  }

  /** Any single label is a name: up to 63 letters, digits and inner dashes. */
  lemma LabelsAreNames(host: Text)
    requires 1 <= |host| <= 63 && host[0] != 45 && host[|host| - 1] != 45
    requires forall i :: 0 <= i < |host| ==> NameByte(host[i]) && host[i] != 46
    ensures HostIsDnsName(host)
  {
    SplitOnce(host, [], DOT);
  }

  /** The replies of section 6 of RFC 1928 with which a request is refused. */
  lemma RefusalsSayWhy(request: Text)
    ensures |request| > 0 && request[0] != 5 ==> DecodeSocksConnect(request) == Err(1)
    ensures |request| > 1 && request[0] == 5 && request[1] != 1 ==> DecodeSocksConnect(request) == Err(7)
    ensures |request| > 3 && request[0] == 5 && request[1] == 1 && request[3] != 3 ==> DecodeSocksConnect(request) == Err(8)
    ensures var well := |request| > 6 && request[0] == 5 && request[1] == 1 && request[3] == 3
                        && request[4] > 0 && |request| == 7 + request[4] as nat;
            && (well && !HostIsDnsName(request[5..|request| - 2]) ==> DecodeSocksConnect(request) == Err(8))
            && (well && HostIsDnsName(request[5..|request| - 2]) && request[|request| - 2..] == [0, 0] ==>
                  DecodeSocksConnect(request) == Err(1))
  {
    if |request| > 6 && request[3] == 3 && |request| == 7 + request[4] as nat {
      var len := request[4] as nat;
      assert request[5..5 + len] == request[5..|request| - 2];
      assert request[|request| - 2..] == [request[5 + len], request[6 + len]];
      if HostIsDnsName(request[5..5 + len]) {
        NamesAreTexts(request[5..5 + len]);
      }
    }
  }
}
