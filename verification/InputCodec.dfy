/**
The byte form of the input events a viewer sends; floating-point numbers are the bytes of their representation, and
scroll amounts are narrowed to single precision on the way.
*/
module InputCodec {
  import opened Bytes
  import opened LittleEndian
  import opened Utf8
  import opened Wrappers

  const WIRE_VERSION: byte := 1
  const MAX_KEY_BYTES: nat := 64
  const MAX_TEXT_BYTES: nat := 2048

  datatype MouseAction = Move | Down | Up | Click
  datatype Button = Left | Middle | Right
  datatype KeyAction = KeyDown | KeyUp | KeyPress

  datatype Event =
    | Mouse(action: MouseAction, button: Button, x: Text, y: Text)
    | Key(keyAction: KeyAction, key: Text)
    | Scroll(left: Text, top: Text, dx: Text, dy: Text)
    | Navigate(url: Text)
    | Type(text: Text)

  datatype InputError = Rejected

  function MouseByte(a: MouseAction): byte {
    match a case Move => 1 case Down => 2 case Up => 3 case Click => 4
  }

  function MouseFrom(b: byte): Option<MouseAction> {
    if b == 1 then Some(Move) else if b == 2 then Some(Down) else if b == 3 then Some(Up)
    else if b == 4 then Some(Click) else None
  }

  function ButtonByte(b: Button): byte {
    match b case Left => 0 case Middle => 1 case Right => 2
  }

  function ButtonFrom(b: byte): Option<Button> {
    if b == 0 then Some(Left) else if b == 1 then Some(Middle) else if b == 2 then Some(Right) else None
  }

  function KeyByte(a: KeyAction): byte {
    match a case KeyDown => 1 case KeyUp => 2 case KeyPress => 3
  }

  function KeyFrom(b: byte): Option<KeyAction> {
    if b == 1 then Some(KeyDown) else if b == 2 then Some(KeyUp) else if b == 3 then Some(KeyPress) else None
  }

  /** The conversions between double and single precision, on representations. */
  datatype Precision = Precision(narrow: Text -> Text, widen: Text -> Text) {
    ghost predicate Sound() {
      && (forall x :: |narrow(x)| == 4)
      && (forall x :: |x| == 4 ==> |widen(x)| == 8 && narrow(widen(x)) == x)
    }
  }

  /** The values of the original's event type. */
  predicate Proper(e: Event) {
    match e
    case Mouse(_, _, x, y) => |x| == 8 && |y| == 8
    case Key(_, key) => ValidUtf8(key)
    case Scroll(x, y, dx, dy) => |x| == 8 && |y| == 8 && |dx| == 8 && |dy| == 8
    case Navigate(url) => ValidUtf8(url)
    case Type(text) => ValidUtf8(text)
  }

  predicate WithinLimits(e: Event) {
    match e
    case Key(_, key) => 1 <= |key| <= 64
    case Navigate(url) => 1 <= |url| <= 2_048
    case Type(text) => 1 <= |text| <= 2_048
    case _ => true
  }

  function Layout(e: Event, p: Precision): Text
    requires WithinLimits(e)
  {
    match e
    case Mouse(action, button, x, y) => [1, 1, MouseByte(action), ButtonByte(button)] + x + y
    case Key(action, key) => [1, 2, KeyByte(action), |key| as byte] + key
    case Scroll(x, y, dx, dy) => [1, 3, 0] + p.narrow(x) + p.narrow(y) + p.narrow(dx) + p.narrow(dy)
    case Navigate(url) => [1, 4] + Pack(|url|, 2) + url
    case Type(text) => [1, 5] + Pack(|text|, 2) + text
  }

  method EncodeInput(e: Event, p: Precision) returns (r: Result<Text, InputError>)
    ensures r == if WithinLimits(e) then Ok(Layout(e, p)) else Err(Rejected)
  {
    var out: Text := [WIRE_VERSION];
    match e {
      case Mouse(action, button, x, y) =>
        out := out + [1] + [MouseByte(action)] + [ButtonByte(button)];
        assert out == [WIRE_VERSION, 1, MouseByte(action), ButtonByte(button)];
        out := out + x;
        out := out + y;
      case Key(action, key) =>
        if key == [] || |key| > MAX_KEY_BYTES {
          return Err(Rejected);
        }
        out := out + [2] + [KeyByte(action)] + [|key| as byte];
        assert out == [WIRE_VERSION, 2, KeyByte(action), |key| as byte];
        out := out + key;
      case Scroll(x, y, dx, dy) =>
        out := out + [3] + [0];
        assert out == [WIRE_VERSION, 3, 0];
        out := out + p.narrow(x) + p.narrow(y) + p.narrow(dx) + p.narrow(dy);
      case Navigate(url) =>
        if url == [] || |url| > MAX_TEXT_BYTES {
          return Err(Rejected);
        }
        out := out + [4];
        assert out == [WIRE_VERSION, 4];
        out := out + Pack(|url|, 2);
        out := out + url;
      case Type(text) =>
        if text == [] || |text| > MAX_TEXT_BYTES {
          return Err(Rejected);
        }
        out := out + [5];
        assert out == [WIRE_VERSION, 5];
        out := out + Pack(|text|, 2);
        out := out + text;
    }
    return Ok(out);
  }

  function DecodeText(bytes: Text): Option<Text>
    requires |bytes| >= 4
  {
    var len := Unpack(bytes[2..4]);
    if len == 0 || len > MAX_TEXT_BYTES || |bytes| != 4 + len || !ValidUtf8(bytes[4..]) then None else Some(bytes[4..])
  }

  function DecodeInput(bytes: Text, p: Precision): Result<Event, InputError> {
    if |bytes| < 4 || bytes[0] != WIRE_VERSION then Err(Rejected)
    else if bytes[1] == 1 then
      var action, button := MouseFrom(bytes[2]), ButtonFrom(bytes[3]);
      if |bytes| != 20 || action.None? || button.None? then Err(Rejected)
      else Ok(Mouse(action.value, button.value, bytes[4..12], bytes[12..20]))
    else if bytes[1] == 2 then
      var action, len := KeyFrom(bytes[2]), bytes[3] as nat;
      if action.None? || len == 0 || len > MAX_KEY_BYTES || |bytes| != 4 + len || !ValidUtf8(bytes[4..]) then Err(Rejected)
      else Ok(Key(action.value, bytes[4..]))
    else if bytes[1] == 3 then
      if |bytes| != 19 then Err(Rejected)
      else Ok(Scroll(p.widen(bytes[3..7]), p.widen(bytes[7..11]), p.widen(bytes[11..15]), p.widen(bytes[15..19])))
    else if bytes[1] == 4 || bytes[1] == 5 then
      var value := DecodeText(bytes);
      if value.None? then Err(Rejected)
      else Ok(if bytes[1] == 4 then Navigate(value.value) else Type(value.value))
    else Err(Rejected)
  }

  // Round trips.

  lemma TextReads(head: Text, text: Text)
    requires |head| == 2 && ValidUtf8(text) && 1 <= |text| <= MAX_TEXT_BYTES
    ensures DecodeText(head + Pack(|text|, 2) + text) == Some(text)
  {
    var bytes := head + Pack(|text|, 2) + text;
    assert Range(1) == 256 && Range(2) == 0x1_0000;
    UnpackPacked(|text|, 2);
    assert bytes[2..4] == Pack(|text|, 2) && bytes[4..] == text;
  }

  lemma TextIsCanonical(bytes: Text)
    requires |bytes| >= 4 && DecodeText(bytes).Some?
    ensures var text := DecodeText(bytes).value;
            && ValidUtf8(text) && 1 <= |text| <= MAX_TEXT_BYTES && bytes == bytes[..2] + Pack(|text|, 2) + text
  {
    PackUnpacked(bytes[2..4]);
    assert bytes == bytes[..2] + bytes[2..4] + bytes[4..];
  }

  /** What a reader gets from an event: scrolling loses precision, everything else is kept. */
  function Received(e: Event, p: Precision): Event {
    match e
    case Scroll(x, y, dx, dy) =>
      Scroll(p.widen(p.narrow(x)), p.widen(p.narrow(y)), p.widen(p.narrow(dx)), p.widen(p.narrow(dy)))
    case _ => e
  }

  lemma MouseReads(e: Event, p: Precision)
    requires Proper(e) && e.Mouse?
    ensures DecodeInput(Layout(e, p), p) == Ok(e)
  {
    var bytes := Layout(e, p);
    assert bytes[4..12] == e.x && bytes[12..20] == e.y;
  }

  lemma KeyReads(e: Event, p: Precision)
    requires Proper(e) && WithinLimits(e) && e.Key?
    ensures DecodeInput(Layout(e, p), p) == Ok(e)
  {
    assert Layout(e, p)[4..] == e.key;
  }

  lemma ScrollReads(x: Text, y: Text, dx: Text, dy: Text, p: Precision)
    requires Proper(Scroll(x, y, dx, dy)) && p.Sound()
    ensures DecodeInput(Layout(Scroll(x, y, dx, dy), p), p) == Ok(Received(Scroll(x, y, dx, dy), p))
  {
    var bytes := Layout(Scroll(x, y, dx, dy), p);
    assert bytes[3..7] == p.narrow(x) && bytes[7..11] == p.narrow(y);
    assert bytes[11..15] == p.narrow(dx) && bytes[15..19] == p.narrow(dy);
  }

  lemma EventReads(e: Event, p: Precision)
    requires Proper(e) && WithinLimits(e) && p.Sound()
    ensures DecodeInput(Layout(e, p), p) == Ok(Received(e, p))
  {
    match e {
      case Mouse(_, _, _, _) => MouseReads(e, p);
      case Key(_, _) => KeyReads(e, p);
      case Scroll(x, y, dx, dy) => ScrollReads(x, y, dx, dy, p);
      case Navigate(url) => TextReads([WIRE_VERSION, 4], url);
      case Type(text) => TextReads([WIRE_VERSION, 5], text);
    }
  }

  /** The bytes an event is encoded as, except that the padding of a scroll event may be anything. */
  predicate Canonical(bytes: Text, e: Event, p: Precision)
    requires WithinLimits(e)
  {
    var layout := Layout(e, p);
    if e.Scroll? then |bytes| == |layout| && |bytes| > 2 && bytes[2 := 0] == layout else bytes == layout
  }

  lemma ScrollIsCanonical(bytes: Text, p: Precision)
    requires p.Sound() && |bytes| == 19 && bytes[0] == WIRE_VERSION && bytes[1] == 3
    ensures DecodeInput(bytes, p).Ok? && Canonical(bytes, DecodeInput(bytes, p).value, p)
  {
    var x, y, dx, dy := bytes[3..7], bytes[7..11], bytes[11..15], bytes[15..19];
    assert bytes[2 := 0] == [WIRE_VERSION, 3, 0] + x + y + dx + dy;
  }

  lemma MouseIsCanonical(bytes: Text, p: Precision)
    requires |bytes| >= 4 && bytes[1] == 1 && DecodeInput(bytes, p).Ok?
    ensures var e := DecodeInput(bytes, p).value;
            Proper(e) && WithinLimits(e) && Received(e, p) == e && Canonical(bytes, e, p)
  {
    assert bytes == [WIRE_VERSION, 1, bytes[2], bytes[3]] + bytes[4..12] + bytes[12..20];
  }

  lemma KeyIsCanonical(bytes: Text, p: Precision)
    requires |bytes| >= 4 && bytes[1] == 2 && DecodeInput(bytes, p).Ok?
    ensures var e := DecodeInput(bytes, p).value;
            Proper(e) && WithinLimits(e) && Received(e, p) == e && Canonical(bytes, e, p)
  {
    assert bytes == [WIRE_VERSION, 2, bytes[2], bytes[3]] + bytes[4..];
  }

  lemma EventIsCanonical(bytes: Text, p: Precision)
    requires p.Sound() && DecodeInput(bytes, p).Ok?
    ensures var e := DecodeInput(bytes, p).value;
            Proper(e) && WithinLimits(e) && Received(e, p) == e && Canonical(bytes, e, p)
  {
    if bytes[1] == 1 {
      MouseIsCanonical(bytes, p);
    } else if bytes[1] == 2 {
      KeyIsCanonical(bytes, p);
    } else if bytes[1] == 3 {
      ScrollIsCanonical(bytes, p);
    } else {
      TextIsCanonical(bytes);
      assert bytes[..2] == [WIRE_VERSION, bytes[1]];
    }
  }

  /** Bytes are read as an event exactly when they are its canonical form, scroll padding aside. */
  lemma DecodesExactlyTheCanonical(bytes: Text, e: Event, p: Precision)
    requires p.Sound() && !e.Scroll?
    ensures DecodeInput(bytes, p) == Ok(e) <==> Proper(e) && WithinLimits(e) && bytes == Layout(e, p)
  {
    if DecodeInput(bytes, p) == Ok(e) {
      EventIsCanonical(bytes, p);
    } else if Proper(e) && WithinLimits(e) && bytes == Layout(e, p) {
      EventReads(e, p);
    }
  }
}
