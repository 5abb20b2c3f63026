/**
The UTF-8 encoding of texts and the byte sequences it produces (section 4 of RFC 3629): shortest forms only, no
surrogates, nothing beyond U+10FFFF. Frames and events carry their texts in this form.
*/
module Utf8 {
  import opened Bytes

  predicate Tail(b: byte) {
    0x80 <= b <= 0xBF
  }

  /** The length of the well-formed sequence a text starts with; 0 when there is none. */
  function SequenceLength(s: Text): (n: nat)
    requires s != []
    ensures n <= |s|
  {
    if s[0] < 0x80 then 1
    else if |s| >= 2 && 0xC2 <= s[0] <= 0xDF && Tail(s[1]) then 2
    else if |s| >= 3 && ThreeBytes(s[0], s[1]) && Tail(s[2]) then 3
    else if |s| >= 4 && FourBytes(s[0], s[1]) && Tail(s[2]) && Tail(s[3]) then 4
    else 0
  }

  predicate ThreeBytes(first: byte, second: byte) {
    || (first == 0xE0 && 0xA0 <= second <= 0xBF)
    || (first == 0xED && 0x80 <= second <= 0x9F)
    || (0xE1 <= first <= 0xEF && first != 0xED && Tail(second))
  }

  predicate FourBytes(first: byte, second: byte) {
    || (first == 0xF0 && 0x90 <= second <= 0xBF)
    || (first == 0xF4 && 0x80 <= second <= 0x8F)
    || (0xF1 <= first <= 0xF3 && Tail(second))
  }

  predicate ValidUtf8(s: Text)
    decreases |s|
  {
    s == [] || (SequenceLength(s) > 0 && ValidUtf8(s[SequenceLength(s)..]))
  }

  function EncodeChar(c: char): (r: Text)
    ensures 1 <= |r| <= 4
  {
    var v := c as int;
    if v < 0x80 then [v as byte]
    else if v < 0x800 then [(0xC0 + v / 0x40) as byte, (0x80 + v % 0x40) as byte]
    else if v < 0x1_0000 then
      [(0xE0 + v / 0x1000) as byte, (0x80 + v / 0x40 % 0x40) as byte, (0x80 + v % 0x40) as byte]
    else
      [(0xF0 + v / 0x4_0000) as byte, (0x80 + v / 0x1000 % 0x40) as byte,
       (0x80 + v / 0x40 % 0x40) as byte, (0x80 + v % 0x40) as byte]
  }

  function Encode(s: string): Text {
    if s == [] then [] else EncodeChar(s[0]) + Encode(s[1..])
  }

  lemma EncodedCharIsWellFormed(c: char, rest: Text)
    ensures SequenceLength(EncodeChar(c) + rest) == |EncodeChar(c)|
  {
    var s := EncodeChar(c) + rest;
    var v := c as int;
    if v < 0x80 {
      assert s[0] as int == v;
    } else if v < 0x800 {
      assert s[0] as int == 0xC0 + v / 0x40 && s[1] as int == 0x80 + v % 0x40;
    } else if v < 0x1_0000 {
      assert s[0] as int == 0xE0 + v / 0x1000 && s[1] as int == 0x80 + v / 0x40 % 0x40 && s[2] as int == 0x80 + v % 0x40;
      assert v / 0x1000 == v / 0x40 / 0x40;
    } else {
      assert s[0] as int == 0xF0 + v / 0x4_0000 && s[1] as int == 0x80 + v / 0x1000 % 0x40;
      assert s[2] as int == 0x80 + v / 0x40 % 0x40 && s[3] as int == 0x80 + v % 0x40;
      assert v / 0x4_0000 == v / 0x1000 / 0x40;
    }
  }

  /** Encoded texts are well-formed. */
  lemma {:induction false} EncodedIsValid(s: string)
    ensures ValidUtf8(Encode(s))
  {
    if s != [] {
      EncodedIsValid(s[1..]);
      EncodedCharIsWellFormed(s[0], Encode(s[1..]));
      assert Encode(s)[|EncodeChar(s[0])|..] == Encode(s[1..]);
    }
  }

  lemma {:induction false} EncodeConcat(a: string, b: string)
    ensures Encode(a + b) == Encode(a) + Encode(b)
  {
    if a == [] {
      assert a + b == b;
    } else {
      assert (a + b)[1..] == a[1..] + b;
      EncodeConcat(a[1..], b);
    }
  }
}
