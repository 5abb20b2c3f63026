/** Bytes and texts. A text is the byte sequence of a Rust string, so lengths are byte lengths. */
module Bytes {
  newtype byte = x: int | 0 <= x < 256

  type Text = seq<byte>

  const U64_MAX: nat := 0xFFFF_FFFF_FFFF_FFFF

  predicate HasNul(text: Text) {
    0 in text
  }

  function SaturatingSucc(n: nat): nat {
    if n < U64_MAX then n + 1 else n
  }
}
