/**
Unsigned numbers as little-endian bytes, and records of such numbers. Packing and unpacking are inverse within the range
that a width allows; the binary frames and the input events are built from them.
*/
module LittleEndian {
  import opened Bytes

  function Range(width: nat): nat {
    if width == 0 then 1 else 256 * Range(width - 1)
  }

  function Pack(n: nat, width: nat): (r: Text)
    ensures |r| == width
  {
    if width == 0 then [] else [(n % 256) as byte] + Pack(n / 256, width - 1)
  }

  function Unpack(s: Text): (n: nat)
    ensures n < Range(|s|)
  {
    if s == [] then 0 else s[0] as nat + 256 * Unpack(s[1..])
  }

  lemma {:induction false} UnpackPacked(n: nat, width: nat)
    requires n < Range(width)
    ensures Unpack(Pack(n, width)) == n
  {
    if width > 0 {
      UnpackPacked(n / 256, width - 1);
      assert Pack(n, width)[1..] == Pack(n / 256, width - 1);
    }
  }

  lemma {:induction false} PackUnpacked(s: Text)
    ensures Pack(Unpack(s), |s|) == s
  {
    if s != [] {
      PackUnpacked(s[1..]);
      var n := Unpack(s);
      assert n % 256 == s[0] as nat && n / 256 == Unpack(s[1..]);
      assert s == [s[0]] + s[1..];
    }
  }

  /** One number of a record. */
  datatype Field = Field(value: nat, width: nat)

  predicate Fits(fields: seq<Field>) {
    forall i :: 0 <= i < |fields| ==> fields[i].value < Range(fields[i].width)
  }

  function Widths(fields: seq<Field>): (r: seq<nat>)
    ensures |r| == |fields| && forall i :: 0 <= i < |r| ==> r[i] == fields[i].width
  {
    if fields == [] then [] else [fields[0].width] + Widths(fields[1..])
  }

  function Total(widths: seq<nat>): nat {
    if widths == [] then 0 else widths[0] + Total(widths[1..])
  }

  function PackAll(fields: seq<Field>): Text {
    if fields == [] then [] else Pack(fields[0].value, fields[0].width) + PackAll(fields[1..])
  }

  lemma {:induction false} PackedLength(fields: seq<Field>)
    ensures |PackAll(fields)| == Total(Widths(fields))
  {
    if fields != [] {
      PackedLength(fields[1..]);
      assert Widths(fields)[1..] == Widths(fields[1..]);
    }
  }

  function UnpackAll(s: Text, widths: seq<nat>): (r: seq<Field>)
    requires |s| == Total(widths)
    ensures |r| == |widths| && forall i :: 0 <= i < |r| ==> r[i].width == widths[i]
    decreases |widths|
  {
    if widths == [] then []
    else [Field(Unpack(s[..widths[0]]), widths[0])] + UnpackAll(s[widths[0]..], widths[1..])
  }

  lemma {:induction false} UnpackAllPacked(fields: seq<Field>)
    requires Fits(fields)
    ensures |PackAll(fields)| == Total(Widths(fields))
    ensures UnpackAll(PackAll(fields), Widths(fields)) == fields
  {
    PackedLength(fields);
    if fields != [] {
      var s, w := PackAll(fields), fields[0].width;
      assert s[..w] == Pack(fields[0].value, w) && s[w..] == PackAll(fields[1..]);
      UnpackPacked(fields[0].value, w);
      UnpackAllPacked(fields[1..]);
      assert Widths(fields)[1..] == Widths(fields[1..]);
    }
  }

  lemma {:induction false} PackAllUnpacked(s: Text, widths: seq<nat>)
    requires |s| == Total(widths)
    ensures var fields := UnpackAll(s, widths);
            Fits(fields) && Widths(fields) == widths && PackAll(fields) == s
    decreases |widths|
  {
    if widths != [] {
      var w := widths[0];
      PackUnpacked(s[..w]);
      PackAllUnpacked(s[w..], widths[1..]);
      assert UnpackAll(s, widths)[1..] == UnpackAll(s[w..], widths[1..]);
      assert s == s[..w] + s[w..];
    }
  }

  lemma {:induction false} PackAllSnoc(fields: seq<Field>, last: Field)
    ensures PackAll(fields + [last]) == PackAll(fields) + Pack(last.value, last.width)
  {
    if fields == [] {
      assert fields + [last] == [last];
    } else {
      assert (fields + [last])[1..] == fields[1..] + [last];
      PackAllSnoc(fields[1..], last);
    }
  }

  /** A whole record and what it unpacks to. */
  lemma RecordReads(fields: seq<Field>, widths: seq<nat>)
    requires Fits(fields) && |fields| == |widths| && forall i :: 0 <= i < |fields| ==> fields[i].width == widths[i]
    ensures |PackAll(fields)| == Total(widths) && UnpackAll(PackAll(fields), widths) == fields
  {
    assert Widths(fields) == widths;
    UnpackAllPacked(fields);
  }
}
