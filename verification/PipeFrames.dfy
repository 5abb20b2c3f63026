/** Chrome's NUL-delimited pipe frames, read from a buffered reader that hands out arbitrary chunks. */
module PipeFrames {
  import opened Wrappers
  import opened Bytes

  datatype ReadError = Truncated | TooLarge | BrokenPipe | Unparsable

  /** How the underlying pipe ends: closed by the peer, or with an I/O error. */
  datatype PipeEnd = Closed | Broken

  /** Some(payload) is one frame, None the clean end of the stream. */
  type Outcome = Result<Option<Text>, ReadError>

  function FirstNul(stream: Text): (p: nat)
    ensures p <= |stream|
    ensures p < |stream| ==> stream[p] == 0
    ensures forall i :: 0 <= i < p ==> stream[i] != 0
  {
    if stream == [] || stream[0] == 0 then 0 else 1 + FirstNul(stream[1..])
  }

  /** The reference: take up to the first NUL of the whole stream. */
  function TakeFrame(stream: Text, end: PipeEnd, limit: nat): Outcome {
    var p := FirstNul(stream);
    if p > limit then Err(TooLarge)
    else if p < |stream| then Ok(Some(stream[..p]))
    else if end.Broken? then Err(BrokenPipe)
    else if stream == [] then Ok(None)
    else Err(Truncated)
  }

  /** What a frame leaves behind. */
  function AfterFrame(stream: Text): Text
    requires FirstNul(stream) < |stream|
  {
    stream[FirstNul(stream) + 1..]
  }

  function Flatten(chunks: seq<Text>): Text {
    if chunks == [] then [] else chunks[0] + Flatten(chunks[1..])
  }

  lemma FirstNulIs(stream: Text, p: nat)
    requires p < |stream| && stream[p] == 0 && forall i :: 0 <= i < p ==> stream[i] != 0
    ensures FirstNul(stream) == p
  {
  }

  lemma NoNul(stream: Text, prefix: nat)
    requires prefix <= |stream| && forall i :: 0 <= i < prefix ==> stream[i] != 0
    ensures FirstNul(stream) >= prefix
  {
  }

  lemma NulInChunk(frame: Text, available: Text, rest: Text, end: PipeEnd, limit: nat)
    requires !HasNul(frame) && FirstNul(available) < |available|
    ensures var whole := frame + (available + rest);
            var payload := frame + available[..FirstNul(available)];
            && TakeFrame(whole, end, limit) == (if |payload| > limit then Err(TooLarge) else Ok(Some(payload)))
            && FirstNul(whole) < |whole|
            && AfterFrame(whole) == (available + rest)[FirstNul(available) + 1..]
  {
    var whole := frame + (available + rest);
    var p := |frame| + FirstNul(available);
    FirstNulIs(whole, p);
    assert whole[..p] == frame + available[..FirstNul(available)];
  }

  lemma NoNulJoined(frame: Text, available: Text)
    requires !HasNul(frame) && FirstNul(available) == |available|
    ensures !HasNul(frame + available)
  {
  }

  lemma Regrouped(a: Text, b: Text, c: Text)
    ensures a + (b + c) == (a + b) + c
  {
  }

  lemma TooLongAlready(prefix: Text, rest: Text, end: PipeEnd, limit: nat)
    requires !HasNul(prefix) && |prefix| > limit
    ensures TakeFrame(prefix + rest, end, limit) == Err(TooLarge)
  {
    NoNul(prefix + rest, |prefix|);
  }

  lemma NoNulInChunk(frame: Text, available: Text, rest: Text, end: PipeEnd, limit: nat)
    requires !HasNul(frame) && FirstNul(available) == |available|
    ensures |frame| + |available| > limit ==> TakeFrame(frame + (available + rest), end, limit) == Err(TooLarge)
    ensures !HasNul(frame + available)
    ensures frame + (available + rest) == (frame + available) + rest
  {
    NoNulJoined(frame, available);
    Regrouped(frame, available, rest);
    if |frame| + |available| > limit {
      TooLongAlready(frame + available, rest, end, limit);
    }
  }

  lemma NoNulAtEnd(frame: Text, end: PipeEnd, limit: nat)
    requires !HasNul(frame) && |frame| <= limit
    ensures TakeFrame(frame, end, limit) ==
              if end.Broken? then Err(BrokenPipe) else if frame == [] then Ok(None) else Err(Truncated)
  {
    NoNul(frame, |frame|);
  }

  /** A buffered reader over a pipe: the pipe delivers its bytes in nonempty chunks of any size. */
  class PipeReader {
    var chunks: seq<Text>
    const end: PipeEnd

    ghost predicate Valid()
      reads this
    {
      forall i :: 0 <= i < |chunks| ==> chunks[i] != []
    }

    /** The bytes not yet consumed. */
    ghost function Stream(): Text
      reads this
    {
      Flatten(chunks)
    }

    constructor (chunks: seq<Text>, end: PipeEnd)
      requires forall i :: 0 <= i < |chunks| ==> chunks[i] != []
      ensures Valid() && this.chunks == chunks && this.end == end
    {
      this.chunks, this.end := chunks, end;
    }

    /** The buffered bytes, refilled from the pipe when there are none; empty only at the clean end. */
    method FillBuf() returns (r: Result<Text, ReadError>)
      requires Valid()
      ensures chunks != [] ==> r == Ok(chunks[0]) && r.value <= Stream()
      ensures chunks == [] ==> r == if end.Broken? then Err(BrokenPipe) else Ok([])
    {
      if chunks == [] {
        return if end.Broken? then Err(BrokenPipe) else Ok([]);
      }
      return Ok(chunks[0]);
    }

    method Consume(amount: nat)
      requires Valid() && chunks != [] && 0 < amount <= |chunks[0]|
      modifies this
      ensures Valid() && Stream() == old(Stream())[amount..]
      ensures |chunks| + |Stream()| < old(|chunks| + |Stream()|)
    {
      var rest := chunks[0][amount..];
      assert Flatten(chunks) == chunks[0] + Flatten(chunks[1..]);
      if rest == [] {
        chunks := chunks[1..];
      } else {
        chunks := [rest] + chunks[1..];
        assert chunks[1..] == old(chunks)[1..];
      }
    }

    /** `frame` grows chunk by chunk; the outcome is that of the whole stream at once. */
    method ReadPipeFrame(limit: nat) returns (r: Outcome)
      requires Valid()
      modifies this
      ensures Valid() && r == TakeFrame(old(Stream()), end, limit)
      ensures r.Ok? && r.value.Some? ==>
                FirstNul(old(Stream())) < |old(Stream())| && Stream() == AfterFrame(old(Stream()))
      ensures r == Ok(None) ==> Stream() == []
      ensures |Stream()| <= |old(Stream())|
    {
      ghost var whole := Stream();
      var frame: Text := [];
      while true
        invariant Valid()
        invariant whole == frame + Stream() && |frame| <= limit && !HasNul(frame)
        decreases |chunks| + |Stream()|
      {
        if chunks == [] {
          NoNulAtEnd(frame, end, limit);
          assert whole == frame;
        }
        var filled := FillBuf();
        if filled.Err? {
          return Err(filled.error);
        }
        var available := filled.value;
        if available == [] {
          if frame == [] {
            return Ok(None);
          }
          return Err(Truncated);
        }
        ghost var rest := Stream()[|available|..];
        assert Stream() == available + rest;
        var delimiter := FirstNul(available);
        if delimiter < |available| {
          NulInChunk(frame, available, rest, end, limit);
          if |frame| + delimiter > limit {
            return Err(TooLarge);
          }
          frame := frame + available[..delimiter];
          Consume(delimiter + 1);
          return Ok(Some(frame));
        }
        NoNulInChunk(frame, available, rest, end, limit);
        if |frame| + |available| > limit {
          return Err(TooLarge);
        }
        frame := frame + available;
        Consume(|available|);
      }
    }

    /** The reader task's loop: frames are dispatched until the first end, error, or frame that does not parse. */
    method ReadAll(limit: nat, parses: Text -> bool) returns (frames: seq<Text>, last: Outcome)
      requires Valid()
      modifies this
      ensures Valid()
      ensures frames == Frames(old(Stream()), end, limit, parses).0
      ensures last == Frames(old(Stream()), end, limit, parses).1
    {
      frames := [];
      ghost var all := Frames(Stream(), end, limit, parses);
      while true
        invariant Valid()
        invariant all.0 == frames + Frames(Stream(), end, limit, parses).0 && all.1 == Frames(Stream(), end, limit, parses).1
        decreases |Stream()|
      {
        ghost var before := Stream();
        last := ReadPipeFrame(limit);
        if last.Err? || last.value.None? {
          return;
        }
        if !parses(last.value.value) {
          last := Err(Unparsable);
          return;
        }
        FramesStep(frames, before, end, limit, parses);
        frames := frames + [last.value.value];
      }
    }
  }

  /** The frames of a stream up to the first that does not parse, and how reading ends. */
  function Frames(stream: Text, end: PipeEnd, limit: nat, parses: Text -> bool): (seq<Text>, Outcome)
    decreases |stream|
  {
    var first := TakeFrame(stream, end, limit);
    if first.Err? || first.value.None? then ([], first)
    else if !parses(first.value.value) then ([], Err(Unparsable))
    else
      var (rest, last) := Frames(AfterFrame(stream), end, limit, parses);
      ([first.value.value] + rest, last)
  }

  lemma FramesStep(read: seq<Text>, stream: Text, end: PipeEnd, limit: nat, parses: Text -> bool)
    requires TakeFrame(stream, end, limit).Ok? && TakeFrame(stream, end, limit).value.Some?
    requires parses(TakeFrame(stream, end, limit).value.value)
    ensures var later := Frames(AfterFrame(stream), end, limit, parses);
            && read + Frames(stream, end, limit, parses).0 == read + [TakeFrame(stream, end, limit).value.value] + later.0
            && Frames(stream, end, limit, parses).1 == later.1
  {
    var m := TakeFrame(stream, end, limit).value.value;
    var later := Frames(AfterFrame(stream), end, limit, parses);
    assert Frames(stream, end, limit, parses) == ([m] + later.0, later.1);
    OneFrameMore(read, m, later.0);
  }

  lemma OneFrameMore(read: seq<Text>, m: Text, later: seq<Text>)
    ensures read + ([m] + later) == read + [m] + later
  {
  }

  /** Chunking does not matter: readers whose chunks make up the same bytes see the same frames and the same end. */
  method SameStreamSameFrames(a: PipeReader, b: PipeReader, limit: nat, parses: Text -> bool)
    returns (framesA: seq<Text>, lastA: Outcome, framesB: seq<Text>, lastB: Outcome)
    requires a != b && a.Valid() && b.Valid() && a.Stream() == b.Stream() && a.end == b.end
    modifies a, b
    ensures framesA == framesB && lastA == lastB
  {
    framesA, lastA := a.ReadAll(limit, parses);
    framesB, lastB := b.ReadAll(limit, parses);
  }

  // What the writer puts on the pipe.

  /** Each message followed by one NUL. */
  function Written(messages: seq<Text>): Text {
    if messages == [] then [] else messages[0] + [0] + Written(messages[1..])
  }

  /** NUL-free messages within the limit that parse are read back as the same sequence, with a clean end and nothing left over. */
  lemma {:induction false} WrittenIsReadBack(messages: seq<Text>, limit: nat, parses: Text -> bool)
    requires forall m :: m in messages ==> !HasNul(m) && |m| <= limit && parses(m)
    ensures Frames(Written(messages), Closed, limit, parses) == (messages, Ok(None))
  {
    if messages != [] {
      var stream := Written(messages);
      var m := messages[0];
      assert m in messages;
      FirstNulIs(stream, |m|);
      assert stream[..|m|] == m;
      assert AfterFrame(stream) == Written(messages[1..]);
      WrittenIsReadBack(messages[1..], limit, parses);
      assert messages == [m] + messages[1..];
    }
  }

  lemma FrameIsWritten(stream: Text, end: PipeEnd, limit: nat)
    requires TakeFrame(stream, end, limit).Ok? && TakeFrame(stream, end, limit).value.Some?
    ensures var m := TakeFrame(stream, end, limit).value.value;
            FirstNul(stream) < |stream| && !HasNul(m) && |m| <= limit && stream == m + [0] + AfterFrame(stream)
  {
    var p := FirstNul(stream);
    assert stream == stream[..p] + [0] + stream[p + 1..];
  }

  lemma WrittenFirst(m: Text, later: seq<Text>)
    ensures Written([m] + later) == m + [0] + Written(later)
  {
    assert ([m] + later)[1..] == later;
  }

  /** Conversely, a stream that is read to a clean end is exactly its frames, each followed by one NUL. */
  lemma {:induction false} CleanStreamIsItsFrames(stream: Text, end: PipeEnd, limit: nat, parses: Text -> bool)
    requires Frames(stream, end, limit, parses).1 == Ok(None)
    ensures stream == Written(Frames(stream, end, limit, parses).0) && end.Closed?
    ensures forall m :: m in Frames(stream, end, limit, parses).0 ==> !HasNul(m) && |m| <= limit && parses(m)
    decreases |stream|
  {
    var first := TakeFrame(stream, end, limit);
    if first.Ok? && first.value.Some? {
      FrameIsWritten(stream, end, limit);
      CleanStreamIsItsFrames(AfterFrame(stream), end, limit, parses);
      WrittenFirst(first.value.value, Frames(AfterFrame(stream), end, limit, parses).0);
    }
  }
}
