/** The length-prefixed stream framer: an incremental parser that agrees with one-shot parsing under every chunking. */
module Framing {
  import opened Prelude
  import opened BigEndian

  const FRAME_HEADER_BYTES := 4
  const MAX_PAYLOAD := 0xFFFF_FFFF

  datatype FramingError = PayloadTooLarge

  // ---- One frame

  function Encode(payload: Bytes): Result<Bytes, FramingError> {
    if |payload| > MAX_PAYLOAD then Err(PayloadTooLarge) else Ok(U32Bytes(|payload|) + payload)
  }

  /** The encoder, extending a vector piece by piece. */
  method EncodeFrame(payload: Bytes) returns (r: Result<Bytes, FramingError>)
    ensures r == Encode(payload)
    ensures if |payload| <= 4294967295 then r.Ok? && IsFrameOf(r.value, payload) else r == Err(PayloadTooLarge)
  {
    EncodedIsFrame(payload);
    if |payload| > MAX_PAYLOAD {
      return Err(PayloadTooLarge);
    }
    var frame := [];
    frame := frame + U32Bytes(|payload|);
    frame := frame + payload;
    assert frame == U32Bytes(|payload|) + payload;
    r := Ok(frame);
  }

  /** A frame: the payload behind its length in four bytes, the first weighing most. */
  predicate IsFrameOf(f: Bytes, payload: Bytes) {
    && |f| == 4 + |payload|
    && f[0] as int * 16777216 + f[1] as int * 65536 + f[2] as int * 256 + f[3] as int == |payload|
    && f[4..] == payload
  }

  lemma LengthBytes(n: u32)
    ensures var b := U32Bytes(n);
      b[0] as int * 16777216 + b[1] as int * 65536 + b[2] as int * 256 + b[3] as int == n
  {
    var b := U32Bytes(n);
    assert b[0] == n / 0x1_0000 / 0x100 && b[1] == n / 0x1_0000 % 0x100;
    assert b[2] == n % 0x1_0000 / 0x100 && b[3] == n % 0x1_0000 % 0x100;
  }

  /** Payloads whose length fits 32 bits are encoded as frames, longer ones not at all. */
  lemma EncodedIsFrame(payload: Bytes)
    ensures if |payload| <= 4294967295 then Encode(payload).Ok? && IsFrameOf(Encode(payload).value, payload)
            else Encode(payload) == Err(PayloadTooLarge)
  {
    if |payload| <= 4294967295 {
      LengthBytes(|payload|);
      hide U32Bytes;
    }
  }

  // ---- The specification: parse a whole stream at once

  /** The length of the first frame, header included, once its header has arrived. */
  function TotalLength(stream: Bytes): nat
    requires |stream| >= FRAME_HEADER_BYTES
  {
    FRAME_HEADER_BYTES + U32Of(stream[..FRAME_HEADER_BYTES])
  }

  predicate HoldsFrame(stream: Bytes) {
    |stream| >= FRAME_HEADER_BYTES && |stream| >= TotalLength(stream)
  }

  /** The payloads of the complete frames a stream starts with, and what is left. */
  function Parse(stream: Bytes): (seq<Bytes>, Bytes)
    decreases |stream|
  {
    if HoldsFrame(stream) then
      var (payloads, rest) := Parse(stream[TotalLength(stream)..]);
      ([stream[FRAME_HEADER_BYTES..TotalLength(stream)]] + payloads, rest)
    else ([], stream)
  }

  // ---- The incremental parser

  class LengthPrefixedMessageFramer {
    var buffer: Bytes

    constructor ()
      ensures buffer == []
    {
      buffer := [];
    }

    method Push(chunk: Bytes) returns (frames: seq<Bytes>)
      modifies this
      ensures (frames, buffer) == Parse(old(buffer) + chunk)
    {
      buffer := buffer + chunk;
      frames := [];
      ghost var stream := buffer;
      assert frames + Parse(buffer).0 == Parse(buffer).0;
      while true
        invariant Parse(stream) == (frames + Parse(buffer).0, Parse(buffer).1)
        decreases |buffer|
      {
        if |buffer| < FRAME_HEADER_BYTES {
          break;
        }
        var payloadLength := U32Of(buffer[..FRAME_HEADER_BYTES]);
        var totalLength := FRAME_HEADER_BYTES + payloadLength;
        if |buffer| < totalLength {
          break;
        }
        var first := buffer[FRAME_HEADER_BYTES..totalLength];
        assert frames + ([first] + Parse(buffer[totalLength..]).0)
          == (frames + [first]) + Parse(buffer[totalLength..]).0;
        frames := frames + [first];
        buffer := buffer[totalLength..];
      }
      assert frames + [] == frames;
    }
  }

  /** What successive pushes return, and the buffer they leave. */
  function PushAll(buffer: Bytes, chunks: seq<Bytes>): (seq<Bytes>, Bytes) {
    if chunks == [] then ([], buffer)
    else
      var (before, middle) := PushAll(buffer, chunks[..|chunks| - 1]);
      var (frames, after) := Parse(middle + chunks[|chunks| - 1]);
      (before + frames, after)
  }

  // ---- What parsing does

  /** The remainder never holds a complete frame. */
  lemma {:induction false} RemainderIsIncomplete(stream: Bytes)
    ensures !HoldsFrame(Parse(stream).1)
    decreases |stream|
  {
    if HoldsFrame(stream) { RemainderIsIncomplete(stream[TotalLength(stream)..]); }
  }

  lemma MoreBytesKeepFirstFrame(a: Bytes, b: Bytes)
    requires HoldsFrame(a)
    ensures HoldsFrame(a + b) && TotalLength(a + b) == TotalLength(a)
    ensures (a + b)[FRAME_HEADER_BYTES..TotalLength(a)] == a[FRAME_HEADER_BYTES..TotalLength(a)]
    ensures (a + b)[TotalLength(a)..] == a[TotalLength(a)..] + b
  {
    assert (a + b)[..FRAME_HEADER_BYTES] == a[..FRAME_HEADER_BYTES];
  }

  /** Parsing in two goes: first what there is, then the remainder with what follows. */
  lemma {:induction false} ParseInTwoGoes(a: Bytes, b: Bytes)
    ensures var (first, rest) := Parse(a);
      Parse(a + b) == (first + Parse(rest + b).0, Parse(rest + b).1)
    decreases |a|
  {
    if HoldsFrame(a) {
      MoreBytesKeepFirstFrame(a, b);
      var after := a[TotalLength(a)..];
      ParseInTwoGoes(after, b);
      var (first, rest) := Parse(after);
      var payload := a[FRAME_HEADER_BYTES..TotalLength(a)];
      assert [payload] + (first + Parse(rest + b).0) == ([payload] + first) + Parse(rest + b).0;
    } else {
      assert [] + Parse(a + b).0 == Parse(a + b).0;
    }
  }

  /** Chunking does not matter: pushing a stream in any pieces returns the frames a one-shot parse of the whole
      returns, and leaves its remainder in the buffer. */
  lemma {:induction false} ChunkingDoesNotMatter(chunks: seq<Bytes>)
    ensures PushAll([], chunks) == Parse(Concat(chunks))
  {
    if chunks != [] {
      var before := chunks[..|chunks| - 1];
      ChunkingDoesNotMatter(before);
      ParseInTwoGoes(Concat(before), chunks[|chunks| - 1]);
    }
  }

  /** Two ways of cutting up one stream return the same frames. */
  lemma EverySplitIsTheSame(chunks: seq<Bytes>, others: seq<Bytes>)
    requires Concat(chunks) == Concat(others)
    ensures PushAll([], chunks) == PushAll([], others)
  {
    ChunkingDoesNotMatter(chunks);
    ChunkingDoesNotMatter(others);
  }

  // ---- Encoding and parsing undo each other

  function EncodeAll(payloads: seq<Bytes>): Bytes
    requires forall k :: 0 <= k < |payloads| ==> |payloads[k]| <= MAX_PAYLOAD
  {
    if payloads == [] then [] else Encode(payloads[0]).value + EncodeAll(payloads[1..])
  }

  lemma OneFrame(payload: Bytes, rest: Bytes)
    requires |payload| <= MAX_PAYLOAD
    ensures var stream := Encode(payload).value + rest;
      && HoldsFrame(stream) && TotalLength(stream) == FRAME_HEADER_BYTES + |payload|
      && stream[FRAME_HEADER_BYTES..TotalLength(stream)] == payload && stream[TotalLength(stream)..] == rest
  {
    U32RoundTrips(|payload|, []);
    hide U32Bytes, U32Of;
    assert (U32Bytes(|payload|) + payload + rest)[..FRAME_HEADER_BYTES] == U32Bytes(|payload|);
  }

  /** Concatenated frames parse to exactly their payloads, whatever incomplete bytes follow. */
  lemma {:induction false} ParseUndoesEncode(payloads: seq<Bytes>, tail: Bytes)
    requires forall k :: 0 <= k < |payloads| ==> |payloads[k]| <= MAX_PAYLOAD
    requires !HoldsFrame(tail)
    ensures Parse(EncodeAll(payloads) + tail) == (payloads, tail)
  {
    if payloads == [] {
      assert [] + tail == tail;
    } else {
      var rest := EncodeAll(payloads[1..]) + tail;
      assert EncodeAll(payloads) + tail == Encode(payloads[0]).value + rest;
      hide HoldsFrame, TotalLength, Encode;
      ParseUndoesEncode(payloads[1..], tail);
      OneFrame(payloads[0], rest);
      assert [payloads[0]] + payloads[1..] == payloads;
    }
  }

  /** Pushing encoded frames in any pieces yields exactly the payloads and an empty buffer. */
  lemma EncodedFramesArrive(payloads: seq<Bytes>, chunks: seq<Bytes>)
    requires forall k :: 0 <= k < |payloads| ==> |payloads[k]| <= MAX_PAYLOAD
    requires Concat(chunks) == EncodeAll(payloads)
    ensures PushAll([], chunks) == (payloads, [])
  {
    ChunkingDoesNotMatter(chunks);
    ParseUndoesEncode(payloads, []);
    assert EncodeAll(payloads) + [] == EncodeAll(payloads);
  }

  lemma FirstFrameIsItsEncoding(stream: Bytes)
    requires HoldsFrame(stream)
    ensures var total := TotalLength(stream);
      var payload := stream[FRAME_HEADER_BYTES..total];
      |payload| <= MAX_PAYLOAD && stream == Encode(payload).value + stream[total..]
  {
    U32RoundTrips(0, stream[..FRAME_HEADER_BYTES]);
    hide U32Bytes, U32Of;
  }

  /** No byte is lost or made up: a stream is the encoding of the frames parsed from it, followed by the remainder. */
  lemma {:induction false} EncodeUndoesParse(stream: Bytes)
    ensures var (payloads, rest) := Parse(stream);
      (forall k :: 0 <= k < |payloads| ==> |payloads[k]| <= MAX_PAYLOAD) && EncodeAll(payloads) + rest == stream
    decreases |stream|
  {
    if HoldsFrame(stream) {
      var total := TotalLength(stream);
      EncodeUndoesParse(stream[total..]);
      FirstFrameIsItsEncoding(stream);
      var payload := stream[FRAME_HEADER_BYTES..total];
      var (payloads, rest) := Parse(stream[total..]);
      assert ([payload] + payloads)[1..] == payloads;
      assert Encode(payload).value + (EncodeAll(payloads) + rest) == Encode(payload).value + EncodeAll(payloads) + rest;
    }
  }
}
