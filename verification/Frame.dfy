// The wire frame and its incremental decoder (src/transport/frame.cpp).
module Framing {
  import opened Base
  import opened LittleEndian

  const MAGIC: u32 := 0x3146_4F43
  const PROTOCOL_VERSION: u32 := 1
  const HEADER_BYTES: nat := 24
  const TRAILER_BYTES: nat := 8

  datatype Frame = Frame(kind: u32, flags: u32, payload: Bytes, crc: u64)

  // The configured frame bound, and the checksum both ends compute over a payload.
  datatype Wire = Wire(maxFrameBytes: u64, checksum: Bytes -> u64)

  // What a receiver sees of a frame: the sender's checksum field is never transmitted.
  function Sealed(f: Frame, w: Wire): Frame { f.(crc := w.checksum(f.payload)) }

  // ---- Encoding ----

  function Header(f: Frame): (r: Bytes)
    ensures |r| == HEADER_BYTES
  {
    Put(MAGIC, WORD) + Put(PROTOCOL_VERSION, WORD) + Put(f.kind, WORD) + Put(f.flags, WORD)
    + Put(|f.payload| + TRAILER_BYTES, LONG)
  }

  function Encoding(f: Frame, w: Wire): (r: Bytes)
    ensures |r| == HEADER_BYTES + |f.payload| + TRAILER_BYTES
  {
    Header(f) + f.payload + Put(w.checksum(f.payload), LONG)
  }

  predicate Encodable(f: Frame, w: Wire) {
    |f.payload| + TRAILER_BYTES <= Min(w.maxFrameBytes, U64_MAX - HEADER_BYTES)
  }

  method EncodeFrame(f: Frame, w: Wire) returns (r: Result<Bytes>)
    requires |f.payload| <= U64_MAX
    ensures r.Ok? <==> |f.payload| + TRAILER_BYTES <= w.maxFrameBytes
    ensures r.Ok? ==> r.value == Encoding(f, w)
    ensures r.Err? ==> r.error == if |f.payload| + TRAILER_BYTES > U64_MAX then ArithmeticOverflow else LimitExceeded
  {
    if TRAILER_BYTES > U64_MAX - |f.payload| {
      return Err(ArithmeticOverflow);
    }
    var bodyLength := |f.payload| + TRAILER_BYTES;
    if bodyLength > w.maxFrameBytes {
      return Err(LimitExceeded);
    }
    var out := Append([], MAGIC, WORD);
    out := Append(out, PROTOCOL_VERSION, WORD);
    out := Append(out, f.kind, WORD);
    out := Append(out, f.flags, WORD);
    out := Append(out, bodyLength, LONG);
    var crc := w.checksum(f.payload);
    assert out == Header(f);
    for i := 0 to |f.payload|
      invariant out == Header(f) + f.payload[..i]
    {
      out := out + [f.payload[i]];
    }
    out := Append(out, crc, LONG);
    return Ok(out);
  }

  function EncodeAll(fs: seq<Frame>, w: Wire): Bytes {
    if fs == [] then [] else Encoding(fs[0], w) + EncodeAll(fs[1..], w)
  }

  // ---- Decoding one frame from the front of a buffer ----

  datatype Parsed = NeedMore | Bad(error: ErrorCode) | Complete(frame: Frame, total: nat)

  function Field(buffer: Bytes, at: nat, width: nat): nat
    requires at + width <= |buffer|
  {
    Get(buffer[at..at + width])
  }

  function Peek(buffer: Bytes, w: Wire): (r: Parsed)
    ensures r.Complete? ==> 0 < r.total <= |buffer|
  {
    if |buffer| < HEADER_BYTES then NeedMore
    else if Field(buffer, 0, 4) != MAGIC then Bad(ProtocolError)
    else if Field(buffer, 4, 4) != PROTOCOL_VERSION then Bad(ProtocolError)
    else
      var body := Field(buffer, 16, 8);
      if body < TRAILER_BYTES then Bad(ProtocolError)
      else if body > w.maxFrameBytes then Bad(LimitExceeded)
      else if body > U64_MAX - HEADER_BYTES then Bad(ArithmeticOverflow)
      else if |buffer| < HEADER_BYTES + body then NeedMore
      else
        var end := HEADER_BYTES + body - TRAILER_BYTES;
        var payload := buffer[HEADER_BYTES..end];
        if w.checksum(payload) != Field(buffer, end, 8) then Bad(ProtocolError)
        else
          PutGet(buffer[8..12]);
          PutGet(buffer[12..16]);
          Widths();
          Complete(Frame(Field(buffer, 8, 4), Field(buffer, 12, 4), payload, w.checksum(payload)), HEADER_BYTES + body)
  }

  // The frame bound and a header do not fit the machine's word together.
  predicate Wraps(w: Wire) { w.maxFrameBytes > U64_MAX - HEADER_BYTES }

  // The bound on what the decoder holds back. A sum that wraps round leaves less than a header.
  function BufferBound(w: Wire): nat {
    if Wraps(w) then w.maxFrameBytes + HEADER_BYTES - U64_MAX - 1 else w.maxFrameBytes + HEADER_BYTES
  }

  // More bytes behind a whole frame change nothing about it.
  lemma PeekBehind(buffer: Bytes, data: Bytes, w: Wire)
    requires Peek(buffer, w).Complete?
    ensures Peek(buffer + data, w) == Peek(buffer, w)
  {
    var all, total := buffer + data, Peek(buffer, w).total;
    assert all[0..4] == buffer[0..4] && all[4..8] == buffer[4..8] && all[8..12] == buffer[8..12] && all[12..16] == buffer[12..16];
    assert all[16..24] == buffer[16..24];
    assert all[HEADER_BYTES..total - TRAILER_BYTES] == buffer[HEADER_BYTES..total - TRAILER_BYTES];
    assert all[total - TRAILER_BYTES..total] == buffer[total - TRAILER_BYTES..total];
  }

  // ---- The decoder ----

  class FrameDecoder {
    const wire: Wire
    var buffer: Bytes
    var cursor: nat
    var current: Frame
    var haveCurrent: bool
    var framesDecoded: nat

    ghost predicate Valid()
      reads this
    {
      && |buffer| <= BufferBound(wire)
      && (haveCurrent ==> Peek(buffer, wire) == Complete(current, cursor))
    }

    constructor (w: Wire)
      ensures Valid() && buffer == [] && !haveCurrent && framesDecoded == 0 && wire == w
    {
      wire := w;
      buffer := [];
      cursor := 0;
      current := Frame(10, 0, [], 0);
      haveCurrent := false;
      framesDecoded := 0;
    }

    // Appends a chunk, or refuses it and changes nothing.
    method Feed(data: Bytes) returns (r: Result<()>)
      requires Valid()
      modifies this`buffer
      ensures Valid()
      ensures r.Ok? <==> |old(buffer)| + |data| <= BufferBound(wire)
      ensures buffer == if r.Ok? then old(buffer) + data else old(buffer)
    {
      if |data| > U64_MAX - |buffer| {
        return Err(ArithmeticOverflow);
      }
      var nextSize := |buffer| + |data|;
      if nextSize > BufferBound(wire) {
        return Err(LimitExceeded);
      }
      if haveCurrent {
        PeekBehind(buffer, data, wire);
      }
      buffer := buffer + data;
      return Ok(());
    }

    // The frame at the front of the buffer, if it is complete; asking again changes nothing.
    method Next() returns (r: Result<Option<Frame>>)
      requires Valid()
      modifies this`cursor, this`current, this`haveCurrent, this`framesDecoded
      ensures Valid()
      ensures match Peek(buffer, wire)
              case NeedMore => r == Ok(None) && !haveCurrent
              case Bad(e) => r == Err(e) && !haveCurrent
              case Complete(f, total) => r == Ok(Some(f)) && haveCurrent && current == f && cursor == total
      ensures framesDecoded == old(framesDecoded) + if haveCurrent && !old(haveCurrent) then 1 else 0
    {
      if haveCurrent {
        return Ok(Some(current));
      }
      if |buffer| < HEADER_BYTES {
        return Ok(None);
      }
      if Field(buffer, 0, 4) != MAGIC {
        return Err(ProtocolError);
      }
      if Field(buffer, 4, 4) != PROTOCOL_VERSION {
        return Err(ProtocolError);
      }
      var bodyLength := Field(buffer, 16, 8);
      if bodyLength < TRAILER_BYTES {
        return Err(ProtocolError);
      }
      if bodyLength > wire.maxFrameBytes {
        return Err(LimitExceeded);
      }
      if bodyLength > U64_MAX - HEADER_BYTES {
        return Err(ArithmeticOverflow);
      }
      var total := HEADER_BYTES + bodyLength;
      if |buffer| < total {
        return Ok(None);
      }
      PutGet(buffer[8..12]);
      PutGet(buffer[12..16]);
      PutGet(buffer[total - 8..total]);
      Widths();
      var payloadEnd := total - TRAILER_BYTES;
      current := Frame(Field(buffer, 8, 4), Field(buffer, 12, 4), buffer[HEADER_BYTES..payloadEnd],
                       Field(buffer, payloadEnd, 8));
      if wire.checksum(current.payload) != current.crc {
        return Err(ProtocolError);
      }
      cursor := total;
      haveCurrent := true;
      framesDecoded := framesDecoded + 1;
      return Ok(Some(current));
    }

    method Consume()
      requires Valid()
      modifies this
      ensures Valid() && !haveCurrent && framesDecoded == old(framesDecoded)
      ensures buffer == if old(haveCurrent) then old(buffer[cursor..]) else old(buffer)
    {
      if !haveCurrent {
        return;
      }
      buffer := buffer[cursor..];
      cursor := 0;
      haveCurrent := false;
      current := Frame(10, 0, [], 0);
    }

    // The receiver's loop: take frames until more bytes are needed or the stream is refused.
    method TakeAll() returns (frames: seq<Frame>, error: Option<ErrorCode>)
      requires Valid() && !haveCurrent
      modifies this
      ensures Valid() && !haveCurrent
      ensures Drained(frames, buffer, error) == Drain(old(buffer), wire)
      ensures framesDecoded == old(framesDecoded) + |frames|
    {
      frames := [];
      assert After([], Drain(buffer, wire)) == Drain(buffer, wire);
      while true
        invariant Valid() && !haveCurrent
        invariant framesDecoded == old(framesDecoded) + |frames|
        invariant Drain(old(buffer), wire) == After(frames, Drain(buffer, wire))
        decreases |buffer|
      {
        var next := Next();
        if next.Err? {
          return frames, Some(next.error);
        }
        if next.value.None? {
          return frames, None;
        }
        AfterOne(frames, next.value.value, Drain(buffer[cursor..], wire));
        frames := frames + [next.value.value];
        Consume();
      }
    }
  }

  datatype Drained = Drained(frames: seq<Frame>, rest: Bytes, error: Option<ErrorCode>)

  function Drain(buffer: Bytes, w: Wire): Drained
    decreases |buffer|
  {
    match Peek(buffer, w)
    case NeedMore => Drained([], buffer, None)
    case Bad(e) => Drained([], buffer, Some(e))
    case Complete(f, total) =>
      var d := Drain(buffer[total..], w);
      After([f], d)
  }

  function After(frames: seq<Frame>, d: Drained): Drained {
    d.(frames := frames + d.frames)
  }

  lemma AfterOne(frames: seq<Frame>, f: Frame, d: Drained)
    ensures After(frames, After([f], d)) == After(frames + [f], d)
  {
    assert frames + ([f] + d.frames) == (frames + [f]) + d.frames;
  }

  // ---- One frame: decoding inverts encoding, and nothing else decodes ----

  lemma FiveParts(a: Bytes, b: Bytes, c: Bytes, d: Bytes, e: Bytes, buffer: Bytes)
    requires |a| == |b| == |c| == |d| == 4 && |e| == 8
    requires a + b + c + d + e <= buffer
    ensures buffer[0..4] == a && buffer[4..8] == b && buffer[8..12] == c && buffer[12..16] == d && buffer[16..24] == e
  {
    var h := a + b + c + d + e;
    assert forall i :: 0 <= i < 24 ==> buffer[i] == h[i];
  }

  lemma HeaderSlices(f: Frame, buffer: Bytes)
    requires Header(f) <= buffer
    ensures buffer[0..4] == Put(MAGIC, WORD) && buffer[4..8] == Put(PROTOCOL_VERSION, WORD)
    ensures buffer[8..12] == Put(f.kind, WORD) && buffer[12..16] == Put(f.flags, WORD)
    ensures buffer[16..24] == Put(|f.payload| + TRAILER_BYTES, LONG)
  {
    FiveParts(Put(MAGIC, WORD), Put(PROTOCOL_VERSION, WORD), Put(f.kind, WORD), Put(f.flags, WORD),
              Put(|f.payload| + TRAILER_BYTES, LONG), buffer);
  }

  lemma HeaderFields(f: Frame, w: Wire, buffer: Bytes)
    requires Encodable(f, w)
    requires Header(f) <= buffer
    ensures Field(buffer, 0, 4) == MAGIC && Field(buffer, 4, 4) == PROTOCOL_VERSION
    ensures Field(buffer, 8, 4) == f.kind && Field(buffer, 12, 4) == f.flags
    ensures Field(buffer, 16, 8) == |f.payload| + TRAILER_BYTES
  {
    HeaderSlices(f, buffer);
    Widths();
    GetPut(MAGIC, WORD);
    GetPut(PROTOCOL_VERSION, WORD);
    GetPut(f.kind, WORD);
    GetPut(f.flags, WORD);
    GetPut(|f.payload| + TRAILER_BYTES, LONG);
  }

  // What Peek makes of a buffer whose header is that of a frame, given the payload and the trailer behind it.
  lemma PeekBody(buffer: Bytes, f: Frame, payload: Bytes, crc: nat, w: Wire)
    requires Encodable(f, w) && |payload| == |f.payload| && HEADER_BYTES + |payload| + TRAILER_BYTES <= |buffer|
    requires Field(buffer, 0, 4) == MAGIC && Field(buffer, 4, 4) == PROTOCOL_VERSION
    requires Field(buffer, 8, 4) == f.kind && Field(buffer, 12, 4) == f.flags
    requires Field(buffer, 16, 8) == |payload| + TRAILER_BYTES
    requires buffer[HEADER_BYTES..HEADER_BYTES + |payload|] == payload && Field(buffer, HEADER_BYTES + |payload|, 8) == crc
    ensures Peek(buffer, w)
      == if w.checksum(payload) == crc
         then Complete(Frame(f.kind, f.flags, payload, w.checksum(payload)), HEADER_BYTES + |payload| + TRAILER_BYTES)
         else Bad(ProtocolError)
  {
  }

  lemma BodyAt(f: Frame, payload: Bytes, trailer: Bytes, after: Bytes)
    requires |trailer| == TRAILER_BYTES
    ensures var b, end := Header(f) + payload + trailer + after, HEADER_BYTES + |payload|;
      b[HEADER_BYTES..end] == payload && b[end..end + 8] == trailer && Header(f) <= b
  {
  }

  lemma PeekEncoding(f: Frame, w: Wire, after: Bytes)
    requires Encodable(f, w)
    ensures Peek(Encoding(f, w) + after, w) == Complete(Sealed(f, w), |Encoding(f, w)|)
  {
    var b := Encoding(f, w) + after;
    BodyAt(f, f.payload, Put(w.checksum(f.payload), LONG), after);
    HeaderFields(f, w, b);
    Widths();
    GetPut(w.checksum(f.payload), LONG);
    PeekBody(b, f, f.payload, w.checksum(f.payload), w);
  }

  lemma PeekPartial(f: Frame, w: Wire, buffer: Bytes)
    requires Encodable(f, w)
    requires buffer < Encoding(f, w)
    ensures Peek(buffer, w) == NeedMore
  {
    if |buffer| >= HEADER_BYTES {
      assert Header(f) == Encoding(f, w)[..HEADER_BYTES] == buffer[..HEADER_BYTES];
      HeaderFields(f, w, buffer);
    }
  }

  lemma HeaderIs(f: Frame, buffer: Bytes)
    requires |buffer| == HEADER_BYTES
    requires buffer[0..4] == Put(MAGIC, WORD) && buffer[4..8] == Put(PROTOCOL_VERSION, WORD)
    requires buffer[8..12] == Put(f.kind, WORD) && buffer[12..16] == Put(f.flags, WORD)
    requires buffer[16..24] == Put(|f.payload| + TRAILER_BYTES, LONG)
    ensures buffer == Header(f)
  {
    assert buffer == buffer[0..4] + buffer[4..8] + buffer[8..12] + buffer[12..16] + buffer[16..24];
  }

  lemma FieldIsPut(buffer: Bytes, at: nat, width: nat)
    requires at + width <= |buffer|
    ensures buffer[at..at + width] == Put(Field(buffer, at, width), width)
  {
    PutGet(buffer[at..at + width]);
  }

  lemma SameSlice(buffer: Bytes, i: nat, j: nat)
    requires i <= j <= HEADER_BYTES <= |buffer|
    ensures buffer[..HEADER_BYTES][i..j] == buffer[i..j]
  {
  }

  lemma HeaderFromFields(f: Frame, buffer: Bytes)
    requires |buffer| >= HEADER_BYTES
    requires Field(buffer, 0, 4) == MAGIC && Field(buffer, 4, 4) == PROTOCOL_VERSION
    requires Field(buffer, 8, 4) == f.kind && Field(buffer, 12, 4) == f.flags
    requires Field(buffer, 16, 8) == |f.payload| + TRAILER_BYTES
    ensures Header(f) == buffer[..HEADER_BYTES]
  {
    var h := buffer[..HEADER_BYTES];
    FieldIsPut(buffer, 0, WORD);
    FieldIsPut(buffer, 4, WORD);
    FieldIsPut(buffer, 8, WORD);
    FieldIsPut(buffer, 12, WORD);
    FieldIsPut(buffer, 16, LONG);
    SameSlice(buffer, 0, 4);
    SameSlice(buffer, 4, 8);
    SameSlice(buffer, 8, 12);
    SameSlice(buffer, 12, 16);
    SameSlice(buffer, 16, 24);
    HeaderIs(f, h);
  }

  // Why a header cannot be that of a frame, from its bytes.
  ghost predicate Garbled(buffer: Bytes) {
    && |buffer| >= 24
    && (buffer[..4] != [0x43, 0x4F, 0x46, 0x31] || buffer[4..8] != [1, 0, 0, 0] || Get(buffer[16..24]) < 8)
  }

  ghost predicate Oversized(buffer: Bytes, w: Wire) {
    |buffer| >= 24 && !Garbled(buffer) && (Get(buffer[16..24]) > w.maxFrameBytes || Get(buffer[16..24]) > U64_MAX - 24)
  }

  // The decoder waits exactly while the header is incomplete, or is a frame's and its body is. A header with
  // another magic or version, or a body length out of bounds, is an error as soon as it is there.
  lemma WaitsExactly(buffer: Bytes, w: Wire)
    ensures Peek(buffer, w) == NeedMore
      <==> |buffer| < 24 || (!Garbled(buffer) && !Oversized(buffer, w) && |buffer| < 24 + Get(buffer[16..24]))
    ensures Garbled(buffer) ==> Peek(buffer, w) == Bad(ProtocolError)
    ensures Oversized(buffer, w) ==>
      Peek(buffer, w) == Bad(if Get(buffer[16..24]) > w.maxFrameBytes then LimitExceeded else ArithmeticOverflow)
    ensures Peek(buffer, w).Bad? && !Garbled(buffer) && !Oversized(buffer, w) ==>
      && Peek(buffer, w) == Bad(ProtocolError) && |buffer| >= 24 + Get(buffer[16..24])
      && w.checksum(buffer[24..16 + Get(buffer[16..24])]) != Get(buffer[16 + Get(buffer[16..24])..24 + Get(buffer[16..24])])
  {
    if |buffer| >= 24 {
      FirstBytes(buffer[0..4]);
      FirstBytes(buffer[4..8]);
      assert buffer[0..4] == buffer[..4];
    }
  }

  lemma FirstBytes(word: Bytes)
    requires |word| == 4
    ensures Get(word) == MAGIC <==> word == [0x43, 0x4F, 0x46, 0x31]
    ensures Get(word) == PROTOCOL_VERSION <==> word == [1, 0, 0, 0]
  {
    FourBytes(word);
  }

  lemma FourBytes(word: Bytes)
    requires |word| == 4
    ensures Get(word) == word[0] as int + 0x100 * word[1] as int + 0x1_0000 * word[2] as int + 0x100_0000 * word[3] as int
  {
    var a, b, c := word[1..], word[2..], word[3..];
    assert a[1..] == b && b[1..] == c && c[1..] == [];
    assert Get(c) == word[3] as int;
    assert Get(b) == word[2] as int + 256 * Get(c);
    assert Get(a) == word[1] as int + 256 * Get(b);
  }

  // Whatever decodes is, byte for byte, the encoding of the frame it decodes to.
  lemma PeekOnlyEncodings(buffer: Bytes, w: Wire)
    requires Peek(buffer, w).Complete?
    ensures var p := Peek(buffer, w);
            && Encodable(p.frame, w) && p.frame == Sealed(p.frame, w)
            && Encoding(p.frame, w) == buffer[..p.total]
  {
    var p := Peek(buffer, w);
    HeaderFromFields(p.frame, buffer);
    var end := p.total - TRAILER_BYTES;
    FieldIsPut(buffer, end, LONG);
    ThreeParts(buffer, HEADER_BYTES, end, p.total);
  }

  lemma ThreeParts(buffer: Bytes, i: nat, j: nat, k: nat)
    requires i <= j <= k <= |buffer|
    ensures buffer[..k] == buffer[..i] + buffer[i..j] + buffer[j..k]
  {
  }

  // ---- Streams ----

  function SealedAll(fs: seq<Frame>, w: Wire): (r: seq<Frame>)
    ensures |r| == |fs|
    ensures forall i :: 0 <= i < |fs| ==> r[i] == Sealed(fs[i], w)
  {
    if fs == [] then [] else [Sealed(fs[0], w)] + SealedAll(fs[1..], w)
  }

  predicate AllEncodable(fs: seq<Frame>, w: Wire) {
    forall f :: f in fs ==> Encodable(f, w)
  }

  // What draining `buffer` must give when `buffer + rest` is the stream of fs and k frames are whole.
  ghost predicate DrainsTo(buffer: Bytes, rest: Bytes, fs: seq<Frame>, w: Wire, k: nat) {
    var d := Drain(buffer, w);
    && k <= |fs|
    && d.error == None && d.frames == SealedAll(fs[..k], w)
    && d.rest + rest == EncodeAll(fs[k..], w)
    && Peek(d.rest, w) == NeedMore
    && (if k == |fs| then d.rest == [] else d.rest < Encoding(fs[k], w))
  }

  lemma DrainNothing(buffer: Bytes, rest: Bytes, fs: seq<Frame>, w: Wire)
    requires fs != [] && Encodable(fs[0], w)
    requires buffer + rest == EncodeAll(fs, w)
    requires |buffer| < |Encoding(fs[0], w)|
    ensures DrainsTo(buffer, rest, fs, w, 0)
  {
    var e := Encoding(fs[0], w);
    assert buffer == (buffer + rest)[..|buffer|] == e[..|buffer|];
    PeekPartial(fs[0], w, buffer);
    assert fs[0..] == fs && fs[..0] == [];
  }

  lemma DrainSplits(f: Frame, buffer: Bytes, w: Wire)
    requires Encodable(f, w)
    ensures Drain(Encoding(f, w) + buffer, w) == After([Sealed(f, w)], Drain(buffer, w))
  {
    var e := Encoding(f, w);
    PeekEncoding(f, w, buffer);
    assert (e + buffer)[|e|..] == buffer;
  }

  lemma ShiftBy(f: Frame, fs: seq<Frame>, k: nat, w: Wire)
    requires k <= |fs|
    ensures ([f] + fs)[k + 1..] == fs[k..]
    ensures SealedAll(([f] + fs)[..k + 1], w) == [Sealed(f, w)] + SealedAll(fs[..k], w)
  {
    assert ([f] + fs)[..k + 1][1..] == fs[..k];
  }

  lemma DrainOne(f: Frame, buffer: Bytes, rest: Bytes, fs: seq<Frame>, w: Wire, k: nat)
    requires Encodable(f, w)
    requires DrainsTo(buffer, rest, fs, w, k)
    ensures DrainsTo(Encoding(f, w) + buffer, rest, [f] + fs, w, k + 1)
  {
    DrainSplits(f, buffer, w);
    ShiftBy(f, fs, k, w);
  }

  lemma CutPrefix(e: Bytes, buffer: Bytes, rest: Bytes, stream: Bytes)
    requires |e| <= |buffer| && buffer + rest == e + stream
    ensures buffer == e + buffer[|e|..] && buffer[|e|..] + rest == stream
  {
    assert buffer == (buffer + rest)[..|buffer|];
    assert e == (e + stream)[..|e|];
    assert stream == (e + stream)[|e|..];
  }

  lemma DrainMore(buffer: Bytes, tail: Bytes, rest: Bytes, fs: seq<Frame>, w: Wire, k: nat)
    requires fs != [] && Encodable(fs[0], w) && buffer == Encoding(fs[0], w) + tail && DrainsTo(tail, rest, fs[1..], w, k)
    ensures DrainsTo(buffer, rest, fs, w, k + 1)
  {
    DrainOne(fs[0], tail, rest, fs[1..], w, k);
    assert [fs[0]] + fs[1..] == fs;
  }

  // Draining any part of a stream yields exactly the frames it completes and keeps the rest, which
  // is less than one whole frame.
  lemma {:induction false} DrainPrefix(buffer: Bytes, rest: Bytes, fs: seq<Frame>, w: Wire) returns (k: nat)
    requires AllEncodable(fs, w)
    requires buffer + rest == EncodeAll(fs, w)
    ensures DrainsTo(buffer, rest, fs, w, k)
    decreases |fs|
  {
    if fs == [] {
      return 0;
    }
    var e := Encoding(fs[0], w);
    if |buffer| < |e| {
      DrainNothing(buffer, rest, fs, w);
      return 0;
    }
    CutPrefix(e, buffer, rest, EncodeAll(fs[1..], w));
    k := DrainPrefix(buffer[|e|..], rest, fs[1..], w);
    DrainMore(buffer, buffer[|e|..], rest, fs, w, k);
    k := k + 1;
  }

  datatype Session = Refused(frames: seq<Frame>) | Broken(frames: seq<Frame>, error: ErrorCode) | Open(frames: seq<Frame>, buffer: Bytes)

  predicate Accepts(buffer: Bytes, chunk: Bytes, w: Wire) {
    |buffer| + |chunk| <= BufferBound(w)
  }

  // Feeding chunks one after another, draining after each.
  function Receive(buffer: Bytes, chunks: seq<Bytes>, w: Wire): Session
    decreases |chunks|
  {
    if chunks == [] then Open([], buffer)
    else if !Accepts(buffer, chunks[0], w) then Refused([])
    else
      var d := Drain(buffer + chunks[0], w);
      match d.error
      case Some(e) => Broken(d.frames, e)
      case None =>
        var s := Receive(d.rest, chunks[1..], w);
        s.(frames := d.frames + s.frames)
  }

  // The decoder holds a drained buffer and the rest of the stream of fs is still to come.
  ghost predicate Waiting(buffer: Bytes, rest: Bytes, fs: seq<Frame>, w: Wire) {
    && AllEncodable(fs, w)
    && buffer + rest == EncodeAll(fs, w)
    && Drain(buffer, w) == Drained([], buffer, None)
  }

  lemma NothingToCome(buffer: Bytes, fs: seq<Frame>, w: Wire)
    requires Waiting(buffer, [], fs, w)
    ensures buffer == [] && fs == []
  {
    var k := DrainPrefix(buffer, [], fs, w);
    assert |SealedAll(fs[..k], w)| == k;
    assert k == |fs|;
  }

  lemma WaitingStep(buffer: Bytes, chunk: Bytes, rest: Bytes, fs: seq<Frame>, w: Wire) returns (k: nat)
    requires Waiting(buffer, chunk + rest, fs, w)
    ensures k <= |fs|
    ensures var d := Drain(buffer + chunk, w);
            d.error == None && d.frames == SealedAll(fs[..k], w) && Waiting(d.rest, rest, fs[k..], w)
    ensures DrainsTo(buffer + chunk, rest, fs, w, k) && (buffer + chunk) + rest == EncodeAll(fs, w)
  {
    assert (buffer + chunk) + rest == buffer + (chunk + rest);
    k := DrainPrefix(buffer + chunk, rest, fs, w);
  }

  lemma {:induction false} SealedSplit(fs: seq<Frame>, k: nat, w: Wire)
    requires k <= |fs|
    ensures SealedAll(fs, w) == SealedAll(fs[..k], w) + SealedAll(fs[k..], w)
  {
  }

  lemma {:induction false} ReceiveFrom(buffer: Bytes, chunks: seq<Bytes>, fs: seq<Frame>, w: Wire)
    requires Waiting(buffer, Flatten(chunks), fs, w)
    requires !Receive(buffer, chunks, w).Refused?
    ensures Receive(buffer, chunks, w) == Open(SealedAll(fs, w), [])
    decreases |chunks|
  {
    if chunks == [] {
      NothingToCome(buffer, fs, w);
    } else {
      var k := WaitingStep(buffer, chunks[0], Flatten(chunks[1..]), fs, w);
      ReceiveFrom(Drain(buffer + chunks[0], w).rest, chunks[1..], fs[k..], w);
      SealedSplit(fs, k, w);
    }
  }

  // Any stream of encodable frames, cut into any chunks the decoder takes, comes out as exactly
  // those frames, in order, with nothing left over.
  lemma StreamRoundTrip(chunks: seq<Bytes>, fs: seq<Frame>, w: Wire)
    requires AllEncodable(fs, w)
    requires Flatten(chunks) == EncodeAll(fs, w)
    requires !Receive([], chunks, w).Refused?
    ensures Receive([], chunks, w) == Open(SealedAll(fs, w), [])
  {
    assert [] + Flatten(chunks) == Flatten(chunks);
    assert Drain([], w) == Drained([], [], None);
    ReceiveFrom([], chunks, fs, w);
  }

  // After a drain on a valid stream there is always room for one more byte, unless the bound wraps round.
  lemma RoomForOneByte(buffer: Bytes, rest: Bytes, fs: seq<Frame>, w: Wire, b: Byte)
    requires AllEncodable(fs, w) && !Wraps(w)
    requires buffer + rest == EncodeAll(fs, w)
    ensures Accepts(Drain(buffer, w).rest, [b], w)
  {
    var k := DrainPrefix(buffer, rest, fs, w);
  }

  // ---- Which chunkings are taken, from lengths alone ----

  function Size(f: Frame): nat { HEADER_BYTES + |f.payload| + TRAILER_BYTES }

  function Sizes(fs: seq<Frame>): nat { if fs == [] then 0 else Size(fs[0]) + Sizes(fs[1..]) }

  // How much of n bytes of a stream is held back behind its whole frames, and the frames still to come.
  function HeldBack(fs: seq<Frame>, n: nat): (nat, seq<Frame>) {
    if fs != [] && Size(fs[0]) <= n then HeldBack(fs[1..], n - Size(fs[0])) else (n, fs)
  }

  // Every chunk fits beside what is held back when it arrives.
  predicate ChunksFit(held: nat, chunks: seq<Bytes>, fs: seq<Frame>, w: Wire)
    decreases |chunks|
  {
    chunks == []
    || (held + |chunks[0]| <= BufferBound(w)
        && ChunksFit(HeldBack(fs, held + |chunks[0]|).0, chunks[1..], HeldBack(fs, held + |chunks[0]|).1, w))
  }

  lemma {:induction false} SizesOf(fs: seq<Frame>, w: Wire)
    ensures |EncodeAll(fs, w)| == Sizes(fs)
  {
    if fs != [] {
      SizesOf(fs[1..], w);
    }
  }

  lemma {:induction false} SizesSplit(fs: seq<Frame>, k: nat)
    requires k <= |fs|
    ensures Sizes(fs) == Sizes(fs[..k]) + Sizes(fs[k..])
    decreases k
  {
    if k == 0 {
      assert fs[0..] == fs;
    } else {
      assert fs[..k][1..] == fs[1..][..k - 1] && fs[1..][k - 1..] == fs[k..];
      SizesSplit(fs[1..], k - 1);
    }
  }

  lemma {:induction false} HeldBackIs(fs: seq<Frame>, k: nat, r: nat)
    requires k <= |fs| && (if k == |fs| then r == 0 else r < Size(fs[k]))
    ensures HeldBack(fs, Sizes(fs[..k]) + r) == (r, fs[k..])
    decreases k
  {
    if k == 0 {
      assert fs[0..] == fs;
    } else {
      assert fs[..k][1..] == fs[1..][..k - 1] && fs[1..][k - 1..] == fs[k..];
      HeldBackIs(fs[1..], k - 1, r);
    }
  }

  lemma LeftLength(n: nat, rest: nat, left: nat, fs: seq<Frame>, k: nat)
    requires k <= |fs| && n + rest == Sizes(fs) && left + rest == Sizes(fs[k..])
    requires if k == |fs| then left == 0 else left < Size(fs[k])
    ensures HeldBack(fs, n) == (left, fs[k..])
  {
    SizesSplit(fs, k);
    HeldBackIs(fs, k, left);
  }

  // Draining leaves as much as the lengths say.
  lemma DrainedBack(buffer: Bytes, rest: Bytes, fs: seq<Frame>, w: Wire, k: nat)
    requires DrainsTo(buffer, rest, fs, w, k) && buffer + rest == EncodeAll(fs, w)
    ensures HeldBack(fs, |buffer|) == (|Drain(buffer, w).rest|, fs[k..])
  {
    SizesOf(fs, w);
    SizesOf(fs[k..], w);
    LeftLength(|buffer|, |rest|, |Drain(buffer, w).rest|, fs, k);
  }

  lemma DrainedLength(buffer: Bytes, chunk: Bytes, rest: Bytes, fs: seq<Frame>, w: Wire) returns (k: nat)
    requires Waiting(buffer, chunk + rest, fs, w)
    ensures k <= |fs|
    ensures var d := Drain(buffer + chunk, w);
      d.error == None && Waiting(d.rest, rest, fs[k..], w) && HeldBack(fs, |buffer| + |chunk|) == (|d.rest|, fs[k..])
  {
    k := WaitingStep(buffer, chunk, rest, fs, w);
    DrainedBack(buffer + chunk, rest, fs, w, k);
  }

  ghost predicate DrainsInto(buffer: Bytes, w: Wire, left: Bytes) {
    Drain(buffer, w).error == None && Drain(buffer, w).rest == left
  }

  // Refusing chunks goes chunk by chunk.
  ghost predicate Refuses(refused: (Bytes, seq<Bytes>) -> bool, w: Wire) {
    && (forall b {:trigger refused(b, [])} :: !refused(b, []))
    && (forall b, cs: seq<Bytes>, left {:trigger refused(b, cs), refused(left, cs[1..])} :: cs != [] && DrainsInto(b + cs[0], w, left) ==>
          refused(b, cs) == (!Accepts(b, cs[0], w) || refused(left, cs[1..])))
  }

  ghost predicate FitsOn(fits: (nat, seq<Bytes>, seq<Frame>) -> bool, w: Wire) {
    && (forall n, fs {:trigger fits(n, [], fs)} :: fits(n, [], fs))
    && (forall n: nat, cs: seq<Bytes>, fs, m: nat, later {:trigger fits(n, cs, fs), fits(m, cs[1..], later)} ::
          cs != [] && HeldBack(fs, n + |cs[0]|) == (m, later) ==>
            fits(n, cs, fs) == (n + |cs[0]| <= BufferBound(w) && fits(m, cs[1..], later)))
  }

  lemma {:induction false} TakenBy(buffer: Bytes, chunks: seq<Bytes>, fs: seq<Frame>, w: Wire, refused: (Bytes, seq<Bytes>) -> bool,
                                   fits: (nat, seq<Bytes>, seq<Frame>) -> bool)
    requires Waiting(buffer, Flatten(chunks), fs, w) && Refuses(refused, w) && FitsOn(fits, w)
    ensures refused(buffer, chunks) <==> !fits(|buffer|, chunks, fs)
    decreases |chunks|
  {
    if chunks == [] {
      assert !refused(buffer, []) && fits(|buffer|, [], fs);
    } else {
      var k := DrainedLength(buffer, chunks[0], Flatten(chunks[1..]), fs, w);
      var left := Drain(buffer + chunks[0], w).rest;
      TakenBy(left, chunks[1..], fs[k..], w, refused, fits);
    }
  }

  lemma ReceiveRefuses(w: Wire)
    ensures Refuses((b: Bytes, cs: seq<Bytes>) => Receive(b, cs, w).Refused?, w)
  {
  }

  lemma ChunksFitOn(w: Wire)
    ensures FitsOn((n: nat, cs: seq<Bytes>, fs: seq<Frame>) => ChunksFit(n, cs, fs, w), w)
  {
  }

  lemma TakenExactly(chunks: seq<Bytes>, fs: seq<Frame>, w: Wire)
    requires Waiting([], Flatten(chunks), fs, w)
    ensures Receive([], chunks, w).Refused? <==> !ChunksFit(0, chunks, fs, w)
  {
    ReceiveRefuses(w);
    ChunksFitOn(w);
    TakenBy([], chunks, fs, w, (b: Bytes, cs: seq<Bytes>) => Receive(b, cs, w).Refused?,
            (n: nat, cs: seq<Bytes>, later: seq<Frame>) => ChunksFit(n, cs, later, w));
  }

  // A stream of encodable frames is delivered whole and in order exactly when every chunk fits beside what is held
  // back of the frames before it, which a sender can tell from the lengths.
  lemma DeliveredExactly(chunks: seq<Bytes>, fs: seq<Frame>, w: Wire)
    requires AllEncodable(fs, w) && Flatten(chunks) == EncodeAll(fs, w)
    ensures Receive([], chunks, w) == Open(SealedAll(fs, w), []) <==> ChunksFit(0, chunks, fs, w)
  {
    assert [] + Flatten(chunks) == Flatten(chunks);
    assert Drain([], w) == Drained([], [], None);
    TakenExactly(chunks, fs, w);
    if ChunksFit(0, chunks, fs, w) {
      StreamRoundTrip(chunks, fs, w);
    }
  }

  ghost predicate AlwaysRoom(w: Wire) {
    forall buffer: Bytes, rest: Bytes, fs: seq<Frame>, b: Byte ::
      AllEncodable(fs, w) && buffer + rest == EncodeAll(fs, w) ==> Accepts(Drain(buffer, w).rest, [b], w)
  }

  // A bound that wraps round is less than a header: a decoder that holds that much of a frame takes no more.
  lemma NoRoomFor(f: Frame, w: Wire) returns (buffer: Bytes, rest: Bytes)
    requires Wraps(w) && Encodable(f, w)
    ensures buffer + rest == Encoding(f, w) && !Accepts(Drain(buffer, w).rest, [0], w)
  {
    var whole, n := Encoding(f, w), BufferBound(w);
    assert n < HEADER_BYTES <= |whole|;
    buffer, rest := whole[..n], whole[n..];
    assert buffer + rest == whole;
    assert buffer < whole && |buffer| == n;
    PartWaits(f, w, buffer);
  }

  lemma NoRoom(w: Wire) returns (buffer: Bytes, rest: Bytes, fs: seq<Frame>)
    requires Wraps(w)
    ensures AllEncodable(fs, w) && buffer + rest == EncodeAll(fs, w) && !Accepts(Drain(buffer, w).rest, [0], w)
  {
    var f := Frame(0, 0, [], 0);
    buffer, rest := NoRoomFor(f, w);
    fs := [f];
    OneEncoded(f, w);
  }

  lemma OneEncoded(f: Frame, w: Wire)
    ensures EncodeAll([f], w) == Encoding(f, w)
  {
  }

  lemma PartWaits(f: Frame, w: Wire, buffer: Bytes)
    requires Encodable(f, w) && buffer < Encoding(f, w)
    ensures Drain(buffer, w).rest == buffer
  {
    PeekPartial(f, w, buffer);
  }

  lemma RoomExactly(w: Wire)
    ensures AlwaysRoom(w) <==> !Wraps(w)
  {
    if Wraps(w) {
      var buffer, rest, fs := NoRoom(w);
    } else {
      forall buffer: Bytes, rest: Bytes, fs: seq<Frame>, b: Byte | AllEncodable(fs, w) && buffer + rest == EncodeAll(fs, w)
        ensures Accepts(Drain(buffer, w).rest, [b], w)
      {
        RoomForOneByte(buffer, rest, fs, w, b);
      }
    }
  }

  function Singles(stream: Bytes): (r: seq<Bytes>)
    ensures |r| == |stream|
  {
    seq(|stream|, i requires 0 <= i < |stream| => [stream[i]])
  }

  lemma {:induction false} FlattenSingles(stream: Bytes)
    ensures Flatten(Singles(stream)) == stream
  {
    if stream != [] {
      assert Singles(stream)[1..] == Singles(stream[1..]);
      FlattenSingles(stream[1..]);
      assert stream == [stream[0]] + stream[1..];
    }
  }

  lemma OneByteHeld(fs: seq<Frame>, n: nat)
    requires fs != [] && 0 < n <= Size(fs[0])
    ensures HeldBack(fs, n) == if n == Size(fs[0]) then (0, fs[1..]) else (n, fs)
  {
    if n == Size(fs[0]) {
      assert HeldBack(fs[1..], 0) == (0, fs[1..]);
    }
  }

  lemma {:induction false} SinglesFit(held: nat, stream: Bytes, fs: seq<Frame>, w: Wire)
    requires AllEncodable(fs, w) && !Wraps(w) && held + |stream| == Sizes(fs)
    requires if fs == [] then held == 0 else held < Size(fs[0])
    ensures ChunksFit(held, Singles(stream), fs, w)
    decreases |stream|
  {
    if stream != [] {
      assert Encodable(fs[0], w);
      OneByteHeld(fs, held + 1);
      assert Singles(stream)[1..] == Singles(stream[1..]);
      SinglesFit(HeldBack(fs, held + 1).0, stream[1..], HeldBack(fs, held + 1).1, w);
    }
  }

  // Delivered one byte at a time, a stream of encodable frames comes out whole.
  lemma ByteAtATime(fs: seq<Frame>, w: Wire)
    requires AllEncodable(fs, w) && !Wraps(w)
    ensures Receive([], Singles(EncodeAll(fs, w)), w) == Open(SealedAll(fs, w), [])
  {
    SizesOf(fs, w);
    FlattenSingles(EncodeAll(fs, w));
    SinglesFit(0, EncodeAll(fs, w), fs, w);
    DeliveredExactly(Singles(EncodeAll(fs, w)), fs, w);
  }

  // A chunk is refused exactly when it does not fit beside what is held back: two frames that are
  // each accepted alone can be refused when they arrive together.
  lemma TwoFramesTogetherRefused(f: Frame, w: Wire)
    requires Encodable(f, w) && !Wraps(w)
    requires |f.payload| + TRAILER_BYTES == w.maxFrameBytes
    ensures Receive([], [EncodeAll([f, f], w)], w) == Refused([])
    ensures Receive([], [Encoding(f, w), Encoding(f, w)], w) == Open([Sealed(f, w), Sealed(f, w)], [])
  {
    var e := Encoding(f, w);
    assert EncodeAll([f], w) == e;
    assert EncodeAll([f, f], w) == e + e;
    OneFrame(f, w);
    assert Drain([], w) == Drained([], [], None);
    assert Receive([], [e], w) == Open([Sealed(f, w)], []);
    assert [e, e][1..] == [e];
    assert [Sealed(f, w)] + [Sealed(f, w)] == [Sealed(f, w), Sealed(f, w)];
  }

  lemma OneFrame(f: Frame, w: Wire)
    requires Encodable(f, w)
    ensures Drain([] + Encoding(f, w), w) == Drained([Sealed(f, w)], [], None)
  {
    DrainSplits(f, [], w);
    assert [] + Encoding(f, w) == Encoding(f, w) + [];
    DrainNothingHeld(w);
  }

  lemma DrainNothingHeld(w: Wire)
    ensures Drain([], w) == Drained([], [], None)
  {
  }

  // ---- Corruption ----

  // A frame whose payload was replaced by another of the same length, or whose trailer was, is
  // delivered exactly when the trailer still matches the payload's checksum.
  lemma PeekTampered(f: Frame, payload: Bytes, trailer: Bytes, after: Bytes, w: Wire)
    requires Encodable(f, w)
    requires |payload| == |f.payload| && |trailer| == TRAILER_BYTES
    ensures Peek(Header(f) + payload + trailer + after, w)
         == if w.checksum(payload) == Get(trailer)
            then Complete(Frame(f.kind, f.flags, payload, w.checksum(payload)), |Encoding(f, w)|)
            else Bad(ProtocolError)
  {
    var b := Header(f) + payload + trailer + after;
    BodyAt(f, payload, trailer, after);
    HeaderFields(f, w, b);
    PeekBody(b, f, payload, Get(trailer), w);
  }
}

// The frame protocol with the checksum it is deployed with.
module FrameIntegrity {
  import opened Base
  import opened LittleEndian
  import opened Checksum
  import opened Framing
  import Burst

  lemma FieldRange(crc: bv64)
    ensures crc as int < 0x1_0000_0000_0000_0000
  {
  }

  lemma FieldBack(crc: bv64)
    ensures (crc as int) as bv64 == crc
  {
    FieldRange(crc);
  }

  function AsField(crc: bv64): u64 {
    FieldRange(crc);
    crc as int
  }

  function CrcField(payload: Bytes): u64 { AsField(Crc(payload)) }

  lemma AsFieldInjective(a: bv64, b: bv64)
    requires AsField(a) == AsField(b)
    ensures a == b
  {
    FieldBack(a);
    FieldBack(b);
  }

  // Payload damage confined to eight consecutive bytes is never delivered.
  lemma DamagedPayloadRefused(f: Frame, max: u64, before: Bytes, a: Bytes, b: Bytes, behind: Bytes, after: Bytes)
    requires Encodable(f, Wire(max, CrcField))
    requires f.payload == before + a + behind
    requires |a| == |b| <= Burst.WINDOW && a != b
    ensures var w := Wire(max, CrcField);
            Peek(Header(f) + (before + b + behind) + Put(w.checksum(f.payload), LONG) + after, w) == Bad(ProtocolError)
  {
    var w := Wire(max, CrcField);
    var payload := before + b + behind;
    PeekTampered(f, payload, Put(CrcField(f.payload), LONG), after, w);
    Widths();
    GetPut(CrcField(f.payload), LONG);
    Burst.WindowDetected(before, a, b, behind);
    if CrcField(payload) == CrcField(f.payload) {
      AsFieldInjective(Crc(payload), Crc(f.payload));
      assert false;
    }
  }

  // Nor is a frame with a damaged trailer.
  lemma DamagedTrailerRefused(f: Frame, w: Wire, trailer: Bytes, after: Bytes)
    requires Encodable(f, w)
    requires |trailer| == TRAILER_BYTES && trailer != Put(w.checksum(f.payload), LONG)
    ensures Peek(Header(f) + f.payload + trailer + after, w) == Bad(ProtocolError)
  {
    PeekTampered(f, f.payload, trailer, after, w);
    PutGet(trailer);
  }
}
