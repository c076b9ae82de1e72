/** Every frame the writer accepts is read back, and the reader consumes exactly that frame. */
module FramingProof {
  import opened Wire
  import opened Codec
  import opened Schema
  import opened SchemaProof
  import opened RecordWriters
  import opened Records
  import opened ErrorTree
  import opened ErrorProof
  import opened Framing

  // ----- blocks

  lemma {:induction false} AddAllBlocks(e: Enc, blocks: seq<Bytes>)
    requires e.err.None? && |e.blocks| <= MAX_BLOCKS && AddAll(e, blocks).err.None?
    ensures AddAll(e, blocks) == e.(blocks := e.blocks + blocks) && |e.blocks + blocks| <= MAX_BLOCKS
    decreases |blocks|
  {
    if blocks == [] {
      assert e.blocks + [] == e.blocks;
    } else {
      var f := Add(e, blocks[0]).0;
      if f.err.Some? { AddAllSticky(f, blocks[1..]); }
      AddAllBlocks(f, blocks[1..]);
      assert e.blocks + [blocks[0]] + blocks[1..] == e.blocks + blocks;
    }
  }

  lemma {:induction false} AddAllSticky(e: Enc, blocks: seq<Bytes>)
    requires e.err.Some?
    ensures AddAll(e, blocks) == e
    decreases |blocks|
  {
    if blocks != [] { AddAllSticky(e, blocks[1..]); }
  }

  function LengthsOf(blocks: seq<Bytes>): seq<nat> {
    if blocks == [] then [] else [|blocks[0]|] + LengthsOf(blocks[1..])
  }

  lemma {:induction false} LengthBytesSize(blocks: seq<Bytes>)
    ensures |LengthBytes(blocks)| == 8 * |blocks|
  {
    if blocks != [] { LengthBytesSize(blocks[1..]); }
  }

  lemma {:induction false} LengthsBack(blocks: seq<Bytes>)
    requires |LengthBytes(blocks)| == 8 * |blocks|
    requires forall i :: 0 <= i < |blocks| ==> |blocks[i]| < U64_LIMIT
    ensures GetLengths(LengthBytes(blocks), |blocks|) == LengthsOf(blocks)
  {
    if blocks != [] {
      var bytes := LengthBytes(blocks);
      assert bytes[..8] == U64(|blocks[0]|) && bytes[8..] == LengthBytes(blocks[1..]);
      U64RoundTrip(|blocks[0]|);
      LengthBytesSize(blocks[1..]);
      LengthsBack(blocks[1..]);
    }
  }

  lemma {:induction false} LengthsFitTotal(blocks: seq<Bytes>)
    requires forall i :: 0 <= i < |blocks| ==> |blocks[i]| <= I64_MAX
    ensures LengthsFit(LengthsOf(blocks), Total(blocks))
  {
    if blocks != [] { LengthsFitTotal(blocks[1..]); }
  }

  lemma {:induction false} CutBack(blocks: seq<Bytes>, rest: Bytes)
    ensures Cut(Concat(blocks) + rest, LengthsOf(blocks)) == Some((blocks, rest))
  {
    if blocks == [] {
      assert Concat(blocks) + rest == rest;
    } else {
      var stream := Concat(blocks) + rest;
      Assoc(blocks[0], Concat(blocks[1..]), rest);
      assert stream[..|blocks[0]|] == blocks[0] && stream[|blocks[0]|..] == Concat(blocks[1..]) + rest;
      CutBack(blocks[1..], rest);
      assert [blocks[0]] + blocks[1..] == blocks;
    }
  }

  lemma {:induction false} ConcatSize(blocks: seq<Bytes>)
    ensures |Concat(blocks)| == Total(blocks)
  {
    if blocks != [] { ConcatSize(blocks[1..]); }
  }

  // ----- the header

  lemma {:induction false} LengthsWritten(h: Enc, blocks: seq<Bytes>)
    requires h.err.None? && PutLengths(h, blocks).err.None? && |h.data| <= MAX_METADATA_SIZE
    ensures PutLengths(h, blocks) == h.(data := h.data + LengthBytes(blocks))
    ensures |h.data + LengthBytes(blocks)| <= MAX_METADATA_SIZE
    decreases |blocks|
  {
    if blocks == [] {
      assert h.data + [] == h.data;
    } else {
      var g := Put(h, U64(|blocks[0]|));
      if g.err.Some? { LengthsSticky(g, blocks[1..]); }
      LengthsWritten(g, blocks[1..]);
      Assoc(h.data, U64(|blocks[0]|), LengthBytes(blocks[1..]));
    }
  }

  lemma {:induction false} LengthsSticky(h: Enc, blocks: seq<Bytes>)
    requires h.err.Some?
    ensures PutLengths(h, blocks).err.Some?
    decreases |blocks|
  {
    if blocks != [] { LengthsSticky(Put(h, U64(|blocks[0]|)), blocks[1..]); }
  }

  function RawBytes(value: Bytes): Bytes { U32(|value|) + value }

  function HeaderBytes(m: Message, tail: Bytes, blocks: seq<Bytes>): Bytes {
    U64(m.id) + (RawBytes(m.operation) +
      (RawBytes(m.payload.metadata) + (RawBytes(tail) + (U32(|blocks|) + LengthBytes(blocks)))))
  }

  lemma HeaderWritten(m: Message, details: Enc)
    requires Header(m, details).err.None?
    ensures Header(m, details).data == HeaderBytes(m, details.data, details.blocks)
    ensures |m.operation| <= MAX_METADATA_SIZE && |m.payload.metadata| <= MAX_METADATA_SIZE
    ensures |details.data| <= MAX_METADATA_SIZE && |Header(m, details).data| <= MAX_METADATA_SIZE
  {
    var h0 := Put(NewEnc(0), U64(m.id));
    var h1 := PutRaw(h0, m.operation);
    var h2 := PutRaw(h1, m.payload.metadata);
    var h3 := PutRaw(h2, details.data);
    var h4 := Put(h3, U32(|details.blocks|));
    if h4.err.Some? { LengthsSticky(h4, details.blocks); }
    LengthsWritten(h4, details.blocks);
    assert h0.data == U64(m.id);
    Regroup(U64(m.id), RawBytes(m.operation), RawBytes(m.payload.metadata), RawBytes(details.data),
            U32(|details.blocks|), LengthBytes(details.blocks));
    Assoc(U64(m.id) + RawBytes(m.operation), RawBytes(m.payload.metadata), RawBytes(details.data));
    Nest(U64(m.id), RawBytes(m.operation), RawBytes(m.payload.metadata), RawBytes(details.data), U32(|details.blocks|));
  }

  lemma Nest(a: Bytes, b: Bytes, c: Bytes, d: Bytes, e: Bytes)
    ensures (((a + b) + c) + d) + e == a + (b + (c + (d + e)))
  {
  }

  lemma HeaderBack(m: Message, tail: Bytes, blocks: seq<Bytes>)
    requires m.id < U64_LIMIT && |m.operation| <= MAX_METADATA_SIZE && |m.payload.metadata| <= MAX_METADATA_SIZE
    requires |tail| <= MAX_METADATA_SIZE && |blocks| <= MAX_BLOCKS
    requires forall i :: 0 <= i < |blocks| ==> |blocks[i]| < U64_LIMIT
    ensures ReadHeader(HeaderBytes(m, tail, blocks)) ==
            Some(Head(m.id, m.operation, m.payload.metadata, tail, LengthsOf(blocks)))
  {
    var r4 := LengthBytes(blocks);
    var r3 := U32(|blocks|) + r4;
    var r2 := RawBytes(tail) + r3;
    var r1 := RawBytes(m.payload.metadata) + r2;
    var r0 := RawBytes(m.operation) + r1;
    UintBack(8, m.id, r0, []);
    RawBack(m.operation, r1, []);
    RawBack(m.payload.metadata, r2, []);
    RawBack(tail, r3, []);
    UintBack(4, |blocks|, r4, []);
    LengthBytesSize(blocks);
    assert r4 + [] == r4;
    TakeBack(r4, [], []);
    LengthsBack(blocks);
  }

  // ----- the details

  lemma ObservationsIntact(v: Value)
    requires Typed(OBSERVATIONS, v)
    ensures Image(OBSERVATIONS, v) == v
  {
    ImageIsValue(OBSERVATIONS, v);
    if v.list.Some? {
      forall i | 0 <= i < |v.list.value| ensures Faithful(OBSERVATION, v.list.value[i]) {
        PlainFaithful(OBSERVATION, v.list.value[i]);
      }
    }
  }

  /** What the other side holds after reading `m`: the payload's blocks come first, error texts follow. */
  ghost function Arrival(m: Message, render: Err -> Bytes): Received
    requires WellFormed(m)
  {
    Received(m.id, m.operation, m.payload.metadata, Details(m, render).blocks, RemoteRef(m.error, render),
      m.observations)
  }

  /** What an accepted message leaves in the details encoder, and what the reader makes of it; more is malformed. */
  lemma DetailsBack(m: Message, render: Err -> Bytes, lengths: seq<nat>, rest: Bytes, extra: Bytes)
    requires WellFormed(m) && Details(m, render).err.None?
    ensures var d := Details(m, render);
      && |d.blocks| <= MAX_BLOCKS && m.payload.blocks <= d.blocks
      && (m.error.Nil? ==> d.blocks == m.payload.blocks)
      && ReadDetails(Head(m.id, m.operation, m.payload.metadata, d.data + extra, lengths), d.blocks, rest) ==
           if extra == [] then Read(Arrival(m, render), rest) else Malformed
  {
    var e0 := AddAll(NewEnc(0), m.payload.blocks);
    var e1 := EncodeError(e0, m.error, 0, render);
    var e2 := Encode(e1, OBSERVATIONS, m.observations);
    if e1.err.Some? { Sticky(e1, OBSERVATIONS, m.observations); }
    AddAllBlocks(NewEnc(0), m.payload.blocks);
    assert [] + m.payload.blocks == m.payload.blocks;
    ErrorGrew(e0, m.error, 0, render);
    EncodeGrew(e1, OBSERVATIONS, m.observations);
    GrewTwice(e0, e1, e2, 1, 0);
    assert e2.data == Delta(e0, e1) + Delta(e1, e2);
    Assoc(Delta(e0, e1), Delta(e1, e2), extra);
    ErrorDecoded(e0, m.error, 0, render, e2.blocks, Delta(e1, e2) + extra);
    ObservationsSized();
    ConfigAgrees();
    DecodeEncoded(e1, OBSERVATIONS, m.observations, e2.blocks, extra);
    ObservationsIntact(m.observations);
    ObservationBlocks(e1, m.observations);
  }

  /** Observations travel inside the metadata and add no block. */
  lemma ObservationBlocks(e: Enc, v: Value)
    requires Typed(OBSERVATIONS, v)
    ensures Encode(e, OBSERVATIONS, v).blocks == e.blocks
  {
    if v.list.Some? {
      var f := PutLength(e, |v.list.value|, true);
      if f.err.None? { ItemBlocks(f, v.list.value); }
    }
  }

  predicate Blockless(s: Schema) {
    || s.SBool? || s.SInt? || s.SU64? || s.SRaw? || s.End?
    || (s.Field? && Blockless(s.first) && Blockless(s.rest))
  }

  lemma {:induction false} BlocklessEncode(e: Enc, s: Schema, v: Value)
    requires Typed(s, v) && Blockless(s)
    ensures Encode(e, s, v).blocks == e.blocks
    decreases s
  {
    match s
    case Field(_, first, rest) =>
      BlocklessEncode(e, first, v.first);
      BlocklessEncode(Encode(e, first, v.first), rest, v.rest);
    case _ =>
  }

  lemma {:induction false} ItemBlocks(e: Enc, values: seq<Value>)
    requires forall i :: 0 <= i < |values| ==> Typed(OBSERVATION, values[i])
    ensures EncodeItems(e, OBSERVATION, values).blocks == e.blocks
    decreases |values|
  {
    if values != [] {
      assert Blockless(OBSERVATION_RESULT);
      assert Blockless(OBSERVATION);
      BlocklessEncode(e, OBSERVATION, values[0]);
      ItemBlocks(Encode(e, OBSERVATION, values[0]), values[1..]);
    }
  }

  // ----- frames and streams of frames

  lemma FrameLayout(size: Bytes, headerSize: Bytes, header: Bytes, body: Bytes, rest: Bytes)
    requires |size| == 8 && |headerSize| == 4
    ensures var stream := (size + headerSize + header + body) + rest;
      |stream| >= 12 && stream[..8] == size && stream[8..12] == headerSize && stream[12..] == header + (body + rest)
  {
  }

  /** Reading a frame followed by anything yields the message and leaves exactly that anything. */
  lemma FrameRoundTrip(m: Message, render: Err -> Bytes, rest: Bytes)
    requires WellFormed(m) && GoSized(m, render) && FrameOf(m, render).Frame?
    ensures ReadMessage(FrameOf(m, render).bytes + rest) == Read(Arrival(m, render), rest)
    ensures m.payload.blocks <= Arrival(m, render).blocks
    ensures m.error.Nil? ==> Arrival(m, render).blocks == m.payload.blocks
  {
    var blocks := Details(m, render).blocks;
    var header := FrameParts(m, render);
    var head := Head(m.id, m.operation, m.payload.metadata, Details(m, render).data, LengthsOf(blocks));
    DetailsBack(m, render, LengthsOf(blocks), rest, []);
    assert Details(m, render).data + [] == Details(m, render).data;
    AssembledReads(header, head, blocks, rest);
  }

  /** The header bytes of an accepted message, and what reading them yields. */
  lemma FrameParts(m: Message, render: Err -> Bytes) returns (header: Bytes)
    requires WellFormed(m) && GoSized(m, render) && FrameOf(m, render).Frame?
    ensures var details := Details(m, render);
      && FrameOf(m, render).bytes == Assembled(header, details.blocks)
      && 0 < |header| <= MAX_METADATA_SIZE && Total(details.blocks) + |header| + 4 < U64_LIMIT
      && ReadHeader(header) ==
         Some(Head(m.id, m.operation, m.payload.metadata, details.data, LengthsOf(details.blocks)))
  {
    var details := Details(m, render);
    DetailsBack(m, render, [], [], []);
    HeaderReads(m, details);
    return Header(m, details).data;
  }

  lemma AssembledReads(header: Bytes, head: Head, blocks: seq<Bytes>, rest: Bytes)
    requires 0 < |header| <= MAX_METADATA_SIZE && Total(blocks) + |header| + 4 < U64_LIMIT
    requires ReadHeader(header) == Some(head) && head.lengths == LengthsOf(blocks)
    requires forall i :: 0 <= i < |blocks| ==> |blocks[i]| <= I64_MAX
    ensures Assembled(header, blocks) + rest != []
    ensures ReadFrame(Assembled(header, blocks) + rest) == Some((head, blocks, rest))
  {
    var a, b := SizeWords(header, blocks);
    BytesOfFrame(a, b, Total(blocks) + |header| + 4, header, head, blocks, rest);
  }

  /** The two size words in front of a frame, decoded. */
  lemma SizeWords(header: Bytes, blocks: seq<Bytes>) returns (a: Bytes, b: Bytes)
    requires |header| <= MAX_METADATA_SIZE && Total(blocks) + |header| + 4 < U64_LIMIT
    ensures |a| == 8 && |b| == 4 && Assembled(header, blocks) == a + b + header + Concat(blocks)
    ensures FromBigEndian(a) == Total(blocks) + |header| + 4 && FromBigEndian(b) == |header|
  {
    var size := Total(blocks) + |header| + 4;
    U64RoundTrip(size);
    U32RoundTrip(|header|);
    return U64(size), U32(|header|);
  }

  lemma HeaderReads(m: Message, details: Enc)
    requires m.id < U64_LIMIT && Header(m, details).err.None? && |details.blocks| <= MAX_BLOCKS
    requires forall i :: 0 <= i < |details.blocks| ==> |details.blocks[i]| <= I64_MAX
    ensures 0 < |Header(m, details).data| <= MAX_METADATA_SIZE
    ensures ReadHeader(Header(m, details).data) ==
            Some(Head(m.id, m.operation, m.payload.metadata, details.data, LengthsOf(details.blocks)))
  {
    HeaderWritten(m, details);
    HeaderBack(m, details.data, details.blocks);
    HeaderLength(m, details.data, details.blocks);
  }

  lemma HeaderLength(m: Message, tail: Bytes, blocks: seq<Bytes>)
    ensures |HeaderBytes(m, tail, blocks)| >= 8
  {
  }

  lemma BytesOfFrame(a: Bytes, b: Bytes, size: nat, header: Bytes, head: Head, blocks: seq<Bytes>, rest: Bytes)
    requires |a| == 8 && |b| == 4 && FromBigEndian(a) == size && FromBigEndian(b) == |header|
    requires 0 < |header| <= MAX_METADATA_SIZE && size == Total(blocks) + |header| + 4
    requires ReadHeader(header) == Some(head) && head.lengths == LengthsOf(blocks)
    requires forall i :: 0 <= i < |blocks| ==> |blocks[i]| <= I64_MAX
    ensures ReadFrame((a + b + header + Concat(blocks)) + rest) == Some((head, blocks, rest))
  {
    SizedBack(size, header, head, blocks, rest);
    StreamBack(a, b, header, Concat(blocks), head, blocks, rest);
  }

  lemma StreamBack(a: Bytes, b: Bytes, header: Bytes, body: Bytes, head: Head, blocks: seq<Bytes>, rest: Bytes)
    requires |a| == 8 && |b| == 4 && body == Concat(blocks) && head.lengths == LengthsOf(blocks)
    requires ReadSized(FromBigEndian(a), FromBigEndian(b), header + (body + rest)) == Some((head, body + rest))
    ensures ReadFrame((a + b + header + body) + rest) == Some((head, blocks, rest))
  {
    FrameLayout(a, b, header, body, rest);
    CutBack(blocks, rest);
  }

  lemma SizedBack(size: nat, header: Bytes, head: Head, blocks: seq<Bytes>, rest: Bytes)
    requires 0 < |header| <= MAX_METADATA_SIZE && size == Total(blocks) + |header| + 4
    requires ReadHeader(header) == Some(head) && head.lengths == LengthsOf(blocks)
    requires forall i :: 0 <= i < |blocks| ==> |blocks[i]| <= I64_MAX
    ensures ReadSized(size, |header|, header + (Concat(blocks) + rest)) == Some((head, Concat(blocks) + rest))
  {
    var body := header + (Concat(blocks) + rest);
    assert body[..|header|] == header && body[|header|..] == Concat(blocks) + rest;
    LengthsFitTotal(blocks);
  }

  function Frames(ms: seq<Message>, render: Err -> Bytes): Bytes
    requires forall i :: 0 <= i < |ms| ==> WellFormed(ms[i]) && FrameOf(ms[i], render).Frame?
  {
    if ms == [] then [] else FrameOf(ms[0], render).bytes + Frames(ms[1..], render)
  }

  ghost function ReadAll(stream: Bytes, count: nat): Option<(seq<Received>, Bytes)>
    decreases count
  {
    if count == 0 then Some(([], stream))
    else match ReadMessage(stream)
      case Read(m, rest) =>
        var tail := ReadAll(rest, count - 1);
        if tail.None? then None else Some(([m] + tail.value.0, tail.value.1))
      case _ => None
  }

  ghost function Arrivals(ms: seq<Message>, render: Err -> Bytes): seq<Received>
    requires forall i :: 0 <= i < |ms| ==> WellFormed(ms[i])
  {
    if ms == [] then [] else [Arrival(ms[0], render)] + Arrivals(ms[1..], render)
  }

  /** Any sequence of accepted messages on one stream is read back message by message. */
  lemma {:induction false} StreamRoundTrip(ms: seq<Message>, render: Err -> Bytes, rest: Bytes)
    requires forall i :: 0 <= i < |ms| ==> WellFormed(ms[i]) && GoSized(ms[i], render) && FrameOf(ms[i], render).Frame?
    ensures ReadAll(Frames(ms, render) + rest, |ms|) == Some((Arrivals(ms, render), rest))
  {
    if ms == [] {
      assert Frames(ms, render) + rest == rest;
    } else {
      var tail := Frames(ms[1..], render);
      Assoc(FrameOf(ms[0], render).bytes, tail, rest);
      FrameRoundTrip(ms[0], render, tail + rest);
      StreamRoundTrip(ms[1..], render, rest);
    }
  }

  /**
   * A payload inside a frame decodes at the other end as it would have at home, whatever error texts follow it;
   * only where nothing is expected do they make it malformed.
   */
  lemma PayloadThroughFrame(s: Schema, v: Value, inputLimit: int, m: Message, render: Err -> Bytes, rest: Bytes)
    requires Typed(s, v) && Sized(s) && EncodePayload(s, v, inputLimit) == Some(m.payload)
    requires WellFormed(m) && GoSized(m, render) && FrameOf(m, render).Frame?
    ensures ReadMessage(FrameOf(m, render).bytes + rest) == Read(Arrival(m, render), rest)
    ensures DecodePayload(s, m.payload.(blocks := Arrival(m, render).blocks)) ==
      if s.End? && Arrival(m, render).blocks != m.payload.blocks then None else Some(Image(s, v))
  {
    FrameRoundTrip(m, render, rest);
    BlocksAppended(s, v, inputLimit, m.payload, Arrival(m, render).blocks);
  }

  lemma BlocksAppended(s: Schema, v: Value, inputLimit: int, p: Payload, arrived: seq<Bytes>)
    requires Typed(s, v) && Sized(s) && EncodePayload(s, v, inputLimit) == Some(p) && p.blocks <= arrived
    ensures DecodePayload(s, p.(blocks := arrived)) ==
      if s.End? && arrived != p.blocks then None else Some(Image(s, v))
  {
    var more := arrived[|p.blocks|..];
    PayloadRoundTrip(s, v, inputLimit, more);
    assert p.blocks + more == arrived;
    assert more == [] <==> arrived == p.blocks;
  }
}
