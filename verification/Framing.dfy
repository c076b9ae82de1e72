/** Frames on the pipe: a size, a header size, a binary header, and raw blocks. */
module Framing {
  import opened Wire
  import opened Codec
  import opened Schema
  import opened RecordWriters
  import RecordReaders
  import opened Records
  import opened ErrorTree

  datatype Message = Message(id: nat, operation: Bytes, payload: Payload, error: Ref, observations: Value)

  /** What the Go types guarantee of a message. */
  predicate WellFormed(m: Message) {
    m.id < U64_LIMIT && Typed(OBSERVATIONS, m.observations) && (m.error.To? ==> Valid(m.error.err))
  }

  /** Blocks are Go slices and strings: their lengths are Go ints. */
  ghost predicate GoSized(m: Message, render: Err -> Bytes)
    requires WellFormed(m)
  {
    forall i :: 0 <= i < |Details(m, render).blocks| ==> |Details(m, render).blocks[i]| <= I64_MAX
  }

  // ----- writing

  function AddAll(e: Enc, blocks: seq<Bytes>): Enc
    decreases |blocks|
  {
    if blocks == [] then e else AddAll(Add(e, blocks[0]).0, blocks[1..])
  }

  /** The payload's blocks first, then the error tree and the observations with the blocks they add. */
  function Details(m: Message, render: Err -> Bytes): Enc
    requires WellFormed(m)
  {
    Encode(EncodeError(AddAll(NewEnc(0), m.payload.blocks), m.error, 0, render), OBSERVATIONS, m.observations)
  }

  function LengthBytes(blocks: seq<Bytes>): Bytes {
    if blocks == [] then [] else U64(|blocks[0]|) + LengthBytes(blocks[1..])
  }

  function PutLengths(h: Enc, blocks: seq<Bytes>): Enc
    decreases |blocks|
  {
    if blocks == [] then h else PutLengths(Put(h, U64(|blocks[0]|)), blocks[1..])
  }

  function HeaderPrefix(m: Message, tail: Bytes): Enc {
    PutRaw(PutRaw(PutRaw(Put(NewEnc(0), U64(m.id)), m.operation), m.payload.metadata), tail)
  }

  function Header(m: Message, details: Enc): Enc {
    PutLengths(Put(HeaderPrefix(m, details.data), U32(|details.blocks|)), details.blocks)
  }

  datatype Written = Frame(bytes: Bytes) | Refused(fault: Fault)

  /** The bytes of a frame, or the fault that keeps every byte off the pipe. */
  function FrameOf(m: Message, render: Err -> Bytes): Written
    requires WellFormed(m)
  {
    if |m.payload.metadata| > MAX_METADATA_SIZE || |m.payload.blocks| > MAX_BLOCKS then Refused(MetadataTooLarge)
    else
      var details := Details(m, render);
      if details.err.Some? then Refused(details.err.value)
      else
        var header := Header(m, details);
        if header.err.Some? then Refused(header.err.value)
        else if Total(details.blocks) > U64_LIMIT - 1 - |header.data| - 4 then Refused(Protocol)
        else Frame(Assembled(header.data, details.blocks))
  }

  function Assembled(header: Bytes, blocks: seq<Bytes>): Bytes {
    U64(Total(blocks) + |header| + 4) + U32(|header|) + header + Concat(blocks)
  }

  // ----- reading

  datatype Received = Received(id: nat, operation: Bytes, metadata: Bytes, blocks: seq<Bytes>, error: Ref,
                               observations: Value)
  datatype ReadResult = Read(message: Received, rest: Bytes) | EndOfInput | Malformed

  function GetLengths(bytes: Bytes, count: nat): seq<nat>
    requires |bytes| == 8 * count
  {
    if count == 0 then [] else [FromBigEndian(bytes[..8])] + GetLengths(bytes[8..], count - 1)
  }

  function Sum(lengths: seq<nat>): nat { if lengths == [] then 0 else lengths[0] + Sum(lengths[1..]) }

  /** The announced lengths, each a Go int, add up to exactly what the frame has left. */
  predicate LengthsFit(lengths: seq<nat>, remaining: nat) {
    if lengths == [] then remaining == 0
    else lengths[0] <= I64_MAX && lengths[0] <= remaining && LengthsFit(lengths[1..], remaining - lengths[0])
  }

  /** Cuts the stream into blocks; None when it ends too early. */
  function Cut(stream: Bytes, lengths: seq<nat>): Option<(seq<Bytes>, Bytes)>
    decreases |lengths|
  {
    if lengths == [] then Some(([], stream))
    else if lengths[0] > |stream| then None
    else
      var tail := Cut(stream[lengths[0]..], lengths[1..]);
      if tail.None? then None else Some(([stream[..lengths[0]]] + tail.value.0, tail.value.1))
  }

  datatype Head = Head(id: nat, operation: Bytes, metadata: Bytes, tail: Bytes, lengths: seq<nat>)

  function ReadHeader(header: Bytes): Option<Head> {
    var (id, d0) := GetUint(Dec(header, [], None), 8);
    var (operation, d1) := GetRaw(d0);
    var (metadata, d2) := GetRaw(d1);
    var (tail, d3) := GetRaw(d2);
    var (count, d4) := GetUint(d3, 4);
    if count > MAX_BLOCKS || count * 8 > |d4.data| then None
    else
      var (lengths, d5) := Take(d4, count * 8);
      if d5.err.Some? || d5.data != [] || |lengths| != 8 * count then None
      else Some(Head(id, operation, metadata, tail, GetLengths(lengths, count)))
  }

  /** Both sizes and the header; None when the stream is too short or they do not fit each other. */
  function ReadHead(stream: Bytes): Option<(Head, Bytes)> {
    if |stream| < 12 then None
    else ReadSized(FromBigEndian(stream[..8]), FromBigEndian(stream[8..12]), stream[12..])
  }

  function ReadSized(size: nat, headerSize: nat, body: Bytes): Option<(Head, Bytes)> {
    if size < 4 || headerSize == 0 || headerSize > MAX_METADATA_SIZE || headerSize > size - 4 ||
      headerSize > |body| then None
    else
      var head := ReadHeader(body[..headerSize]);
      if head.None? || !LengthsFit(head.value.lengths, size - 4 - headerSize) then None
      else Some((head.value, body[headerSize..]))
  }

  /** Header and blocks of the next frame, and what follows it. */
  function ReadFrame(stream: Bytes): Option<(Head, seq<Bytes>, Bytes)> {
    match ReadHead(stream)
    case None => None
    case Some((head, body)) =>
      var cut := Cut(body, head.lengths);
      if cut.None? then None else Some((head, cut.value.0, cut.value.1))
  }

  function ReadMessage(stream: Bytes): ReadResult {
    if stream == [] then EndOfInput
    else match ReadFrame(stream)
      case None => Malformed
      case Some((head, blocks, rest)) => ReadDetails(head, blocks, rest)
  }

  function ReadDetails(head: Head, blocks: seq<Bytes>, rest: Bytes): ReadResult {
    var (error, d0) := DecodeError(Dec(head.tail, blocks, None), 0);
    var (observations, d1) := Decode(d0, RecordReaders.OBSERVATIONS);
    if d1.err.Some? || d1.data != [] then Malformed
    else Read(Received(head.id, head.operation, head.metadata, blocks, error, observations), rest)
  }
}
