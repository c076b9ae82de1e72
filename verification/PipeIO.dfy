/** Messages on mutable pipe endpoints: short writes, chunked reads, and the loops around them. */
module PipeIO {
  import opened Wire
  import opened Codec
  import opened Schema
  import opened RecordWriters
  import opened ErrorTree
  import opened ErrorCodec
  import opened Framing

  // ----- writing

  /** A pipe that may take any part of what it is given, and may fail. */
  class Writer {
    var sent: Bytes

    constructor ()
      ensures sent == []
    {
      sent := [];
    }

    method Write(data: Bytes) returns (n: int, failed: bool)
      modifies this
      ensures old(sent) <= sent <= old(sent) + data
      ensures !failed && 0 <= n <= |data| ==> sent == old(sent) + data[..n]
    {
      n, failed := *, *;
      var taken: nat := if 0 <= n <= |data| then n else 0;
      sent := sent + data[..taken];
    }
  }

  method WriteAll(w: Writer, data: Bytes) returns (ok: bool)
    modifies w
    ensures old(w.sent) <= w.sent <= old(w.sent) + data
    ensures ok ==> w.sent == old(w.sent) + data
  {
    var left := data;
    ghost var done: nat := 0;
    while left != []
      invariant done + |left| == |data| && left == data[done..]
      invariant w.sent == old(w.sent) + data[..done]
      decreases |left|
    {
      ghost var before := w.sent;
      var n, failed := w.Write(left);
      assert old(w.sent) + data == before + left;
      if failed || n <= 0 || n > |left| { return false; }
      assert data[..done] + left[..n] == data[..done + n];
      left := left[n..];
      done := done + n;
    }
    assert data[..done] == data;
    return true;
  }

  /** The record encoders: fields in layout order, collections item by item. */
  method PutValue(e: PayloadEncoder, s: Schema, v: Value)
    requires e.Valid() && Typed(s, v)
    modifies e
    ensures e.Valid() && e.View() == Encode(old(e.View()), s, v)
    decreases s
  {
    match s
    case SBool => e.Boolean(v.b);
    case SInt => e.Uint64(Pattern(v.i));
    case SU64 => e.Uint64(v.u);
    case SBytes => e.ByteField(v.o);
    case SText => e.TextField(v.t);
    case SRaw => e.Raw(v.r);
    case STime => PutTimestamp(e, v.at);
    case SSource =>
      e.ByteField(v.src.data);
      e.TextField(v.src.path);
      e.Uint64(Pattern(v.src.encoding));
      e.Boolean(v.src.file);
      e.Boolean(v.src.set_);
    case SOpt(item) =>
      e.Boolean(v.opt.Some?);
      if v.opt.Some? { PutValue(e, item, v.opt.value); }
    case SList(item, _) =>
      var list := if v.list.Some? then v.list.value else [];
      var go := e.Length(|list|, v.list.Some?);
      if go {
        ghost var first := e.View();
        for k := 0 to |list|
          invariant e.Valid()
          invariant EncodeItems(first, item, list) == EncodeItems(e.View(), item, list[k..])
        {
          assert list[k..][1..] == list[k + 1..];
          PutValue(e, item, list[k]);
        }
      }
    case Field(_, first, rest) =>
      PutValue(e, first, v.first);
      PutValue(e, rest, v.rest);
    case End =>
  }

  method BuildDetails(m: Message, render: Err -> Bytes) returns (e: PayloadEncoder)
    requires WellFormed(m)
    ensures fresh(e) && e.Valid() && e.View() == Details(m, render)
  {
    e := new PayloadEncoder(0);
    ghost var first := e.View();
    for k := 0 to |m.payload.blocks|
      invariant e.Valid() && fresh(e)
      invariant AddAll(first, m.payload.blocks) == AddAll(e.View(), m.payload.blocks[k..])
    {
      assert m.payload.blocks[k..][1..] == m.payload.blocks[k + 1..];
      var ref := e.Append(m.payload.blocks[k]);
    }
    PutError(e, m.error, 0, render);
    PutValue(e, OBSERVATIONS, m.observations);
  }

  method BuildHeader(m: Message, details: Enc) returns (h: PayloadEncoder)
    ensures fresh(h) && h.Valid() && h.View() == Header(m, details)
  {
    h := new PayloadEncoder(0);
    h.Uint64(m.id);
    h.Raw(m.operation);
    h.Raw(m.payload.metadata);
    h.Raw(details.data);
    h.Uint32(|details.blocks|);
    ghost var first := h.View();
    for k := 0 to |details.blocks|
      invariant h.Valid() && fresh(h)
      invariant PutLengths(first, details.blocks) == PutLengths(h.View(), details.blocks[k..])
    {
      assert details.blocks[k..][1..] == details.blocks[k + 1..];
      h.Uint64(|details.blocks[k]|);
    }
  }

  datatype WriteOutcome = Complete | NotWritten(fault: Fault) | Broken

  /**
   * writeMessage: a refused message puts no byte on the pipe; otherwise the pipe carries a prefix of the one frame
   * the message stands for, and all of it on success.
   */
  method WriteMessage(w: Writer, m: Message, render: Err -> Bytes) returns (r: WriteOutcome)
    requires WellFormed(m)
    modifies w
    ensures FrameOf(m, render).Refused? <==> r.NotWritten?
    ensures r.NotWritten? ==> r.fault == FrameOf(m, render).fault && w.sent == old(w.sent)
    ensures !r.NotWritten? ==> old(w.sent) <= w.sent <= old(w.sent) + FrameOf(m, render).bytes
    ensures r.Complete? ==> w.sent == old(w.sent) + FrameOf(m, render).bytes
  {
    if |m.payload.metadata| > MAX_METADATA_SIZE || |m.payload.blocks| > MAX_BLOCKS {
      return NotWritten(MetadataTooLarge);
    }
    var e := BuildDetails(m, render);
    if e.err.Some? { return NotWritten(e.err.value); }
    var details := e.View();
    var h := BuildHeader(m, details);
    if h.err.Some? { return NotWritten(h.err.value); }
    if e.size > U64_LIMIT - 1 - |h.data| - 4 { return NotWritten(Protocol); }
    r := WriteFrame(w, h.data, e.blocks, e.size);
  }

  method WriteFrame(w: Writer, header: Bytes, blocks: seq<Bytes>, size: nat) returns (r: WriteOutcome)
    requires size == Total(blocks)
    modifies w
    ensures !r.NotWritten?
    ensures old(w.sent) <= w.sent <= old(w.sent) + Assembled(header, blocks)
    ensures r.Complete? ==> w.sent == old(w.sent) + Assembled(header, blocks)
  {
    var prefix := U64(size + |header| + 4) + U32(|header|);
    ghost var start := w.sent;
    ghost var whole := Assembled(header, blocks);
    assert whole == prefix + (header + Concat(blocks));
    var ok := WriteAll(w, prefix);
    assert start + whole == (start + prefix) + (header + Concat(blocks));
    if !ok { return Broken; }
    ok := WriteAll(w, header);
    assert start + whole == (start + prefix + header) + Concat(blocks);
    if !ok { return Broken; }
    ghost var body := w.sent;
    assert w.sent + Concat(blocks) == start + whole;
    for k := 0 to |blocks|
      invariant start <= w.sent
      invariant w.sent + Concat(blocks[k..]) == start + whole
    {
      assert blocks[k..][1..] == blocks[k + 1..];
      ghost var before := w.sent;
      ok := WriteAll(w, blocks[k]);
      assert before + Concat(blocks[k..]) == (before + blocks[k]) + Concat(blocks[k + 1..]);
      if !ok { return Broken; }
    }
    assert blocks[|blocks|..] == [];
    return Complete;
  }

  // ----- reading

  class Reader {
    var data: Bytes

    constructor (data: Bytes)
      ensures this.data == data
    {
      this.data := data;
    }

    /** io.ReadFull: all of `n` bytes or an error. */
    method ReadFull(n: nat) returns (value: Option<Bytes>)
      modifies this
      ensures value.Some? <==> n <= |old(data)|
      ensures value.Some? ==> value.value == old(data)[..n] && data == old(data)[n..]
    {
      if n > |data| {
        data := [];
        return None;
      }
      value := Some(data[..n]);
      data := data[n..];
    }
  }

  const FIRST_CHUNK := 32768
  const MAX_CHUNK := 1048576

  /** readBlock: chunks that double up to a cap; together they are exactly the announced bytes. */
  method ReadBlock(r: Reader, length: nat) returns (value: Option<Bytes>)
    modifies r
    ensures value.Some? <==> length <= |old(r.data)|
    ensures value.Some? ==> value.value == old(r.data)[..length] && r.data == old(r.data)[length..]
  {
    var chunk := FIRST_CHUNK;
    var remaining := length;
    var joined: Bytes := [];
    while remaining > 0
      invariant 0 <= remaining <= length && FIRST_CHUNK <= chunk <= MAX_CHUNK
      invariant length - remaining <= |old(r.data)|
      invariant joined == old(r.data)[..length - remaining] && r.data == old(r.data)[length - remaining..]
      decreases remaining
    {
      var size := if remaining < chunk then remaining else chunk;
      var part := r.ReadFull(size);
      if part.None? { return None; }
      joined := joined + part.value;
      remaining := remaining - size;
      chunk := if chunk * 2 < MAX_CHUNK then chunk * 2 else MAX_CHUNK;
    }
    return Some(joined);
  }

  /** The blocks of a frame, one after the other. */
  method ReadBlocks(r: Reader, lengths: seq<nat>) returns (blocks: Option<seq<Bytes>>)
    modifies r
    ensures blocks.Some? <==> Cut(old(r.data), lengths).Some?
    ensures blocks.Some? ==> Cut(old(r.data), lengths) == Some((blocks.value, r.data))
  {
    var list: seq<Bytes> := [];
    for k := 0 to |lengths|
      invariant Cut(old(r.data), lengths).Some? <==> Cut(r.data, lengths[k..]).Some?
      invariant Cut(old(r.data), lengths).Some? ==>
        && Cut(old(r.data), lengths).value.0 == list + Cut(r.data, lengths[k..]).value.0
        && Cut(old(r.data), lengths).value.1 == Cut(r.data, lengths[k..]).value.1
    {
      assert lengths[k..][1..] == lengths[k + 1..];
      var block := ReadBlock(r, lengths[k]);
      if block.None? { return None; }
      list := list + [block.value];
    }
    assert lengths[|lengths|..] == [] && list + [] == list;
    return Some(list);
  }

  method ReceiveHead(r: Reader) returns (head: Option<Head>)
    modifies r
    ensures head.Some? <==> ReadHead(old(r.data)).Some?
    ensures head.Some? ==> ReadHead(old(r.data)) == Some((head.value, r.data))
  {
    ghost var stream := r.data;
    var prefix := r.ReadFull(8);
    if prefix.None? { return None; }
    var size := FromBigEndian(prefix.value);
    if size < 4 { return None; }
    var second := r.ReadFull(4);
    if second.None? { return None; }
    assert second.value == stream[8..12] && r.data == stream[12..];
    head := ReceiveHeader(r, size, FromBigEndian(second.value));
  }

  method ReceiveHeader(r: Reader, size: nat, headerSize: nat) returns (head: Option<Head>)
    requires 4 <= size
    modifies r
    ensures head.Some? <==> ReadSized(size, headerSize, old(r.data)).Some?
    ensures head.Some? ==> ReadSized(size, headerSize, old(r.data)) == Some((head.value, r.data))
  {
    if headerSize == 0 || headerSize > MAX_METADATA_SIZE || headerSize > size - 4 { return None; }
    var header := r.ReadFull(headerSize);
    if header.None? { return None; }
    head := ReadHeader(header.value);
    if head.None? || !LengthsFit(head.value.lengths, size - 4 - headerSize) { return None; }
  }

  /** readMessage: the result and what is left on the pipe agree with the frame format. */
  method ReceiveMessage(r: Reader) returns (result: ReadResult)
    modifies r
    ensures result == ReadMessage(old(r.data))
    ensures result.Read? ==> r.data == result.rest
  {
    if r.data == [] { return EndOfInput; }
    var head := ReceiveHead(r);
    if head.None? { return Malformed; }
    var blocks := ReadBlocks(r, head.value.lengths);
    if blocks.None? { return Malformed; }
    return ReadDetails(head.value, blocks.value, r.data);
  }
}
