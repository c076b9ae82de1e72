/** Which messages become frames, and which bytes the reader takes for a frame. */
module FrameLimits {
  import opened Wire
  import opened Codec
  import opened Schema
  import opened SchemaProof
  import opened SchemaSize
  import opened RecordWriters
  import opened Records
  import opened ErrorTree
  import opened ErrorSize
  import opened Framing
  import opened FramingProof

  // ----- writing

  lemma {:induction false} AddAllTakes(e: Enc, blocks: seq<Bytes>)
    requires Usable(e)
    ensures Takes(e, AddAll(e, blocks), 0, blocks, true)
    decreases |blocks|
  {
    if blocks == [] {
      assert e.blocks + [] == e.blocks;
    } else {
      var f := Add(e, blocks[0]).0;
      AddTakes(e, blocks[0]);
      if f.err.Some? { AddAllSticky(f, blocks[1..]); } else { AddAllTakes(f, blocks[1..]); }
      TakesTwice(e, f, AddAll(e, blocks), 0, [blocks[0]], true, 0, blocks[1..], true);
      assert [blocks[0]] + blocks[1..] == blocks;
    }
  }

  /** Layouts without byte fields and texts take no blocks and mind no limit. */
  lemma {:induction false} BlocklessRoom(s: Schema, v: Value, limit: int)
    requires Typed(s, v) && Blockless(s)
    ensures BlocksOf(s, v) == [] && Within(s, v, limit)
    decreases s
  {
    match s
    case Field(_, first, rest) =>
      BlocklessRoom(first, v.first, limit);
      BlocklessRoom(rest, v.rest, limit);
    case _ =>
  }

  lemma {:induction false} BlocklessItems(item: Schema, values: seq<Value>, limit: int)
    requires (forall i :: 0 <= i < |values| ==> Typed(item, values[i])) && Blockless(item)
    ensures BlocksOfItems(item, values) == [] && WithinItems(item, values, limit)
  {
    if values != [] {
      BlocklessRoom(item, values[0], limit);
      BlocklessItems(item, values[1..], limit);
    }
  }

  lemma ObservationRoom(v: Value, limit: int)
    requires Typed(OBSERVATIONS, v)
    ensures BlocksOf(OBSERVATIONS, v) == [] && Within(OBSERVATIONS, v, limit)
  {
    if v.list.Some? {
      assert Blockless(OBSERVATION_RESULT);
      assert Blockless(OBSERVATION);
      BlocklessItems(OBSERVATION, v.list.value, limit);
    }
  }

  /** The blocks of a frame: those of the payload, then the texts of the error. */
  function FrameBlocks(m: Message, render: Err -> Bytes): seq<Bytes>
    requires WellFormed(m)
  {
    m.payload.blocks + RefBlocks(m.error, render)
  }

  /** Error and observations, encoded. */
  function TailSize(m: Message): nat
    requires WellFormed(m)
  {
    RefBulk(m.error) + Bulk(OBSERVATIONS, m.observations)
  }

  /** Identifier, three counted strings, the number of blocks and their lengths. */
  function HeaderSize(m: Message, render: Err -> Bytes): nat
    requires WellFormed(m)
  {
    8 + (4 + |m.operation|) + (4 + |m.payload.metadata|) + (4 + TailSize(m)) + 4 + 8 * |FrameBlocks(m, render)|
  }

  lemma DetailsTake(m: Message, render: Err -> Bytes)
    requires WellFormed(m)
    ensures Takes(NewEnc(0), Details(m, render), TailSize(m), FrameBlocks(m, render), RefRank(m.error) <= MAX_DEPTH)
  {
    var e := NewEnc(0);
    var e0 := AddAll(e, m.payload.blocks);
    var e1 := EncodeError(e0, m.error, 0, render);
    AddAllTakes(e, m.payload.blocks);
    if e0.err.None? { ErrorTakes(e0, m.error, 0, render); }
    TakesTwice(e, e0, e1, 0, m.payload.blocks, true, RefBulk(m.error), RefBlocks(m.error, render),
               RefRank(m.error) <= MAX_DEPTH);
    ObservationsSized();
    ObservationRoom(m.observations, 0);
    if e1.err.Some? {
      Sticky(e1, OBSERVATIONS, m.observations);
    } else {
      EncodeTakes(e1, OBSERVATIONS, m.observations);
    }
    TakesTwice(e, e1, Details(m, render), RefBulk(m.error), FrameBlocks(m, render), RefRank(m.error) <= MAX_DEPTH,
               Bulk(OBSERVATIONS, m.observations), [], true);
    assert FrameBlocks(m, render) + [] == FrameBlocks(m, render);
  }

  lemma ThenRaw(e: Enc, f: Enc, value: Bytes, a: nat)
    requires Usable(e) && Takes(e, f, a, [], true)
    ensures Takes(e, PutRaw(f, value), a + 4 + |value|, [], true)
  {
    if |value| <= MAX_METADATA_SIZE { ThenPut(e, f, U32(|value|) + value, a, [], true); }
  }

  lemma {:induction false} ThenLengths(e: Enc, f: Enc, blocks: seq<Bytes>, a: nat)
    requires Usable(e) && Takes(e, f, a, [], true)
    ensures Takes(e, PutLengths(f, blocks), a + 8 * |blocks|, [], true)
    decreases |blocks|
  {
    if blocks != [] {
      ThenPut(e, f, U64(|blocks[0]|), a, [], true);
      ThenLengths(e, Put(f, U64(|blocks[0]|)), blocks[1..], a + 8);
    }
  }

  lemma HeaderTakes(m: Message, details: Enc)
    ensures Takes(NewEnc(0), Header(m, details),
                  24 + |m.operation| + |m.payload.metadata| + |details.data| + 8 * |details.blocks|, [], true)
  {
    var e := NewEnc(0);
    var h0 := Put(e, U64(m.id));
    var h1 := PutRaw(h0, m.operation);
    var h2 := PutRaw(h1, m.payload.metadata);
    var h3 := PutRaw(h2, details.data);
    PutTakes(e, U64(m.id));
    ThenRaw(e, h0, m.operation, 8);
    ThenRaw(e, h1, m.payload.metadata, 12 + |m.operation|);
    ThenRaw(e, h2, details.data, 16 + |m.operation| + |m.payload.metadata|);
    ThenPut(e, h3, U32(|details.blocks|), 20 + |m.operation| + |m.payload.metadata| + |details.data|, [], true);
    ThenLengths(e, Put(h3, U32(|details.blocks|)), details.blocks,
                24 + |m.operation| + |m.payload.metadata| + |details.data|);
  }

  /** A message becomes a frame exactly if its error is not too deep, its blocks are at most 1024, and all sizes fit. */
  lemma FrameExactly(m: Message, render: Err -> Bytes)
    requires WellFormed(m)
    ensures FrameOf(m, render).Frame? <==>
      && RefRank(m.error) <= 32 && |FrameBlocks(m, render)| <= 1024 && HeaderSize(m, render) <= 64 * 1024
      && Total(FrameBlocks(m, render)) + HeaderSize(m, render) + 4 < U64_LIMIT
  {
    var details := Details(m, render);
    DetailsTake(m, render);
    assert [] + FrameBlocks(m, render) == FrameBlocks(m, render);
    TotalConcat(m.payload.blocks, RefBlocks(m.error, render));
    HeaderTakes(m, details);
  }

  // ----- reading

  lemma {:induction false} FitIsSum(lengths: seq<nat>, remaining: nat)
    requires LengthsFit(lengths, remaining)
    ensures Sum(lengths) == remaining
  {
    if lengths != [] { FitIsSum(lengths[1..], remaining - lengths[0]); }
  }

  /** Cutting takes exactly the announced lengths, whatever follows. */
  lemma {:induction false} CutTakes(stream: Bytes, lengths: seq<nat>)
    ensures Cut(stream, lengths).Some? <==> Sum(lengths) <= |stream|
    ensures Cut(stream, lengths).Some? ==>
      && Concat(Cut(stream, lengths).value.0) == stream[..Sum(lengths)]
      && Cut(stream, lengths).value.1 == stream[Sum(lengths)..]
    decreases |lengths|
  {
    if lengths != [] && lengths[0] <= |stream| {
      var first, after := stream[..lengths[0]], stream[lengths[0]..];
      CutTakes(after, lengths[1..]);
      if Cut(after, lengths[1..]).Some? {
        var (blocks, rest) := Cut(after, lengths[1..]).value;
        assert ([first] + blocks)[1..] == blocks;
        assert first + after[..Sum(lengths[1..])] == stream[..Sum(lengths)];
        assert after[Sum(lengths[1..])..] == stream[Sum(lengths)..];
      }
    }
  }

  /** The size word in front of a frame. */
  function Announced(stream: Bytes): nat
    requires |stream| >= 8
  {
    FromBigEndian(stream[..8])
  }

  lemma HeadOf(stream: Bytes) returns (headerSize: nat)
    requires ReadHead(stream).Some?
    ensures |stream| >= 12 && headerSize == FromBigEndian(stream[8..12])
    ensures 12 + headerSize <= |stream| && 4 + headerSize <= Announced(stream)
    ensures ReadHead(stream).value.1 == stream[12 + headerSize..]
    ensures Sum(ReadHead(stream).value.0.lengths) == Announced(stream) - 4 - headerSize
  {
    headerSize := FromBigEndian(stream[8..12]);
    FitIsSum(ReadHead(stream).value.0.lengths, Announced(stream) - 4 - headerSize);
    SkipTwice(stream, 12, headerSize);
  }

  /** The reader consumes the size word and exactly as many bytes as it announces. */
  lemma ReadConsumes(stream: Bytes)
    requires ReadMessage(stream).Read?
    ensures |stream| >= 12 && 8 + Announced(stream) <= |stream|
    ensures ReadMessage(stream).rest == stream[8 + Announced(stream)..]
  {
    var n := HeadOf(stream);
    var (head, body) := ReadHead(stream).value;
    CutTakes(body, head.lengths);
    SkipTwice(stream, 12 + n, Sum(head.lengths));
  }

  lemma SkipTwice(stream: Bytes, a: nat, b: nat)
    requires a + b <= |stream|
    ensures stream[a..][b..] == stream[a + b..]
  {
  }

  /** Input ends only between frames: any shorter nonempty piece of a frame is malformed. */
  lemma PrefixMalformed(stream: Bytes, k: nat)
    requires ReadMessage(stream).Read? && 0 < k < |stream| - |ReadMessage(stream).rest|
    ensures ReadMessage(stream[..k]) == Malformed
  {
    ReadConsumes(stream);
    var piece := stream[..k];
    assert k >= 8 ==> piece[..8] == stream[..8];
    if ReadMessage(piece).Read? { ReadConsumes(piece); }
  }

  /** What follows a frame does not matter. */
  lemma FrameIsLocal(stream: Bytes, frame: Bytes, other: Bytes)
    requires ReadMessage(stream).Read? && stream == frame + ReadMessage(stream).rest
    ensures ReadMessage(frame + other) == Read(ReadMessage(stream).message, other)
  {
    var rest := ReadMessage(stream).rest;
    var a, b, header, behind := SplitFrame(stream, frame, rest);
    FrameLayout(a, b, header, behind, rest);
    FrameLayout(a, b, header, behind, other);
    var (head, body) := ReadHead(stream).value;
    SizedLocal(FromBigEndian(a), header, behind, rest, other);
    CutTakes(behind + rest, head.lengths);
    CutBehind(behind, rest, other, head.lengths);
  }

  lemma SplitFrame(stream: Bytes, frame: Bytes, rest: Bytes) returns (a: Bytes, b: Bytes, header: Bytes, behind: Bytes)
    requires ReadMessage(stream).Read? && stream == frame + rest && rest == ReadMessage(stream).rest
    ensures |a| == 8 && |b| == 4 && |header| == FromBigEndian(b) && frame == a + b + header + behind
    ensures ReadHead(stream).Some? && Sum(ReadHead(stream).value.0.lengths) == |behind|
  {
    ReadConsumes(stream);
    var n := HeadOf(stream);
    a, b, header, behind := FourPieces(frame, rest, n);
  }

  lemma FourPieces(frame: Bytes, rest: Bytes, n: nat) returns (a: Bytes, b: Bytes, header: Bytes, behind: Bytes)
    requires 12 + n <= |frame|
    ensures a == (frame + rest)[..8] && b == (frame + rest)[8..12] && |header| == n && |behind| == |frame| - 12 - n
    ensures frame == a + b + header + behind
  {
    a, b, header, behind := frame[..8], frame[8..12], frame[12..12 + n], frame[12 + n..];
  }

  lemma SizedLocal(size: nat, header: Bytes, behind: Bytes, rest: Bytes, other: Bytes)
    requires ReadSized(size, |header|, header + (behind + rest)).Some?
    ensures ReadSized(size, |header|, header + (behind + rest)).value.1 == behind + rest
    ensures ReadSized(size, |header|, header + (behind + other)) ==
            Some((ReadSized(size, |header|, header + (behind + rest)).value.0, behind + other))
  {
    var x, y := header + (behind + rest), header + (behind + other);
    assert x[..|header|] == header == y[..|header|];
    assert x[|header|..] == behind + rest && y[|header|..] == behind + other;
  }

  lemma {:induction false} CutBehind(a: Bytes, rest: Bytes, other: Bytes, lengths: seq<nat>)
    requires Sum(lengths) == |a|
    ensures Cut(a + rest, lengths).Some? && Cut(a + other, lengths) == Some((Cut(a + rest, lengths).value.0, other))
    decreases |lengths|
  {
    if lengths == [] {
      assert a + other == other;
    } else {
      var first, after := a[..lengths[0]], a[lengths[0]..];
      assert (a + rest)[..lengths[0]] == first && (a + rest)[lengths[0]..] == after + rest;
      assert (a + other)[..lengths[0]] == first && (a + other)[lengths[0]..] == after + other;
      CutBehind(after, rest, other, lengths[1..]);
    }
  }
}
