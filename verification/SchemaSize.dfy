/** How much room a value takes, and that the encoder accepts a value exactly if there is that much room. */
module SchemaSize {
  import opened Wire
  import opened Codec
  import opened Schema
  import opened SchemaProof

  // ----- the room that values take

  function TextBlocks(text: Bytes): seq<Bytes> { if text == [] then [] else [text] }

  /** Bytes of metadata. */
  function Bulk(s: Schema, v: Value): nat
    requires Typed(s, v)
    decreases s, 0
  {
    match s
    case SBool => 1
    case SInt => 8
    case SU64 => 8
    case SBytes => 4
    case SText => 4
    case SRaw => 4 + |v.r|
    case STime => if v.at.IsZero() then 1 else 30
    case SSource => 18
    case SOpt(item) => if v.opt.None? then 1 else 1 + Bulk(item, v.opt.value)
    case SList(item, _) => if v.list.None? then 4 else 4 + BulkItems(item, v.list.value)
    case Field(_, first, rest) => Bulk(first, v.first) + Bulk(rest, v.rest)
    case End => 0
  }

  function BulkItems(item: Schema, values: seq<Value>): nat
    requires forall i :: 0 <= i < |values| ==> Typed(item, values[i])
    decreases item, 1, |values|
  {
    if values == [] then 0 else Bulk(item, values[0]) + BulkItems(item, values[1..])
  }

  /** The blocks, in order: present byte fields and nonempty texts. */
  function BlocksOf(s: Schema, v: Value): seq<Bytes>
    requires Typed(s, v)
    decreases s, 0
  {
    match s
    case SBytes => if v.o.None? then [] else [v.o.value]
    case SText => TextBlocks(v.t)
    case STime => if v.at.IsZero() then [] else TextBlocks(v.at.zone)
    case SSource => (if v.src.data.None? then [] else [v.src.data.value]) + TextBlocks(v.src.path)
    case SOpt(item) => if v.opt.None? then [] else BlocksOf(item, v.opt.value)
    case SList(item, _) => if v.list.None? then [] else BlocksOfItems(item, v.list.value)
    case Field(_, first, rest) => BlocksOf(first, v.first) + BlocksOf(rest, v.rest)
    case _ => []
  }

  function BlocksOfItems(item: Schema, values: seq<Value>): seq<Bytes>
    requires forall i :: 0 <= i < |values| ==> Typed(item, values[i])
    decreases item, 1, |values|
  {
    if values == [] then [] else BlocksOf(item, values[0]) + BlocksOfItems(item, values[1..])
  }

  /** No byte field exceeds the input limit, if there is one; texts are not limited. */
  predicate Within(s: Schema, v: Value, limit: int)
    requires Typed(s, v)
    decreases s, 0
  {
    match s
    case SBytes => v.o.Some? && limit > 0 ==> |v.o.value| <= limit
    case SSource => v.src.data.Some? && limit > 0 ==> |v.src.data.value| <= limit
    case SOpt(item) => v.opt.Some? ==> Within(item, v.opt.value, limit)
    case SList(item, _) => v.list.Some? ==> WithinItems(item, v.list.value, limit)
    case Field(_, first, rest) => Within(first, v.first, limit) && Within(rest, v.rest, limit)
    case _ => true
  }

  predicate WithinItems(item: Schema, values: seq<Value>, limit: int)
    requires forall i :: 0 <= i < |values| ==> Typed(item, values[i])
    decreases item, 1, |values|
  {
    values == [] || (Within(item, values[0], limit) && WithinItems(item, values[1..], limit))
  }

  // ----- room in an encoder

  ghost predicate Usable(e: Enc) {
    e.err.None? && |e.data| <= MAX_METADATA_SIZE && |e.blocks| <= MAX_BLOCKS && Total(e.blocks) < U64_LIMIT
  }

  ghost predicate HasRoom(e: Enc, bulk: nat, blocks: seq<Bytes>, within: bool) {
    && |e.data| + bulk <= MAX_METADATA_SIZE && |e.blocks| + |blocks| <= MAX_BLOCKS
    && Total(e.blocks) + Total(blocks) < U64_LIMIT && within
  }

  /** Accepted exactly if there is room, and then exactly that room is taken. */
  ghost predicate Takes(e: Enc, f: Enc, bulk: nat, blocks: seq<Bytes>, within: bool) {
    && (f.err.None? <==> HasRoom(e, bulk, blocks, within))
    && (f.err.None? ==>
          Usable(f) && |f.data| == |e.data| + bulk && f.blocks == e.blocks + blocks && f.limit == e.limit)
  }

  /** A sticky error: what follows a refusal is refused. */
  lemma TakesTwice(e: Enc, f: Enc, g: Enc, a: nat, x: seq<Bytes>, p: bool, b: nat, y: seq<Bytes>, q: bool)
    requires Usable(e) && Takes(e, f, a, x, p) && (f.err.None? ==> Takes(f, g, b, y, q))
    requires f.err.Some? ==> g.err.Some?
    ensures Takes(e, g, a + b, x + y, p && q)
  {
    TotalConcat(x, y);
    TotalConcat(e.blocks, x);
    if f.err.None? { assert e.blocks + x + y == e.blocks + (x + y); }
  }

  lemma PutTakes(e: Enc, bytes: Bytes)
    requires Usable(e)
    ensures Takes(e, Put(e, bytes), |bytes|, [], true)
  {
  }

  lemma AddTakes(e: Enc, block: Bytes)
    requires Usable(e)
    ensures Takes(e, Add(e, block).0, 0, [block], true)
  {
    TotalConcat(e.blocks, [block]);
    assert Total([block]) == |block| + Total([block][1..]) == |block|;
  }

  lemma BytesTake(e: Enc, value: Option<Bytes>)
    requires Usable(e)
    ensures Takes(e, PutBytes(e, value), 4, if value.None? then [] else [value.value],
                  value.Some? && e.limit > 0 ==> |value.value| <= e.limit)
  {
    if value.Some? && !(e.limit > 0 && |value.value| > e.limit) {
      var (f, ref) := Add(e, value.value);
      AddTakes(e, value.value);
      if f.err.None? { PutTakes(f, U32(ref)); }
      TakesTwice(e, f, PutBytes(e, value), 0, [value.value], true, 4, [], true);
      assert [value.value] + [] == [value.value];
    }
  }

  lemma TextTakes(e: Enc, text: Bytes)
    requires Usable(e)
    ensures Takes(e, PutText(e, text), 4, TextBlocks(text), true)
  {
    if text != [] {
      var (f, ref) := Add(e, text);
      AddTakes(e, text);
      if f.err.None? { PutTakes(f, U32(ref)); }
      TakesTwice(e, f, PutText(e, text), 0, [text], true, 4, [], true);
      assert [text] + [] == [text];
    }
  }

  /** One step after another, with the second one sticky. */
  lemma ThenPut(e: Enc, f: Enc, bytes: Bytes, a: nat, x: seq<Bytes>, p: bool)
    requires Usable(e) && Takes(e, f, a, x, p)
    ensures Takes(e, Put(f, bytes), a + |bytes|, x, p)
  {
    if f.err.None? { PutTakes(f, bytes); }
    TakesTwice(e, f, Put(f, bytes), a, x, p, |bytes|, [], true);
    assert x + [] == x;
  }

  lemma ThenText(e: Enc, f: Enc, text: Bytes, a: nat, x: seq<Bytes>, p: bool)
    requires Usable(e) && Takes(e, f, a, x, p)
    ensures Takes(e, PutText(f, text), a + 4, x + TextBlocks(text), p)
  {
    if f.err.None? { TextTakes(f, text); }
    TakesTwice(e, f, PutText(f, text), a, x, p, 4, TextBlocks(text), true);
  }

  lemma TimeTakes(e: Enc, t: Time)
    requires Usable(e) && t.Valid()
    ensures var blocks := if t.IsZero() then [] else TextBlocks(t.zone);
      Takes(e, EncodeTime(e, t), if t.IsZero() then 1 else 30, blocks, true)
  {
    PutTakes(e, [if t.IsZero() then 0 else 1]);
    if !t.IsZero() {
      var f := TimeSteps(e, t);
      ThenPut(e, f[0], U64(Pattern(t.seconds)), 1, [], true);
      ThenPut(e, f[1], U64(Pattern(t.nanos)), 9, [], true);
      ThenText(e, f[2], t.zone, 17, [], true);
      assert [] + TextBlocks(t.zone) == TextBlocks(t.zone);
      ThenPut(e, f[3], U64(Pattern(t.offset)), 21, TextBlocks(t.zone), true);
      ThenPut(e, f[4], [if t.utc then 1 else 0], 29, TextBlocks(t.zone), true);
    }
  }

  lemma SourceTakes(e: Enc, s: Source)
    requires Usable(e) && IsInt64(s.encoding)
    ensures Takes(e, EncodeSource(e, s), 18, (if s.data.None? then [] else [s.data.value]) + TextBlocks(s.path),
                  s.data.Some? && e.limit > 0 ==> |s.data.value| <= e.limit)
  {
    var x, p := if s.data.None? then [] else [s.data.value], s.data.Some? && e.limit > 0 ==> |s.data.value| <= e.limit;
    BytesTake(e, s.data);
    ThenText(e, PutBytes(e, s.data), s.path, 4, x, p);
    SourceEnds(e, PutText(PutBytes(e, s.data), s.path), s, x + TextBlocks(s.path), p);
  }

  lemma SourceEnds(e: Enc, f: Enc, s: Source, x: seq<Bytes>, p: bool)
    requires Usable(e) && IsInt64(s.encoding) && Takes(e, f, 8, x, p)
    ensures Takes(e, PutBool(PutBool(Put(f, U64(Pattern(s.encoding))), s.file), s.set_), 18, x, p)
  {
    var f1 := Put(f, U64(Pattern(s.encoding)));
    ThenPut(e, f, U64(Pattern(s.encoding)), 8, x, p);
    ThenPut(e, f1, [if s.file then 1 else 0], 16, x, p);
    ThenPut(e, PutBool(f1, s.file), [if s.set_ then 1 else 0], 17, x, p);
  }

  // ----- any layout

  lemma {:induction false} BulkAtLeast(s: Schema, v: Value)
    requires Typed(s, v)
    ensures Bulk(s, v) >= MinSize(s)
  {
    match s
    case Field(_, first, rest) =>
      BulkAtLeast(first, v.first);
      BulkAtLeast(rest, v.rest);
    case _ =>
  }

  lemma {:induction false} ItemsAtLeast(item: Schema, values: seq<Value>)
    requires (forall i :: 0 <= i < |values| ==> Typed(item, values[i])) && MinSize(item) >= 1
    ensures BulkItems(item, values) >= |values|
  {
    if values != [] {
      BulkAtLeast(item, values[0]);
      ItemsAtLeast(item, values[1..]);
    }
  }

  /** A value is accepted exactly if its metadata, its blocks and its byte fields fit. */
  lemma {:induction false} EncodeTakes(e: Enc, s: Schema, v: Value)
    requires Typed(s, v) && Sized(s) && Usable(e)
    ensures Takes(e, Encode(e, s, v), Bulk(s, v), BlocksOf(s, v), Within(s, v, e.limit))
    decreases s, 1
  {
    match s
    case SBool => PutTakes(e, [if v.b then 1 else 0]);
    case SInt => PutTakes(e, U64(Pattern(v.i)));
    case SU64 => PutTakes(e, U64(v.u));
    case SBytes => BytesTake(e, v.o);
    case SText => TextTakes(e, v.t);
    case SRaw => PutTakes(e, U32(|v.r|) + v.r);
    case STime => TimeTakes(e, v.at);
    case SSource => SourceTakes(e, v.src);
    case SOpt(item) => OptTakes(e, item, v);
    case SList(item, minSize) => ListTakes(e, item, minSize, v);
    case Field(_, first, rest) =>
      var f := Encode(e, first, v.first);
      EncodeTakes(e, first, v.first);
      if f.err.Some? { Sticky(f, rest, v.rest); } else { EncodeTakes(f, rest, v.rest); }
      TakesTwice(e, f, Encode(e, s, v), Bulk(first, v.first), BlocksOf(first, v.first), Within(first, v.first, e.limit),
                 Bulk(rest, v.rest), BlocksOf(rest, v.rest), Within(rest, v.rest, e.limit));
    case End => assert e.blocks + [] == e.blocks;
  }

  lemma {:induction false} OptTakes(e: Enc, item: Schema, v: Value)
    requires Typed(SOpt(item), v) && Sized(item) && Usable(e)
    ensures var s := SOpt(item); Takes(e, Encode(e, s, v), Bulk(s, v), BlocksOf(s, v), Within(s, v, e.limit))
    decreases item, 2
  {
    var f := PutBool(e, v.opt.Some?);
    PutTakes(e, [if v.opt.Some? then 1 else 0]);
    if v.opt.Some? {
      var w := v.opt.value;
      if f.err.Some? { Sticky(f, item, w); } else { EncodeTakes(f, item, w); }
      TakesTwice(e, f, Encode(f, item, w), 1, [], true, Bulk(item, w), BlocksOf(item, w), Within(item, w, e.limit));
      assert [] + BlocksOf(item, w) == BlocksOf(item, w);
    }
  }

  lemma {:induction false} ListTakes(e: Enc, item: Schema, minSize: nat, v: Value)
    requires Typed(SList(item, minSize), v) && Sized(SList(item, minSize)) && Usable(e)
    ensures var s := SList(item, minSize);
      Takes(e, Encode(e, s, v), Bulk(s, v), BlocksOf(s, v), Within(s, v, e.limit))
    decreases item, 3
  {
    if v.list.None? {
      PutTakes(e, U32(0));
    } else {
      var values := v.list.value;
      ItemsAtLeast(item, values);
      if |values| <= MAX_METADATA_SIZE {
        var f := PutLength(e, |values|, true);
        PutTakes(e, U32(|values| + 1));
        if f.err.None? { ItemsTake(f, item, values); }
        TakesTwice(e, f, Encode(e, SList(item, minSize), v), 4, [], true, BulkItems(item, values),
                   BlocksOfItems(item, values), WithinItems(item, values, e.limit));
        assert [] + BlocksOfItems(item, values) == BlocksOfItems(item, values);
      }
    }
  }

  lemma {:induction false} ItemsTake(e: Enc, item: Schema, values: seq<Value>)
    requires (forall i :: 0 <= i < |values| ==> Typed(item, values[i])) && Sized(item) && Usable(e)
    ensures Takes(e, EncodeItems(e, item, values), BulkItems(item, values), BlocksOfItems(item, values),
                  WithinItems(item, values, e.limit))
    decreases item, 2, |values|
  {
    if values == [] {
      assert e.blocks + [] == e.blocks;
    } else {
      var f := Encode(e, item, values[0]);
      EncodeTakes(e, item, values[0]);
      if f.err.Some? { StickyItems(f, item, values[1..]); } else { ItemsTake(f, item, values[1..]); }
      TakesTwice(e, f, EncodeItems(e, item, values), Bulk(item, values[0]), BlocksOf(item, values[0]),
                 Within(item, values[0], e.limit), BulkItems(item, values[1..]), BlocksOfItems(item, values[1..]),
                 WithinItems(item, values[1..], e.limit));
    }
  }

  /** From scratch: 64 KiB of metadata and 1024 blocks, each present byte field within the input limit. */
  lemma AcceptedExactly(s: Schema, v: Value, limit: int)
    requires Typed(s, v) && Sized(s)
    ensures var e := Encode(NewEnc(limit), s, v);
      && (e.err.None? <==>
            && Bulk(s, v) <= 64 * 1024 && |BlocksOf(s, v)| <= 1024 && Total(BlocksOf(s, v)) < U64_LIMIT
            && Within(s, v, limit))
      && (e.err.None? ==> |e.data| == Bulk(s, v) && e.blocks == BlocksOf(s, v))
  {
    EncodeTakes(NewEnc(limit), s, v);
    assert [] + BlocksOf(s, v) == BlocksOf(s, v);
  }
}
