/** Every typed payload decodes to what was encoded, for every layout whose declared item minima are true bounds. */
module SchemaProof {
  import opened Wire
  import opened Codec
  import opened Schema

  /** The metadata a step added. */
  ghost function Delta(e: Enc, f: Enc): Bytes {
    if |e.data| <= |f.data| then f.data[|e.data|..] else []
  }

  ghost predicate Grew(e: Enc, f: Enc, least: nat) {
    Wrote(e, f, Delta(e, f)) && |Delta(e, f)| >= least
  }

  lemma WroteDelta(e: Enc, f: Enc, m: Bytes)
    requires Wrote(e, f, m)
    ensures Delta(e, f) == m
  {
  }

  lemma GrewTwice(e: Enc, f: Enc, g: Enc, a: nat, b: nat)
    requires Grew(e, f, a) && Grew(f, g, b)
    ensures Grew(e, g, a + b) && Delta(e, g) == Delta(e, f) + Delta(f, g)
  {
    WroteTwice(e, f, g, Delta(e, f), Delta(f, g));
    WroteDelta(e, g, Delta(e, f) + Delta(f, g));
  }

  // ----- single steps

  lemma PutGrew(e: Enc, bytes: Bytes)
    requires e.err.None? && Put(e, bytes).err.None?
    ensures Grew(e, Put(e, bytes), |bytes|) && Delta(e, Put(e, bytes)) == bytes
  {
    WroteDelta(e, Put(e, bytes), bytes);
  }

  lemma BytesGrew(e: Enc, value: Option<Bytes>)
    requires e.err.None? && |e.blocks| <= MAX_BLOCKS && PutBytes(e, value).err.None?
    ensures Grew(e, PutBytes(e, value), 4)
  {
    var m := BytesBack(e, value, PutBytes(e, value).blocks, []);
    WroteDelta(e, PutBytes(e, value), m);
  }

  lemma TextGrew(e: Enc, text: Bytes)
    requires e.err.None? && |e.blocks| <= MAX_BLOCKS && PutText(e, text).err.None?
    ensures Grew(e, PutText(e, text), 4)
  {
    var m := TextBack(e, text, PutText(e, text).blocks, []);
    WroteDelta(e, PutText(e, text), m);
  }

  lemma BytesDecode(e: Enc, value: Option<Bytes>, blocks: seq<Bytes>, rest: Bytes)
    requires e.err.None? && |e.blocks| <= MAX_BLOCKS && PutBytes(e, value).err.None?
    requires PutBytes(e, value).blocks <= blocks
    ensures GetBytes(Dec(Delta(e, PutBytes(e, value)) + rest, blocks, None)) == (value, Dec(rest, blocks, None))
  {
    var m := BytesBack(e, value, blocks, rest);
    WroteDelta(e, PutBytes(e, value), m);
  }

  lemma TextDecode(e: Enc, text: Bytes, blocks: seq<Bytes>, rest: Bytes)
    requires e.err.None? && |e.blocks| <= MAX_BLOCKS && PutText(e, text).err.None?
    requires PutText(e, text).blocks <= blocks
    ensures GetText(Dec(Delta(e, PutText(e, text)) + rest, blocks, None)) == (text, Dec(rest, blocks, None))
  {
    var m := TextBack(e, text, blocks, rest);
    WroteDelta(e, PutText(e, text), m);
  }

  lemma IntDecode(i: int, rest: Bytes, blocks: seq<Bytes>)
    requires IsInt64(i)
    ensures GetInt(Dec(U64(Pattern(i)) + rest, blocks, None)) == (i, Dec(rest, blocks, None))
  {
    UintBack(8, Pattern(i), rest, blocks);
  }

  // ----- times and sources, field by field

  /** The states an encoder passes through while writing a present time. */
  ghost function TimeSteps(e: Enc, t: Time): seq<Enc>
    requires t.Valid()
  {
    var f0 := PutBool(e, true);
    var f1 := Put(f0, U64(Pattern(t.seconds)));
    var f2 := Put(f1, U64(Pattern(t.nanos)));
    var f3 := PutText(f2, t.zone);
    var f4 := Put(f3, U64(Pattern(t.offset)));
    [f0, f1, f2, f3, f4, PutBool(f4, t.utc)]
  }

  lemma TimeCodec(e: Enc, t: Time, blocks: seq<Bytes>, rest: Bytes)
    requires t.Valid() && e.err.None? && |e.blocks| <= MAX_BLOCKS && EncodeTime(e, t).err.None?
    ensures Grew(e, EncodeTime(e, t), 1)
    ensures EncodeTime(e, t).blocks <= blocks ==>
      DecodeTime(Dec(Delta(e, EncodeTime(e, t)) + rest, blocks, None)) == (Arrived(t), Dec(rest, blocks, None))
  {
    var g := EncodeTime(e, t);
    if t.IsZero() {
      PutGrew(e, [0]);
      BoolBack(false, rest, blocks);
    } else {
      TimeGrew(e, t);
      if g.blocks <= blocks { TimeDecode(e, t, blocks, rest); }
    }
  }

  lemma TimeGrew(e: Enc, t: Time)
    requires t.Valid() && !t.IsZero() && e.err.None? && |e.blocks| <= MAX_BLOCKS && EncodeTime(e, t).err.None?
    ensures var f := TimeSteps(e, t);
      && EncodeTime(e, t) == f[5] && Grew(e, f[5], 1)
      && |f[2].blocks| <= MAX_BLOCKS && f[3].blocks <= f[5].blocks
      && Delta(e, f[5]) == [1] + (U64(Pattern(t.seconds)) + (U64(Pattern(t.nanos)) + (Delta(f[2], f[3]) +
                           (U64(Pattern(t.offset)) + [if t.utc then 1 else 0]))))
  {
    var f := TimeSteps(e, t);
    var g := f[5];
    PutGrew(e, [1]);
    PutGrew(f[0], U64(Pattern(t.seconds)));
    PutGrew(f[1], U64(Pattern(t.nanos)));
    TextGrew(f[2], t.zone);
    PutGrew(f[3], U64(Pattern(t.offset)));
    PutGrew(f[4], [if t.utc then 1 else 0]);
    GrewTwice(f[3], f[4], g, 8, 1);
    GrewTwice(f[2], f[3], g, 4, 9);
    GrewTwice(f[1], f[2], g, 8, 13);
    GrewTwice(f[0], f[1], g, 8, 21);
    GrewTwice(e, f[0], g, 1, 29);
  }

  lemma TimeDecode(e: Enc, t: Time, blocks: seq<Bytes>, rest: Bytes)
    requires t.Valid() && !t.IsZero() && e.err.None? && |e.blocks| <= MAX_BLOCKS
    requires var f := TimeSteps(e, t);
      && f[5].err.None? && f[5].blocks <= blocks && |f[2].blocks| <= MAX_BLOCKS && f[3].blocks <= f[5].blocks
      && Delta(e, f[5]) == [1] + (U64(Pattern(t.seconds)) + (U64(Pattern(t.nanos)) + (Delta(f[2], f[3]) +
                           (U64(Pattern(t.offset)) + [if t.utc then 1 else 0]))))
    ensures DecodeTime(Dec(Delta(e, TimeSteps(e, t)[5]) + rest, blocks, None)) == (t, Dec(rest, blocks, None))
  {
    var f := TimeSteps(e, t);
    var r5 := [if t.utc then 1 else 0] + rest;
    var r4 := U64(Pattern(t.offset)) + r5;
    var r3 := Delta(f[2], f[3]) + r4;
    var r2 := U64(Pattern(t.nanos)) + r3;
    var r1 := U64(Pattern(t.seconds)) + r2;
    var tail := U64(Pattern(t.seconds)) + (U64(Pattern(t.nanos)) + (Delta(f[2], f[3]) +
                (U64(Pattern(t.offset)) + [if t.utc then 1 else 0])));
    Assoc([1], tail, rest);
    Regroup(U64(Pattern(t.seconds)), U64(Pattern(t.nanos)), Delta(f[2], f[3]), U64(Pattern(t.offset)),
            [if t.utc then 1 else 0], rest);
    BoolBack(true, r1, blocks);
    IntDecode(t.seconds, r2, blocks);
    IntDecode(t.nanos, r3, blocks);
    TextDecode(f[2], t.zone, blocks, r4);
    IntDecode(t.offset, r5, blocks);
    BoolBack(t.utc, rest, blocks);
  }

  ghost function SourceSteps(e: Enc, s: Source): seq<Enc>
    requires IsInt64(s.encoding)
  {
    var f0 := PutBytes(e, s.data);
    var f1 := PutText(f0, s.path);
    var f2 := Put(f1, U64(Pattern(s.encoding)));
    var f3 := PutBool(f2, s.file);
    [f0, f1, f2, f3, PutBool(f3, s.set_)]
  }

  lemma SourceCodec(e: Enc, s: Source, blocks: seq<Bytes>, rest: Bytes)
    requires IsInt64(s.encoding) && e.err.None? && |e.blocks| <= MAX_BLOCKS && EncodeSource(e, s).err.None?
    ensures Grew(e, EncodeSource(e, s), 18)
    ensures EncodeSource(e, s).blocks <= blocks ==>
      DecodeSource(Dec(Delta(e, EncodeSource(e, s)) + rest, blocks, None)) ==
        (ArrivedSource(s), Dec(rest, blocks, None))
  {
    var f := SourceSteps(e, s);
    var g := f[4];
    BytesGrew(e, s.data);
    TextGrew(f[0], s.path);
    PutGrew(f[1], U64(Pattern(s.encoding)));
    PutGrew(f[2], [if s.file then 1 else 0]);
    PutGrew(f[3], [if s.set_ then 1 else 0]);
    GrewTwice(f[2], f[3], g, 1, 1);
    GrewTwice(f[1], f[2], g, 8, 2);
    GrewTwice(f[0], f[1], g, 4, 10);
    GrewTwice(e, f[0], g, 4, 14);
    if g.blocks <= blocks { SourceDecode(e, s, blocks, rest); }
  }

  lemma SourceDecode(e: Enc, s: Source, blocks: seq<Bytes>, rest: Bytes)
    requires IsInt64(s.encoding) && e.err.None? && |e.blocks| <= MAX_BLOCKS
    requires var f := SourceSteps(e, s);
      && f[4].err.None? && f[4].blocks <= blocks && |f[0].blocks| <= MAX_BLOCKS
      && f[0].blocks <= f[4].blocks && f[1].blocks <= f[4].blocks
      && Delta(e, f[4]) == Delta(e, f[0]) + (Delta(f[0], f[1]) + (U64(Pattern(s.encoding)) +
                           ([if s.file then 1 else 0] + [if s.set_ then 1 else 0])))
    ensures DecodeSource(Dec(Delta(e, SourceSteps(e, s)[4]) + rest, blocks, None)) ==
            (ArrivedSource(s), Dec(rest, blocks, None))
  {
    var f := SourceSteps(e, s);
    var r4 := [if s.set_ then 1 else 0] + rest;
    var r3 := [if s.file then 1 else 0] + r4;
    var r2 := U64(Pattern(s.encoding)) + r3;
    var r1 := Delta(f[0], f[1]) + r2;
    Regroup(Delta(e, f[0]), Delta(f[0], f[1]), U64(Pattern(s.encoding)), [if s.file then 1 else 0],
            [if s.set_ then 1 else 0], rest);
    BytesDecode(e, s.data, blocks, r1);
    TextDecode(f[0], s.path, blocks, r2);
    IntDecode(s.encoding, r3, blocks);
    BoolBack(s.file, r4, blocks);
    BoolBack(s.set_, rest, blocks);
  }

  /** `n` times `k`, by repeated addition. */
  ghost function Repeat(n: nat, k: nat): nat { if n == 0 then 0 else k + Repeat(n - 1, k) }

  lemma {:induction false} RepeatIsTimes(n: nat, k: nat)
    ensures Repeat(n, k) == n * k
  {
    if n > 0 { RepeatIsTimes(n - 1, k); }
  }

  // ----- any layout

  lemma {:induction false} Sticky(e: Enc, s: Schema, v: Value)
    requires Typed(s, v) && e.err.Some?
    ensures Encode(e, s, v).err.Some?
    decreases s
  {
    match s
    case SOpt(item) => if v.opt.Some? { Sticky(PutBool(e, true), item, v.opt.value); }
    case Field(_, first, rest) =>
      Sticky(e, first, v.first);
      Sticky(Encode(e, first, v.first), rest, v.rest);
    case _ =>
  }

  lemma {:induction false} StickyItems(e: Enc, item: Schema, values: seq<Value>)
    requires (forall i :: 0 <= i < |values| ==> Typed(item, values[i])) && e.err.Some?
    ensures EncodeItems(e, item, values).err.Some?
    decreases |values|
  {
    if values != [] {
      Sticky(e, item, values[0]);
      StickyItems(Encode(e, item, values[0]), item, values[1..]);
    }
  }

  /** What every accepted encoding adds is at least the layout's minimum. */
  lemma {:induction false} EncodeGrew(e: Enc, s: Schema, v: Value)
    requires Typed(s, v) && e.err.None? && |e.blocks| <= MAX_BLOCKS && Encode(e, s, v).err.None?
    ensures Grew(e, Encode(e, s, v), MinSize(s))
    decreases s, 1
  {
    match s
    case SBool => PutGrew(e, [if v.b then 1 else 0]);
    case SInt => PutGrew(e, U64(Pattern(v.i)));
    case SU64 => PutGrew(e, U64(v.u));
    case SBytes => BytesGrew(e, v.o);
    case SText => TextGrew(e, v.t);
    case SRaw => PutGrew(e, U32(|v.r|) + v.r);
    case STime => TimeCodec(e, v.at, [], []);
    case SSource => SourceCodec(e, v.src, [], []);
    case SOpt(item) =>
      var f := PutBool(e, v.opt.Some?);
      if v.opt.Some? {
        if f.err.Some? { Sticky(f, item, v.opt.value); }
        PutGrew(e, [1]);
        EncodeGrew(f, item, v.opt.value);
        GrewTwice(e, f, Encode(e, s, v), 1, MinSize(item));
      } else {
        PutGrew(e, [0]);
      }
    case SList(item, _) =>
      if v.list.None? {
        PutGrew(e, U32(0));
      } else {
        var f := PutLength(e, |v.list.value|, true);
        PutGrew(e, U32(|v.list.value| + 1));
        ItemsGrew(f, item, v.list.value);
        GrewTwice(e, f, Encode(e, s, v), 4, Repeat(|v.list.value|, MinSize(item)));
      }
    case Field(_, first, rest) =>
      var f := Encode(e, first, v.first);
      if f.err.Some? { Sticky(f, rest, v.rest); }
      EncodeGrew(e, first, v.first);
      EncodeGrew(f, rest, v.rest);
      GrewTwice(e, f, Encode(e, s, v), MinSize(first), MinSize(rest));
    case End => assert e.data[|e.data|..] == [];
  }

  lemma {:induction false} ItemsGrew(e: Enc, item: Schema, values: seq<Value>)
    requires (forall i :: 0 <= i < |values| ==> Typed(item, values[i])) && e.err.None? && |e.blocks| <= MAX_BLOCKS
    requires EncodeItems(e, item, values).err.None?
    ensures Grew(e, EncodeItems(e, item, values), Repeat(|values|, MinSize(item)))
    decreases item, 2, |values|
  {
    if values == [] {
      assert e.data[|e.data|..] == [];
    } else {
      var f := Encode(e, item, values[0]);
      if f.err.Some? { StickyItems(f, item, values[1..]); }
      EncodeGrew(e, item, values[0]);
      ItemsGrew(f, item, values[1..]);
      GrewTwice(e, f, EncodeItems(e, item, values), MinSize(item), Repeat(|values| - 1, MinSize(item)));
    }
  }

  /** The decoder returns the value's image and stops exactly behind what was written for it. */
  lemma {:induction false} DecodeEncoded(e: Enc, s: Schema, v: Value, blocks: seq<Bytes>, rest: Bytes)
    requires Typed(s, v) && Sized(s) && e.err.None? && |e.blocks| <= MAX_BLOCKS
    requires Encode(e, s, v).err.None? && Encode(e, s, v).blocks <= blocks
    ensures Decode(Dec(Delta(e, Encode(e, s, v)) + rest, blocks, None), s) == (Image(s, v), Dec(rest, blocks, None))
    decreases s, 1
  {
    match s
    case SBool => PutGrew(e, [if v.b then 1 else 0]); BoolBack(v.b, rest, blocks);
    case SInt => PutGrew(e, U64(Pattern(v.i))); IntDecode(v.i, rest, blocks);
    case SU64 => PutGrew(e, U64(v.u)); UintBack(8, v.u, rest, blocks);
    case SBytes => BytesDecode(e, v.o, blocks, rest);
    case SText => TextDecode(e, v.t, blocks, rest);
    case SRaw => PutGrew(e, U32(|v.r|) + v.r); RawBack(v.r, rest, blocks);
    case STime => TimeCodec(e, v.at, blocks, rest);
    case SSource => SourceCodec(e, v.src, blocks, rest);
    case SOpt(item) => DecodeOpt(e, item, v, blocks, rest);
    case SList(item, minSize) => DecodeList(e, item, minSize, v, blocks, rest);
    case Field(_, _, _) => DecodeFields(e, s, v, blocks, rest);
    case End => assert e.data[|e.data|..] + rest == rest;
  }

  lemma {:induction false} DecodeOpt(e: Enc, item: Schema, v: Value, blocks: seq<Bytes>, rest: Bytes)
    requires Typed(SOpt(item), v) && Sized(item) && e.err.None? && |e.blocks| <= MAX_BLOCKS
    requires Encode(e, SOpt(item), v).err.None? && Encode(e, SOpt(item), v).blocks <= blocks
    ensures var s := SOpt(item);
      Decode(Dec(Delta(e, Encode(e, s, v)) + rest, blocks, None), s) == (Image(s, v), Dec(rest, blocks, None))
    decreases item, 3, 0
  {
    var f := PutBool(e, v.opt.Some?);
    if v.opt.Some? {
      if f.err.Some? { Sticky(f, item, v.opt.value); }
      PutGrew(e, [1]);
      EncodeGrew(f, item, v.opt.value);
      var g := Encode(f, item, v.opt.value);
      GrewTwice(e, f, g, 1, MinSize(item));
      Assoc([1], Delta(f, g), rest);
      BoolBack(true, Delta(f, g) + rest, blocks);
      DecodeEncoded(f, item, v.opt.value, blocks, rest);
    } else {
      PutGrew(e, [0]);
      BoolBack(false, rest, blocks);
    }
  }

  lemma ItemsFit(n: nat, minSize: nat, least: nat, available: nat)
    requires minSize <= least && Repeat(n, least) <= available
    ensures n * minSize <= available
  {
    RepeatIsTimes(n, least);
    TimesMonotone(minSize, least, n);
  }

  lemma {:induction false} DecodeList(e: Enc, item: Schema, minSize: nat, v: Value, blocks: seq<Bytes>, rest: Bytes)
    requires var s := SList(item, minSize);
      && Typed(s, v) && Sized(s) && e.err.None? && |e.blocks| <= MAX_BLOCKS
      && Encode(e, s, v).err.None? && Encode(e, s, v).blocks <= blocks
    ensures var s := SList(item, minSize);
      Decode(Dec(Delta(e, Encode(e, s, v)) + rest, blocks, None), s) == (Image(s, v), Dec(rest, blocks, None))
    decreases item, 4, 0
  {
    if v.list.None? {
      PutGrew(e, U32(0));
      NilLengthBack(minSize, rest, blocks);
    } else {
      var values := v.list.value;
      var f := PutLength(e, |values|, true);
      PutGrew(e, U32(|values| + 1));
      ItemsGrew(f, item, values);
      var g := EncodeItems(f, item, values);
      GrewTwice(e, f, g, 4, Repeat(|values|, MinSize(item)));
      Assoc(U32(|values| + 1), Delta(f, g), rest);
      ItemsFit(|values|, minSize, MinSize(item), |Delta(f, g)|);
      LengthBack(|values|, minSize, Delta(f, g) + rest, blocks);
      DecodeItemsEncoded(f, item, values, blocks, rest);
    }
  }

  lemma {:induction false} DecodeItemsEncoded(e: Enc, item: Schema, values: seq<Value>, blocks: seq<Bytes>, rest: Bytes)
    requires (forall i :: 0 <= i < |values| ==> Typed(item, values[i])) && Sized(item)
    requires e.err.None? && |e.blocks| <= MAX_BLOCKS
    requires EncodeItems(e, item, values).err.None? && EncodeItems(e, item, values).blocks <= blocks
    ensures DecodeItems(Dec(Delta(e, EncodeItems(e, item, values)) + rest, blocks, None), item, |values|) ==
            (ImageItems(item, values), Dec(rest, blocks, None))
    decreases item, 2, |values|
  {
    if values == [] {
      assert e.data[|e.data|..] + rest == rest;
    } else {
      var f := Encode(e, item, values[0]);
      if f.err.Some? { StickyItems(f, item, values[1..]); }
      EncodeGrew(e, item, values[0]);
      ItemsGrew(f, item, values[1..]);
      var g := EncodeItems(f, item, values[1..]);
      GrewTwice(e, f, g, MinSize(item), Repeat(|values| - 1, MinSize(item)));
      Assoc(Delta(e, f), Delta(f, g), rest);
      DecodeEncoded(e, item, values[0], blocks, Delta(f, g) + rest);
      DecodeItemsEncoded(f, item, values[1..], blocks, rest);
    }
  }

  lemma {:induction false} DecodeFields(e: Enc, s: Schema, v: Value, blocks: seq<Bytes>, rest: Bytes)
    requires s.Field? && Typed(s, v) && Sized(s) && e.err.None? && |e.blocks| <= MAX_BLOCKS
    requires Encode(e, s, v).err.None? && Encode(e, s, v).blocks <= blocks
    ensures Decode(Dec(Delta(e, Encode(e, s, v)) + rest, blocks, None), s) == (Image(s, v), Dec(rest, blocks, None))
    decreases s, 0
  {
    var f := Encode(e, s.first, v.first);
    if f.err.Some? { Sticky(f, s.rest, v.rest); }
    EncodeGrew(e, s.first, v.first);
    EncodeGrew(f, s.rest, v.rest);
    var g := Encode(f, s.rest, v.rest);
    GrewTwice(e, f, g, MinSize(s.first), MinSize(s.rest));
    Assoc(Delta(e, f), Delta(f, g), rest);
    DecodeEncoded(e, s.first, v.first, blocks, Delta(f, g) + rest);
    DecodeEncoded(f, s.rest, v.rest, blocks, rest);
  }
}
