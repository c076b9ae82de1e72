/** What the payload decoder does with arbitrary bytes: its values are well-typed, and it accepts no other length. */
module DecoderSafety {
  import opened Wire
  import opened Codec
  import opened Schema
  import opened SchemaProof
  import opened Records
  import opened ErrorTree

  // ----- errors stick

  lemma {:induction false} DecodeSticky(d: Dec, s: Schema)
    requires d.err.Some?
    ensures Decode(d, s).1.err.Some?
    decreases s, 0
  {
    match s
    case Field(_, first, rest) =>
      DecodeSticky(d, first);
      DecodeSticky(Decode(d, first).1, rest);
    case _ =>
  }

  lemma {:induction false} ItemsSticky(d: Dec, item: Schema, count: nat)
    requires d.err.Some?
    ensures DecodeItems(d, item, count).1.err.Some?
    decreases item, 1, count
  {
    if count > 0 {
      DecodeSticky(d, item);
      ItemsSticky(Decode(d, item).1, item, count - 1);
    }
  }

  // ----- what is accepted is well-typed

  lemma UintTyped(d: Dec, n: nat)
    requires n == 8
    ensures GetUint(d, n).0 < U64_LIMIT && IsInt64(GetInt(d).0)
  {
    var value := Take(d, n).0;
    FromBigEndianBound(value);
    Powers();
    if |value| == 0 { assert Pow256(0) == 1; }
  }

  lemma TimeTyped(d: Dec)
    ensures DecodeTime(d).0.Valid()
  {
    var (present, d0) := GetBool(d);
    var (seconds, d1) := GetInt(d0);
    var (nanos, d2) := GetInt(d1);
    var (zone, d3) := GetText(d2);
    UintTyped(d0, 8);
    UintTyped(d3, 8);
  }

  lemma SourceTyped(d: Dec)
    ensures IsInt64(DecodeSource(d).0.encoding) && Constructible(DecodeSource(d).0)
  {
    var (data, d0) := GetBytes(d);
    var (path, d1) := GetText(d0);
    UintTyped(d1, 8);
  }

  /** Whatever arrives, the decoder yields values of the layout's types, with valid times and constructible sources. */
  lemma {:induction false} DecodeTyped(d: Dec, s: Schema)
    ensures Typed(s, Decode(d, s).0)
    decreases s, 0
  {
    match s
    case SInt => UintTyped(d, 8);
    case SU64 => UintTyped(d, 8);
    case STime => TimeTyped(d);
    case SSource => SourceTyped(d);
    case SOpt(item) => if GetBool(d).0 { DecodeTyped(GetBool(d).1, item); }
    case SList(item, minSize) =>
      var (count, f) := GetLength(d, minSize);
      if count >= 0 { ItemsTyped(f, item, count); }
    case Field(_, first, rest) =>
      DecodeTyped(d, first);
      DecodeTyped(Decode(d, first).1, rest);
    case _ =>
  }

  lemma {:induction false} ItemsTyped(d: Dec, item: Schema, count: nat)
    ensures var values := DecodeItems(d, item, count).0;
      |values| == count && forall i :: 0 <= i < |values| ==> Typed(item, values[i])
    decreases item, 1, count
  {
    if count > 0 {
      DecodeTyped(d, item);
      ItemsTyped(Decode(d, item).1, item, count - 1);
    }
  }

  // ----- the decoder looks no further than it reads

  function Longer(d: Dec, more: Bytes): Dec { d.(data := d.data + more) }

  lemma TakeLocal(d: Dec, n: nat, more: Bytes)
    requires Take(d, n).1.err.None?
    ensures Take(Longer(d, more), n) == (Take(d, n).0, Longer(Take(d, n).1, more))
  {
    assert (d.data + more)[..n] == d.data[..n] && (d.data + more)[n..] == d.data[n..] + more;
  }

  lemma BoolLocal(d: Dec, more: Bytes)
    requires GetBool(d).1.err.None?
    ensures GetBool(Longer(d, more)) == (GetBool(d).0, Longer(GetBool(d).1, more))
  {
    TakeLocal(d, 1, more);
  }

  lemma UintLocal(d: Dec, n: nat, more: Bytes)
    requires GetUint(d, n).1.err.None?
    ensures GetUint(Longer(d, more), n) == (GetUint(d, n).0, Longer(GetUint(d, n).1, more))
  {
    TakeLocal(d, n, more);
  }

  lemma BytesLocal(d: Dec, more: Bytes)
    requires GetBytes(d).1.err.None?
    ensures GetBytes(Longer(d, more)) == (GetBytes(d).0, Longer(GetBytes(d).1, more))
  {
    UintLocal(d, 4, more);
  }

  lemma RawLocal(d: Dec, more: Bytes)
    requires GetRaw(d).1.err.None?
    ensures GetRaw(Longer(d, more)) == (GetRaw(d).0, Longer(GetRaw(d).1, more))
  {
    UintLocal(d, 4, more);
    var (size, f) := GetUint(d, 4);
    if size > 0 { TakeLocal(f, size, more); }
  }

  lemma LengthLocal(d: Dec, minSize: nat, more: Bytes)
    requires GetLength(d, minSize).1.err.None?
    ensures GetLength(Longer(d, more), minSize) == (GetLength(d, minSize).0, Longer(GetLength(d, minSize).1, more))
  {
    UintLocal(d, 4, more);
    var f := GetUint(d, 4).1;
    if minSize > 0 { QuotientMonotone(|f.data|, |f.data + more|, minSize); }
  }

  lemma QuotientMonotone(a: nat, b: nat, c: nat)
    requires a <= b && c > 0
    ensures a / c <= b / c
  {
    var q := a / c;
    assert q * c <= a <= b;
    QuotientBound(q, c, b);
  }

  lemma TimeLocal(d: Dec, more: Bytes)
    requires DecodeTime(d).1.err.None?
    ensures DecodeTime(Longer(d, more)) == (DecodeTime(d).0, Longer(DecodeTime(d).1, more))
  {
    var (present, d0) := GetBool(d);
    BoolLocal(d, more);
    if present {
      var (seconds, d1) := GetInt(d0);
      var (nanos, d2) := GetInt(d1);
      var (zone, d3) := GetText(d2);
      var (offset, d4) := GetInt(d3);
      UintLocal(d0, 8, more);
      UintLocal(d1, 8, more);
      BytesLocal(d2, more);
      UintLocal(d3, 8, more);
      BoolLocal(d4, more);
    }
  }

  lemma SourceLocal(d: Dec, more: Bytes)
    requires DecodeSource(d).1.err.None?
    ensures DecodeSource(Longer(d, more)) == (DecodeSource(d).0, Longer(DecodeSource(d).1, more))
  {
    var (data, d0) := GetBytes(d);
    var (path, d1) := GetText(d0);
    var (encoding, d2) := GetInt(d1);
    var (file, d3) := GetBool(d2);
    BytesLocal(d, more);
    BytesLocal(d0, more);
    UintLocal(d1, 8, more);
    BoolLocal(d2, more);
    BoolLocal(d3, more);
  }

  /** What is accepted is accepted as the same value when more bytes follow, and those are left over. */
  lemma {:induction false} DecodeLocal(d: Dec, s: Schema, more: Bytes)
    requires Decode(d, s).1.err.None?
    ensures Decode(Longer(d, more), s) == (Decode(d, s).0, Longer(Decode(d, s).1, more))
    decreases s, 0
  {
    match s
    case SBool => BoolLocal(d, more);
    case SInt => UintLocal(d, 8, more);
    case SU64 => UintLocal(d, 8, more);
    case SBytes => BytesLocal(d, more);
    case SText => BytesLocal(d, more);
    case SRaw => RawLocal(d, more);
    case STime => TimeLocal(d, more);
    case SSource => SourceLocal(d, more);
    case SOpt(item) =>
      var (present, f) := GetBool(d);
      if present && f.err.Some? { DecodeSticky(f, item); }
      BoolLocal(d, more);
      if present { DecodeLocal(f, item, more); }
    case SList(item, minSize) =>
      var (count, f) := GetLength(d, minSize);
      if count >= 0 && f.err.Some? { ItemsSticky(f, item, count); }
      LengthLocal(d, minSize, more);
      if count >= 0 { ItemsLocal(f, item, count, more); }
    case Field(_, first, rest) =>
      var (v, f) := Decode(d, first);
      if f.err.Some? { DecodeSticky(f, rest); }
      DecodeLocal(d, first, more);
      DecodeLocal(f, rest, more);
    case End =>
  }

  lemma {:induction false} ItemsLocal(d: Dec, item: Schema, count: nat, more: Bytes)
    requires DecodeItems(d, item, count).1.err.None?
    ensures DecodeItems(Longer(d, more), item, count) ==
            (DecodeItems(d, item, count).0, Longer(DecodeItems(d, item, count).1, more))
    decreases item, 1, count
  {
    if count > 0 {
      var (v, f) := Decode(d, item);
      if f.err.Some? { ItemsSticky(f, item, count - 1); }
      DecodeLocal(d, item, more);
      ItemsLocal(f, item, count - 1, more);
    }
  }

  /** The metadata of an accepted value with anything behind it, and any shorter piece of it, is rejected. */
  lemma OtherLengthsRejected(s: Schema, v: Value, inputLimit: int, a: Bytes, b: Bytes)
    requires Typed(s, v) && Sized(s) && EncodePayload(s, v, inputLimit).Some? && b != []
    ensures var p := EncodePayload(s, v, inputLimit).value;
      && DecodePayload(s, p.(metadata := p.metadata + b)) == None
      && (p.metadata == a + b ==> DecodePayload(s, p.(metadata := a)) == None)
  {
    var p := EncodePayload(s, v, inputLimit).value;
    var e := NewEnc(inputLimit);
    var f := Encode(e, s, v);
    EncodeGrew(e, s, v);
    assert Delta(e, f) == p.metadata && p.metadata + [] == p.metadata;
    DecodeEncoded(e, s, v, p.blocks, []);
    DecodeEncoded(e, s, v, p.blocks, b);
    if p.metadata == a + b && Decode(Dec(a, p.blocks, None), s).1.err.None? {
      DecodeLocal(Dec(a, p.blocks, None), s, b);
    }
  }

  // ----- what each primitive accepts

  lemma PrimitivesExact(d: Dec, minSize: nat)
    requires d.err.None?
    ensures GetBool(d).1.err.None? <==> d.data != [] && d.data[0] in {0, 1}
    ensures GetBytes(d).1.err.None? <==> |d.data| >= 4 && FromBigEndian(d.data[..4]) <= |d.blocks|
    ensures GetLength(d, minSize).1.err.None? <==>
      && |d.data| >= 4
      && var n := FromBigEndian(d.data[..4]);
         n == 0 || (minSize > 0 && n <= 64 * 1024 + 1 && (n - 1) * minSize <= |d.data| - 4)
  {
    if |d.data| >= 4 && minSize > 0 {
      var n, left := FromBigEndian(d.data[..4]), |d.data| - 4;
      if n > 0 { QuotientExact(n - 1, minSize, left); }
    }
  }

  lemma QuotientExact(k: nat, c: nat, n: nat)
    requires c > 0
    ensures k <= n / c <==> k * c <= n
  {
    var q := n / c;
    assert q * c <= n;
    if k <= q { TimesMonotone(k, q, c); }
    if k * c <= n { QuotientBound(k, c, n); }
  }

  // ----- error trees

  lemma OneSentinelSafe(j: nat)
    requires j < SENTINELS
    ensures ValidAll([To(Sentinel(j))]) && MaxRank([To(Sentinel(j))]) <= 1
  {
    assert Rank(Sentinel(j)) == 0 && [To(Sentinel(j))][1..] == [];
  }

  lemma {:induction false} SentinelsValid(bits: nat, from: nat)
    requires from <= SENTINELS
    ensures ValidAll(SentinelsOf(bits, from)) && MaxRank(SentinelsOf(bits, from)) <= 1
    decreases SENTINELS - from
  {
    if from < SENTINELS {
      SentinelsValid(bits / 2, from + 1);
      var tail := SentinelsOf(bits / 2, from + 1);
      if bits % 2 == 1 {
        OneSentinelSafe(from);
        JoinRanks([To(Sentinel(from))], tail);
      } else {
        assert [] + tail == tail;
      }
    }
  }

  lemma {:induction false} JoinRanks(a: seq<Ref>, b: seq<Ref>)
    ensures MaxRank(a + b) <= if MaxRank(a) > MaxRank(b) then MaxRank(a) else MaxRank(b)
    ensures ValidAll(a) && ValidAll(b) ==> ValidAll(a + b)
  {
    if a == [] {
      assert a + b == b;
    } else {
      assert (a + b)[1..] == a[1..] + b;
      JoinRanks(a[1..], b);
    }
  }

  lemma RebuiltValid(kind: nat, v: Value)
    requires kind <= 3 && Typed(KindLayout(kind), v)
    ensures ValidAll(Rebuild(kind, v)) && MaxRank(Rebuild(kind, v)) <= 2
  {
    var r := Rebuild(kind, v);
    if kind == 1 {
      assert Typed(Field(NMessage, SText, End), v.rest);
    } else if kind == 2 {
      assert Typed(Field(NRequested, SU64, Field(NLimit, SU64, End)), v.rest);
      assert Typed(Field(NLimit, SU64, End), v.rest.rest);
    } else if kind == 3 {
      assert Typed(Field(NRevokedAt, STime, End), v.rest);
    }
    if r != [] {
      assert Valid(r[0].err) && Rank(r[0].err) <= 1 && r == [r[0]];
      assert MaxRank([r[0]][1..]) == 0;
    }
  }

  /** Whatever arrives, a decoded tree holds valid numbers and times and is never deeper than the limit allows. */
  lemma {:induction false} ErrorSafe(d: Dec, depth: nat)
    requires depth <= MAX_DEPTH
    ensures var o := DecodeError(d, depth).0;
      o.To? ==> depth < MAX_DEPTH && Valid(o.err) && RefRank(o) <= MAX_DEPTH - depth + 2
    decreases MAX_DEPTH - depth, 1, 0
  {
    if DecodeError(d, depth).0.To? {
      var kind, d1 := GetUint(GetBool(d).1, 4).0, GetUint(GetBool(d).1, 4).1;
      NodeDecoded(d1, kind, depth);
    }
  }

  lemma {:induction false} NodeDecoded(d1: Dec, kind: nat, depth: nat)
    requires depth < MAX_DEPTH && kind <= 3 && DecodeNode(d1, kind, depth).0.To?
    ensures var o := DecodeNode(d1, kind, depth).0; Valid(o.err) && Rank(o.err) <= MAX_DEPTH - depth + 1
    decreases MAX_DEPTH - depth, 0, 0
  {
    var (v, d2) := Decode(d1, KindLayout(kind));
    var (count, d3) := GetLength(d2, 1);
    DecodeTyped(d1, KindLayout(kind));
    RebuiltValid(kind, v);
    var causes, d4 := [], d3;
    if count >= 0 {
      CausesSafe(d3, count, depth + 1);
      causes, d4 := DecodeCauses(d3, count, depth + 1).0, DecodeCauses(d3, count, depth + 1).1;
    }
    FinishSafe(Rebuild(kind, v), causes, d4, MAX_DEPTH - depth + 1);
  }

  lemma FinishSafe(concrete: seq<Ref>, causes: seq<Ref>, d4: Dec, limit: nat)
    requires ValidAll(concrete) && ValidAll(causes) && limit >= 2 && MaxRank(concrete) <= 2 && MaxRank(causes) <= limit
    ensures var o := FinishNode(concrete + causes, d4).0; o.To? ==> Valid(o.err) && Rank(o.err) <= limit
  {
    var o, text, sentinels := FinishParts(concrete + causes, d4);
    NodeSafe(text, concrete, causes, sentinels, limit);
  }

  /** The end of a node: only bits of known sentinels may be set. */
  lemma FinishParts(causes: seq<Ref>, d4: Dec) returns (o: Ref, text: Bytes, sentinels: seq<Ref>)
    ensures o == FinishNode(causes, d4).0 && (o.To? ==> o.err == Plain(text, {}, Many(causes + sentinels)))
    ensures ValidAll(sentinels) && MaxRank(sentinels) <= 1
    ensures o.To? ==> |d4.data| >= 8 && FromBigEndian(d4.data[..8]) < 0x4_0000
  {
    var bits, d5 := GetUint(d4, 8).0, GetUint(d4, 8).1;
    o, text, sentinels := FinishNode(causes, d4).0, GetText(d5).0, SentinelsOf(bits, 0);
    SentinelsValid(bits, 0);
  }

  lemma NodeSafe(text: Bytes, concrete: seq<Ref>, causes: seq<Ref>, sentinels: seq<Ref>, limit: nat)
    requires ValidAll(concrete) && ValidAll(causes) && ValidAll(sentinels) && limit >= 2
    requires MaxRank(concrete) <= 2 && MaxRank(causes) <= limit && MaxRank(sentinels) <= 1
    ensures var err := Plain(text, {}, Many(concrete + causes + sentinels)); Valid(err) && Rank(err) <= limit
  {
    JoinRanks(concrete, causes);
    JoinRanks(concrete + causes, sentinels);
  }

  lemma {:induction false} CausesSafe(d: Dec, count: nat, depth: nat)
    requires depth <= MAX_DEPTH
    ensures var causes := DecodeCauses(d, count, depth).0;
      ValidAll(causes) && MaxRank(causes) <= MAX_DEPTH - depth + 2
    decreases MAX_DEPTH - depth, 2, count
  {
    if count > 0 {
      var (cause, f) := DecodeError(d, depth);
      ErrorSafe(d, depth);
      CausesSafe(f, count - 1, depth);
      var head := if cause.To? then [cause] else [];
      assert cause.To? ==> MaxRank([cause][1..]) == 0;
      assert ValidAll(head) && MaxRank(head) <= MAX_DEPTH - depth + 2;
      JoinRanks(head, DecodeCauses(f, count - 1, depth).0);
    }
  }
}
