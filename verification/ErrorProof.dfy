/** Transport of an error tree keeps its text, its sentinel answers and its native codes. */
module ErrorProof {
  import opened Wire
  import opened Codec
  import opened Schema
  import opened SchemaProof
  import opened ErrorTree
  import opened ErrorTyped

  // ----- the codec inverts

  lemma {:induction false} BitsBound(err: Err, from: nat)
    requires from <= SENTINELS
    ensures Bits(err, from) < Pow2(SENTINELS - from)
    decreases SENTINELS - from
  {
    if from < SENTINELS { BitsBound(err, from + 1); }
  }

  lemma BitsFit(err: Err)
    ensures Bits(err, 0) < SENTINEL_LIMIT
  {
    BitsBound(err, 0);
    assert Pow2(6) == 64;
    assert Pow2(12) == 4096 by { assert Pow2(9) == 512; }
    assert Pow2(18) == 262144 by { assert Pow2(15) == 32768; }
  }

  lemma KindCodec(e: Enc, err: Err, blocks: seq<Bytes>, rest: Bytes)
    requires Valid(err) && e.err.None? && |e.blocks| <= MAX_BLOCKS && EncodeKind(e, err).err.None?
    ensures Grew(e, EncodeKind(e, err), 4)
    ensures EncodeKind(e, err).blocks <= blocks ==>
      var d := GetUint(Dec(Delta(e, EncodeKind(e, err)) + rest, blocks, None), 4);
      d.0 == Kind(err) && DecodeKind(d.1, Kind(err)) == (Concrete(err), Dec(rest, blocks, None))
  {
    KindTyped(err);
    var k := Kind(err);
    var f := Put(e, U32(k));
    var g := EncodeKind(e, err);
    if f.err.Some? { Sticky(f, KindLayout(k), KindValue(err)); }
    PutGrew(e, U32(k));
    EncodeGrew(f, KindLayout(k), KindValue(err));
    GrewTwice(e, f, g, 4, MinSize(KindLayout(k)));
    if g.blocks <= blocks {
      assert Delta(e, g) + rest == U32(k) + (Delta(f, g) + rest);
      UintBack(4, k, Delta(f, g) + rest, blocks);
      DecodeEncoded(f, KindLayout(k), KindValue(err), blocks, rest);
      KindRebuilt(err);
    }
  }

  lemma KindRebuilt(err: Err)
    requires Valid(err) && Typed(KindLayout(Kind(err)), KindValue(err))
    ensures Rebuild(Kind(err), Image(KindLayout(Kind(err)), KindValue(err))) == Concrete(err)
  {
    match err
    case Kalkan(_, _) => assert Image(KindLayout(1), KindValue(err)) == KindValue(err);
    case Limit(_, _, _) => assert Image(KindLayout(2), KindValue(err)) == KindValue(err);
    case Revoked(endpoint, at) =>
      assert Image(KindLayout(3), KindValue(err)) == VField(VText(endpoint), VField(VTime(Arrived(at)), VEnd));
    case _ =>
  }

  lemma {:induction false} CausesSticky(e: Enc, causes: seq<Ref>, depth: nat, render: Err -> Bytes)
    requires depth <= MAX_DEPTH && ValidAll(causes) && e.err.Some?
    ensures EncodeCauses(e, causes, depth, render).err.Some?
    decreases |causes|
  {
    if causes != [] { CausesSticky(EncodeError(e, causes[0], depth, render), causes[1..], depth, render); }
  }

  ghost function RemoteRef(o: Ref, render: Err -> Bytes): Ref {
    if o.Nil? then Nil else To(Remote(o.err, render))
  }

  /** The states an encoder passes through for one present error. */
  ghost function ErrorSteps(e: Enc, err: Err, depth: nat, render: Err -> Bytes): seq<Enc>
    requires depth < MAX_DEPTH && Valid(err)
    ensures |ErrorSteps(e, err, depth, render)| == 5
  {
    ValidCauses(err);
    var e0 := PutBool(e, true);
    var e1 := EncodeKind(e0, err);
    var e3 := EncodeCausesOf(e1, Causes(err), depth, render);
    var e4 := Put(e3, U64(Bits(err, 0)));
    [e0, e1, e3, e4, PutText(e4, Text(err, render))]
  }

  ghost predicate Accepted(s: seq<Enc>) {
    |s| == 5 && s[0].err.None? && s[1].err.None? && s[2].err.None? && s[3].err.None? && s[4].err.None?
  }

  /** An accepted present error lies above the depth limit and every step of its encoding was accepted. */
  lemma StepsAccepted(e: Enc, err: Err, depth: nat, render: Err -> Bytes)
    requires depth <= MAX_DEPTH && Valid(err) && e.err.None? && EncodeError(e, To(err), depth, render).err.None?
    ensures depth < MAX_DEPTH
    ensures var s := ErrorSteps(e, err, depth, render);
      Accepted(s) && s[4] == EncodeError(e, To(err), depth, render)
  {
  }

  /** What the encoder wrote for a present error, piece by piece. */
  lemma {:induction false} ErrorShape(e: Enc, err: Err, depth: nat, render: Err -> Bytes)
    requires depth < MAX_DEPTH && Valid(err) && e.err.None? && |e.blocks| <= MAX_BLOCKS
    requires Accepted(ErrorSteps(e, err, depth, render))
    ensures var s := ErrorSteps(e, err, depth, render);
      && Grew(e, s[4], 1) && |s[0].blocks| <= MAX_BLOCKS && |s[1].blocks| <= MAX_BLOCKS && |s[3].blocks| <= MAX_BLOCKS
      && s[1].blocks <= s[4].blocks && s[2].blocks <= s[4].blocks
      && Delta(e, s[4]) ==
         [1] + (Delta(s[0], s[1]) + (Delta(s[1], s[2]) + (U64(Bits(err, 0)) + Delta(s[3], s[4]))))
    decreases MAX_DEPTH - depth, 1, 0
  {
    var s := ErrorSteps(e, err, depth, render);
    PutGrew(e, [1]);
    KindCodec(s[0], err, [], []);
    ValidCauses(err);
    CausesOfGrew(s[1], Causes(err), depth, render);
    PutGrew(s[2], U64(Bits(err, 0)));
    TextGrew(s[3], Text(err, render));
    GrewTwice(s[2], s[3], s[4], 8, 4);
    GrewTwice(s[1], s[2], s[4], 4, 12);
    GrewTwice(s[0], s[1], s[4], 4, 16);
    GrewTwice(e, s[0], s[4], 1, 20);
  }

  lemma {:induction false} ErrorGrew(e: Enc, o: Ref, depth: nat, render: Err -> Bytes)
    requires depth <= MAX_DEPTH && (o.To? ==> Valid(o.err)) && e.err.None? && |e.blocks| <= MAX_BLOCKS
    requires EncodeError(e, o, depth, render).err.None?
    ensures Grew(e, EncodeError(e, o, depth, render), 1)
    decreases MAX_DEPTH - depth, 2, 0
  {
    if o.Nil? {
      PutGrew(e, [0]);
    } else {
      StepsAccepted(e, o.err, depth, render);
      ErrorShape(e, o.err, depth, render);
    }
  }

  lemma {:induction false} CausesOfGrew(e: Enc, causes: Option<seq<Ref>>, depth: nat, render: Err -> Bytes)
    requires depth < MAX_DEPTH && ValidAll(Listed(causes)) && e.err.None? && |e.blocks| <= MAX_BLOCKS
    requires EncodeCausesOf(e, causes, depth, render).err.None?
    ensures Grew(e, EncodeCausesOf(e, causes, depth, render), 4)
    decreases MAX_DEPTH - depth, 0, 0
  {
    if causes.None? {
      PutGrew(e, U32(0));
    } else {
      PutGrew(e, U32(|causes.value| + 1));
      var f := PutLength(e, |causes.value|, true);
      CausesGrew(f, causes.value, depth + 1, render);
      GrewTwice(e, f, EncodeCausesOf(e, causes, depth, render), 4, |causes.value|);
    }
  }

  lemma {:induction false} CausesGrew(e: Enc, causes: seq<Ref>, depth: nat, render: Err -> Bytes)
    requires depth <= MAX_DEPTH && ValidAll(causes) && e.err.None? && |e.blocks| <= MAX_BLOCKS
    requires EncodeCauses(e, causes, depth, render).err.None?
    ensures Grew(e, EncodeCauses(e, causes, depth, render), |causes|)
    decreases MAX_DEPTH - depth, 3, |causes|
  {
    if causes == [] {
      assert e.data[|e.data|..] == [];
    } else {
      var f := EncodeError(e, causes[0], depth, render);
      if f.err.Some? { CausesSticky(f, causes[1..], depth, render); }
      ErrorGrew(e, causes[0], depth, render);
      CausesGrew(f, causes[1..], depth, render);
      GrewTwice(e, f, EncodeCauses(e, causes, depth, render), 1, |causes| - 1);
    }
  }

  /** Decoding what was written for an error yields its remote image and stops exactly behind it. */
  lemma {:induction false} ErrorDecoded(e: Enc, o: Ref, depth: nat, render: Err -> Bytes, blocks: seq<Bytes>,
                                        rest: Bytes)
    requires depth <= MAX_DEPTH && (o.To? ==> Valid(o.err)) && e.err.None? && |e.blocks| <= MAX_BLOCKS
    requires EncodeError(e, o, depth, render).err.None? && EncodeError(e, o, depth, render).blocks <= blocks
    ensures DecodeError(Dec(Delta(e, EncodeError(e, o, depth, render)) + rest, blocks, None), depth) ==
            (RemoteRef(o, render), Dec(rest, blocks, None))
    decreases MAX_DEPTH - depth, 1, 0
  {
    if o.Nil? {
      PutGrew(e, [0]);
      BoolBack(false, rest, blocks);
    } else {
      PresentDecoded(e, o.err, depth, render, blocks, rest);
    }
  }

  lemma {:induction false} PresentDecoded(e: Enc, err: Err, depth: nat, render: Err -> Bytes, blocks: seq<Bytes>,
                                          rest: Bytes)
    requires depth <= MAX_DEPTH && Valid(err) && e.err.None? && |e.blocks| <= MAX_BLOCKS
    requires EncodeError(e, To(err), depth, render).err.None? && EncodeError(e, To(err), depth, render).blocks <= blocks
    ensures DecodeError(Dec(Delta(e, EncodeError(e, To(err), depth, render)) + rest, blocks, None), depth) ==
            (To(Remote(err, render)), Dec(rest, blocks, None))
    decreases MAX_DEPTH - depth, 0, 3
  {
    StepsAccepted(e, err, depth, render);
    ErrorShape(e, err, depth, render);
    var s := ErrorSteps(e, err, depth, render);
    var r4 := Delta(s[3], s[4]) + rest;
    var r3 := U64(Bits(err, 0)) + r4;
    var r2 := Delta(s[1], s[2]) + r3;
    var r1 := Delta(s[0], s[1]) + r2;
    Regroup([1], Delta(s[0], s[1]), Delta(s[1], s[2]), U64(Bits(err, 0)), Delta(s[3], s[4]), rest);
    ValidCauses(err);
    NodeDecoded(s, err, depth, render, blocks, r1, r2, r3, r4, rest);
  }

  lemma {:induction false} NodeDecoded(s: seq<Enc>, err: Err, depth: nat, render: Err -> Bytes, blocks: seq<Bytes>,
                                       r1: Bytes, r2: Bytes, r3: Bytes, r4: Bytes, rest: Bytes)
    requires depth < MAX_DEPTH && Valid(err) && Accepted(s) && ValidAll(CauseList(err))
    requires s[1] == EncodeKind(s[0], err) && s[2] == EncodeCausesOf(s[1], Causes(err), depth, render)
    requires s[3] == Put(s[2], U64(Bits(err, 0))) && s[4] == PutText(s[3], Text(err, render))
    requires |s[0].blocks| <= MAX_BLOCKS && |s[1].blocks| <= MAX_BLOCKS && |s[3].blocks| <= MAX_BLOCKS
    requires s[1].blocks <= blocks && s[2].blocks <= blocks && s[4].blocks <= blocks
    requires r4 == Delta(s[3], s[4]) + rest && r3 == U64(Bits(err, 0)) + r4
    requires r2 == Delta(s[1], s[2]) + r3 && r1 == Delta(s[0], s[1]) + r2
    ensures DecodeError(Dec([1] + r1, blocks, None), depth) == (To(Remote(err, render)), Dec(rest, blocks, None))
    decreases MAX_DEPTH - depth, 0, 2
  {
    ReadsBack(s, err, depth, render, blocks, r1, r2, r3, r4, rest);
    Assemble(Dec([1] + r1, blocks, None), depth, err, render, Dec(r1, blocks, None), Dec(r2, blocks, None),
             Dec(r3, blocks, None), Dec(r4, blocks, None), Dec(rest, blocks, None));
  }

  /** Every read of one node returns what the matching write put there. */
  lemma {:induction false} ReadsBack(s: seq<Enc>, err: Err, depth: nat, render: Err -> Bytes, blocks: seq<Bytes>,
                                     r1: Bytes, r2: Bytes, r3: Bytes, r4: Bytes, rest: Bytes)
    requires depth < MAX_DEPTH && Valid(err) && Accepted(s) && ValidAll(CauseList(err))
    requires s[1] == EncodeKind(s[0], err) && s[2] == EncodeCausesOf(s[1], Causes(err), depth, render)
    requires s[3] == Put(s[2], U64(Bits(err, 0))) && s[4] == PutText(s[3], Text(err, render))
    requires |s[0].blocks| <= MAX_BLOCKS && |s[1].blocks| <= MAX_BLOCKS && |s[3].blocks| <= MAX_BLOCKS
    requires s[1].blocks <= blocks && s[2].blocks <= blocks && s[4].blocks <= blocks
    requires r4 == Delta(s[3], s[4]) + rest && r3 == U64(Bits(err, 0)) + r4
    requires r2 == Delta(s[1], s[2]) + r3 && r1 == Delta(s[0], s[1]) + r2
    ensures GetBool(Dec([1] + r1, blocks, None)) == (true, Dec(r1, blocks, None))
    ensures var k := GetUint(Dec(r1, blocks, None), 4);
      k.0 == Kind(err) && DecodeKind(k.1, Kind(err)) == (Concrete(err), Dec(r2, blocks, None))
    ensures var l := GetLength(Dec(r2, blocks, None), 1);
      (if l.0 < 0 then ([], l.1) else DecodeCauses(l.1, l.0, depth + 1)) ==
      (RemoteAll(CauseList(err), render), Dec(r3, blocks, None))
    ensures Bits(err, 0) < SENTINEL_LIMIT && GetUint(Dec(r3, blocks, None), 8) == (Bits(err, 0), Dec(r4, blocks, None))
    ensures GetText(Dec(r4, blocks, None)) == (Text(err, render), Dec(rest, blocks, None))
    decreases MAX_DEPTH - depth, 0, 1
  {
    BoolBack(true, r1, blocks);
    KindCodec(s[0], err, blocks, r2);
    CausesOfDecoded(s[1], Causes(err), depth, render, blocks, r3);
    BitsFit(err);
    UintBack(8, Bits(err, 0), r4, blocks);
    TextDecode(s[3], Text(err, render), blocks, rest);
  }

  /** One node of the decoder, put together from the results of its reads. */
  lemma Assemble(d: Dec, depth: nat, err: Err, render: Err -> Bytes, d1: Dec, d2: Dec, d3: Dec, d4: Dec, d5: Dec)
    requires depth < MAX_DEPTH && Bits(err, 0) < SENTINEL_LIMIT
    requires d1.err.None? && d3.err.None? && d5.err.None?
    requires GetBool(d) == (true, d1)
    requires GetUint(d1, 4).0 == Kind(err) && DecodeKind(GetUint(d1, 4).1, Kind(err)) == (Concrete(err), d2)
    requires var l := GetLength(d2, 1);
      (if l.0 < 0 then ([], l.1) else DecodeCauses(l.1, l.0, depth + 1)) == (RemoteAll(CauseList(err), render), d3)
    requires GetUint(d3, 8) == (Bits(err, 0), d4)
    requires GetText(d4) == (Text(err, render), d5)
    ensures DecodeError(d, depth) == (To(Remote(err, render)), d5)
  {
  }

  lemma {:induction false} CausesOfDecoded(
      e: Enc, causes: Option<seq<Ref>>, depth: nat, render: Err -> Bytes, blocks: seq<Bytes>, rest: Bytes)
    requires depth < MAX_DEPTH && ValidAll(Listed(causes)) && e.err.None? && |e.blocks| <= MAX_BLOCKS
    requires EncodeCausesOf(e, causes, depth, render).err.None? &&
      EncodeCausesOf(e, causes, depth, render).blocks <= blocks
    ensures var d := GetLength(Dec(Delta(e, EncodeCausesOf(e, causes, depth, render)) + rest, blocks, None), 1);
      (if d.0 < 0 then ([], d.1) else DecodeCauses(d.1, d.0, depth + 1)) ==
      (RemoteAll(Listed(causes), render), Dec(rest, blocks, None))
    decreases MAX_DEPTH - depth, 0, 0
  {
    var g := EncodeCausesOf(e, causes, depth, render);
    if causes.None? {
      PutGrew(e, U32(0));
      NilLengthBack(1, rest, blocks);
    } else {
      PutGrew(e, U32(|causes.value| + 1));
      var f := PutLength(e, |causes.value|, true);
      CausesGrew(f, causes.value, depth + 1, render);
      GrewTwice(e, f, g, 4, |causes.value|);
      Assoc(U32(|causes.value| + 1), Delta(f, g), rest);
      LengthBack(|causes.value|, 1, Delta(f, g) + rest, blocks);
      CausesDecoded(f, causes.value, depth + 1, render, blocks, rest);
    }
  }

  lemma {:induction false} CausesDecoded(e: Enc, causes: seq<Ref>, depth: nat, render: Err -> Bytes,
                                         blocks: seq<Bytes>, rest: Bytes)
    requires depth <= MAX_DEPTH && ValidAll(causes) && e.err.None? && |e.blocks| <= MAX_BLOCKS
    requires EncodeCauses(e, causes, depth, render).err.None? && EncodeCauses(e, causes, depth, render).blocks <= blocks
    ensures DecodeCauses(Dec(Delta(e, EncodeCauses(e, causes, depth, render)) + rest, blocks, None), |causes|, depth) ==
            (RemoteAll(causes, render), Dec(rest, blocks, None))
    decreases MAX_DEPTH - depth, 3, |causes|
  {
    if causes == [] {
      assert e.data[|e.data|..] + rest == rest;
    } else {
      var f := EncodeError(e, causes[0], depth, render);
      if f.err.Some? { CausesSticky(f, causes[1..], depth, render); }
      ErrorGrew(e, causes[0], depth, render);
      CausesGrew(f, causes[1..], depth, render);
      var g := EncodeCauses(f, causes[1..], depth, render);
      GrewTwice(e, f, g, 1, |causes| - 1);
      Assoc(Delta(e, f), Delta(f, g), rest);
      ErrorDecoded(e, causes[0], depth, render, blocks, Delta(f, g) + rest);
      CausesDecoded(f, causes[1..], depth, render, blocks, rest);
    }
  }

  /** The encoder accepts no tree of 32 levels or more: an accepted error's deepest node lies above the limit. */
  lemma {:induction false} AcceptedDepth(e: Enc, err: Err, depth: nat, render: Err -> Bytes)
    requires depth <= MAX_DEPTH && Valid(err) && e.err.None? && EncodeError(e, To(err), depth, render).err.None?
    ensures depth + Rank(err) < MAX_DEPTH
    decreases MAX_DEPTH - depth, 1, 0
  {
    StepsAccepted(e, err, depth, render);
    RankOfCauses(err);
    ValidCauses(err);
    var s := ErrorSteps(e, err, depth, render);
    var causes := Causes(err);
    if causes.Some? {
      AcceptedCausesDepth(PutLength(s[1], |causes.value|, true), causes.value, depth + 1, render);
    }
  }

  lemma {:induction false} AcceptedCausesDepth(e: Enc, causes: seq<Ref>, depth: nat, render: Err -> Bytes)
    requires depth <= MAX_DEPTH && ValidAll(causes) && e.err.None? && EncodeCauses(e, causes, depth, render).err.None?
    ensures depth + MaxRank(causes) <= MAX_DEPTH
    decreases MAX_DEPTH - depth, 2, |causes|
  {
    if causes != [] {
      var f := EncodeError(e, causes[0], depth, render);
      if f.err.Some? { CausesSticky(f, causes[1..], depth, render); }
      AcceptedCausesDepth(f, causes[1..], depth, render);
      if causes[0].To? { AcceptedDepth(e, causes[0].err, depth, render); }
      assert RefRank(causes[0]) == if causes[0].To? then Rank(causes[0].err) + 1 else 0;
    }
  }

  // ----- the remote image answers like the original

  lemma {:induction false} AnyIsConcat(a: seq<Ref>, b: seq<Ref>, i: nat)
    ensures AnyIs(a + b, i) <==> AnyIs(a, i) || AnyIs(b, i)
    decreases |a|
  {
    if a == [] {
      assert a + b == b;
    } else {
      assert (a + b)[1..] == a[1..] + b;
      AnyIsConcat(a[1..], b, i);
    }
  }

  lemma {:induction false} FirstCodeConcat(a: seq<Ref>, b: seq<Ref>)
    ensures FirstCodeIn(a + b) == if FirstCodeIn(a).Some? then FirstCodeIn(a) else FirstCodeIn(b)
    decreases |a|
  {
    if a == [] {
      assert a + b == b;
    } else {
      assert (a + b)[1..] == a[1..] + b;
      FirstCodeConcat(a[1..], b);
    }
  }

  lemma {:induction false} AnyHasCodeConcat(a: seq<Ref>, b: seq<Ref>, c: nat)
    ensures AnyHasCode(a + b, c) <==> AnyHasCode(a, c) || AnyHasCode(b, c)
    decreases |a|
  {
    if a == [] {
      assert a + b == b;
    } else {
      assert (a + b)[1..] == a[1..] + b;
      AnyHasCodeConcat(a[1..], b, c);
    }
  }

  /** One node in a list. */
  lemma Alone(r: Ref, i: nat)
    ensures AnyIs([r], i) <==> r.To? && Is(r.err, i)
    ensures FirstCodeIn([r]) == if r.To? then FirstCode(r.err) else None
    ensures AnyHasCode([r], i) <==> r.To? && HasCode(r.err, i)
  {
    assert [r][1..] == [];
  }

  /** A typed error carries its native code and no sentinel. */
  lemma ConcreteAnswers(err: Err, i: nat)
    ensures !AnyIs(Concrete(err), i)
    ensures FirstCodeIn(Concrete(err)) == if Concrete(err) == [] then None else FirstCode(err)
    ensures AnyHasCode(Concrete(err), i) <==> Concrete(err) != [] && HasCode(err, i)
    ensures Concrete(err) != [] ==> FirstCode(err).Some?
  {
    if Concrete(err) != [] {
      Alone(Concrete(err)[0], i);
      assert Concrete(err) == [Concrete(err)[0]];
      var small, revoked := To(Kalkan(BUFFER_TOO_SMALL, [])), To(Kalkan(CERT_STATUS_REVOKED, []));
      Alone(small, i);
      Alone(revoked, i);
      assert CauseList(small.err) == [] && CauseList(revoked.err) == [];
    }
  }

  lemma OneSentinel(j: nat, tail: seq<Ref>, i: nat)
    ensures AnyIs([To(Sentinel(j))] + tail, i) <==> i == j || AnyIs(tail, i)
    ensures FirstCodeIn([To(Sentinel(j))] + tail) == FirstCodeIn(tail)
    ensures AnyHasCode([To(Sentinel(j))] + tail, i) <==> AnyHasCode(tail, i)
  {
    var head := [To(Sentinel(j))];
    AnyIsConcat(head, tail, i);
    FirstCodeConcat(head, tail);
    AnyHasCodeConcat(head, tail, i);
    Alone(To(Sentinel(j)), i);
    assert CauseList(Sentinel(j)) == [];
  }

  lemma {:induction false} SentinelAnswers(err: Err, from: nat, i: nat)
    requires from <= SENTINELS
    ensures AnyIs(SentinelsOf(Bits(err, from), from), i) <==> from <= i < SENTINELS && Is(err, i)
    ensures FirstCodeIn(SentinelsOf(Bits(err, from), from)).None?
    ensures !AnyHasCode(SentinelsOf(Bits(err, from), from), i)
    decreases SENTINELS - from
  {
    if from < SENTINELS {
      var bits := Bits(err, from);
      SentinelAnswers(err, from + 1, i);
      assert bits / 2 == Bits(err, from + 1) && (bits % 2 == 1 <==> Is(err, from));
      var tail := SentinelsOf(bits / 2, from + 1);
      if bits % 2 == 1 {
        OneSentinel(from, tail, i);
      } else {
        assert SentinelsOf(bits, from) == [] + tail == tail;
      }
    }
  }

  /** The three answers a caller can ask of an error are the same on both sides of the pipe. */
  ghost predicate SameAnswers(err: Err, image: Err, i: nat) {
    && (i < SENTINELS ==> (Is(image, i) <==> Is(err, i)))
    && FirstCode(image) == FirstCode(err)
    && (HasCode(image, i) <==> HasCode(err, i))
  }

  lemma {:induction false} RemoteAnswers(err: Err, render: Err -> Bytes, i: nat)
    ensures SameAnswers(err, Remote(err, render), i)
    decreases Rank(err), 1, 0
  {
    RankOfCauses(err);
    var causes := CauseList(err);
    var image := Remote(err, render);
    var a, b, c := Concrete(err), RemoteAll(causes, render), SentinelsOf(Bits(err, 0), 0);
    assert CauseList(image) == a + b + c;
    RemoteAllAnswers(causes, render, i);
    ConcreteAnswers(err, i);
    SentinelAnswers(err, 0, i);
    ThreeLists(a, b, c, i);
  }

  lemma ThreeLists(a: seq<Ref>, b: seq<Ref>, c: seq<Ref>, i: nat)
    ensures AnyIs(a + b + c, i) <==> AnyIs(a, i) || AnyIs(b, i) || AnyIs(c, i)
    ensures FirstCodeIn(a + b + c) ==
      if FirstCodeIn(a).Some? then FirstCodeIn(a) else if FirstCodeIn(b).Some? then FirstCodeIn(b) else FirstCodeIn(c)
    ensures AnyHasCode(a + b + c, i) <==> AnyHasCode(a, i) || AnyHasCode(b, i) || AnyHasCode(c, i)
  {
    AnyIsConcat(a + b, c, i);
    AnyIsConcat(a, b, i);
    FirstCodeConcat(a + b, c);
    FirstCodeConcat(a, b);
    AnyHasCodeConcat(a + b, c, i);
    AnyHasCodeConcat(a, b, i);
  }

  lemma {:induction false} RemoteAllAnswers(causes: seq<Ref>, render: Err -> Bytes, i: nat)
    ensures var images := RemoteAll(causes, render);
      && (i < SENTINELS ==> (AnyIs(images, i) <==> AnyIs(causes, i)))
      && FirstCodeIn(images) == FirstCodeIn(causes)
      && (AnyHasCode(images, i) <==> AnyHasCode(causes, i))
    decreases MaxRank(causes), 0, |causes|
  {
    if causes != [] {
      RankOfHead(causes);
      RemoteAllAnswers(causes[1..], render, i);
      if causes[0].To? {
        RemoteAnswers(causes[0].err, render, i);
        var head := [To(Remote(causes[0].err, render))];
        var tail := RemoteAll(causes[1..], render);
        AnyIsConcat(head, tail, i);
        FirstCodeConcat(head, tail);
        AnyHasCodeConcat(head, tail, i);
        Alone(head[0], i);
      } else {
        assert RemoteAll(causes, render) == [] + RemoteAll(causes[1..], render) == RemoteAll(causes[1..], render);
      }
    }
  }

  /**
   * Every error tree the encoder accepts arrives with the same text, the same answer for every listed sentinel, the
   * same first native code and the same answer for every native code, and with the typed errors that errors.As finds,
   * field by field.
   */
  lemma ErrorTransport(err: Err, render: Err -> Bytes, before: Enc, more: seq<Bytes>, rest: Bytes, i: nat,
                       t: Target)
    requires Valid(err) && before.err.None? && |before.blocks| <= MAX_BLOCKS
    requires EncodeError(before, To(err), 0, render).err.None?
    ensures var after := EncodeError(before, To(err), 0, render);
      var (image, d) := DecodeError(Dec(Delta(before, after) + rest, after.blocks + more, None), 0);
      && d == Dec(rest, after.blocks + more, None)
      && image.To? && image.err.Plain? && image.err.text == Text(err, render) && SameAnswers(err, image.err, i)
      && As(image.err, t) == Landed(As(err, t))
  {
    var after := EncodeError(before, To(err), 0, render);
    ErrorDecoded(before, To(err), 0, render, after.blocks + more, rest);
    RemoteAnswers(err, render, i);
    RemoteAs(err, render, t);
  }
}
