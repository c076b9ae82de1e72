/** The recursive error encoder and decoder on the mutable payload objects. */
module ErrorCodec {
  import opened Wire
  import opened Codec
  import opened Schema
  import opened ErrorTree

  method PutTimestamp(e: PayloadEncoder, t: Time)
    requires t.Valid()
    requires e.Valid()
    modifies e
    ensures e.Valid() && e.View() == EncodeTime(old(e.View()), t)
  {
    e.Boolean(!t.IsZero());
    if t.IsZero() { return; }
    e.Uint64(Pattern(t.seconds));
    e.Uint64(Pattern(t.nanos));
    e.TextField(t.zone);
    e.Uint64(Pattern(t.offset));
    e.Boolean(t.utc);
  }

  method PutNative(e: PayloadEncoder, code: nat, message: Bytes)
    requires e.Valid() && code < U64_LIMIT && Typed(KindLayout(1), KindValue(Kalkan(code, message)))
    modifies e
    ensures e.Valid() && e.View() == Encode(old(e.View()), KindLayout(1), KindValue(Kalkan(code, message)))
  {
    e.Uint64(code);
    ghost var v := e.View();
    e.TextField(message);
    assert e.View() == Encode(v, Field(NMessage, SText, End), VField(VText(message), VEnd));
  }

  method PutLimit(e: PayloadEncoder, operation: Bytes, requested: nat, limit: nat)
    requires e.Valid() && Typed(KindLayout(2), KindValue(Limit(operation, requested, limit)))
    modifies e
    ensures e.Valid() && e.View() == Encode(old(e.View()), KindLayout(2), KindValue(Limit(operation, requested, limit)))
  {
    e.TextField(operation);
    ghost var v := e.View();
    e.Uint64(requested);
    e.Uint64(limit);
    assert e.View() == Encode(Put(v, U64(requested)), Field(NLimit, SU64, End), VField(VU64(limit), VEnd));
    assert e.View() == Encode(v, Field(NRequested, SU64, Field(NLimit, SU64, End)),
                              VField(VU64(requested), VField(VU64(limit), VEnd)));
  }

  lemma RevokedLayout(e: Enc, endpoint: Bytes, at: Time)
    requires at.Valid() && Typed(KindLayout(3), KindValue(Revoked(endpoint, at)))
    ensures Encode(e, KindLayout(3), KindValue(Revoked(endpoint, at))) == EncodeTime(PutText(e, endpoint), at)
  {
    var f := PutText(e, endpoint);
    assert Encode(f, Field(NRevokedAt, STime, End), VField(VTime(at), VEnd)) ==
      Encode(Encode(f, STime, VTime(at)), End, VEnd);
  }

  method PutRevoked(e: PayloadEncoder, endpoint: Bytes, at: Time)
    requires e.Valid() && at.Valid() && Typed(KindLayout(3), KindValue(Revoked(endpoint, at)))
    modifies e
    ensures e.Valid() && e.View() == Encode(old(e.View()), KindLayout(3), KindValue(Revoked(endpoint, at)))
  {
    RevokedLayout(e.View(), endpoint, at);
    e.TextField(endpoint);
    PutTimestamp(e, at);
  }

  /** The kind number and the fields of a typed error. */
  method PutKind(e: PayloadEncoder, err: Err)
    requires e.Valid() && Valid(err)
    modifies e
    ensures e.Valid() && e.View() == EncodeKind(old(e.View()), err)
  {
    KindTyped(err);
    e.Uint32(Kind(err));
    match err
    case Kalkan(code, message) => PutNative(e, code, message);
    case Limit(operation, requested, limit) => PutLimit(e, operation, requested, limit);
    case Revoked(endpoint, at) => PutRevoked(e, endpoint, at);
    case _ =>
  }

  /** encodeError: presence, kind, direct causes, sentinel bits, text. */
  method PutError(e: PayloadEncoder, o: Ref, depth: nat, render: Err -> Bytes)
    requires depth <= MAX_DEPTH && (o.To? ==> Valid(o.err))
    requires e.Valid()
    modifies e
    ensures e.Valid() && e.View() == EncodeError(old(e.View()), o, depth, render)
    decreases MAX_DEPTH - depth, 1
  {
    e.Boolean(o.To?);
    if o.Nil? || e.err.Some? { return; }
    if depth >= MAX_DEPTH {
      e.err := Some(MetadataTooLarge);
      return;
    }
    PutKind(e, o.err);
    ValidCauses(o.err);
    PutCauses(e, Causes(o.err), depth, render);
    if e.err.Some? { return; }
    var bits := SentinelBits(o.err);
    e.Uint64(bits);
    e.TextField(Text(o.err, render));
  }

  method PutCauses(e: PayloadEncoder, causes: Option<seq<Ref>>, depth: nat, render: Err -> Bytes)
    requires depth < MAX_DEPTH && ValidAll(Listed(causes))
    requires e.Valid()
    modifies e
    ensures e.Valid() && e.View() == EncodeCausesOf(old(e.View()), causes, depth, render)
    decreases MAX_DEPTH - depth, 0
  {
    var go := e.Length(|Listed(causes)|, causes.Some?);
    if go {
      ghost var first := e.View();
      var list := causes.value;
      for k := 0 to |list|
        invariant e.Valid()
        invariant EncodeCauses(first, list, depth + 1, render) == EncodeCauses(e.View(), list[k..], depth + 1, render)
      {
        assert list[k..][1..] == list[k + 1..];
        PutError(e, list[k], depth + 1, render);
      }
    }
  }

  lemma Distribute(w: nat, b: nat, rest: nat)
    ensures w * (b + 2 * rest) == w * b + (2 * w) * rest
  {
  }

  /** One bit per listed sentinel that errors.Is finds. */
  method SentinelBits(err: Err) returns (bits: nat)
    ensures bits == Bits(err, 0)
  {
    bits := 0;
    var weight: nat := 1;
    for i := 0 to SENTINELS
      invariant bits + weight * Bits(err, i) == Bits(err, 0)
    {
      var set_ := Is(err, i);
      Distribute(weight, if set_ then 1 else 0, Bits(err, i + 1));
      if set_ { bits := bits + weight; }
      weight := 2 * weight;
    }
  }
}
