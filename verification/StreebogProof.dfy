/** Every way of splitting a message into writes gives the one-shot hash. */
module StreebogProof {
  import opened Wire
  import opened Endian
  import opened ModularArithmetic
  import opened Streebog

  /** Mixing in a 64-bit length touches only the first eight bytes. */
  lemma XorLength(h: Block, n: nat, i: nat)
    requires n < U64_LIMIT && i < 64
    ensures XorBlock(h, Vec512(n))[i] == if i < 8 then Xor(h[i], ByteOf(n, i)) else h[i]
  {
    XorAt(h, Vec512(n), 0, i);
    LittleEndianAt(64, n, i);
    if i >= 8 {
      Powers();
      HighByteZero(n, 8, i);
      XorZero(h[i]);
    }
  }

  // ----- streaming

  lemma {:induction false} DrainPrefix(g: Compression, s: State, data: Bytes)
    ensures Feed(g, Drain(g, s), data) == Feed(g, s, data)
    decreases |s.buf|
  {
    if |s.buf| >= 64 {
      var whole := s.(buf := s.buf + data);
      assert whole.buf[..64] == s.buf[..64] && whole.buf[64..] == s.buf[64..] + data;
      DrainPrefix(g, OneBlock(g, s), data);
    }
  }

  /** Two writes are one write of both inputs. */
  lemma FeedTwice(g: Compression, s: State, a: Bytes, b: Bytes)
    ensures Feed(g, Feed(g, s, a), b) == Feed(g, s, a + b)
  {
    var first := s.(buf := s.buf + a);
    DrainPrefix(g, first, b);
    assert first.buf + b == s.buf + (a + b);
  }

  lemma {:induction false} FeedAllIsFeed(g: Compression, s: State, chunks: seq<Bytes>)
    requires |s.buf| < 64
    ensures FeedAll(g, s, chunks) == Feed(g, s, Concat(chunks))
    decreases |chunks|
  {
    if chunks == [] {
      assert s.buf + [] == s.buf;
    } else {
      DrainShort(g, s.(buf := s.buf + chunks[0]));
      FeedAllIsFeed(g, Feed(g, s, chunks[0]), chunks[1..]);
      FeedTwice(g, s, chunks[0], Concat(chunks[1..]));
    }
  }

  lemma {:induction false} DrainShort(g: Compression, s: State)
    ensures |Drain(g, s).buf| < 64 && (s.n < U64_LIMIT ==> Drain(g, s).n < U64_LIMIT)
    decreases |s.buf|
  {
    if |s.buf| >= 64 { DrainShort(g, OneBlock(g, s)); }
  }

  /** Every write keeps fewer than 64 bytes buffered and the digest size. */
  lemma FeedKeeps(g: Compression, s: State, data: Bytes)
    requires WellFormed(s)
    ensures WellFormed(Feed(g, s, data)) && Feed(g, s, data).size == s.size
  {
    DrainShort(g, s.(buf := s.buf + data));
    DrainSize(g, s.(buf := s.buf + data));
  }

  lemma {:induction false} DrainSize(g: Compression, s: State)
    ensures Drain(g, s).size == s.size
    decreases |s.buf|
  {
    if |s.buf| >= 64 { DrainSize(g, OneBlock(g, s)); }
  }

  ghost function ChainOf(s: State): Chain { Chain(s.h, s.n, s.sigma) }

  /** Draining is stage 2 of the RFC with lengths modulo 2^64. */
  lemma {:induction false} DrainIsAbsorb(g: Compression, s: State)
    ensures ChainOf(Drain(g, s)) == Absorb(g, U64_LIMIT, ChainOf(s), s.buf)
    ensures Drain(g, s).buf == Rest(s.buf)
    decreases |s.buf|
  {
    if |s.buf| >= 64 {
      DrainIsAbsorb(g, OneBlock(g, s));
    }
  }

  /** The checksum is the sum modulo 2^512. */
  lemma CheckSum(a: Block, b: Block)
    ensures Pow256(64) > 0 && Int512(Add512(a, b)) == (Int512(a) + Int512(b)) % Pow256(64)
  {
    Pow256Positive(64);
    LittleEndianMod(64, Int512(a) + Int512(b));
  }

  /** While the bit length stays below both limits, the modulus does not matter. */
  lemma {:induction false} LimitIrrelevant(g: Compression, l1: nat, l2: nat, s: Chain, m: Bytes)
    requires s.n + 8 * |m| < l1 && s.n + 8 * |m| < l2
    ensures Absorb(g, l1, s, m) == Absorb(g, l2, s, m)
    ensures Absorb(g, l1, s, m).n + 8 * |Rest(m)| == s.n + 8 * |m|
    decreases |m|
  {
    if |m| >= 64 {
      SmallResidue(s.n + 512, l1);
      SmallResidue(s.n + 512, l2);
      LimitIrrelevant(g, l1, l2, Step(g, l1, s, m[..64]), m[64..]);
    }
  }

  lemma {:induction false} Pow256Monotone(a: nat, b: nat)
    requires a <= b
    ensures Pow256(a) <= Pow256(b)
  {
    if a < b { Pow256Monotone(a, b - 1); }
  }

  /** Counting lengths in 64 bits gives the RFC's hash for every message shorter than 2^64 bits. */
  lemma ShortMessage(g: Compression, size: nat, m: Bytes)
    requires 8 * |m| < U64_LIMIT
    ensures HashModulo(g, U64_LIMIT, size, m) == Hash(g, size, m)
  {
    Powers();
    var limit := Pow256(64);
    Pow256Positive(64);
    Pow256Monotone(8, 64);
    LimitIrrelevant(g, U64_LIMIT, limit, Chain(IV(size), 0, Zero512()), m);
    SameFinish(g, limit, size, Absorb(g, U64_LIMIT, Chain(IV(size), 0, Zero512()), m), Rest(m));
  }

  lemma SameFinish(g: Compression, limit: nat, size: nat, s: Chain, rest: Bytes)
    requires |rest| < 64 && s.n + 8 * |rest| < U64_LIMIT && s.n + 8 * |rest| < limit
    ensures Finish(g, U64_LIMIT, size, s, rest) == Finish(g, limit, size, s, rest)
  {
    SmallResidue(s.n + 8 * |rest|, limit);
    SmallResidue(s.n + 8 * |rest|, U64_LIMIT);
  }

  /** The length that stage 3 compresses is the bit length of the whole message, modulo the limit. */
  lemma {:induction false} LengthCounted(g: Compression, limit: nat, s: Chain, m: Bytes)
    requires limit > 0
    ensures (Absorb(g, limit, s, m).n + 8 * |Rest(m)|) % limit == (s.n + 8 * |m|) % limit
    decreases |m|
  {
    if |m| >= 64 {
      var next := Step(g, limit, s, m[..64]);
      LengthCounted(g, limit, next, m[64..]);
      var r, k := Reduce(s.n + 512, limit);
      ModMultiple(s.n + 8 * |m|, next.n + 8 * |m[64..]|, k, limit);
    }
  }

  lemma {:induction false} Pow256Sum(a: nat, b: nat)
    ensures Pow256(a + b) == Pow256(a) * Pow256(b)
  {
    if a > 0 {
      Pow256Sum(a - 1, b);
      assert 256 * (Pow256(a - 1) * Pow256(b)) == (256 * Pow256(a - 1)) * Pow256(b);
    }
  }

  /** Counting in 64 bits gives the block of the 512-bit length exactly when that length fits 64 bits. */
  lemma LengthBlockDiffers(bits: nat)
    ensures Pow256(64) > 0
    ensures Vec512(bits % U64_LIMIT) == Vec512(bits) <==> bits % Pow256(64) < U64_LIMIT
    ensures bits < Pow256(64) ==> (Vec512(bits % U64_LIMIT) == Vec512(bits) <==> bits < U64_LIMIT)
  {
    Powers();
    Pow256Positive(64);
    Pow256Monotone(8, 64);
    Pow256Sum(8, 56);
    var r, k := Reduce(bits, Pow256(64));
    ShortResidue(bits, r, k, Pow256(56), Pow256(64));
    LittleEndianMod(64, bits);
    LittleEndianRoundTrip(64, bits % U64_LIMIT);
    FromLittleEndianRoundTrip(Vec512(bits));
    FromLittleEndianRoundTrip(Vec512(bits % U64_LIMIT));
    if bits < Pow256(64) { SmallResidue(bits, Pow256(64)); }
  }

  lemma ShortResidue(bits: nat, r: nat, k: int, p: nat, limit: nat)
    requires bits == r + k * limit && limit == U64_LIMIT * p
    ensures bits % U64_LIMIT == r % U64_LIMIT && (r % U64_LIMIT == r <==> r < U64_LIMIT)
  {
    assert k * (U64_LIMIT * p) == (k * p) * U64_LIMIT;
    ModMultiple(bits, r, k * p, U64_LIMIT);
    if r < U64_LIMIT { SmallResidue(r, U64_LIMIT); }
  }

  /**
   * However a message is split into writes, the length block that Sum compresses is the RFC's exactly when the
   * message's 512-bit length fits 64 bits; for lengths that the RFC admits, exactly below 2^64 bits.
   */
  lemma SumLengthBlock(g: Compression, size: nat, chunks: seq<Bytes>)
    ensures var s := FeedAll(g, Fresh(size), chunks); var bits := 8 * |Concat(chunks)|;
      && Pow256(64) > 0
      && (LengthBlock(U64_LIMIT, s.n, s.buf) == Vec512(bits) <==> bits % Pow256(64) < U64_LIMIT)
      && (bits < Pow256(64) ==> (LengthBlock(U64_LIMIT, s.n, s.buf) == Vec512(bits) <==> bits < U64_LIMIT))
  {
    var bits := SumLength(g, size, chunks);
    LengthBlockDiffers(bits);
  }

  lemma SumLength(g: Compression, size: nat, chunks: seq<Bytes>) returns (bits: nat)
    ensures var s := FeedAll(g, Fresh(size), chunks);
      bits == 8 * |Concat(chunks)| && LengthBlock(U64_LIMIT, s.n, s.buf) == Vec512(bits % U64_LIMIT)
  {
    FeedAllIsFeed(g, Fresh(size), chunks);
    bits := FedLength(g, Fresh(size), Concat(chunks));
  }

  lemma FedLength(g: Compression, s: State, m: Bytes) returns (bits: nat)
    requires s.n == 0 && s.buf == []
    ensures var t := Feed(g, s, m);
      bits == 8 * |m| && LengthBlock(U64_LIMIT, t.n, t.buf) == Vec512(bits % U64_LIMIT)
  {
    assert s.buf + m == m;
    var total;
    total, bits := DrainCount(g, s.(buf := s.buf + m));
  }

  /** Draining counts every byte that it takes out of the buffer. */
  lemma {:induction false} DrainCount(g: Compression, s: State) returns (total: nat, bits: nat)
    ensures var t := Drain(g, s); total == t.n + 8 * |t.buf| && bits == s.n + 8 * |s.buf|
    ensures total % U64_LIMIT == bits % U64_LIMIT
    decreases |s.buf|
  {
    bits := s.n + 8 * |s.buf|;
    if |s.buf| < 64 { return bits, bits; }
    var rest: nat;
    total, rest := DrainCount(g, OneBlock(g, s));
    OneBlockCounts(g, s, bits, rest);
  }

  lemma OneBlockCounts(g: Compression, s: State, bits: nat, rest: nat)
    requires |s.buf| >= 64 && bits == s.n + 8 * |s.buf|
    requires rest == OneBlock(g, s).n + 8 * |OneBlock(g, s).buf|
    ensures rest % U64_LIMIT == bits % U64_LIMIT
  {
    var r, k := Reduce(s.n + 512, U64_LIMIT);
    ModMultiple(bits, rest, k, U64_LIMIT);
  }

  /** A fresh state fed a message is stage 2 over that message. */
  lemma FreshFed(g: Compression, size: nat, m: Bytes)
    ensures var s := Feed(g, Fresh(size), m);
      ChainOf(s) == Absorb(g, U64_LIMIT, ChainOf(Fresh(size)), m) && s.buf == Rest(m) && s.size == size
  {
    var fed := Fresh(size).(buf := Fresh(size).buf + m);
    assert fed.buf == m;
    DrainIsAbsorb(g, fed);
    DrainSize(g, fed);
  }

  /** A fresh state fed any message digests to the one-shot hash with 64-bit lengths. */
  lemma OneWrite(g: Compression, size: nat, m: Bytes)
    ensures |Feed(g, Fresh(size), m).buf| < 64
    ensures Digest(g, Feed(g, Fresh(size), m)) == HashModulo(g, U64_LIMIT, size, m)
  {
    FreshFed(g, size, m);
  }

  /** However a message is split into writes, Sum answers its RFC 6986 hash. */
  lemma StreamingHash(g: Compression, size: nat, chunks: seq<Bytes>)
    ensures |FeedAll(g, Fresh(size), chunks).buf| < 64
    ensures Digest(g, FeedAll(g, Fresh(size), chunks)) == HashModulo(g, U64_LIMIT, size, Concat(chunks))
    ensures 8 * |Concat(chunks)| < U64_LIMIT ==>
      Digest(g, FeedAll(g, Fresh(size), chunks)) == Hash(g, size, Concat(chunks))
  {
    FeedAllIsFeed(g, Fresh(size), chunks);
    OneWrite(g, size, Concat(chunks));
    if 8 * |Concat(chunks)| < U64_LIMIT { ShortMessage(g, size, Concat(chunks)); }
  }

  // ----- saved states

  const NAME: Bytes := [0x53, 0x54, 0x52, 0x45, 0x45, 0x42, 0x4F, 0x47]
  const HEADER := 8 + 1 + 8 + 64 + 64

  function Marshal(s: State): Bytes
    requires s.size < 256
  {
    NAME + [s.size] + U64(s.n) + s.h + s.sigma + s.buf
  }

  datatype Restored = Loaded(state: State) | TooShort | NoPrefix | BadBuffer | BadSize

  function Unmarshal(data: Bytes): Restored {
    if |data| < HEADER then TooShort
    else if data[..8] != NAME then NoPrefix
    else if |data| - HEADER >= 64 then BadBuffer
    else if data[8] != 32 && data[8] != 64 then BadSize
    else Loaded(State(data[8], FromBigEndian(data[9..17]), data[17..81], data[81..145], data[145..]))
  }

  /** A saved state loads back as itself. */
  lemma LoadsWhatWasSaved(s: State)
    requires WellFormed(s)
    ensures Unmarshal(Marshal(s)) == Loaded(s)
  {
    var data := Marshal(s);
    assert data[..8] == NAME && data[8] == s.size && data[9..17] == U64(s.n);
    assert data[17..81] == s.h && data[81..145] == s.sigma && data[145..] == s.buf;
    U64RoundTrip(s.n);
  }

  lemma {:induction false} BigEndianOf(s: Bytes)
    ensures BigEndian(|s|, FromBigEndian(s)) == s
  {
    if s != [] {
      var init, last := s[..|s| - 1], s[|s| - 1];
      BigEndianOf(init);
      FromBigEndianBound(init);
      LowByte(last, FromBigEndian(init), |s| - 1, FromBigEndian(s));
      assert s == init + [last];
    }
  }

  /** Accepted bytes are exactly the saved form of the state they load. */
  lemma SavesWhatWasLoaded(data: Bytes)
    requires Unmarshal(data).Loaded?
    ensures WellFormed(Unmarshal(data).state) && Marshal(Unmarshal(data).state) == data
  {
    var s := Unmarshal(data).state;
    Powers();
    FromBigEndianBound(data[9..17]);
    BigEndianOf(data[9..17]);
    assert data == data[..8] + [data[8]] + data[9..17] + data[17..81] + data[81..145] + data[145..];
  }

  /** Saving, loading and writing on gives the same digest as writing on. */
  lemma ResumeContinues(g: Compression, size: nat, before: seq<Bytes>, after: seq<Bytes>)
    requires size == 32 || size == 64
    ensures WellFormed(FeedAll(g, Fresh(size), before))
    ensures var resumed := Unmarshal(Marshal(FeedAll(g, Fresh(size), before)));
      resumed.Loaded? && FeedAll(g, resumed.state, after) == FeedAll(g, Fresh(size), before + after)
  {
    FeedAllIsFeed(g, Fresh(size), before);
    FeedKeeps(g, Fresh(size), Concat(before));
    LoadsWhatWasSaved(FeedAll(g, Fresh(size), before));
    FeedAllAppend(g, Fresh(size), before, after);
  }

  lemma {:induction false} FeedAllAppend(g: Compression, s: State, a: seq<Bytes>, b: seq<Bytes>)
    ensures FeedAll(g, FeedAll(g, s, a), b) == FeedAll(g, s, a + b)
    decreases |a|
  {
    if a == [] {
      assert a + b == b;
    } else {
      assert (a + b)[0] == a[0] && (a + b)[1..] == a[1..] + b;
      FeedAllAppend(g, Feed(g, s, a[0]), a[1..], b);
    }
  }
}
