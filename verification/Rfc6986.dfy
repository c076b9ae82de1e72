/**
 * The three stages of section 9 of RFC 6986 in the order of the RFC, where the first byte of a vector is its most
 * significant and a message is consumed from its end, and the proof that the implementation computes them.
 */
module Rfc6986 {
  import opened Wire
  import opened Endian
  import opened ModularArithmetic
  import opened Streebog
  import opened StreebogProof

  // ----- the RFC; `p` is 2^512

  function Int(v: Block): nat { FromBigEndian(v) }

  /** Vec_512 of a sum modulo 2^512. */
  function VecSum(p: nat, a: nat, b: nat): Block
    requires p > 0
  {
    BigEndian(64, (a + b) % p)
  }

  function Zeros(n: nat): Bytes { seq(n, _ => 0) }

  /** Stage 2: while 512 bits are left, compress the last ones and count them. */
  function Stage2(p: nat, g: Compression, size: nat, h: Block, n: Block, sigma: Block, message: Bytes): Bytes
    requires p > 0
    decreases |message|
  {
    if |message| < 64 then Stage3(p, g, size, h, n, sigma, message)
    else
      var m := message[|message| - 64..];
      Stage2(p, g, size, g(n, h, m), VecSum(p, Int(n), 512), VecSum(p, Int(sigma), Int(m)), message[..|message| - 64])
  }

  /** Stage 3: the padded rest, the length and the checksum; the short digest is the most significant half. */
  function Stage3(p: nat, g: Compression, size: nat, h: Block, n: Block, sigma: Block, message: Bytes): Bytes
    requires p > 0 && |message| < 64
  {
    var m := PaddedLeft(message);
    var last := ThreeBlocks(g, n, h, m, VecSum(p, Int(n), 8 * |message|), VecSum(p, Int(sigma), Int(m)));
    if size == 32 then last[..32] else last
  }

  function PaddedLeft(message: Bytes): Block
    requires |message| < 64
  {
    Zeros(63 - |message|) + [1] + message
  }

  function ThreeBlocks(g: Compression, n: Block, h: Block, m: Block, length: Block, checksum: Block): Block {
    g(Zeros(64), g(Zeros(64), g(n, h, m), length), checksum)
  }

  /** Stage 1: the initial value is 512 zero bits, or 64 times the byte 1 for the short digest. */
  function RfcHash(g: Compression, size: nat, message: Bytes): Bytes {
    Pow256Positive(64);
    Stage2(Pow256(64), g, size, if size == 32 then seq(64, _ => 1) else Zeros(64), Zeros(64), Zeros(64), message)
  }

  // ----- section 8: the compression function

  /** Thirteen round keys. */
  ghost predicate RoundKeys(t: Tables, key: Block, ks: seq<Block>) {
    |ks| == 13 && ks[0] == key && forall i :: 0 <= i < 12 ==> NextKey(t, ks, i)
  }

  ghost predicate NextKey(t: Tables, ks: seq<Block>, i: nat)
    requires i + 1 < |ks|
  {
    ks[i + 1] == t.lps(XorBlock(ks[i], t.c(i)))
  }

  /** Twelve rounds, each with its own key. */
  ghost predicate RoundStates(t: Tables, ks: seq<Block>, m: Block, ms: seq<Block>) {
    |ms| == 13 == |ks| && ms[0] == m && forall i :: 0 <= i < 12 ==> NextState(t, ks, ms, i)
  }

  ghost predicate NextState(t: Tables, ks: seq<Block>, ms: seq<Block>, i: nat)
    requires i + 1 < |ms| && i < |ks|
  {
    ms[i + 1] == t.lps(XorBlock(ks[i], ms[i]))
  }

  lemma KeysOf(t: Tables, key: Block, n: nat) returns (ks: seq<Block>)
    requires n == 12
    ensures RoundKeys(t, key, ks) && ks[12] == RoundKey(t, key, n)
    ensures forall i :: 0 <= i < 13 ==> ks[i] == RoundKey(t, key, i)
  {
    ks := [key];
    for i := 0 to n
      invariant |ks| == i + 1 && forall j :: 0 <= j <= i ==> ks[j] == RoundKey(t, key, j)
    {
      ks := ks + [RoundKey(t, key, i + 1)];
    }
    assert forall i :: 0 <= i < 12 ==> NextKey(t, ks, i);
  }

  lemma StatesOf(t: Tables, key: Block, ks: seq<Block>, m: Block, n: nat) returns (ms: seq<Block>)
    requires n == 12 && |ks| == 13 && forall i :: 0 <= i < 13 ==> ks[i] == RoundKey(t, key, i)
    ensures RoundStates(t, ks, m, ms) && ms[12] == RoundState(t, key, m, n)
  {
    ms := [m];
    for i := 0 to n
      invariant |ms| == i + 1 && forall j :: 0 <= j <= i ==> ms[j] == RoundState(t, key, m, j)
    {
      ms := ms + [RoundState(t, key, m, i + 1)];
    }
    assert forall i :: 0 <= i < 12 ==> NextState(t, ks, ms, i);
  }

  /** g_N(h, m) is the last key xor the last state xor h xor m, where the first key is LPS(h xor N). */
  lemma CompressIsRfc(t: Tables, n: Block, h: Block, m: Block, i: nat) returns (ks: seq<Block>, ms: seq<Block>)
    requires i < 64
    ensures RoundKeys(t, t.lps(XorBlock(h, n)), ks) && RoundStates(t, ks, m, ms)
    ensures Compress(t, n, h, m)[i] == Xor(Xor(Xor(ks[12][i], ms[12][i]), h[i]), m[i])
  {
    var key := t.lps(XorBlock(h, n));
    ks := KeysOf(t, key, 12);
    ms := StatesOf(t, key, ks, m, 12);
    var e := Encrypt(t, key, m);
    XorAt(ks[12], ms[12], 0, i);
    XorAt(e, h, 0, i);
    XorAt(XorBlock(e, h), m, 0, i);
  }

  // ----- the implementation, read backwards

  function MirrorBlock(b: Block): Block { Mirror(b) }

  /** The same compression function on vectors in the other byte order. */
  function Reversed(g: Compression): Compression {
    (n: Block, h: Block, m: Block) => MirrorBlock(g(MirrorBlock(n), MirrorBlock(h), MirrorBlock(m)))
  }

  lemma ReversedAt(g: Compression, n: Block, h: Block, m: Block)
    ensures Reversed(g)(Mirror(n), Mirror(h), Mirror(m)) == Mirror(g(n, h, m))
  {
    MirrorTwice(n);
    MirrorTwice(h);
    MirrorTwice(m);
    var n', h', m' := MirrorBlock(n), MirrorBlock(h), MirrorBlock(m);
    assert MirrorBlock(n') == n && MirrorBlock(h') == h && MirrorBlock(m') == m;
    assert Reversed(g)(n', h', m') == MirrorBlock(g(MirrorBlock(n'), MirrorBlock(h'), MirrorBlock(m')));
  }

  lemma MirrorVec(w: nat, v: nat)
    requires w == 64 && v < Pow256(w)
    ensures Mirror(Vec512(v)) == BigEndian(64, v) && Int(BigEndian(64, v)) == v
  {
    MirrorLittle(w, v);
    BigEndianRoundTrip(w, v);
  }

  lemma IntBack(b: Block) returns (v: nat)
    ensures v == Int512(b) == Int(Mirror(b))
  {
    MirrorEndian(b);
    v := Int512(b);
  }

  lemma MirrorLittleMod(w: nat, v: nat)
    ensures Pow256(w) > 0 && Mirror(LittleEndian(w, v)) == BigEndian(w, v % Pow256(w))
  {
    var s := LittleEndian(w, v);
    LittleEndianMod(w, v);
    FromLittleEndianRoundTrip(s);
    MirrorLittle(w, FromLittleEndian(s));
  }

  lemma VecBack(w: nat, p: nat, v: nat)
    requires w == 64 && p == Pow256(w)
    ensures p > 0 && Mirror(Vec512(v)) == BigEndian(64, v % p)
  {
    MirrorLittleMod(w, v);
  }

  /** Checksums are sums modulo 2^512 in either byte order. */
  lemma MirrorSum(w: nat, p: nat, a: Block, b: Block)
    requires w == 64 && p == Pow256(w)
    ensures p > 0 && Mirror(Add512(a, b)) == VecSum(p, Int(Mirror(a)), Int(Mirror(b)))
  {
    var x := IntBack(a);
    var y := IntBack(b);
    VecBack(w, p, x + y);
  }

  lemma MirrorZeros(n: nat)
    ensures Mirror(Zeros(n)) == Zeros(n)
  {
  }

  lemma MirrorThree(a: Bytes, b: Bytes, c: Bytes)
    ensures Mirror(a + b + c) == Mirror(c) + Mirror(b) + Mirror(a)
  {
    MirrorConcat(a + b, c);
    MirrorConcat(a, b);
    assert Mirror(c) + (Mirror(b) + Mirror(a)) == Mirror(c) + Mirror(b) + Mirror(a);
  }

  lemma MirrorPadded(rest: Bytes)
    requires |rest| < 64
    ensures Mirror(Padded(rest)) == PaddedLeft(Mirror(rest))
  {
    MirrorThree(rest, [1], Zeros(63 - |rest|));
    MirrorZeros(63 - |rest|);
    MirrorOne(1);
  }

  lemma MirrorOne(b: byte)
    ensures Mirror([b]) == [b]
  {
    assert [b][1..] == [] && [] + [b] == [b];
  }

  lemma MirrorParts(m: Bytes)
    requires |m| >= 64
    ensures Mirror(m)[|m| - 64..] == Mirror(m[..64]) && Mirror(m)[..|m| - 64] == Mirror(m[64..])
  {
    assert m == m[..64] + m[64..];
    MirrorConcat(m[..64], m[64..]);
  }

  /** Numbers below the modulus and sums of blocks look the same from both sides. */
  ghost predicate VecAgrees(v: nat) { Mirror(Vec512(v)) == BigEndian(64, v) && Int(BigEndian(64, v)) == v }

  ghost predicate SumAgrees(p: nat, a: Block, b: Block)
    requires p > 0
  {
    Mirror(Add512(a, b)) == VecSum(p, Int(Mirror(a)), Int(Mirror(b)))
  }

  ghost predicate Agrees(p: nat) {
    && p > 0
    && (forall v: nat {:trigger VecAgrees(v)} :: v < p ==> VecAgrees(v))
    && (forall a: Block, b: Block {:trigger SumAgrees(p, a, b)} :: SumAgrees(p, a, b))
  }

  lemma Width512(w: nat, p: nat)
    requires w == 64 && p == Pow256(w)
    ensures Agrees(p)
  {
    Pow256Positive(w);
    forall v: nat | v < p ensures VecAgrees(v) { MirrorVec(w, v); }
    forall a: Block, b: Block ensures SumAgrees(p, a, b) { MirrorSum(w, p, a, b); }
  }

  /** One block of stage 2. */
  lemma StepBack(p: nat, g: Compression, s: Chain, block: Block, next: Chain)
    requires Agrees(p) && s.n < p && next == Step(g, p, s, block)
    ensures next.n < p
    ensures Reversed(g)(BigEndian(64, s.n), Mirror(s.h), Mirror(block)) == Mirror(next.h)
    ensures VecSum(p, Int(BigEndian(64, s.n)), 512) == BigEndian(64, next.n)
    ensures VecSum(p, Int(Mirror(s.sigma)), Int(Mirror(block))) == Mirror(next.sigma)
  {
    assert VecAgrees(s.n);
    ReversedAt(g, Vec512(s.n), s.h, block);
    assert SumAgrees(p, s.sigma, block);
  }

  lemma OneBlockBack(p: nat, g: Compression, size: nat, s: Chain, m: Bytes, next: Chain)
    requires Agrees(p) && s.n < p && |m| >= 64 && next == Step(g, p, s, m[..64])
    ensures next.n < p
    ensures Stage2(p, Reversed(g), size, Mirror(s.h), BigEndian(64, s.n), Mirror(s.sigma), Mirror(m)) ==
            Stage2(p, Reversed(g), size, Mirror(next.h), BigEndian(64, next.n), Mirror(next.sigma), Mirror(m[64..]))
  {
    MirrorParts(m);
    StepBack(p, g, s, m[..64], next);
    Stage2Step(p, Reversed(g), size, Mirror(s.h), BigEndian(64, s.n), Mirror(s.sigma), Mirror(m), Mirror(m[..64]),
               Mirror(m[64..]));
  }

  lemma Stage2Step(p: nat, g: Compression, size: nat, h: Block, n: Block, sigma: Block, message: Bytes, m: Block,
                   before: Bytes)
    requires p > 0 && |message| >= 64 && m == message[|message| - 64..] && before == message[..|message| - 64]
    ensures Stage2(p, g, size, h, n, sigma, message) ==
            Stage2(p, g, size, g(n, h, m), VecSum(p, Int(n), 512), VecSum(p, Int(sigma), Int(m)), before)
  {
  }

  lemma {:induction false} StagesAreChain(p: nat, g: Compression, size: nat, s: Chain, m: Bytes)
    requires Agrees(p) && s.n < p && (size == 32 || size == 64)
    ensures Stage2(p, Reversed(g), size, Mirror(s.h), BigEndian(64, s.n), Mirror(s.sigma), Mirror(m)) ==
            Mirror(Finish(g, p, size, Absorb(g, p, s, m), Rest(m)))
    decreases |m|
  {
    if |m| < 64 {
      LastStage(p, g, size, s, m);
    } else {
      var next := Step(g, p, s, m[..64]);
      OneBlockBack(p, g, size, s, m, next);
      StagesAreChain(p, g, size, next, m[64..]);
    }
  }

  lemma LastStage(p: nat, g: Compression, size: nat, s: Chain, rest: Bytes)
    requires Agrees(p) && s.n < p && |rest| < 64 && (size == 32 || size == 64)
    ensures Stage3(p, Reversed(g), size, Mirror(s.h), BigEndian(64, s.n), Mirror(s.sigma), Mirror(rest)) ==
            Mirror(Finish(g, p, size, s, rest))
  {
    var m, length, checksum := LastInputs(p, s, rest);
    var last := LastBack(g, s.n, s.h, m, length, checksum);
    LastOutput(p, g, size, s, rest, m, length, checksum, last);
  }

  /** Padding, length and checksum of the two sides. */
  lemma LastInputs(p: nat, s: Chain, rest: Bytes) returns (m: Block, length: Block, checksum: Block)
    requires Agrees(p) && s.n < p && |rest| < 64
    ensures m == Padded(rest) && length == LengthBlock(p, s.n, rest) && checksum == Add512(s.sigma, m)
    ensures Mirror(Vec512(s.n)) == BigEndian(64, s.n) && Mirror(m) == PaddedLeft(Mirror(rest))
    ensures Mirror(length) == VecSum(p, Int(BigEndian(64, s.n)), 8 * |rest|)
    ensures Mirror(checksum) == VecSum(p, Int(Mirror(s.sigma)), Int(Mirror(m)))
  {
    m := Padded(rest);
    MirrorPadded(rest);
    length := LengthInput(p, s.n, rest);
    checksum := Add512(s.sigma, m);
    assert SumAgrees(p, s.sigma, m);
  }

  lemma LengthInput(p: nat, n: nat, rest: Bytes) returns (length: Block)
    requires Agrees(p) && n < p
    ensures length == LengthBlock(p, n, rest) && Mirror(length) == VecSum(p, Int(BigEndian(64, n)), 8 * |rest|)
    ensures Mirror(Vec512(n)) == BigEndian(64, n)
  {
    length := LengthBlock(p, n, rest);
    assert VecAgrees(n);
    assert VecAgrees((n + 8 * |rest|) % p);
  }

  lemma LastOutput(p: nat, g: Compression, size: nat, s: Chain, rest: Bytes, m: Block, length: Block, checksum: Block,
                   last: Block)
    requires p > 0 && |rest| < 64
    requires m == Padded(rest) && length == LengthBlock(p, s.n, rest) && checksum == Add512(s.sigma, m)
    requires Mirror(Vec512(s.n)) == BigEndian(64, s.n) && Mirror(m) == PaddedLeft(Mirror(rest))
    requires Mirror(length) == VecSum(p, Int(BigEndian(64, s.n)), 8 * |rest|)
    requires Mirror(checksum) == VecSum(p, Int(Mirror(s.sigma)), Int(Mirror(m)))
    requires last == LastBlocks(g, s.n, s.h, m, length, checksum)
    requires ThreeBlocks(Reversed(g), Mirror(Vec512(s.n)), Mirror(s.h), Mirror(m), Mirror(length), Mirror(checksum)) ==
             Mirror(last)
    ensures Stage3(p, Reversed(g), size, Mirror(s.h), BigEndian(64, s.n), Mirror(s.sigma), Mirror(rest)) ==
            Mirror(Finish(g, p, size, s, rest))
  {
    MirrorCut(size, last);
  }

  lemma LastBack(g: Compression, n: nat, h: Block, m: Block, length: Block, checksum: Block) returns (last: Block)
    ensures last == LastBlocks(g, n, h, m, length, checksum)
    ensures ThreeBlocks(Reversed(g), Mirror(Vec512(n)), Mirror(h), Mirror(m), Mirror(length), Mirror(checksum)) ==
            Mirror(last)
  {
    last := LastBlocks(g, n, h, m, length, checksum);
    ThreeBack(g, Vec512(n), h, m, length, checksum, Zero512());
  }

  lemma ThreeBack(g: Compression, n: Block, h: Block, m: Block, length: Block, checksum: Block, zero: Block)
    requires zero == Zeros(64)
    ensures ThreeBlocks(Reversed(g), Mirror(n), Mirror(h), Mirror(m), Mirror(length), Mirror(checksum)) ==
            Mirror(g(zero, g(zero, g(n, h, m), length), checksum))
  {
    MirrorZeros(64);
    ReversedAt(g, n, h, m);
    ReversedAt(g, zero, g(n, h, m), length);
    ReversedAt(g, zero, g(zero, g(n, h, m), length), checksum);
  }

  lemma MirrorCut(size: nat, h: Block)
    ensures Mirror(Cut(size, h)) == if size == 32 then Mirror(h)[..32] else Mirror(h)
  {
    assert h == h[..32] + h[32..];
    MirrorConcat(h[..32], h[32..]);
  }

  lemma {:induction false} ZeroBytes(k: nat, zero: nat)
    requires zero == 0
    ensures BigEndian(k, zero) == Zeros(k)
    decreases k
  {
    if k > 0 {
      ZeroBytes(k - 1, zero / 256);
      assert Zeros(k) == Zeros(k - 1) + [0];
    }
  }

  /** The one-shot hash of the implementation, read backwards, is the RFC's hash of the message read backwards. */
  lemma HashIsRfc(g: Compression, size: nat, m: Bytes)
    requires size == 32 || size == 64
    ensures RfcHash(Reversed(g), size, Mirror(m)) == Mirror(Hash(g, size, m))
  {
    Pow256Positive(64);
    Width512(64, Pow256(64));
    HashBack(Pow256(64), g, size, m);
  }

  lemma MirrorInitial(n: nat, size: nat)
    requires n == 64
    ensures Mirror(IV(size)) == if size == 32 then seq(64, _ => 1) else Zeros(64)
    ensures Mirror(Zero512()) == Zeros(64) && BigEndian(64, 0) == Zeros(64)
  {
    ZeroBytes(n, 0);
    var iv := IV(size);
    var r: Block := if size == 32 then seq(64, _ => 1) else Zeros(64);
    forall i | 0 <= i < 64 ensures Mirror(iv)[i] == r[i] { assert Mirror(iv)[i] == iv[63 - i]; }
    MirrorZeros(n);
  }

  lemma HashBack(p: nat, g: Compression, size: nat, m: Bytes)
    requires Agrees(p) && (size == 32 || size == 64)
    ensures Stage2(p, Reversed(g), size, if size == 32 then seq(64, _ => 1) else Zeros(64), Zeros(64), Zeros(64),
                   Mirror(m)) ==
            Mirror(HashModulo(g, p, size, m))
  {
    MirrorInitial(64, size);
    StagesAreChain(p, g, size, Chain(IV(size), 0, Zero512()), m);
  }

  /** However a message below 2^64 bits is split into writes, Sum answers the RFC's hash. */
  lemma StreamingIsRfc(g: Compression, size: nat, chunks: seq<Bytes>)
    requires (size == 32 || size == 64) && 8 * |Concat(chunks)| < U64_LIMIT
    ensures |FeedAll(g, Fresh(size), chunks).buf| < 64
    ensures Mirror(Digest(g, FeedAll(g, Fresh(size), chunks))) == RfcHash(Reversed(g), size, Mirror(Concat(chunks)))
  {
    StreamingHash(g, size, chunks);
    HashIsRfc(g, size, Concat(chunks));
  }
}
