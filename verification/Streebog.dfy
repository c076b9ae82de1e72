/**
 * GOST R 34.11-2012 as section 9 of RFC 6986 defines it, in the byte order of the implementation (byte 0 of a
 * block is its least significant). The LPS transformation and the iteration constants are parameters.
 */
module Streebog {
  import opened Wire
  import opened Endian

  type Block = b: Bytes | |b| == 64 witness seq(64, _ => 0)

  datatype Tables = Tables(lps: Block -> Block, c: nat -> Block)

  // ----- bytes and 512-bit integers

  function XorBits(k: nat, a: nat, b: nat): (r: nat)
    requires a < Pow2(k) && b < Pow2(k)
    ensures r < Pow2(k)
    decreases k + a
  {
    if k == 0 then 0 else (a + b) % 2 + 2 * XorBits(k - 1, a / 2, b / 2)
  }

  lemma {:induction false} XorBitsZero(k: nat, a: nat)
    requires a < Pow2(k)
    ensures XorBits(k, a, 0) == a
  {
    if k > 0 { XorBitsZero(k - 1, a / 2); }
  }

  lemma ByteRange()
    ensures Pow2(8) == 256
  {
    assert Pow2(4) == 16;
  }

  function Xor(a: byte, b: byte): byte {
    ByteRange();
    XorBits(8, a, b)
  }

  lemma XorZero(a: byte)
    ensures Xor(a, 0) == a
  {
    ByteRange();
    XorBitsZero(8, a);
  }

  /** Bit `i` of a number. */
  function BitOf(v: nat, i: nat): nat { if i == 0 then v % 2 else BitOf(v / 2, i - 1) }

  /** Every bit of the result is the sum of the two bits modulo two. */
  lemma {:induction false} XorBitsAt(k: nat, a: nat, b: nat, i: nat)
    requires a < Pow2(k) && b < Pow2(k) && i < k
    ensures BitOf(XorBits(k, a, b), i) == (BitOf(a, i) + BitOf(b, i)) % 2
  {
    var low, high := XorParts(k, a, b);
    if i > 0 {
      XorBitsAt(k - 1, a / 2, b / 2, i - 1);
    } else {
      SumParity(a, b);
    }
  }

  lemma SumParity(a: nat, b: nat)
    ensures (a + b) % 2 == (a % 2 + b % 2) % 2
  {
  }

  lemma {:induction false} XorBitsTwice(k: nat, a: nat, b: nat)
    requires a < Pow2(k) && b < Pow2(k)
    ensures XorBits(k, XorBits(k, a, b), b) == a
  {
    if k > 0 {
      XorBitsTwice(k - 1, a / 2, b / 2);
      var low, high := XorParts(k, a, b);
      var r := XorBits(k, a, b);
      var low', high' := XorParts(k, r, b);
      Parity(a, b, r);
    }
  }

  /** The lowest bit, and the others. */
  lemma XorParts(k: nat, a: nat, b: nat) returns (low: nat, high: nat)
    requires k > 0 && a < Pow2(k) && b < Pow2(k)
    ensures a / 2 < Pow2(k - 1) && b / 2 < Pow2(k - 1)
    ensures low == (a + b) % 2 && high == XorBits(k - 1, a / 2, b / 2)
    ensures XorBits(k, a, b) == low + 2 * high && XorBits(k, a, b) % 2 == low && XorBits(k, a, b) / 2 == high
  {
    low, high := (a + b) % 2, XorBits(k - 1, a / 2, b / 2);
    Halve(XorBits(k, a, b), low, high);
  }

  lemma Halve(r: nat, low: nat, high: nat)
    requires r == low + 2 * high && low < 2
    ensures r % 2 == low && r / 2 == high
  {
  }

  lemma Parity(a: nat, b: nat, r: nat)
    requires r % 2 == (a + b) % 2
    ensures (r + b) % 2 == a % 2
  {
  }

  /** Exclusive or, bit by bit; doing it twice undoes it. */
  lemma XorIsExclusive(a: byte, b: byte, i: nat)
    requires i < 8
    ensures BitOf(Xor(a, b), i) == 1 <==> BitOf(a, i) != BitOf(b, i)
    ensures Xor(Xor(a, b), b) == a
  {
    ByteRange();
    XorBitsTwice(8, a, b);
    XorBitsAt(8, a, b, i);
    DifferentBits(a, b, i, BitOf(XorBits(8, a, b), i));
  }

  lemma DifferentBits(a: nat, b: nat, i: nat, r: nat)
    requires r == (BitOf(a, i) + BitOf(b, i)) % 2
    ensures r == 1 <==> BitOf(a, i) != BitOf(b, i)
  {
    OneBit(a, i);
    OneBit(b, i);
  }

  lemma {:induction false} OneBit(v: nat, i: nat)
    ensures BitOf(v, i) < 2
  {
    if i > 0 { OneBit(v / 2, i - 1); }
  }

  function XorFrom(a: Bytes, b: Bytes, i: nat): (r: Bytes)
    requires |a| == |b| && i <= |a|
    ensures |r| == |a| - i
    decreases |a| - i
  {
    if i == |a| then [] else [Xor(a[i], b[i])] + XorFrom(a, b, i + 1)
  }

  function XorBlock(a: Block, b: Block): Block { XorFrom(a, b, 0) }

  lemma {:induction false} XorAt(a: Bytes, b: Bytes, i: nat, j: nat)
    requires |a| == |b| && i <= j < |a|
    ensures XorFrom(a, b, i)[j - i] == Xor(a[j], b[j])
    decreases j - i
  {
    if i < j { XorAt(a, b, i + 1, j); }
  }

  /** Vec_512 and Int_512 of the RFC; Vec512 reduces modulo 2^512. */
  function Vec512(v: nat): Block { LittleEndian(64, v) }
  function Int512(b: Block): nat { FromLittleEndian(b) }

  function Zero512(): Block { seq(64, _ => 0) }

  /** Addition of 512-bit integers; Vec512 drops the carry. */
  function Add512(a: Block, b: Block): Block { Vec512(Int512(a) + Int512(b)) }

  lemma {:induction false} Pow256Positive(n: nat)
    ensures Pow256(n) > 0
  {
    if n > 0 { Pow256Positive(n - 1); }
  }

  // ----- the compression function

  function RoundKey(t: Tables, k: Block, i: nat): Block
    decreases i, k
  {
    if i == 0 then k else t.lps(XorBlock(RoundKey(t, k, i - 1), t.c(i - 1)))
  }

  function RoundState(t: Tables, k: Block, m: Block, i: nat): Block
    decreases i, k
  {
    if i == 0 then m else t.lps(XorBlock(RoundKey(t, k, i - 1), RoundState(t, k, m, i - 1)))
  }

  function Encrypt(t: Tables, k: Block, m: Block): Block { XorBlock(RoundKey(t, k, 12), RoundState(t, k, m, 12)) }

  /** g_N(h, m). */
  function Compress(t: Tables, n: Block, h: Block, m: Block): Block {
    XorBlock(XorBlock(Encrypt(t, t.lps(XorBlock(h, n)), m), h), m)
  }

  /** A compression function, applied to a length, a chaining value and a block. */
  type Compression = (Block, Block, Block) -> Block

  /** `g` is the compression function of the tables. */
  ghost predicate Implements(t: Tables, g: Compression) {
    forall n, h, m {:trigger Compress(t, n, h, m)} :: g(n, h, m) == Compress(t, n, h, m)
  }

  // ----- the one-shot hash

  datatype Chain = Chain(h: Block, n: nat, sigma: Block)

  function IV(size: nat): Block { seq(64, _ => if size == 32 then 1 else 0) }

  /** Stage 2 for one block; lengths are counted modulo `limit`. */
  function Step(g: Compression, limit: nat, s: Chain, m: Block): Chain
    requires limit > 0
  {
    Chain(g(Vec512(s.n), s.h, m), (s.n + 512) % limit, Add512(s.sigma, m))
  }

  function Absorb(g: Compression, limit: nat, s: Chain, m: Bytes): Chain
    requires limit > 0
    decreases |m|
  {
    if |m| < 64 then s else Absorb(g, limit, Step(g, limit, s, m[..64]), m[64..])
  }

  /** What stage 2 leaves over. */
  function Rest(m: Bytes): (r: Bytes)
    ensures |r| < 64
    decreases |m|
  {
    if |m| < 64 then m else Rest(m[64..])
  }

  function Padded(m: Bytes): Block
    requires |m| < 64
  {
    m + [1] + seq(63 - |m|, _ => 0)
  }

  /** Stage 3. */
  function Finish(g: Compression, limit: nat, size: nat, s: Chain, rest: Bytes): Bytes
    requires limit > 0 && |rest| < 64
  {
    var m := Padded(rest);
    Cut(size, LastBlocks(g, s.n, s.h, m, LengthBlock(limit, s.n, rest), Add512(s.sigma, m)))
  }

  /** The length that stage 3 compresses, when `n` bits were absorbed before the rest. */
  function LengthBlock(limit: nat, n: nat, rest: Bytes): Block
    requires limit > 0
  {
    Vec512((n + 8 * |rest|) % limit)
  }

  function LastBlocks(g: Compression, n: nat, h: Block, m: Block, length: Block, checksum: Block): Block {
    g(Zero512(), g(Zero512(), g(Vec512(n), h, m), length), checksum)
  }

  function Cut(size: nat, h: Block): Bytes { if size == 32 then h[32..] else h }

  function HashModulo(g: Compression, limit: nat, size: nat, m: Bytes): Bytes
    requires limit > 0
  {
    Finish(g, limit, size, Absorb(g, limit, Chain(IV(size), 0, Zero512()), m), Rest(m))
  }

  /** The hash of RFC 6986: lengths and checksums are 512-bit. */
  function Hash(g: Compression, size: nat, m: Bytes): Bytes {
    Pow256Positive(64);
    HashModulo(g, Pow256(64), size, m)
  }

  // ----- the streaming state

  datatype State = State(size: nat, n: nat, h: Block, sigma: Block, buf: Bytes)

  ghost predicate WellFormed(s: State) { (s.size == 32 || s.size == 64) && s.n < U64_LIMIT && |s.buf| < 64 }

  function Fresh(size: nat): State { State(size, 0, IV(size), Zero512(), []) }

  function OneBlock(g: Compression, s: State): State
    requires |s.buf| >= 64
  {
    State(s.size, (s.n + 512) % U64_LIMIT, g(Vec512(s.n), s.h, s.buf[..64]),
          Add512(s.sigma, s.buf[..64]), s.buf[64..])
  }

  function Drain(g: Compression, s: State): State
    decreases |s.buf|
  {
    if |s.buf| < 64 then s else Drain(g, OneBlock(g, s))
  }

  /** What one Write does to the state. */
  function Feed(g: Compression, s: State, data: Bytes): State { Drain(g, s.(buf := s.buf + data)) }

  function FeedAll(g: Compression, s: State, chunks: seq<Bytes>): State
    decreases |chunks|
  {
    if chunks == [] then s else FeedAll(g, Feed(g, s, chunks[0]), chunks[1..])
  }

  /** What Sum appends. */
  function Digest(g: Compression, s: State): Bytes
    requires |s.buf| < 64
  {
    Finish(g, U64_LIMIT, s.size, Chain(s.h, s.n, s.sigma), s.buf)
  }
}
