/** Bytes and big-endian integers. */
module Wire {
  datatype Option<+T> = None | Some(value: T)

  type byte = x: int | 0 <= x < 256
  type Bytes = seq<byte>

  const U32_LIMIT := 0x1_0000_0000
  const U64_LIMIT := 0x1_0000_0000_0000_0000
  const I64_MIN := -0x8000_0000_0000_0000
  const I64_MAX := 0x7FFF_FFFF_FFFF_FFFF

  function Concat(chunks: seq<Bytes>): Bytes { if chunks == [] then [] else chunks[0] + Concat(chunks[1..]) }

  lemma Assoc(a: Bytes, b: Bytes, c: Bytes)
    ensures (a + b) + c == a + (b + c)
  {
  }

  function Pow2(k: nat): nat { if k == 0 then 1 else 2 * Pow2(k - 1) }

  function Pow256(n: nat): nat { if n == 0 then 1 else 256 * Pow256(n - 1) }

  function BigEndian(n: nat, v: nat): (s: Bytes)
    ensures |s| == n
    decreases n + v
  {
    if n == 0 then [] else BigEndian(n - 1, v / 256) + [v % 256]
  }

  function FromBigEndian(s: Bytes): nat {
    if s == [] then 0 else FromBigEndian(s[..|s| - 1]) * 256 + s[|s| - 1]
  }

  lemma {:induction false} BigEndianRoundTrip(n: nat, v: nat)
    requires v < Pow256(n)
    ensures FromBigEndian(BigEndian(n, v)) == v
  {
    if n > 0 {
      BigEndianRoundTrip(n - 1, v / 256);
      var s := BigEndian(n, v);
      assert s[..|s| - 1] == BigEndian(n - 1, v / 256);
    }
  }

  lemma {:induction false} FromBigEndianBound(s: Bytes)
    ensures FromBigEndian(s) < Pow256(|s|)
  {
    if s != [] { FromBigEndianBound(s[..|s| - 1]); }
  }

  lemma Powers()
    ensures Pow256(4) == U32_LIMIT && Pow256(8) == U64_LIMIT
  {
    assert Pow256(1) == 256;
    assert Pow256(2) == 65536;
    assert Pow256(3) == 16777216;
    assert Pow256(4) == U32_LIMIT;
    assert Pow256(5) == 256 * U32_LIMIT;
    assert Pow256(6) == 65536 * U32_LIMIT;
    assert Pow256(7) == 16777216 * U32_LIMIT;
  }

  function U32(v: nat): (s: Bytes) ensures |s| == 4 { BigEndian(4, v) }
  function U64(v: nat): (s: Bytes) ensures |s| == 8 { BigEndian(8, v) }

  lemma U32RoundTrip(v: nat)
    requires v < U32_LIMIT
    ensures FromBigEndian(U32(v)) == v
  {
    Powers();
    BigEndianRoundTrip(4, v);
  }

  lemma U64RoundTrip(v: nat)
    requires v < U64_LIMIT
    ensures FromBigEndian(U64(v)) == v
  {
    Powers();
    BigEndianRoundTrip(8, v);
  }

  /** The bit pattern of a signed 64-bit integer, and back. */
  function Pattern(i: int): nat
    requires I64_MIN <= i <= I64_MAX
  {
    if i < 0 then i + U64_LIMIT else i
  }

  function Signed(u: nat): int { if u > I64_MAX then u - U64_LIMIT else u }
}
