/** Initial output capacities estimated in saturating 64-bit arithmetic. */
module OutputEstimate {
  import opened Wire
  import opened OutputBuffers
  import opened ModularArithmetic

  newtype int64 = x: int | -0x8000_0000_0000_0000 <= x < 0x8000_0000_0000_0000

  const SATURATED: int64 := 0x8000_0000
  const OVERHEAD: int64 := 0x1_0000
  const PEM_ENVELOPE: int64 := 256
  const PEM_LINE: int64 := 64

  // ----- the exact sizes, in unbounded arithmetic

  function CeilDiv(n: nat, d: nat): nat
    requires d > 0
  {
    (n + d - 1) / d
  }

  function ExactDecoded(n: nat): nat { CeilDiv(n, 4) * 3 }

  function ExactBase64(n: nat): nat { CeilDiv(n, 3) * 4 }

  function ExactEncoded(n: nat, pem: bool, base64: bool): nat {
    if pem then ExactBase64(n) + CeilDiv(ExactBase64(n), 64) * 2 + 256 else if base64 then ExactBase64(n) else n
  }

  datatype Flags = Flags(signCMS: bool, detached: bool, inFile: bool, inBase64: bool, outPEM: bool, outBase64: bool)

  function ExactContent(signature: nat, data: nat, flags: Flags): nat {
    var s := if flags.inBase64 then ExactDecoded(signature) else signature;
    var d := if flags.inBase64 then ExactDecoded(data) else data;
    if flags.signCMS && !flags.detached && d > s then d else s
  }

  function ExactSignData(signature: nat, data: nat, flags: Flags): nat {
    ExactEncoded(ExactContent(signature, data, flags) + 0x1_0000, flags.outPEM, flags.outBase64)
  }

  // ----- the code's arithmetic; every operation stays in range

  function Saturate(n: nat): nat { if n < 0x8000_0000 then n else 0x8000_0000 }

  function SaturatingAdd(left: int64, right: int64): (r: int64)
    requires left >= 0 && right >= 0
    ensures r as int == Saturate(left as int + right as int)
  {
    if left >= SATURATED || right >= SATURATED || left > SATURATED - right then SATURATED else left + right
  }

  function SaturatingMultiply(value: int64, multiplier: int64): (r: int64)
    ensures value > 0 && multiplier > 0 ==> r as int == Saturate(value as int * multiplier as int)
    ensures value <= 0 || multiplier <= 0 ==> r == 0
  {
    if value <= 0 || multiplier <= 0 then 0
    else
      Product(value as int, multiplier as int, 0x8000_0000);
      if value >= SATURATED || value > SATURATED / multiplier then SATURATED
      else value * multiplier
  }

  /** The comparison with the quotient decides whether a product stays within the limit. */
  lemma Product(v: int, m: int, limit: int)
    requires v > 0 && m > 0 && limit > 0
    ensures if v > limit / m then v * m > limit else v * m <= limit
    ensures v >= limit ==> v * m >= limit
  {
    var r, q := Reduce(limit, m);
    QuotientIs(limit, m, q, r);
    Ordered(q, v, m);
    Ordered(v, q, m);
    Ordered(1, m, v);
    assert m * v == v * m;
  }

  lemma {:induction false} Gap(d: nat, m: int)
    requires m > 0
    ensures d * m >= 0 && (d >= 1 ==> d * m >= m)
  {
    if d > 0 {
      Gap(d - 1, m);
      assert d * m == (d - 1) * m + m;
    }
  }

  lemma Ordered(a: int, b: int, m: int)
    requires m > 0
    ensures a < b ==> a * m + m <= b * m
    ensures a <= b ==> a * m <= b * m
  {
    if a <= b {
      Gap(b - a, m);
      Split(a, b - a, b, m);
    }
  }

  lemma Split(a: int, d: int, b: int, m: int)
    requires b == a + d
    ensures b * m == a * m + d * m
  {
  }

  function CeilQuotient(value: int64, divisor: int64): (r: int64)
    requires 0 <= value && 0 < divisor
    ensures r as int == CeilDiv(value as int, divisor as int)
  {
    RoundUp(value as int, divisor as int);
    var quotient := value / divisor;
    if value % divisor != 0 then quotient + 1 else quotient
  }

  /** Rounding up adds one exactly when there is a remainder. */
  lemma RoundUp(v: nat, d: nat)
    requires d > 0
    ensures CeilDiv(v, d) == if v % d != 0 then v / d + 1 else v / d
    ensures v % d != 0 ==> v / d < v
  {
    var r, q := Reduce(v, d);
    QuotientIs(v, d, q, r);
    if r == 0 {
      QuotientIs(v + d - 1, d, q, d - 1);
    } else {
      Split(q, 1, q + 1, d);
      QuotientIs(v + d - 1, d, q + 1, r - 1);
    }
    if q >= 1 { Ordered(1, d, q); }
    assert d * q == q * d;
  }

  lemma QuotientIs(n: int, d: int, q: int, r: int)
    requires d > 0 && n == q * d + r && 0 <= r < d
    ensures n / d == q && n % d == r
  {
    ModMultiple(n, r, q, d);
    SmallResidue(r, d);
    var k := n / d;
    Ordered(k, q, d);
    Ordered(q, k, d);
  }

  function DecodedUpperBound(encoded: int64): (r: int64)
    requires encoded >= 0
    ensures r as int == Saturate(ExactDecoded(encoded as int))
  {
    if encoded <= 0 then 0 else SaturatingMultiply(CeilQuotient(encoded, 4), 3)
  }

  function Base64Estimate(raw: int64): (r: int64)
    requires raw >= 0
    ensures r as int == Saturate(ExactBase64(raw as int))
  {
    if raw <= 0 then 0 else SaturatingMultiply(CeilQuotient(raw, 3), 4)
  }

  function EncodedEstimate(raw: int64, pem: bool, base64: bool): (r: int64)
    requires raw >= 0
    ensures r as int == if pem || base64 then Saturate(ExactEncoded(raw as int, pem, base64)) else raw as int
  {
    if pem then
      var encoded := Base64Estimate(raw);
      var lineBreaks := SaturatingMultiply(CeilQuotient(encoded, PEM_LINE), 2);
      SaturatingAdd(SaturatingAdd(encoded, lineBreaks), PEM_ENVELOPE)
    else if base64 then Base64Estimate(raw)
    else raw
  }

  /** The size of the input: that of the file it names, if there is one. */
  function InputSize(length: int64, file: bool, stat: Option<int64>): int64 {
    if file && stat.Some? && stat.value >= 0 then stat.value else length
  }

  function ContentSize(signature: int64, data: int64, flags: Flags): (r: int64)
    requires signature >= 0 && data >= 0
    ensures r >= 0 && Saturate(r as int) == Saturate(ExactContent(signature as int, data as int, flags))
  {
    var signatureSize := if flags.inBase64 then DecodedUpperBound(signature) else signature;
    if flags.signCMS && !flags.detached then
      var dataSize := if flags.inBase64 then DecodedUpperBound(data) else data;
      if dataSize > signatureSize then dataSize else signatureSize
    else signatureSize
  }

  function EstimateSignData(signature: int64, dataLength: int64, stat: Option<int64>, flags: Flags, hard: int): (r: int)
    requires signature >= 0 && dataLength >= 0
    ensures r <= Limit(hard)
  {
    var contentSize := ContentSize(signature, InputSize(dataLength, flags.inFile, stat), flags);
    var estimated := EncodedEstimate(SaturatingAdd(contentSize, OVERHEAD), flags.outPEM, flags.outBase64);
    Min(estimated as int, Limit(hard))
  }

  function EstimateSignedXML(length: int64, hard: int): (r: int)
    requires length >= 0
    ensures r == Min(length as int + 0x1_0000, Limit(hard))
  {
    Min(SaturatingAdd(length, OVERHEAD) as int, Limit(hard))
  }

  // ----- saturation is never visible under the limit

  lemma EncodingKeepsSaturation(n: nat, pem: bool, base64: bool)
    ensures Saturate(ExactEncoded(Saturate(n), pem, base64)) == Saturate(ExactEncoded(n, pem, base64))
  {
    ThirdsMonotone(0x8000_0000, n);
  }

  lemma ThirdsMonotone(a: nat, b: nat)
    ensures a <= b ==> CeilDiv(a, 3) <= CeilDiv(b, 3)
  {
  }

  /** The estimate is the exact size, or the limit where that is smaller. */
  lemma EstimateIsExact(signature: int64, dataLength: int64, stat: Option<int64>, flags: Flags, hard: int)
    requires signature >= 0 && dataLength >= 0
    ensures var data := InputSize(dataLength, flags.inFile, stat);
      data >= 0 &&
      EstimateSignData(signature, dataLength, stat, flags, hard) ==
        Min(ExactSignData(signature as int, data as int, flags), Limit(hard))
  {
    var data := InputSize(dataLength, flags.inFile, stat);
    var exact := ExactContent(signature as int, data as int, flags) + 0x1_0000;
    var raw := SaturatingAdd(ContentSize(signature, data, flags), OVERHEAD);
    assert raw as int == Saturate(exact);
    Bounded(raw, exact, flags.outPEM, flags.outBase64, hard);
  }

  lemma Bounded(raw: int64, exact: nat, pem: bool, base64: bool, hard: int)
    requires raw as int == Saturate(exact)
    ensures Min(EncodedEstimate(raw, pem, base64) as int, Limit(hard)) ==
      Min(ExactEncoded(exact, pem, base64), Limit(hard))
  {
    EncodingKeepsSaturation(exact, pem, base64);
  }
}
