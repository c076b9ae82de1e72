/** Scalar multiplication is repeated addition, and every honest signature verifies. */
module GostProof {
  import opened Wire
  import opened ModularArithmetic
  import opened AdditiveGroup
  import opened Gost3410

  ghost predicate OnCurve(c: Curve, s: Point) { s.Infinity? || Canonical(c, s.x, s.y) }

  /** The curve's points under the code's own addition. */
  ghost function Points(c: Curve): Group<Point> { Group((s, t) => Add(c, s, t), Infinity, s => OnCurve(c, s)) }

  /** The chord-and-tangent group law: the addition is closed and associative; Infinity is neutral by definition. */
  ghost predicate GroupLaws(c: Curve) { c.p > 0 && Laws(Points(c)) }

  /** Double-and-add, through any intermediate infinities, is k-fold repeated addition. */
  lemma {:induction false} DoubleAndAddIsTimes(c: Curve, k: nat, s: Point)
    requires GroupLaws(c) && OnCurve(c, s)
    ensures DoubleAndAdd(c, k, s) == Times(Points(c), k, s)
  {
    if k > 0 {
      var h := k / 2;
      DoubleAndAddIsTimes(c, h, s);
      TimesPlus(Points(c), h, h, s);
      if k % 2 == 1 {
        assert k - 1 == h + h;
      } else {
        assert k == h + h;
      }
    }
  }

  /** With a cofactor other than one, exactly the canonical points of order dividing q are members. */
  lemma SubgroupIsOrderQ(c: Curve, x: int, y: int)
    requires GroupLaws(c) && c.q > 0 && Canonical(c, x, y)
    ensures ExpSpec(c, c.q, x, y) == InfinitePoint <==> Times(Points(c), c.q, Affine(x, y)) == Infinity
  {
    DoubleAndAddIsTimes(c, c.q, Affine(x, y));
  }

  function Base(c: Curve): Point { Affine(c.x, c.y) }

  /** The parameter set: a base point of prime order q. */
  ghost predicate Generator(c: Curve) { c.p > 0 && Generates(Points(c), Base(c), c.q) }

  // ----- signatures

  /** Signature generation, section 6.1 of RFC 7091, for private key d, nonce k and scalar e of the digest. */
  ghost predicate Signs(c: Curve, d: nat, k: nat, e: nat, r: nat, s: nat)
    requires c.q > 0
  {
    && 0 < d < c.q && 0 < k < c.q
    && Times(Points(c), k, Base(c)).Affine?
    && r == Times(Points(c), k, Base(c)).x % c.q && r != 0
    && s == (r * d + k * e) % c.q && s != 0
  }

  /** s/e - (r/e)d is k modulo q, with both verification scalars reduced as the code reduces them. */
  lemma ScalarsMeet(q: nat, d: nat, k: nat, e: nat, v: nat, r: nat, s: nat)
    requires q > 0 && 0 < k < q && (e * v) % q == 1 && s == (r * d + k * e) % q
    ensures ((s * v) % q + (q - (r * v) % q) * d) % q == k
  {
    var s', a := Reduce(r * d + k * e, q);
    var one, b := Reduce(e * v, q);
    var m1, f := Reduce(s * v, q);
    var m2, g := Reduce(r * v, q);
    var total := m1 + (q - m2) * d;
    Expand(q, d, k, e, v, r, s, a, b, f, g, m1, m2, total);
    ModMultiple(total, k, k * b - a * v - f + (1 + g) * d, q);
    SmallResidue(k, q);
  }

  lemma Expand(q: int, d: int, k: int, e: int, v: int, r: int, s: int, a: int, b: int, f: int, g: int,
               m1: int, m2: int, total: int)
    requires s == r * d + k * e - a * q
    requires e * v == 1 + b * q
    requires m1 == s * v - f * q && m2 == r * v - g * q && total == m1 + (q - m2) * d
    ensures total == k + (k * b - a * v - f + (1 + g) * d) * q
  {
    Distribute(s, v, r * d, k * e, a * q);
    assert r * d * v == (r * v) * d && k * e * v == k * (e * v) && a * q * v == (a * v) * q;
    Factor(q, d, k, v, b, a * v, f, g, e * v, r * v, s * v, m1, m2, total);
    assert k * b - a * v - f + d + g * d == k * b - a * v - f + (1 + g) * d;
  }

  lemma Factor(q: int, d: int, k: int, v: int, b: int, av: int, f: int, g: int, ev: int, rv: int, sv: int,
               m1: int, m2: int, total: int)
    requires sv == rv * d + k * ev - av * q
    requires ev == 1 + b * q && rv == m2 + g * q
    requires m1 == sv - f * q && total == m1 + (q - m2) * d
    ensures total == k + (k * b - av - f + d + g * d) * q
  {
    assert rv * d == m2 * d + (g * d) * q;
    assert k * ev == k + (k * b) * q;
    assert (q - m2) * d == d * q - m2 * d;
  }

  lemma Distribute(s: int, v: int, x: int, y: int, z: int)
    requires s == x + y - z
    ensures s * v == x * v + y * v - z * v
  {
  }

  /** The digest scalar is invertible, so the code's inverse exists and is nonzero. */
  lemma DigestInverse(c: Curve, e: nat) returns (v: nat)
    requires Prime(c.q) && 0 < e < c.q
    ensures ModInverse(e, c.q) == Some(v) && 0 < v < c.q && (e * v) % c.q == 1
  {
    var x, k := Inverse(e, c.q);
    ModMultiple(e * x, 1, k, c.q);
    assert IsInverse(e, x, c.q);
    var found := ModInverse(e, c.q);
    SmallResidue(1, c.q);
    v := found.value;
    if v == 0 { SmallResidue(0, c.q); }
  }

  lemma BaseExp(c: Curve, z: nat)
    requires Generator(c) && z % c.q != 0
    ensures var s := Times(Points(c), z, Base(c)); s.Affine? && ExpSpec(c, z, c.x, c.y) == Point(s.x, s.y)
  {
    NonzeroMultiple(Points(c), Base(c), c.q, z);
    DoubleAndAddIsTimes(c, z, Base(c));
  }

  /** The two verification scalars of section 6.2 of RFC 7091, both in 1..q-1. */
  lemma VerificationScalars(q: nat, v: nat, r: nat, s: nat) returns (z1: nat, z2: nat)
    requires Prime(q) && 0 < v < q && 0 < r < q && 0 < s < q
    ensures z1 == (s * v) % q && z2 == q - (r * v) % q && 0 < z1 < q && 0 < z2 < q
  {
    SmallResidue(v, q);
    NonzeroProduct(s, v, q);
    NonzeroProduct(r, v, q);
    return (s * v) % q, q - (r * v) % q;
  }

  lemma SignatureBytes(n: nat, r: nat, s: nat)
    requires r < Pow256(n) && s < Pow256(n)
    ensures var signature := BigEndian(n, s) + BigEndian(n, r);
      |signature| == 2 * n && FromBigEndian(signature[..n]) == s && FromBigEndian(signature[n..]) == r
  {
    var signature := BigEndian(n, s) + BigEndian(n, r);
    assert signature[..n] == BigEndian(n, s) && signature[n..] == BigEndian(n, r);
    BigEndianRoundTrip(n, s);
    BigEndianRoundTrip(n, r);
  }

  /** The point of section 6.2 of RFC 7091 for a public point. */
  ghost function VerificationPoint(c: Curve, key: Point, v: nat, r: nat, s: nat): Point
    requires c.q > 0
  {
    Add(c, Times(Points(c), (s * v) % c.q, Base(c)), Times(Points(c), c.q - (r * v) % c.q, key))
  }

  /**
   * For any public point on the curve and scalars in 1..q-1 the code answers true exactly when the RFC's check holds
   * and the second multiple is finite; an infinite second multiple is reported as an error instead.
   */
  lemma VerifiesExactly(c: Curve, kx: int, ky: int, digest: Bytes, signature: Bytes, r: nat, s: nat)
    returns (v: nat)
    requires Generator(c) && Canonical(c, kx, ky) && |signature| == 2 * PointSize(c)
    requires s == FromBigEndian(signature[..PointSize(c)]) && r == FromBigEndian(signature[PointSize(c)..])
    requires 0 < r < c.q && 0 < s < c.q
    ensures 0 < v < c.q && (DigestScalar(c, digest) * v) % c.q == 1
    ensures var point := VerificationPoint(c, Affine(kx, ky), v, r, s);
      VerifySpec(c, kx, ky, digest, signature) ==
        if Times(Points(c), c.q - (r * v) % c.q, Affine(kx, ky)).Infinity? then ExpFailed(InfinitePoint)
        else Answer(point.Affine? && point.x % c.q == r)
  {
    v := DigestInverse(c, DigestScalar(c, digest));
    InRange(c, kx, ky, digest, signature, v);
    ScalarComparison(c, kx, ky, v, r, s);
  }

  lemma ScalarComparison(c: Curve, kx: int, ky: int, v: nat, r: nat, s: nat)
    requires Generator(c) && Canonical(c, kx, ky) && 0 < r < c.q && 0 < s < c.q && 0 < v < c.q
    ensures var point := VerificationPoint(c, Affine(kx, ky), v, r, s);
      Compare(c, kx, ky, (s * v) % c.q, c.q - (r * v) % c.q, r) ==
        if Times(Points(c), c.q - (r * v) % c.q, Affine(kx, ky)).Infinity? then ExpFailed(InfinitePoint)
        else Answer(point.Affine? && point.x % c.q == r)
  {
    var z1, z2 := VerificationScalars(c.q, v, r, s);
    SmallResidue(z1, c.q);
    Comparison(c, kx, ky, z1, z2, r);
  }

  lemma InRange(c: Curve, kx: int, ky: int, digest: Bytes, signature: Bytes, v: nat)
    requires c.p > 0 && c.q > 0 && |signature| == 2 * PointSize(c)
    requires 0 < FromBigEndian(signature[..PointSize(c)]) < c.q && 0 < FromBigEndian(signature[PointSize(c)..]) < c.q
    requires ModInverse(DigestScalar(c, digest), c.q) == Some(v)
    ensures var n := PointSize(c);
      var s, r := FromBigEndian(signature[..n]), FromBigEndian(signature[n..]);
      VerifySpec(c, kx, ky, digest, signature) == Compare(c, kx, ky, (s * v) % c.q, c.q - (r * v) % c.q, r)
  {
  }

  lemma Comparison(c: Curve, kx: int, ky: int, z1: nat, z2: nat, r: nat)
    requires Generator(c) && Canonical(c, kx, ky) && z1 % c.q != 0 && z2 > 0
    ensures var second := Times(Points(c), z2, Affine(kx, ky));
      var point := Add(c, Times(Points(c), z1, Base(c)), second);
      Compare(c, kx, ky, z1, z2, r) ==
        if second.Infinity? then ExpFailed(InfinitePoint) else Answer(point.Affine? && point.x % c.q == r)
  {
    BaseExp(c, z1);
    DoubleAndAddIsTimes(c, z2, Affine(kx, ky));
  }

  // ----- keys inside and outside the subgroup

  /** For a key of order q the second multiple is never infinite: the answer is the RFC's check. */
  lemma SubgroupKeyAnswers(c: Curve, kx: int, ky: int, digest: Bytes, signature: Bytes, r: nat, s: nat)
    returns (v: nat)
    requires Generator(c) && Canonical(c, kx, ky) && Times(Points(c), c.q, Affine(kx, ky)) == Infinity
    requires |signature| == 2 * PointSize(c)
    requires s == FromBigEndian(signature[..PointSize(c)]) && r == FromBigEndian(signature[PointSize(c)..])
    requires 0 < r < c.q && 0 < s < c.q
    ensures 0 < v < c.q && (DigestScalar(c, digest) * v) % c.q == 1
    ensures var point := VerificationPoint(c, Affine(kx, ky), v, r, s);
      VerifySpec(c, kx, ky, digest, signature) == Answer(point.Affine? && point.x % c.q == r)
  {
    v := VerifiesExactly(c, kx, ky, digest, signature, r, s);
    var z1, z2 := VerificationScalars(c.q, v, r, s);
    SmallResidue(z2, c.q);
    NonzeroMultiple(Points(c), Affine(kx, ky), c.q, z2);
  }

  /** The curve has no points beside the multiples of its base: what a cofactor of one says. */
  ghost predicate PrimeOrder(c: Curve) {
    forall s {:trigger OnCurve(c, s)} :: OnCurve(c, s) ==> Times(Points(c), c.q, s) == Infinity
  }

  /** For every key that the subgroup check admits, verification answers and never fails with an error. */
  lemma AdmittedKeyAnswers(c: Curve, kx: int, ky: int, digest: Bytes, signature: Bytes, r: nat, s: nat)
    returns (v: nat)
    requires Generator(c) && InSubgroup(c, kx, ky) && (c.cofactor == 1 ==> PrimeOrder(c))
    requires |signature| == 2 * PointSize(c)
    requires s == FromBigEndian(signature[..PointSize(c)]) && r == FromBigEndian(signature[PointSize(c)..])
    requires 0 < r < c.q && 0 < s < c.q
    ensures 0 < v < c.q && (DigestScalar(c, digest) * v) % c.q == 1
    ensures var point := VerificationPoint(c, Affine(kx, ky), v, r, s);
      VerifySpec(c, kx, ky, digest, signature) == Answer(point.Affine? && point.x % c.q == r)
  {
    assert OnCurve(c, Affine(kx, ky));
    SubgroupIsOrderQ(c, kx, ky);
    v := SubgroupKeyAnswers(c, kx, ky, digest, signature, r, s);
  }

  /** A point with y = 0 is its own negative: even multiples vanish, odd ones are the point. */
  lemma {:induction false} HalfPoint(c: Curve, x: int, k: nat)
    ensures DoubleAndAdd(c, k, Affine(x, 0)) == if k % 2 == 0 then Infinity else Affine(x, 0)
  {
    if k > 0 {
      HalfPoint(c, x, k / 2);
      Unroll(c, k, Affine(x, 0));
    }
  }

  /** A key (x, 0), which the subgroup check would refuse, makes verification fail exactly for even second scalars. */
  lemma HalfPointKeyFails(c: Curve, x: int, digest: Bytes, signature: Bytes, r: nat, s: nat) returns (v: nat)
    requires Generator(c) && Canonical(c, x, 0) && |signature| == 2 * PointSize(c)
    requires s == FromBigEndian(signature[..PointSize(c)]) && r == FromBigEndian(signature[PointSize(c)..])
    requires 0 < r < c.q && 0 < s < c.q
    ensures 0 < v < c.q && (DigestScalar(c, digest) * v) % c.q == 1
    ensures VerifySpec(c, x, 0, digest, signature) == ExpFailed(InfinitePoint) <==> (c.q - (r * v) % c.q) % 2 == 0
  {
    v := VerifiesExactly(c, x, 0, digest, signature, r, s);
    var z1, z2 := VerificationScalars(c.q, v, r, s);
    HalfPoint(c, x, z2);
    DoubleAndAddIsTimes(c, z2, Affine(x, 0));
  }

  /** A key that some multiple below q sends to infinity. */
  ghost predicate ShortOrder(c: Curve, kx: int, ky: int, n: nat) {
    0 < n < c.q && Times(Points(c), n, Affine(kx, ky)) == Infinity
  }

  /** An error of verification is always about an infinite second multiple of a key of short order. */
  lemma FailureIsShortOrder(c: Curve, kx: int, ky: int, digest: Bytes, signature: Bytes) returns (n: nat)
    requires Generator(c) && Canonical(c, kx, ky) && VerifySpec(c, kx, ky, digest, signature).ExpFailed?
    ensures ShortOrder(c, kx, ky, n) && VerifySpec(c, kx, ky, digest, signature) == ExpFailed(InfinitePoint)
  {
    var size := PointSize(c);
    var s, r := FromBigEndian(signature[..size]), FromBigEndian(signature[size..]);
    var v := VerifiesExactly(c, kx, ky, digest, signature, r, s);
    var z1;
    z1, n := VerificationScalars(c.q, v, r, s);
  }

  /** For a key of short order some signature of the empty digest ends in the error. */
  lemma ShortOrderFails(c: Curve, kx: int, ky: int, n: nat) returns (signature: Bytes)
    requires Generator(c) && Canonical(c, kx, ky) && c.q <= Pow256(PointSize(c)) && ShortOrder(c, kx, ky, n)
    ensures VerifySpec(c, kx, ky, [], signature) == ExpFailed(InfinitePoint)
  {
    var size, r := PointSize(c), c.q - n;
    signature := BigEndian(size, 1) + BigEndian(size, r);
    SignatureBytes(size, r, 1);
    var v := VerifiesExactly(c, kx, ky, [], signature, r, 1);
    EmptyDigest(c);
    SecondScalar(c.q, v, r, n);
  }

  lemma EmptyDigest(c: Curve)
    requires c.q > 0
    ensures DigestScalar(c, []) == 1
  {
    SmallResidue(0, c.q);
  }

  lemma SecondScalar(q: nat, v: nat, r: nat, n: nat)
    requires 0 < v < q && (1 * v) % q == 1 && 0 < n < q && r == q - n
    ensures q - (r * v) % q == n
  {
    SmallResidue(v, q);
    assert v == 1 && r * v == r;
    SmallResidue(r, q);
  }

  /** Verification with a key can end in an error, for some digest and signature, exactly if its order is below q. */
  lemma KeyFailsExactly(c: Curve, kx: int, ky: int)
    requires Generator(c) && Canonical(c, kx, ky) && c.q <= Pow256(PointSize(c))
    ensures (exists digest, signature :: VerifySpec(c, kx, ky, digest, signature).ExpFailed?) <==>
      (exists n :: ShortOrder(c, kx, ky, n))
  {
    forall digest, signature | VerifySpec(c, kx, ky, digest, signature).ExpFailed?
      ensures exists n :: ShortOrder(c, kx, ky, n)
    {
      var n := FailureIsShortOrder(c, kx, ky, digest, signature);
    }
    forall n | ShortOrder(c, kx, ky, n)
      ensures exists digest, signature :: VerifySpec(c, kx, ky, digest, signature).ExpFailed?
    {
      var signature := ShortOrderFails(c, kx, ky, n);
      assert VerifySpec(c, kx, ky, [], signature).ExpFailed?;
    }
  }

  /** Every signature the scheme makes is accepted: no scalar degenerates, no intermediate point is infinite. */
  lemma HonestSignatureVerifies(c: Curve, d: nat, k: nat, digest: Bytes, r: nat, s: nat)
    requires Generator(c) && c.q <= Pow256(PointSize(c))
    requires Signs(c, d, k, DigestScalar(c, digest), r, s)
    ensures Times(Points(c), d, Base(c)).Affine?
    ensures var key := Times(Points(c), d, Base(c)); var n := PointSize(c);
      VerifySpec(c, key.x, key.y, digest, BigEndian(n, s) + BigEndian(n, r)) == Answer(true)
  {
    var q, n := c.q, PointSize(c);
    SmallResidue(d, q);
    NonzeroMultiple(Points(c), Base(c), q, d);
    TimesInside(Points(c), d, Base(c));
    var key := Times(Points(c), d, Base(c));
    SignatureBytes(n, r, s);
    var v := VerifiesExactly(c, key.x, key.y, digest, BigEndian(n, s) + BigEndian(n, r), r, s);
    HonestPoint(c, d, k, DigestScalar(c, digest), v, r, s);
  }

  /** For an honest signature the verification point is the signer's kG, and its second summand is finite. */
  lemma HonestPoint(c: Curve, d: nat, k: nat, e: nat, v: nat, r: nat, s: nat)
    requires Generator(c) && Signs(c, d, k, e, r, s) && 0 < v < c.q && (e * v) % c.q == 1
    ensures VerificationPoint(c, Times(Points(c), d, Base(c)), v, r, s) == Times(Points(c), k, Base(c))
    ensures Times(Points(c), c.q - (r * v) % c.q, Times(Points(c), d, Base(c))).Affine?
  {
    var z1, z2 := VerificationScalars(c.q, v, r, s);
    ScalarsMeet(c.q, d, k, e, v, r, s);
    SumOfMultiples(Points(c), Base(c), c.q, z1, z2, d, z2 * d, k);
  }
}
