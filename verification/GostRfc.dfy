/** RFC 7091 in its own words, and how the verification code answers to it on every input. */
module GostRfc {
  import opened Wire
  import opened ModularArithmetic
  import opened AdditiveGroup
  import opened Gost3410
  import opened GostProof

  // ----- integers, points and sums as the RFC writes them

  /** The integer that bytes stand for: the first byte weighs most. */
  ghost function Value(s: Bytes): nat { if s == [] then 0 else s[0] * Pow256(|s| - 1) + Value(s[1..]) }

  lemma {:induction false} ValueAppend(s: Bytes, b: byte)
    ensures Value(s + [b]) == Value(s) * 256 + b
  {
    if s == [] {
      assert (s + [b])[1..] == [];
      assert Pow256(0) == 1;
    } else {
      ValueAppend(s[1..], b);
      assert (s + [b])[1..] == s[1..] + [b];
      Weigh(s[0], Pow256(|s| - 1), Value(s[1..]));
    }
  }

  lemma Weigh(x: nat, p: nat, rest: nat)
    ensures (x * p + rest) * 256 == x * (256 * p) + rest * 256
  {
  }

  lemma {:induction false} ValueIs(s: Bytes)
    ensures FromBigEndian(s) == Value(s)
  {
    if s != [] {
      ValueIs(s[..|s| - 1]);
      ValueAppend(s[..|s| - 1], s[|s| - 1]);
      assert s[..|s| - 1] + [s[|s| - 1]] == s;
    }
  }

  /** Step 2 of section 6.1: the digest's integer modulo q, with 1 in place of 0. */
  ghost predicate DigestInteger(q: nat, digest: Bytes, e: nat) {
    0 < e < q && (Divides(q, Value(digest) - e) || (e == 1 && Divides(q, Value(digest))))
  }

  lemma DigestScalarIs(c: Curve, digest: Bytes, e: nat)
    requires c.q > 1
    ensures DigestInteger(c.q, digest, e) <==> e == DigestScalar(c, digest)
  {
    ValueIs(digest);
    if 0 < e < c.q {
      Congruent(Value(digest), e, c.q);
      SmallResidue(e, c.q);
    }
  }

  /** Section 5.1: the points of the curve. */
  lemma ContainsIsWeierstrass(c: Curve, x: int, y: int)
    requires c.p > 0
    ensures Contains(c, x, y) <==> Divides(c.p, y * y - (x * x * x + c.a * x + c.b))
  {
    var left, right := y * y, (x * x + c.a) * x + c.b;
    assert (x * x + c.a) * x == x * x * x + c.a * x;
    Congruent(left, right, c.p);
  }

  lemma Congruent(z: int, w: int, q: int)
    requires q > 0
    ensures z % q == w % q <==> Divides(q, z - w)
  {
    var k := Quotient(z - w, q);
    if Divides(q, z - w) {
      ModMultiple(z, w, k, q);
    }
    if z % q == w % q {
      var i := Quotient(z, q);
      var j := Quotient(w, q);
      assert i * q - j * q == (i - j) * q;
      ModMultiple(z - w, 0, i - j, q);
      SmallResidue(0, q);
    }
  }

  /** The slope of the chord, or of the tangent where the points coincide. */
  ghost predicate Slope(c: Curve, x1: int, y1: int, x2: int, y2: int, l: int)
    requires c.p > 0
  {
    if x1 == x2 then Divides(c.p, l * (2 * y1) - (3 * (x1 * x1) + c.a)) else Divides(c.p, l * (x2 - x1) - (y2 - y1))
  }

  ghost predicate SumBySlope(c: Curve, x1: int, y1: int, x2: int, y2: int, sum: Point, l: int)
    requires c.p > 0
  {
    && sum.Affine? && 0 <= sum.x < c.p && 0 <= sum.y < c.p && Slope(c, x1, y1, x2, y2, l)
    && Divides(c.p, l * l - x1 - x2 - sum.x) && Divides(c.p, l * (x1 - sum.x) - y1 - sum.y)
  }

  /** Section 5.2: opposite points have no finite sum; the others have the one on the chord or tangent. */
  ghost predicate IsSum(c: Curve, x1: int, y1: int, x2: int, y2: int, sum: Point)
    requires c.p > 0
  {
    if x1 == x2 && Divides(c.p, y1 + y2) then sum == Infinity else exists l :: SumBySlope(c, x1, y1, x2, y2, sum, l)
  }

  /** Over a field of odd characteristic the code's addition is the RFC's on every two points of the curve. */
  lemma AdditionIsRfc(c: Curve, x1: int, y1: int, x2: int, y2: int)
    requires Prime(c.p) && c.p > 2 && Canonical(c, x1, y1) && Canonical(c, x2, y2)
    ensures IsSum(c, x1, y1, x2, y2, AddFinite(c, x1, y1, x2, y2))
  {
    if x1 != x2 {
      Chord(c, x1, y1, x2, y2);
    } else if y1 == y2 && y1 != 0 {
      Tangent(c, x1, y1);
    } else {
      Opposite(c, x1, y1, y2);
    }
  }

  /** Two points of the curve with the same x are equal or opposite. */
  lemma Opposite(c: Curve, x: int, y1: int, y2: int)
    requires Prime(c.p) && Canonical(c, x, y1) && Canonical(c, x, y2) && (y1 != y2 || y1 == 0)
    ensures Divides(c.p, y1 + y2)
  {
    if y1 > y2 {
      SquareRoots(c.p, y1, y2);
    } else if y1 < y2 {
      SquareRoots(c.p, y2, y1);
    }
  }

  lemma SquareRoots(p: nat, high: int, low: int)
    requires Prime(p) && 0 <= low < high < p && (high * high) % p == (low * low) % p
    ensures Divides(p, high + low)
  {
    Congruent(high * high, low * low, p);
    SquareDifference(high, low);
    if (high + low) % p != 0 { NonzeroProduct(high - low, high + low, p); }
  }

  lemma SquareDifference(a: int, b: int)
    ensures a * a - b * b == (a - b) * (a + b)
  {
  }

  /** Any representative of an invertible residue has an inverse that the code finds. */
  lemma InverseFound(d: int, p: nat) returns (inv: nat)
    requires Prime(p) && d % p != 0
    ensures ModInverse(d, p) == Some(inv) && (d * inv) % p == 1
  {
    var a, i := Reduce(d, p);
    var x, k := Inverse(a, p);
    assert d * x == a * x + (i * x) * p by { assert (a + i * p) * x == a * x + (i * x) * p; }
    assert d * x == 1 + (k + i * x) * p by { assert k * p + (i * x) * p == (k + i * x) * p; }
    ModMultiple(d * x, 1, k + i * x, p);
    assert IsInverse(d, x, p);
    SmallResidue(1, p);
    inv := ModInverse(d, p).value;
  }

  /** Multiplying by the inverse divides. */
  lemma SlopeDivides(n: int, d: int, inv: int, l: int, p: int)
    requires p > 1 && (d * inv) % p == 1 && l == (n * inv) % p
    ensures Divides(p, l * d - n)
  {
    var k := Quotient(d * inv, p);
    var j := Quotient(n * inv, p);
    calc {
      l * d - n;
      (n * inv - j * p) * d - n;
      n * (d * inv) - (j * d) * p - n;
      n * (1 + k * p) - (j * d) * p - n;
      0 + (n * k - j * d) * p;
    }
    ModMultiple(l * d - n, 0, n * k - j * d, p);
    SmallResidue(0, p);
  }

  lemma ResidueDivides(z: int, m: int, p: int)
    requires p > 0 && m == z % p
    ensures 0 <= m < p && Divides(p, z - m)
  {
    SmallResidue(m, p);
    Congruent(z, m, p);
  }

  lemma FinishSums(c: Curve, l: int, x1: int, y1: int, x2: int, y2: int)
    requires c.p > 0 && Slope(c, x1, y1, x2, y2, l)
    ensures SumBySlope(c, x1, y1, x2, y2, Finish(c, l, x1, y1, x2), l)
  {
    var sum := Finish(c, l, x1, y1, x2);
    ResidueDivides(l * l - x1 - x2, sum.x, c.p);
    var t := (x1 - sum.x) * l;
    ResidueDivides(t - y1, sum.y, c.p);
    assert t == l * (x1 - sum.x);
  }

  lemma TangentSum(c: Curve, x: int, y: int, inv: nat)
    requires c.p > 0 && y != 0 && ModInverse(2 * y, c.p) == Some(inv)
    ensures AddFinite(c, x, y, x, y) == Finish(c, ((3 * (x * x) + c.a) * inv) % c.p, x, y, x)
  {
  }

  lemma Tangent(c: Curve, x: int, y: int)
    requires Prime(c.p) && c.p > 2 && Canonical(c, x, y) && y != 0
    ensures !Divides(c.p, y + y) && exists l :: SumBySlope(c, x, y, x, y, AddFinite(c, x, y, x, y), l)
  {
    Doubled(y, c.p);
    var inv := InverseFound(2 * y, c.p);
    TangentSum(c, x, y, inv);
    var n := 3 * (x * x) + c.a;
    var l := (n * inv) % c.p;
    SlopeDivides(n, 2 * y, inv, l, c.p);
    FinishSums(c, l, x, y, x, y);
  }

  lemma Doubled(y: int, p: int)
    requires Prime(p) && p > 2 && 0 < y < p
    ensures (2 * y) % p != 0 && (y + y) % p != 0
  {
    SmallResidue(2, p);
    NonzeroProduct(y, 2, p);
    assert y * 2 == 2 * y == y + y;
  }

  /** Reduced differences give the same slope. */
  lemma ReducedSlope(l: int, dx: int, dy: int, p: int)
    requires p > 0 && Divides(p, l * (dx % p) - dy % p)
    ensures Divides(p, l * dx - dy)
  {
    var i := Quotient(dx, p);
    var j := Quotient(dy, p);
    var z := l * (dx % p) - dy % p;
    calc {
      l * dx - dy;
      l * (dx % p + i * p) - (dy % p + j * p);
      z + (l * i - j) * p;
    }
    ModMultiple(l * dx - dy, z, l * i - j, p);
  }

  lemma ChordSum(c: Curve, x1: int, y1: int, x2: int, y2: int, inv: nat)
    requires c.p > 0 && x1 != x2 && ModInverse((x2 - x1) % c.p, c.p) == Some(inv)
    ensures AddFinite(c, x1, y1, x2, y2) == Finish(c, (inv * ((y2 - y1) % c.p)) % c.p, x1, y1, x2)
  {
  }

  lemma ChordSlope(dx: int, dy: int, inv: int, p: int) returns (l: int)
    requires p > 1 && ((dx % p) * inv) % p == 1
    ensures l == (inv * (dy % p)) % p && Divides(p, l * dx - dy)
  {
    var n := dy % p;
    l := (inv * n) % p;
    assert inv * n == n * inv;
    SlopeDivides(n, dx % p, inv, l, p);
    ReducedSlope(l, dx, dy, p);
  }

  lemma Chord(c: Curve, x1: int, y1: int, x2: int, y2: int)
    requires Prime(c.p) && Canonical(c, x1, y1) && Canonical(c, x2, y2) && x1 != x2
    ensures exists l :: SumBySlope(c, x1, y1, x2, y2, AddFinite(c, x1, y1, x2, y2), l)
  {
    NonzeroDifference(x1, x2, c.p);
    var d := (x2 - x1) % c.p;
    SmallResidue(d, c.p);
    var inv := InverseFound(d, c.p);
    ChordSum(c, x1, y1, x2, y2, inv);
    var l := ChordSlope(x2 - x1, y2 - y1, inv, c.p);
    FinishSums(c, l, x1, y1, x2, y2);
  }

  lemma NonzeroDifference(x1: int, x2: int, p: int)
    requires p > 0 && 0 <= x1 < p && 0 <= x2 < p && x1 != x2
    ensures (x2 - x1) % p != 0
  {
    SmallResidue(x1, p);
    SmallResidue(x2, p);
    Congruent(x2, x1, p);
  }

  lemma {:induction false} BitLenExact(k: nat, n: nat)
    ensures BitLen(k) <= n <==> k < Pow2(n)
  {
    if n == 0 {
      assert Pow2(0) == 1;
    } else {
      BitLenExact(k / 2, n - 1);
      if k == 0 { BitLenExact(0, n - 1); }
    }
  }

  /** Scalars and coordinates take 32 bytes for fields of at most 256 bits, and 64 bytes above. */
  lemma PointSizeExact(c: Curve, bits: nat)
    requires bits == 256
    ensures PointSize(c) == if c.p < Pow2(bits) then 32 else 64
  {
    BitLenExact(c.p, bits);
  }

  // ----- verification, section 6.2

  /** The x of z1 P + z2 Q is r modulo q. */
  ghost predicate Meets(c: Curve, key: Point, z1: nat, z2: nat, r: nat)
    requires c.q > 0
  {
    var point := Add(c, Times(Points(c), z1, Base(c)), Times(Points(c), z2, key));
    point.Affine? && point.x % c.q == r
  }

  /** The check for the scalars r and s: with v the inverse of e, the x of (sv)P + (-rv)Q is r modulo q. */
  ghost predicate Checks(c: Curve, key: Point, digest: Bytes, r: nat, s: nat, e: nat, v: nat)
    requires c.q > 0
  {
    && DigestInteger(c.q, digest, e) && 0 < v < c.q && (e * v) % c.q == 1
    && Meets(c, key, (s * v) % c.q, (-(r * v)) % c.q, r)
  }

  /** Step 1: the first half of the signature is s, the second r, and both are in 1..q-1. */
  ghost predicate ScalarsInRange(c: Curve, signature: Bytes)
    requires |signature| == 2 * PointSize(c)
  {
    var n := PointSize(c);
    0 < Value(signature[..n]) < c.q && 0 < Value(signature[n..]) < c.q
  }

  ghost predicate Accepts(c: Curve, key: Point, digest: Bytes, signature: Bytes)
    requires c.q > 0
  {
    var n := PointSize(c);
    && |signature| == 2 * n && ScalarsInRange(c, signature)
    && exists e, v :: Checks(c, key, digest, Value(signature[n..]), Value(signature[..n]), e, v)
  }

  /** For any curve parameters and any key: a wrong length is an error, and scalars out of range are no signature. */
  lemma RejectsMalformed(c: Curve, kx: int, ky: int, digest: Bytes, signature: Bytes)
    requires c.p > 0 && c.q > 0
    ensures VerifySpec(c, kx, ky, digest, signature) == BadLength <==> |signature| != 2 * PointSize(c)
    ensures |signature| == 2 * PointSize(c) && !ScalarsInRange(c, signature) ==>
      VerifySpec(c, kx, ky, digest, signature) == Answer(false)
  {
    if |signature| == 2 * PointSize(c) {
      ValueIs(signature[..PointSize(c)]);
      ValueIs(signature[PointSize(c)..]);
    }
  }

  lemma UniqueInverse(e: int, v: int, w: int, q: int)
    requires q > 0 && 0 < v < q && 0 < w < q && (e * v) % q == 1 && (e * w) % q == 1
    ensures v == w
  {
    var a := Quotient(e * v, q);
    var b := Quotient(e * w, q);
    assert v * (e * w) == w * (e * v);
    CrossInverse(v, w, e * v, e * w, a, b, q);
    SmallMultiple(v - w, w * a - v * b, q);
  }

  lemma CrossInverse(v: int, w: int, x: int, y: int, a: int, b: int, q: int)
    requires x == 1 + a * q && y == 1 + b * q && v * y == w * x
    ensures v - w == (w * a - v * b) * q
  {
    assert v * y == v + (v * b) * q;
    assert w * x == w + (w * a) * q;
  }

  lemma Negated(z: int, q: int)
    requires q > 0 && z % q != 0
    ensures (-z) % q == q - z % q
  {
    var m, k := Reduce(z, q);
    assert -z == (q - m) + (-k - 1) * q;
    ModMultiple(-z, q - m, -k - 1, q);
    SmallResidue(q - m, q);
  }

  /**
   * For every key on the curve, every digest and every signature: a true answer means that the RFC accepts, a false
   * one that it does not, and an error that the length is wrong or the multiple of the key infinite.
   */
  lemma VerdictExactly(c: Curve, kx: int, ky: int, digest: Bytes, signature: Bytes)
    requires Generator(c) && Canonical(c, kx, ky)
    ensures var verdict := VerifySpec(c, kx, ky, digest, signature);
      && (verdict.Answer? ==> (verdict.valid <==> Accepts(c, Affine(kx, ky), digest, signature)))
      && (verdict.ExpFailed? ==> |signature| == 2 * PointSize(c) && ScalarsInRange(c, signature))
  {
    RejectsMalformed(c, kx, ky, digest, signature);
    var n := PointSize(c);
    if |signature| == 2 * n && ScalarsInRange(c, signature) {
      ValueIs(signature[..n]);
      ValueIs(signature[n..]);
      var s, r := FromBigEndian(signature[..n]), FromBigEndian(signature[n..]);
      var v := VerifiesExactly(c, kx, ky, digest, signature, r, s);
      CheckDecides(c, Affine(kx, ky), digest, r, s, DigestScalar(c, digest), v);
    }
  }

  /** Digest scalar and inverse are unique, so that the check does not depend on their choice. */
  lemma UniqueCheck(c: Curve, key: Point, digest: Bytes, r: nat, s: nat, e: nat, v: nat, f: nat, w: nat)
    requires c.q > 1 && e == DigestScalar(c, digest) && 0 < v < c.q && (e * v) % c.q == 1
    requires Checks(c, key, digest, r, s, f, w)
    ensures f == e && w == v
  {
    DigestScalarIs(c, digest, f);
    UniqueInverse(e, v, w, c.q);
  }

  lemma CheckIs(c: Curve, key: Point, digest: Bytes, r: nat, s: nat, e: nat, v: nat)
    requires Prime(c.q) && 0 < r < c.q && e == DigestScalar(c, digest) && 0 < v < c.q && (e * v) % c.q == 1
    ensures Checks(c, key, digest, r, s, e, v) <==> Meets(c, key, (s * v) % c.q, c.q - (r * v) % c.q, r)
  {
    DigestScalarIs(c, digest, e);
    NegatedScalar(r, v, c.q);
  }

  lemma CheckDecides(c: Curve, key: Point, digest: Bytes, r: nat, s: nat, e: nat, v: nat)
    requires Prime(c.q) && 0 < r < c.q && e == DigestScalar(c, digest) && 0 < v < c.q && (e * v) % c.q == 1
    ensures (exists f, w :: Checks(c, key, digest, r, s, f, w)) <==>
      Meets(c, key, (s * v) % c.q, c.q - (r * v) % c.q, r)
  {
    CheckIs(c, key, digest, r, s, e, v);
    forall f, w | Checks(c, key, digest, r, s, f, w) ensures f == e && w == v {
      UniqueCheck(c, key, digest, r, s, e, v, f, w);
    }
  }

  lemma NegatedScalar(r: nat, v: nat, q: nat)
    requires Prime(q) && 0 < r < q && 0 < v < q
    ensures (-(r * v)) % q == q - (r * v) % q
  {
    SmallResidue(v, q);
    NonzeroProduct(r, v, q);
    Negated(r * v, q);
  }

  /** For every key of order q, as the subgroup check admits them, the answer is the RFC's and never an error. */
  lemma AdmittedVerdict(c: Curve, kx: int, ky: int, digest: Bytes, signature: Bytes)
    requires Generator(c) && InSubgroup(c, kx, ky) && (c.cofactor == 1 ==> PrimeOrder(c))
    ensures VerifySpec(c, kx, ky, digest, signature) ==
      if |signature| != 2 * PointSize(c) then BadLength else Answer(Accepts(c, Affine(kx, ky), digest, signature))
  {
    RejectsMalformed(c, kx, ky, digest, signature);
    VerdictExactly(c, kx, ky, digest, signature);
    var n := PointSize(c);
    if |signature| == 2 * n && ScalarsInRange(c, signature) {
      ValueIs(signature[..n]);
      ValueIs(signature[n..]);
      var s, r := FromBigEndian(signature[..n]), FromBigEndian(signature[n..]);
      var v := AdmittedKeyAnswers(c, kx, ky, digest, signature, r, s);
    }
  }

  /** Every signature that section 6.1 makes, for whatever key, nonce and digest, is accepted. */
  lemma SignedIsAccepted(c: Curve, d: nat, k: nat, digest: Bytes, e: nat, r: nat, s: nat)
    requires Generator(c) && c.q <= Pow256(PointSize(c))
    requires DigestInteger(c.q, digest, e) && Signs(c, d, k, e, r, s)
    ensures Times(Points(c), d, Base(c)).Affine?
    ensures var key := Times(Points(c), d, Base(c)); var n := PointSize(c);
      VerifySpec(c, key.x, key.y, digest, BigEndian(n, s) + BigEndian(n, r)) == Answer(true)
  {
    DigestScalarIs(c, digest, e);
    HonestSignatureVerifies(c, d, k, digest, r, s);
  }
}
