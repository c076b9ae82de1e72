/** GOST R 34.10 curve arithmetic and signature verification. */
module Gost3410 {
  import opened Wire

  datatype Curve = Curve(p: nat, q: nat, a: int, b: int, x: int, y: int, cofactor: int)
  datatype Point = Infinity | Affine(x: int, y: int)

  predicate IsInverse(g: int, v: int, n: nat)
    requires n > 0
  {
    (g * v) % n == 1 % n
  }

  /** math/big's ModInverse: the inverse of `g` in 0..n-1, if there is one. */
  function ModInverse(g: int, n: nat): (r: Option<nat>)
    ensures r.Some? ==> n > 0 && r.value < n && IsInverse(g, r.value, n)
    ensures r.None? && n > 0 ==> forall v :: 0 <= v < n ==> !IsInverse(g, v, n)
  {
    if n == 0 then None else SearchInverse(g, n, 0)
  }

  function SearchInverse(g: int, n: nat, from: nat): (r: Option<nat>)
    requires 0 < n && from <= n
    ensures r.Some? ==> r.value < n && IsInverse(g, r.value, n)
    ensures r.None? ==> forall v :: from <= v < n ==> !IsInverse(g, v, n)
    decreases n - from
  {
    if from == n then None else if IsInverse(g, from, n) then Some(from) else SearchInverse(g, n, from + 1)
  }

  predicate Contains(c: Curve, x: int, y: int) { c.p > 0 && (y * y) % c.p == ((x * x + c.a) * x + c.b) % c.p }

  /** Chord and tangent addition of two finite points. */
  function AddFinite(c: Curve, x1: int, y1: int, x2: int, y2: int): Point {
    if c.p == 0 then Infinity
    else if x1 == x2 then
      if y1 != y2 || y1 == 0 then Infinity
      else
        match ModInverse(2 * y1, c.p)
        case None => Infinity
        case Some(inv) => Finish(c, ((3 * (x1 * x1) + c.a) * inv) % c.p, x1, y1, x2)
    else
      match ModInverse((x2 - x1) % c.p, c.p)
      case None => Infinity
      case Some(inv) => Finish(c, (inv * ((y2 - y1) % c.p)) % c.p, x1, y1, x2)
  }

  function Finish(c: Curve, slope: int, x1: int, y1: int, x2: int): Point
    requires c.p > 0
  {
    var x3 := (slope * slope - x1 - x2) % c.p;
    Affine(x3, ((x1 - x3) * slope - y1) % c.p)
  }

  function Add(c: Curve, s: Point, t: Point): Point {
    if s.Infinity? then t else if t.Infinity? then s else AddFinite(c, s.x, s.y, t.x, t.y)
  }

  // ----- the source's in-place arithmetic

  class BigInt {
    var v: int

    constructor (v: int)
      ensures this.v == v
    {
      this.v := v;
    }
  }

  /** add: writes a finite sum into the first point; the operands may be the same objects. */
  method AddInPlace(c: Curve, p1x: BigInt, p1y: BigInt, p2x: BigInt, p2y: BigInt) returns (finite: bool)
    requires c.p > 0 && p1x != p1y
    modifies p1x, p1y
    ensures finite == old(AddFinite(c, p1x.v, p1y.v, p2x.v, p2y.v)).Affine?
    ensures finite ==> Affine(p1x.v, p1y.v) == old(AddFinite(c, p1x.v, p1y.v, p2x.v, p2y.v))
    ensures !finite ==> p1x.v == old(p1x.v) && p1y.v == old(p1y.v)
  {
    var t: int;
    if p1x.v == p2x.v {
      if p1y.v != p2y.v || p1y.v == 0 { return false; }
      t := p1x.v * p1x.v;
      t := 3 * t;
      t := t + c.a;
      var inverse := ModInverse(2 * p1y.v, c.p);
      if inverse.None? { return false; }
      t := t * inverse.value;
      t := t % c.p;
    } else {
      var tx := (p2x.v - p1x.v) % c.p;
      var ty := (p2y.v - p1y.v) % c.p;
      var inverse := ModInverse(tx, c.p);
      if inverse.None? { return false; }
      t := inverse.value * ty;
      t := t % c.p;
    }
    var tx := t * t - p1x.v - p2x.v;
    tx := tx % c.p;
    var ty := (p1x.v - tx) * t;
    ty := ty - p1y.v;
    ty := ty % c.p;
    p1x.v := tx;
    p1y.v := ty;
    return true;
  }

  // ----- scalar multiplication, left to right over the bits

  function DoubleAndAdd(c: Curve, k: nat, s: Point): Point {
    if k == 0 then Infinity
    else
      var half := DoubleAndAdd(c, k / 2, s);
      var doubled := Add(c, half, half);
      if k % 2 == 1 then Add(c, doubled, s) else doubled
  }

  datatype ExpResult = Point(x: int, y: int) | NonPositiveDegree | InfinitePoint

  function ExpSpec(c: Curve, degree: int, x: int, y: int): ExpResult {
    if degree <= 0 then NonPositiveDegree
    else match DoubleAndAdd(c, degree, Affine(x, y))
      case Infinity => InfinitePoint
      case Affine(x', y') => Point(x', y')
  }

  /** k >> i, by repeated halving. */
  function Shift(k: nat, i: nat): nat { if i == 0 then k else Shift(k, i - 1) / 2 }

  function Bit(k: nat, i: nat): nat { Shift(k, i) % 2 }

  function BitLen(k: nat): nat { if k == 0 then 0 else BitLen(k / 2) + 1 }

  lemma {:induction false} ShiftHalf(k: nat, i: nat)
    ensures Shift(k, i + 1) == Shift(k / 2, i)
  {
    if i > 0 { ShiftHalf(k, i - 1); }
  }

  /** No bit is set at or above the bit length. */
  lemma {:induction false} ShiftAll(k: nat)
    ensures Shift(k, BitLen(k)) == 0
  {
    if k > 0 {
      ShiftAll(k / 2);
      ShiftHalf(k, BitLen(k / 2));
    }
  }

  function Flagged(infinity: bool, x: int, y: int): Point { if infinity then Infinity else Affine(x, y) }

  function OneBit(c: Curve, acc: Point, bit: nat, s: Point): Point {
    var doubled := Add(c, acc, acc);
    if bit == 1 then Add(c, doubled, s) else doubled
  }

  lemma Unroll(c: Curve, k: nat, s: Point)
    ensures DoubleAndAdd(c, k, s) == OneBit(c, DoubleAndAdd(c, k / 2, s), k % 2, s)
  {
  }

  /** The loop body of Exp: one doubling and at most one addition. */
  method ExpStep(c: Curve, tx: BigInt, ty: BigInt, xS: int, yS: int, flag: bool, bit: nat) returns (infinity: bool)
    requires c.p > 0 && tx != ty
    modifies tx, ty
    ensures Flagged(infinity, tx.v, ty.v) == OneBit(c, old(Flagged(flag, tx.v, ty.v)), bit, Affine(xS, yS))
  {
    infinity := flag;
    if !infinity {
      var finite := AddInPlace(c, tx, ty, tx, ty);
      infinity := !finite;
    }
    if bit == 1 {
      if infinity {
        tx.v := xS;
        ty.v := yS;
        infinity := false;
      } else {
        var sx := new BigInt(xS);
        var sy := new BigInt(yS);
        var finite := AddInPlace(c, tx, ty, sx, sy);
        infinity := !finite;
      }
    }
  }

  /** Exp: an infinity flag beside two mutable coordinates, from the top bit down. */
  method Exp(c: Curve, degree: int, xS: int, yS: int) returns (r: ExpResult)
    requires c.p > 0
    ensures r == ExpSpec(c, degree, xS, yS)
  {
    if degree <= 0 { return NonPositiveDegree; }
    var tx := new BigInt(0);
    var ty := new BigInt(0);
    var infinity := true;
    var i: int := BitLen(degree) - 1;
    ShiftAll(degree);
    while i >= 0
      invariant -1 <= i && fresh(tx) && fresh(ty) && tx != ty
      invariant DoubleAndAdd(c, Shift(degree, i + 1), Affine(xS, yS)) == Flagged(infinity, tx.v, ty.v)
      decreases i
    {
      Unroll(c, Shift(degree, i), Affine(xS, yS));
      infinity := ExpStep(c, tx, ty, xS, yS, infinity, Bit(degree, i));
      i := i - 1;
    }
    if infinity { return InfinitePoint; }
    return Point(tx.v, ty.v);
  }

  predicate Canonical(c: Curve, x: int, y: int) { 0 <= x < c.p && 0 <= y < c.p && Contains(c, x, y) }

  /** What the subgroup check admits. */
  predicate InSubgroup(c: Curve, x: int, y: int) {
    Canonical(c, x, y) && (c.cofactor == 1 || ExpSpec(c, c.q, x, y) == InfinitePoint)
  }

  /** IsInSubgroup; None stands for a nil coordinate. */
  method IsInSubgroup(c: Curve, x: Option<int>, y: Option<int>) returns (member: bool)
    ensures member <==> x.Some? && y.Some? && InSubgroup(c, x.value, y.value)
  {
    if x.None? || y.None? || x.value < 0 || y.value < 0 || x.value >= c.p || y.value >= c.p ||
       !Contains(c, x.value, y.value) { return false; }
    if c.cofactor == 1 { return true; }
    var r := Exp(c, c.q, x.value, y.value);
    return r.InfinitePoint?;
  }

  // ----- signature verification

  function PointSize(c: Curve): nat { if BitLen(c.p) > 256 then 64 else 32 }

  datatype Verdict = Answer(valid: bool) | BadLength | ExpFailed(error: ExpResult)

  function DigestScalar(c: Curve, digest: Bytes): nat
    requires c.q > 0
  {
    var e := FromBigEndian(digest) % c.q;
    if e == 0 then 1 else e
  }

  function VerifySpec(c: Curve, kx: int, ky: int, digest: Bytes, signature: Bytes): Verdict
    requires c.p > 0 && c.q > 0
  {
    var n := PointSize(c);
    if |signature| != 2 * n then BadLength
    else
      var s, r := FromBigEndian(signature[..n]), FromBigEndian(signature[n..]);
      if r <= 0 || r >= c.q || s <= 0 || s >= c.q then Answer(false)
      else
        var inverse := ModInverse(DigestScalar(c, digest), c.q);
        var v := if inverse.Some? then inverse.value else 0;
        Compare(c, kx, ky, (s * v) % c.q, c.q - (r * v) % c.q, r)
  }

  /** Both multiples, their sum, and the comparison with r. */
  function Compare(c: Curve, kx: int, ky: int, z1: int, z2: int, r: nat): Verdict
    requires c.q > 0
  {
    var first := ExpSpec(c, z1, c.x, c.y);
    if !first.Point? then ExpFailed(first)
    else
      var second := ExpSpec(c, z2, kx, ky);
      if !second.Point? then ExpFailed(second)
      else match AddFinite(c, first.x, first.y, second.x, second.y)
        case Infinity => Answer(false)
        case Affine(x, _) => Answer(x % c.q == r)
  }

  /** VerifyDigest for the public point (kx, ky); the signature is big-endian s then big-endian r. */
  method VerifyDigest(c: Curve, kx: int, ky: int, digest: Bytes, signature: Bytes) returns (verdict: Verdict)
    requires c.p > 0 && c.q > 0
    ensures verdict == VerifySpec(c, kx, ky, digest, signature)
  {
    var n := PointSize(c);
    if |signature| != 2 * n { return BadLength; }
    var s, r := FromBigEndian(signature[..n]), FromBigEndian(signature[n..]);
    if r <= 0 || r >= c.q || s <= 0 || s >= c.q { return Answer(false); }
    var e := FromBigEndian(digest);
    e := e % c.q;
    if e == 0 { e := 1; }
    var v: nat := 0;
    var inverse := ModInverse(e, c.q);
    if inverse.Some? { v := inverse.value; }
    var z1 := (s * v) % c.q;
    var z2 := (r * v) % c.q;
    z2 := c.q - z2;
    var p1 := Exp(c, z1, c.x, c.y);
    if !p1.Point? { return ExpFailed(p1); }
    var q1 := Exp(c, z2, kx, ky);
    if !q1.Point? { return ExpFailed(q1); }
    var px := new BigInt(p1.x);
    var py := new BigInt(p1.y);
    var qx := new BigInt(q1.x);
    var qy := new BigInt(q1.y);
    var finite := AddInPlace(c, px, py, qx, qy);
    if !finite { return Answer(false); }
    px.v := px.v % c.q;
    return Answer(px.v == r);
  }
}
