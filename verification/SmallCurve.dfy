/** A curve of six points on which everything the GOST theorems assume can be seen to hold. */
module SmallCurve {
  import opened Wire
  import opened ModularArithmetic
  import opened AdditiveGroup
  import opened Gost3410
  import opened GostProof

  /** y^2 = x^3 + 1 over the field of five elements, with a base point of order three. */
  function Six(): Curve { Curve(5, 3, 0, 1, 0, 1, 2) }

  /** The multiples of (2, 2). */
  function Multiple(i: nat): Point {
    if i == 0 then Infinity else if i == 1 then Affine(2, 2) else if i == 2 then Affine(0, 4)
    else if i == 3 then Affine(4, 0) else if i == 4 then Affine(0, 1) else Affine(2, 3)
  }

  /** Inverses modulo five. */
  lemma InverseOf(g: int, v: nat)
    requires v < 5 && (g * v) % 5 == 1
    ensures ModInverse(g, 5) == Some(v)
  {
    assert IsInverse(g, v, 5);
    var w := ModInverse(g, 5).value;
    assert (g * w) % 5 == 1;
    Unique(g, v, w);
  }

  lemma Unique(g: int, v: nat, w: nat)
    requires v < 5 && w < 5 && (g * v) % 5 == 1 && (g * w) % 5 == 1
    ensures v == w
  {
    var r, k := Reduce(g, 5);
    forall u: nat | u < 5
      ensures (g * u) % 5 == (r * u) % 5
    {
      assert g * u == r * u + (k * u) * 5;
      ModMultiple(g * u, r * u, k * u, 5);
    }
    Small(r, v, w);
  }

  lemma Small(r: int, v: nat, w: nat)
    requires 0 <= r < 5 && v < 5 && w < 5 && (r * v) % 5 == 1 && (r * w) % 5 == 1
    ensures v == w
  {
    assert r == 0 || r == 1 || r == 2 || r == 3 || r == 4;
    assert v == 0 || v == 1 || v == 2 || v == 3 || v == 4;
  }

  lemma Inverses()
    ensures ModInverse(1, 5) == Some(1) && ModInverse(2, 5) == Some(3) && ModInverse(3, 5) == Some(2)
    ensures ModInverse(4, 5) == Some(4) && ModInverse(6, 5) == Some(1) && ModInverse(8, 5) == Some(2)
  {
    InverseOf(1, 1);
    InverseOf(2, 3);
    InverseOf(3, 2);
    InverseOf(4, 4);
    InverseOf(6, 1);
    InverseOf(8, 2);
  }

  /** The addition table: points add like their indices modulo six. */
  lemma Table(i: nat, j: nat)
    requires i < 6 && j < 6
    ensures Add(Six(), Multiple(i), Multiple(j)) == Multiple((i + j) % 6)
  {
    if i < 3 { UpperTable(i, j); } else { LowerTable(i, j); }
  }

  lemma UpperTable(i: nat, j: nat)
    requires i < 3 && j < 6
    ensures Add(Six(), Multiple(i), Multiple(j)) == Multiple((i + j) % 6)
  {
    Inverses();
    assert i == 0 || i == 1 || i == 2;
    assert j == 0 || j == 1 || j == 2 || j == 3 || j == 4 || j == 5;
  }

  lemma LowerTable(i: nat, j: nat)
    requires 3 <= i < 6 && j < 6
    ensures Add(Six(), Multiple(i), Multiple(j)) == Multiple((i + j) % 6)
  {
    Inverses();
    assert i == 3 || i == 4 || i == 5;
    assert j == 0 || j == 1 || j == 2 || j == 3 || j == 4 || j == 5;
  }

  /** There are no other points. */
  lemma Index(s: Point) returns (i: nat)
    requires OnCurve(Six(), s)
    ensures i < 6 && s == Multiple(i)
  {
    if s.Infinity? { return 0; }
    assert s.x == 0 || s.x == 1 || s.x == 2 || s.x == 3 || s.x == 4;
    assert s.y == 0 || s.y == 1 || s.y == 2 || s.y == 3 || s.y == 4;
    i := if s == Affine(2, 2) then 1 else if s == Affine(0, 4) then 2 else if s == Affine(4, 0) then 3
         else if s == Affine(0, 1) then 4 else 5;
  }

  lemma MultipleOnCurve(i: nat)
    requires i < 6
    ensures OnCurve(Six(), Multiple(i))
  {
    assert i == 0 || i == 1 || i == 2 || i == 3 || i == 4 || i == 5;
  }

  lemma SixCloses(s: Point, t: Point)
    requires OnCurve(Six(), s) && OnCurve(Six(), t)
    ensures OnCurve(Six(), Add(Six(), s, t))
  {
    var i := Index(s);
    var j := Index(t);
    Table(i, j);
    MultipleOnCurve((i + j) % 6);
  }

  lemma SixAssociates(s: Point, t: Point, u: Point)
    requires OnCurve(Six(), s) && OnCurve(Six(), t) && OnCurve(Six(), u)
    ensures Associates(Points(Six()), s, t, u)
  {
    var i := Index(s);
    var j := Index(t);
    var k := Index(u);
    Table(i, j);
    Table(j, k);
    Table((i + j) % 6, k);
    Table(i, (j + k) % 6);
    SumsAgree(i, j, k);
    Regrouped(Points(Six()), s, t, u, Multiple((i + j) % 6), Multiple((j + k) % 6), Multiple(((i + j) % 6 + k) % 6));
  }

  lemma Regrouped(g: Group<Point>, s: Point, t: Point, u: Point, st: Point, tu: Point, stu: Point)
    requires g.plus(s, t) == st && g.plus(t, u) == tu && g.plus(st, u) == stu && g.plus(s, tu) == stu
    ensures Associates(g, s, t, u)
  {
  }

  lemma SumsAgree(i: nat, j: nat, k: nat)
    ensures ((i + j) % 6 + k) % 6 == (i + (j + k) % 6) % 6
  {
  }

  /** The group laws hold of the code's addition on this curve. */
  lemma SixIsGroup()
    ensures GroupLaws(Six())
  {
    var g := Points(Six());
    forall s, t | g.carrier(s) && g.carrier(t)
      ensures Closed(g, s, t)
    {
      SixCloses(s, t);
    }
    forall s, t, u | g.carrier(s) && g.carrier(t) && g.carrier(u)
      ensures Associates(g, s, t, u)
    {
      SixAssociates(s, t, u);
    }
  }

  lemma BaseMultiples()
    ensures Times(Points(Six()), 3, Base(Six())) == Infinity
  {
    var g, b := Points(Six()), Base(Six());
    assert b == Multiple(4);
    assert Times(g, 1, b) == b;
    Table(4, 4);
    assert Times(g, 2, b) == Multiple(2);
    Table(2, 4);
  }

  /** The hypotheses of the verification theorems are met. */
  lemma SixHasGenerator()
    ensures Generator(Six()) && Six().q <= Pow256(PointSize(Six()))
  {
    SixIsGroup();
    BaseMultiples();
    MultipleOnCurve(4);
    assert PointSize(Six()) == 32;
    Large(32);
  }

  lemma {:induction false} Large(n: nat)
    requires n > 0
    ensures Pow256(n) >= 256
  {
    if n > 1 { Large(n - 1); }
  }

  /** Over any curve with q = 3, the signature r = s = 1 of the empty digest fails for a key (x, 0). */
  lemma OneOneFails(c: Curve, x: int, digest: Bytes, signature: Bytes, n: nat)
    requires Generator(c) && c.q == 3 && Canonical(c, x, 0) && n == PointSize(c) && 1 < Pow256(n)
    requires digest == [] && signature == BigEndian(n, 1) + BigEndian(n, 1)
    ensures VerifySpec(c, x, 0, digest, signature) == ExpFailed(InfinitePoint)
  {
    SignatureBytes(n, 1, 1);
    var v := HalfPointKeyFails(c, x, digest, signature, 1, 1);
    OnlyOne(v);
  }

  lemma OnlyOne(v: nat)
    requires 0 < v < 3 && (1 * v) % 3 == 1
    ensures (3 - (1 * v) % 3) % 2 == 0
  {
  }

  lemma HalfPointRefused()
    ensures Canonical(Six(), 4, 0) && !InSubgroup(Six(), 4, 0)
  {
    HalfPoint(Six(), 4, 3);
  }

  /** A real failing input: the key (4, 0) is refused by the subgroup check, and verifying with it is an error. */
  lemma FailingKey(digest: Bytes, signature: Bytes)
    requires digest == [] && signature == BigEndian(32, 1) + BigEndian(32, 1)
    ensures Canonical(Six(), 4, 0) && !InSubgroup(Six(), 4, 0)
    ensures VerifySpec(Six(), 4, 0, digest, signature) == ExpFailed(InfinitePoint)
  {
    SixHasGenerator();
    HalfPointRefused();
    assert PointSize(Six()) == 32;
    Large(32);
    OneOneFails(Six(), 4, digest, signature, 32);
  }
}
