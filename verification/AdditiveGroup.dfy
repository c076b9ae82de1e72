/** Multiples in a group given by its operation: what scalar arithmetic needs, and no more than it needs. */
module AdditiveGroup {
  import opened ModularArithmetic

  datatype Group<!T> = Group(plus: (T, T) -> T, zero: T, carrier: T -> bool)

  ghost predicate Closed<T>(g: Group<T>, s: T, t: T) { g.carrier(g.plus(s, t)) }

  ghost predicate Associates<T>(g: Group<T>, s: T, t: T, u: T) {
    g.plus(g.plus(s, t), u) == g.plus(s, g.plus(t, u))
  }

  ghost predicate Neutral<T>(g: Group<T>, s: T) { g.plus(g.zero, s) == s && g.plus(s, g.zero) == s }

  ghost predicate Laws<T(!new)>(g: Group<T>) {
    && g.carrier(g.zero)
    && (forall s {:trigger Neutral(g, s)} :: g.carrier(s) ==> Neutral(g, s))
    && (forall s, t {:trigger Closed(g, s, t)} :: g.carrier(s) && g.carrier(t) ==> Closed(g, s, t))
    && (forall s, t, u {:trigger Associates(g, s, t, u)} ::
          g.carrier(s) && g.carrier(t) && g.carrier(u) ==> Associates(g, s, t, u))
  }

  /** k-fold repeated addition. */
  ghost function Times<T>(g: Group<T>, k: nat, s: T): T {
    if k == 0 then g.zero else g.plus(Times(g, k - 1, s), s)
  }

  lemma {:induction false} TimesInside<T(!new)>(g: Group<T>, k: nat, s: T)
    requires Laws(g) && g.carrier(s)
    ensures g.carrier(Times(g, k, s))
  {
    if k > 0 {
      TimesInside(g, k - 1, s);
      assert Closed(g, Times(g, k - 1, s), s);
    }
  }

  lemma {:induction false} TimesPlus<T(!new)>(g: Group<T>, a: nat, b: nat, s: T)
    requires Laws(g) && g.carrier(s)
    ensures Times(g, a + b, s) == g.plus(Times(g, a, s), Times(g, b, s))
    decreases b
  {
    TimesInside(g, a, s);
    assert Neutral(g, Times(g, a, s));
    if b > 0 {
      TimesPlus(g, a, b - 1, s);
      TimesInside(g, b - 1, s);
      assert Associates(g, Times(g, a, s), Times(g, b - 1, s), s);
    }
  }

  lemma OneLess(a: nat, b: nat) returns (m: nat)
    requires a > 0
    ensures m == (a - 1) * b && m + b == a * b
  {
    return (a - 1) * b;
  }

  lemma {:induction false} TimesTimes<T(!new)>(g: Group<T>, a: nat, b: nat, s: T)
    requires Laws(g) && g.carrier(s)
    ensures Times(g, a * b, s) == Times(g, a, Times(g, b, s))
  {
    if a > 0 {
      TimesTimes(g, a - 1, b, s);
      var m := OneLess(a, b);
      TimesPlus(g, m, b, s);
    }
  }

  lemma {:induction false} TimesZero<T(!new)>(g: Group<T>, a: nat)
    requires Laws(g)
    ensures Times(g, a, g.zero) == g.zero
  {
    assert Neutral(g, g.zero);
    if a > 0 { TimesZero(g, a - 1); }
  }

  lemma TimesOne<T(!new)>(g: Group<T>, s: T)
    requires Laws(g) && g.carrier(s)
    ensures Times(g, 1, s) == s
  {
    assert Neutral(g, s);
  }

  // ----- an element of prime order

  ghost predicate Generates<T(!new)>(g: Group<T>, base: T, q: nat) {
    Laws(g) && g.carrier(base) && base != g.zero && Prime(q) && Times(g, q, base) == g.zero
  }

  lemma MultiplesVanish<T(!new)>(g: Group<T>, base: T, q: nat, j: nat)
    requires Generates(g, base, q)
    ensures Times(g, j * q, base) == g.zero
  {
    TimesTimes(g, j, q, base);
    TimesZero(g, j);
  }

  /** Any scalar is a part that vanishes plus its residue, so only the residue matters. */
  lemma TimesMod<T(!new)>(g: Group<T>, base: T, q: nat, n: nat) returns (r: nat)
    requires Generates(g, base, q)
    ensures r == n % q < q && Times(g, n, base) == Times(g, r, base)
  {
    var j: nat := n / q;
    r := n % q;
    MultiplesVanish(g, base, q, j);
    TimesPlus(g, j * q, r, base);
    TimesInside(g, r, base);
    assert Neutral(g, Times(g, r, base));
  }

  /** A scalar that is not a multiple of q never sends the generator to zero. */
  lemma NonzeroMultiple<T(!new)>(g: Group<T>, base: T, q: nat, n: nat)
    requires Generates(g, base, q) && n % q != 0
    ensures Times(g, n, base) != g.zero
  {
    var r := TimesMod(g, base, q, n);
    if Times(g, r, base) == g.zero {
      var x, k := Inverse(r, q);
      PositiveQuotient(r * x, k, q);
      TimesTimes(g, x, r, base);
      TimesZero(g, x);
      assert x * r == k * q + 1;
      TimesPlus(g, k * q, 1, base);
      MultiplesVanish(g, base, q, k);
      TimesOne(g, base);
      assert false;
    }
  }

  /** A multiple of dG is a multiple of G, and not zero. */
  lemma MultipleOfMultiple<T(!new)>(g: Group<T>, base: T, q: nat, z: nat, d: nat) returns (m: nat)
    requires Generates(g, base, q) && 0 < z < q && 0 < d < q
    ensures m == z * d && Times(g, z, Times(g, d, base)) == Times(g, m, base) && Times(g, m, base) != g.zero
  {
    m := z * d;
    TimesTimes(g, z, d, base);
    SmallResidue(d, q);
    NonzeroProduct(z, d, q);
    NonzeroMultiple(g, base, q, m);
  }

  lemma SumOfMultiples<T(!new)>(g: Group<T>, base: T, q: nat, z1: nat, z2: nat, d: nat, m: nat, k: nat)
    requires Generates(g, base, q) && 0 < z2 < q && 0 < d < q && m == z2 * d && k == (z1 + m) % q
    ensures g.plus(Times(g, z1, base), Times(g, z2, Times(g, d, base))) == Times(g, k, base)
    ensures Times(g, z2, Times(g, d, base)) != g.zero
  {
    var m' := MultipleOfMultiple(g, base, q, z2, d);
    var sum := Sum(g, base, q, z1, m);
  }

  lemma Sum<T(!new)>(g: Group<T>, base: T, q: nat, a: nat, b: nat) returns (k: nat)
    requires Generates(g, base, q)
    ensures k == (a + b) % q && g.plus(Times(g, a, base), Times(g, b, base)) == Times(g, k, base)
  {
    k := TimesMod(g, base, q, a + b);
    TimesPlus(g, a, b, base);
  }
}
