/** Residues modulo a prime, with the multiples made explicit. */
module ModularArithmetic {
  predicate Divides(d: int, n: int)
    requires d > 0
  {
    n % d == 0
  }

  ghost predicate Prime(q: int) { q > 1 && forall d :: 1 < d < q ==> !Divides(d, q) }

  lemma ModMultiple(z: int, w: int, k: int, q: int)
    requires q > 0 && z == w + k * q
    ensures z % q == w % q
  {
    var i, j := z / q, w / q;
    assert z == i * q + z % q && w == j * q + w % q;
    var r := z % q - w % q;
    assert r == (j + k - i) * q by {
      assert (j + k - i) * q == j * q + k * q - i * q;
    }
    SmallMultiple(r, j + k - i, q);
  }

  lemma SmallMultiple(r: int, n: int, q: int)
    requires q > 0 && r == n * q && -q < r < q
    ensures r == 0
  {
    assert n >= 1 ==> n * q >= q;
    assert n <= -1 ==> n * q <= -q;
  }

  lemma Quotient(z: int, q: int) returns (k: int)
    requires q > 0
    ensures z == z % q + k * q
  {
    k := z / q;
  }

  /** The residue itself, with its quotient. */
  lemma Reduce(z: int, q: int) returns (m: int, k: int)
    requires q > 0
    ensures m == z % q && 0 <= m < q && z == m + k * q
  {
    return z % q, z / q;
  }

  lemma SmallResidue(k: int, q: int)
    requires 0 <= k < q
    ensures k % q == k
  {
  }

  lemma PositiveQuotient(z: int, k: int, q: int)
    requires q > 0 && z > 0 && z == 1 + k * q
    ensures k >= 0
  {
    assert k <= -1 ==> k * q <= -q;
  }

  /** Modulo a prime every nonzero residue has an inverse. */
  lemma {:induction false} Inverse(a: int, q: int) returns (x: int, k: int)
    requires Prime(q) && 0 < a < q
    ensures 0 < x < q && a * x == 1 + k * q
    decreases a
  {
    if a == 1 {
      return 1, 0;
    }
    var t, r := q / a, q % a;
    assert q == t * a + r;
    assert !Divides(a, q);
    var r', m := Inverse(r, q);
    var w := -(t * r');
    var j := w / q;
    x := w % q;
    k := m - r' - a * j;
    InverseStep(a, q, t, r, r', m, j, x);
    if x == 0 {
      SmallMultiple(-1, k, q);
    }
  }

  lemma InverseStep(a: int, q: int, t: int, r: int, r': int, m: int, j: int, x: int)
    requires q == t * a + r && r * r' == 1 + m * q && x == -(t * r') - j * q
    ensures a * x == 1 + (m - r' - a * j) * q
  {
    calc {
      a * x;
      a * (-(t * r') - j * q);
      -(t * a) * r' - a * j * q;
      (r - q) * r' - a * j * q;
      r * r' - q * r' - a * j * q;
      1 + m * q - r' * q - a * j * q;
      1 + (m - r' - a * j) * q;
    }
  }

  /** A prime divides a product only if it divides a factor. */
  lemma NonzeroProduct(a: int, b: int, q: int)
    requires Prime(q) && 0 < a < q && b % q != 0
    ensures (a * b) % q != 0
  {
    if (a * b) % q == 0 {
      var m := Quotient(a * b, q);
      var x, k := Inverse(a, q);
      calc {
        b;
        (a * x - k * q) * b;
        x * (a * b) - k * q * b;
        x * (m * q) - k * q * b;
        0 + (x * m - k * b) * q;
      }
      ModMultiple(b, 0, x * m - k * b, q);
      assert false;
    }
  }
}
