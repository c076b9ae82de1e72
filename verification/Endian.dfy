/** Little-endian integers, and byte reversal. */
module Endian {
  import opened Wire
  import opened ModularArithmetic

  function LittleEndian(k: nat, v: nat): (s: Bytes)
    ensures |s| == k
    decreases k + v
  {
    if k == 0 then [] else [v % 256] + LittleEndian(k - 1, v / 256)
  }

  function FromLittleEndian(s: Bytes): nat { if s == [] then 0 else s[0] + 256 * FromLittleEndian(s[1..]) }

  lemma {:induction false} LittleEndianRoundTrip(k: nat, v: nat)
    requires v < Pow256(k)
    ensures FromLittleEndian(LittleEndian(k, v)) == v
  {
    if k > 0 {
      LittleEndianRoundTrip(k - 1, v / 256);
      assert LittleEndian(k, v)[1..] == LittleEndian(k - 1, v / 256);
    }
  }

  lemma {:induction false} FromLittleEndianRoundTrip(s: Bytes)
    ensures FromLittleEndian(s) < Pow256(|s|) && LittleEndian(|s|, FromLittleEndian(s)) == s
  {
    if s != [] {
      FromLittleEndianRoundTrip(s[1..]);
      LowByte(s[0], FromLittleEndian(s[1..]), |s| - 1, FromLittleEndian(s));
      assert s == [s[0]] + s[1..];
    }
  }

  lemma LowByte(b: byte, x: nat, k: nat, v: nat)
    requires v == b + 256 * x && x < Pow256(k)
    ensures v % 256 == b && v / 256 == x && v < Pow256(k + 1)
  {
  }

  /** A fixed width keeps the residue. */
  lemma {:induction false} LittleEndianMod(k: nat, v: nat)
    ensures Pow256(k) > 0 && FromLittleEndian(LittleEndian(k, v)) == v % Pow256(k)
  {
    if k > 0 {
      LittleEndianMod(k - 1, v / 256);
      assert LittleEndian(k, v)[1..] == LittleEndian(k - 1, v / 256);
      LowDigits(v, Pow256(k - 1));
    }
  }

  lemma LowDigits(v: nat, p: nat)
    requires p > 0
    ensures v % 256 + 256 * ((v / 256) % p) == v % (256 * p)
  {
    var r, q := Reduce(v / 256, p);
    var low := v % 256 + 256 * r;
    assert 256 * (q * p) == q * (256 * p);
    ModMultiple(v, low, q, 256 * p);
    SmallResidue(low, 256 * p);
  }

  lemma {:induction false} FromLittleEndianAppend(s: Bytes, b: byte)
    ensures FromLittleEndian(s + [b]) == FromLittleEndian(s) + b * Pow256(|s|)
  {
    if s == [] {
      assert (s + [b])[1..] == [];
    } else {
      FromLittleEndianAppend(s[1..], b);
      assert (s + [b])[1..] == s[1..] + [b];
      Scale(FromLittleEndian(s[1..]), b, Pow256(|s| - 1));
    }
  }

  lemma Scale(x: nat, b: nat, p: nat)
    ensures 256 * (x + b * p) == 256 * x + b * (256 * p)
  {
  }

  /** The byte `n >> 8i`. */
  function ByteOf(n: nat, i: nat): byte { if i == 0 then n % 256 else ByteOf(n / 256, i - 1) }

  lemma {:induction false} LittleEndianAt(k: nat, v: nat, i: nat)
    requires i < k
    ensures LittleEndian(k, v)[i] == ByteOf(v, i)
  {
    if i > 0 { LittleEndianAt(k - 1, v / 256, i - 1); }
  }

  lemma {:induction false} HighByteZero(v: nat, k: nat, i: nat)
    requires v < Pow256(k) && i >= k
    ensures ByteOf(v, i) == 0
  {
    if k > 0 { HighByteZero(v / 256, k - 1, i - 1); } else if i > 0 { HighByteZero(0, 0, i - 1); }
  }

  function Mirror(s: Bytes): (r: Bytes)
    ensures |r| == |s| && forall i :: 0 <= i < |s| ==> r[i] == s[|s| - 1 - i]
  {
    if s == [] then [] else Mirror(s[1..]) + [s[0]]
  }

  /** Little-endian is big-endian read backwards. */
  lemma {:induction false} MirrorEndian(s: Bytes)
    ensures FromBigEndian(Mirror(s)) == FromLittleEndian(s)
  {
    if s != [] {
      var m := Mirror(s);
      assert m[..|m| - 1] == Mirror(s[1..]);
      MirrorEndian(s[1..]);
    }
  }

  lemma {:induction false} MirrorLittle(k: nat, v: nat)
    ensures Mirror(LittleEndian(k, v)) == BigEndian(k, v)
  {
    if k > 0 {
      MirrorLittle(k - 1, v / 256);
      assert LittleEndian(k, v)[1..] == LittleEndian(k - 1, v / 256);
    }
  }

  lemma MirrorTwice(s: Bytes)
    ensures Mirror(Mirror(s)) == s
  {
  }

  lemma MirrorConcat(a: Bytes, b: Bytes)
    ensures Mirror(a + b) == Mirror(b) + Mirror(a)
  {
  }
}
