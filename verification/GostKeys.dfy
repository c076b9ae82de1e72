/** Raw public keys, and verification of mirrored inputs. */
module GostKeys {
  import opened Wire
  import opened Endian
  import opened AdditiveGroup
  import opened Gost3410
  import opened GostProof
  import opened GostRfc

  datatype Key = Key(x: nat, y: nat)

  /** LE(X) || LE(Y). */
  function ParseKey(n: nat, raw: Bytes): Option<Key> {
    if |raw| != 2 * n then None else Some(Key(FromLittleEndian(raw[..n]), FromLittleEndian(raw[n..])))
  }

  function RenderKey(n: nat, k: Key): Bytes { LittleEndian(n, k.x) + LittleEndian(n, k.y) }

  lemma KeyRoundTrip(n: nat, k: Key)
    requires k.x < Pow256(n) && k.y < Pow256(n)
    ensures ParseKey(n, RenderKey(n, k)) == Some(k)
  {
    var raw := RenderKey(n, k);
    assert raw[..n] == LittleEndian(n, k.x) && raw[n..] == LittleEndian(n, k.y);
    LittleEndianRoundTrip(n, k.x);
    LittleEndianRoundTrip(n, k.y);
  }

  /** Every accepted encoding is the only one of its key. */
  lemma RawRoundTrip(n: nat, raw: Bytes)
    requires |raw| == 2 * n
    ensures var k := ParseKey(n, raw).value;
      k.x < Pow256(n) && k.y < Pow256(n) && RenderKey(n, k) == raw
  {
    FromLittleEndianRoundTrip(raw[..n]);
    FromLittleEndianRoundTrip(raw[n..]);
    assert raw == raw[..n] + raw[n..];
  }

  /** The copy loops of the source: a new array with the bytes backwards. */
  method Backwards(s: Bytes) returns (r: array<byte>)
    ensures fresh(r) && r[..] == Mirror(s)
  {
    r := new byte[|s|](_ => 0);
    for i := 0 to |s|
      invariant forall j :: 0 <= j < i ==> r[j] == s[|s| - 1 - j]
    {
      r[i] := s[|s| - i - 1];
    }
  }

  /** reverse. */
  method ReverseInPlace(d: array<byte>)
    modifies d
    ensures d[..] == Mirror(old(d[..]))
  {
    var i, j := 0, d.Length - 1;
    while i < j
      invariant 0 <= i <= j + 1 && i + j == d.Length - 1
      invariant forall k :: 0 <= k < i || j < k < d.Length ==> d[k] == old(d[d.Length - 1 - k])
      invariant forall k :: i <= k <= j ==> d[k] == old(d[k])
    {
      d[i], d[j] := d[j], d[i];
      i, j := i + 1, j - 1;
    }
    assert d[..] == Mirror(old(d[..]));
  }

  method NewPublicKeyLE(c: Curve, raw: Bytes) returns (r: Option<Key>)
    ensures r == ParseKey(PointSize(c), raw)
  {
    var n := PointSize(c);
    if |raw| != 2 * n { return None; }
    var key := Backwards(raw);
    Halves(n, raw, key[..]);
    return Some(Key(FromBigEndian(key[n..2 * n]), FromBigEndian(key[..n])));
  }

  lemma Halves(n: nat, raw: Bytes, key: Bytes)
    requires |raw| == 2 * n && key == Mirror(raw)
    ensures FromBigEndian(key[n..2 * n]) == FromLittleEndian(raw[..n])
    ensures FromBigEndian(key[..n]) == FromLittleEndian(raw[n..])
  {
    assert raw == raw[..n] + raw[n..];
    MirrorConcat(raw[..n], raw[n..]);
    assert key[n..2 * n] == Mirror(raw[..n]) && key[..n] == Mirror(raw[n..]);
    MirrorEndian(raw[..n]);
    MirrorEndian(raw[n..]);
  }

  method RawLE(c: Curve, k: Key) returns (raw: array<byte>)
    requires k.x < Pow256(PointSize(c)) && k.y < Pow256(PointSize(c))
    ensures fresh(raw) && raw[..] == RenderKey(PointSize(c), k)
  {
    var n := PointSize(c);
    var padded := BigEndian(n, k.y) + BigEndian(n, k.x);
    raw := new byte[2 * n](i requires 0 <= i < |padded| => padded[i]);
    assert raw[..] == padded;
    ReverseInPlace(raw);
    MirrorConcat(BigEndian(n, k.y), BigEndian(n, k.x));
    MirrorBig(n, k.x);
    MirrorBig(n, k.y);
  }

  lemma MirrorBig(n: nat, v: nat)
    ensures Mirror(BigEndian(n, v)) == LittleEndian(n, v)
  {
    MirrorLittle(n, v);
    MirrorTwice(LittleEndian(n, v));
  }

  /** PublicKeyReverseDigestAndSignature.VerifyDigest. */
  method VerifyReversed(c: Curve, k: Key, digest: Bytes, signature: Bytes) returns (verdict: Verdict)
    requires c.p > 0 && c.q > 0
    ensures verdict == VerifySpec(c, k.x, k.y, Mirror(digest), Mirror(signature))
  {
    var dgst := Backwards(digest);
    var sign := Backwards(signature);
    verdict := VerifyDigest(c, k.x, k.y, dgst[..], sign[..]);
  }

  /** An honest signature written LE(r) || LE(s) for a digest read backwards passes the mirrored verification. */
  lemma HonestReversedVerifies(c: Curve, d: nat, k: nat, digest: Bytes, e: nat, r: nat, s: nat)
    requires Generator(c) && c.q <= Pow256(PointSize(c))
    requires DigestInteger(c.q, Mirror(digest), e) && Signs(c, d, k, e, r, s)
    ensures var key := Times(Points(c), d, Base(c)); var n := PointSize(c);
      && key.Affine?
      && VerifySpec(c, key.x, key.y, Mirror(digest), Mirror(LittleEndian(n, r) + LittleEndian(n, s))) == Answer(true)
  {
    var n := PointSize(c);
    SignedIsAccepted(c, d, k, Mirror(digest), e, r, s);
    MirrorConcat(LittleEndian(n, r), LittleEndian(n, s));
    MirrorLittle(n, r);
    MirrorLittle(n, s);
  }
}
