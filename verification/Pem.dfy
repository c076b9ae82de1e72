/** PEM certificates: Base64 of section 4 of RFC 4648 in lines of 64 columns. */
module Pem {
  import opened Wire

  const NEWLINE: byte := 10
  const PAD: byte := 61
  const LINE := 64
  const CHUNK := 48

  /** "-----BEGIN CERTIFICATE-----" and "-----END CERTIFICATE-----", each with a newline. */
  const HEADER: Bytes := [
    45, 45, 45, 45, 45, 66, 69, 71, 73, 78, 32, 67, 69, 82, 84, 73, 70, 73, 67, 65, 84, 69, 45, 45, 45, 45, 45, 10]
  const FOOTER: Bytes := [
    45, 45, 45, 45, 45, 69, 78, 68, 32, 67, 69, 82, 84, 73, 70, 73, 67, 65, 84, 69, 45, 45, 45, 45, 45, 10]

  // ----- Base64

  type sextet = x: int | 0 <= x < 64

  function Symbol(v: sextet): (c: byte)
    ensures c != NEWLINE && c != PAD
  {
    if v < 26 then 65 + v else if v < 52 then 71 + v else if v < 62 then v - 4 else if v == 62 then 43 else 47
  }

  function Value(c: byte): Option<sextet> {
    if 65 <= c <= 90 then Some(c - 65) else if 97 <= c <= 122 then Some(c - 71) else if 48 <= c <= 57 then Some(c + 4)
    else if c == 43 then Some(62) else if c == 47 then Some(63) else None
  }

  /** Table 1 of RFC 4648: capitals, small letters, digits, plus and slash. */
  lemma SymbolIsTable(v: sextet)
    ensures v < 26 ==> Symbol(v) == 'A' as int + v
    ensures 26 <= v < 52 ==> Symbol(v) == 'a' as int + (v - 26)
    ensures 52 <= v < 62 ==> Symbol(v) == '0' as int + (v - 52)
    ensures (v == 62 ==> Symbol(v) == '+' as int) && (v == 63 ==> Symbol(v) == '/' as int)
  {
  }

  /** Section 4 of RFC 4648: four symbols spell the 24 bits of three bytes, and missing bytes count as zero bits. */
  lemma GroupSpells(a: byte, b: byte, c: byte, x: sextet, y: sextet, z: sextet, w: sextet)
    requires Group3(a, b, c) == [Symbol(x), Symbol(y), Symbol(z), Symbol(w)]
    ensures 65536 * a + 256 * b + c == 262144 * x + 4096 * y + 64 * z + w
    ensures Group2(a, b) == Group3(a, b, 0)[..3] + [PAD] && Group1(a) == Group3(a, 0, 0)[..2] + [PAD, PAD]
  {
    var g := Group3(a, b, c);
    assert g[0] == Symbol(x) && g[1] == Symbol(y) && g[2] == Symbol(z) && g[3] == Symbol(w);
    SameSymbol(x, a / 4);
    SameSymbol(y, a % 4 * 16 + b / 16);
    SameSymbol(z, b % 16 * 4 + c / 64);
    SameSymbol(w, c % 64);
  }

  lemma SameSymbol(v: sextet, w: sextet)
    ensures Symbol(v) == Symbol(w) ==> v == w
  {
    SymbolValue(v);
    SymbolValue(w);
  }

  lemma SymbolValue(v: sextet)
    ensures Value(Symbol(v)) == Some(v)
  {
  }

  function Group3(a: byte, b: byte, c: byte): Bytes {
    [Symbol(a / 4), Symbol(a % 4 * 16 + b / 16), Symbol(b % 16 * 4 + c / 64), Symbol(c % 64)]
  }

  function Group2(a: byte, b: byte): Bytes { [Symbol(a / 4), Symbol(a % 4 * 16 + b / 16), Symbol(b % 16 * 4), PAD] }

  function Group1(a: byte): Bytes { [Symbol(a / 4), Symbol(a % 4 * 16), PAD, PAD] }

  function Base64(s: Bytes): Bytes {
    if s == [] then [] else if |s| == 1 then Group1(s[0]) else if |s| == 2 then Group2(s[0], s[1])
    else Group3(s[0], s[1], s[2]) + Base64(s[3..])
  }

  function EncodedLength(n: nat): nat { (n + 2) / 3 * 4 }

  lemma {:induction false} Base64Length(s: Bytes)
    ensures |Base64(s)| == EncodedLength(|s|)
  {
    if |s| > 2 {
      Base64Length(s[3..]);
      EncodedStep(|s| - 3);
    }
  }

  lemma EncodedStep(n: nat)
    ensures EncodedLength(n + 3) == EncodedLength(n) + 4
  {
  }

  lemma {:induction false} Base64Concat(a: Bytes, b: Bytes, k: nat)
    requires |a| == 3 * k
    ensures Base64(a + b) == Base64(a) + Base64(b)
  {
    if k == 0 {
      assert a + b == b;
    } else {
      var c := a + b;
      assert c[3..] == a[3..] + b;
      Base64Concat(a[3..], b, k - 1);
      FirstGroup(a, a[0], a[1], a[2], a[3..]);
      FirstGroup(c, a[0], a[1], a[2], c[3..]);
    }
  }

  lemma FirstGroup(s: Bytes, a: byte, b: byte, c: byte, rest: Bytes)
    requires |s| > 2 && s[0] == a && s[1] == b && s[2] == c && s[3..] == rest
    ensures Base64(s) == Group3(a, b, c) + Base64(rest)
  {
  }

  lemma {:induction false} Base64NoNewline(s: Bytes)
    ensures NEWLINE !in Base64(s)
  {
    if |s| > 2 { Base64NoNewline(s[3..]); }
  }

  /** The three bytes of a group of four sextets. */
  function First(x: sextet, y: sextet): byte { x * 4 + y / 16 }
  function Second(y: sextet, z: sextet): byte { y % 16 * 16 + z / 4 }
  function Third(z: sextet, w: sextet): byte { z % 4 * 64 + w }

  lemma GroupBytes(a: byte, b: byte, c: byte)
    ensures First(a / 4, a % 4 * 16) == a && First(a / 4, a % 4 * 16 + b / 16) == a
    ensures Second(a % 4 * 16 + b / 16, b % 16 * 4) == b && Second(a % 4 * 16 + b / 16, b % 16 * 4 + c / 64) == b
    ensures Third(b % 16 * 4 + c / 64, c % 64) == c
  {
  }

  /** Strict decoding: whole groups, padding only in the last. */
  function Unbase64(t: Bytes): Option<Bytes> {
    if t == [] then Some([])
    else if |t| < 4 then None
    else if t[3] != PAD then
      var rest := Unbase64(t[4..]);
      var v := Sextets(t[..4]);
      if v.None? || rest.None? then None
      else
        var q := v.value;
        Some([First(q[0], q[1]), Second(q[1], q[2]), Third(q[2], q[3])] + rest.value)
    else if |t| > 4 then None
    else if t[2] != PAD then
      var v := Sextets(t[..3]);
      if v.None? then None else Some([First(v.value[0], v.value[1]), Second(v.value[1], v.value[2])])
    else
      var v := Sextets(t[..2]);
      if v.None? then None else Some([First(v.value[0], v.value[1])])
  }

  function Sextets(t: Bytes): (r: Option<seq<sextet>>)
    ensures r.Some? ==> |r.value| == |t|
  {
    if t == [] then Some([])
    else
      var v, rest := Value(t[0]), Sextets(t[1..]);
      if v.None? || rest.None? then None else Some([v.value] + rest.value)
  }

  lemma {:induction false} SextetsOf(v: seq<sextet>, t: Bytes)
    requires |t| == |v| && forall i :: 0 <= i < |v| ==> t[i] == Symbol(v[i])
    ensures Sextets(t) == Some(v)
  {
    if v != [] {
      SymbolValue(v[0]);
      SextetsOf(v[1..], t[1..]);
      assert v == [v[0]] + v[1..];
    }
  }

  lemma {:induction false} Base64RoundTrip(s: Bytes)
    ensures Unbase64(Base64(s)) == Some(s)
  {
    var t := Base64(s);
    if |s| == 1 {
      OneByte(s[0], t);
      assert s == [s[0]];
    } else if |s| == 2 {
      TwoBytes(s[0], s[1], t);
      assert s == [s[0], s[1]];
    } else if |s| > 2 {
      Base64RoundTrip(s[3..]);
      WholeGroup(s[0], s[1], s[2], Base64(s[3..]), t, s[3..]);
      assert s == [s[0], s[1], s[2]] + s[3..];
    }
  }

  lemma OneByte(a: byte, t: Bytes)
    requires t == Group1(a)
    ensures Unbase64(t) == Some([a])
  {
    GroupBytes(a, 0, 0);
    SextetsOf([a / 4, a % 4 * 16], t[..2]);
  }

  lemma TwoBytes(a: byte, b: byte, t: Bytes)
    requires t == Group2(a, b)
    ensures Unbase64(t) == Some([a, b])
  {
    GroupBytes(a, b, 0);
    SextetsOf([a / 4, a % 4 * 16 + b / 16, b % 16 * 4], t[..3]);
  }

  lemma WholeGroup(a: byte, b: byte, c: byte, rest: Bytes, t: Bytes, decoded: Bytes)
    requires t == Group3(a, b, c) + rest && Unbase64(rest) == Some(decoded)
    ensures Unbase64(t) == Some([a, b, c] + decoded)
  {
    assert t[4..] == rest;
    var x, y, z, w := a / 4, a % 4 * 16 + b / 16, b % 16 * 4 + c / 64, c % 64;
    SextetsOf([x, y, z, w], t[..4]);
    GroupBytes(a, b, c);
  }

  // ----- lines

  function Lines(t: Bytes): Bytes {
    if t == [] then [] else if |t| <= LINE then t + [NEWLINE] else t[..LINE] + [NEWLINE] + Lines(t[LINE..])
  }

  function LineCount(n: nat): nat { (n + LINE - 1) / LINE }

  lemma {:induction false} LinesLength(t: Bytes)
    ensures |Lines(t)| == |t| + LineCount(|t|)
  {
    if |t| > LINE { LinesLength(t[LINE..]); }
  }

  function Unlines(t: Bytes): Bytes {
    if t == [] then [] else if t[0] == NEWLINE then Unlines(t[1..]) else [t[0]] + Unlines(t[1..])
  }

  lemma {:induction false} UnlinesConcat(a: Bytes, b: Bytes)
    ensures Unlines(a + b) == Unlines(a) + Unlines(b)
  {
    if a == [] {
      assert a + b == b;
    } else {
      assert (a + b)[1..] == a[1..] + b;
      UnlinesConcat(a[1..], b);
    }
  }

  lemma {:induction false} UnlinesNothing(t: Bytes)
    requires NEWLINE !in t
    ensures Unlines(t) == t
  {
    if t != [] {
      UnlinesNothing(t[1..]);
      assert t == [t[0]] + t[1..];
    }
  }

  lemma UnlinesLine(t: Bytes, rest: Bytes)
    requires NEWLINE !in t
    ensures Unlines(t + [NEWLINE] + rest) == t + Unlines(rest)
  {
    UnlinesConcat(t + [NEWLINE], rest);
    UnlinesConcat(t, [NEWLINE]);
    UnlinesNothing(t);
    UnlinesNewline([NEWLINE]);
    assert t + [] == t;
  }

  lemma UnlinesNewline(t: Bytes)
    requires t == [NEWLINE]
    ensures Unlines(t) == []
  {
    assert t[1..] == [];
  }

  lemma {:induction false} LinesRoundTrip(t: Bytes)
    requires NEWLINE !in t
    ensures Unlines(Lines(t)) == t
  {
    if t == [] {
    } else if |t| <= LINE {
      UnlinesLine(t, []);
      assert t + [NEWLINE] + [] == t + [NEWLINE];
    } else {
      UnlinesLine(t[..LINE], Lines(t[LINE..]));
      LinesRoundTrip(t[LINE..]);
    }
  }

  // ----- the document

  function Document(der: Bytes): Bytes { HEADER + Lines(Base64(der)) + FOOTER }

  /** certificatePEMSize. */
  function PemSize(n: nat): nat { |HEADER| + |FOOTER| + EncodedLength(n) + LineCount(EncodedLength(n)) }

  lemma DocumentSize(der: Bytes)
    ensures |Document(der)| == PemSize(|der|)
  {
    Base64Length(der);
    LinesLength(Base64(der));
  }

  function ParseDocument(p: Bytes): Option<Bytes> {
    if |p| < |HEADER| + |FOOTER| || p[..|HEADER|] != HEADER || p[|p| - |FOOTER|..] != FOOTER then None
    else Unbase64(Unlines(p[|HEADER|..|p| - |FOOTER|]))
  }

  /** A certificate comes back from its PEM form. */
  lemma DocumentRoundTrip(der: Bytes)
    ensures ParseDocument(Document(der)) == Some(der)
  {
    var p := Document(der);
    assert p[..|HEADER|] == HEADER && p[|p| - |FOOTER|..] == FOOTER;
    assert p[|HEADER|..|p| - |FOOTER|] == Lines(Base64(der));
    Base64NoNewline(der);
    LinesRoundTrip(Base64(der));
    Base64RoundTrip(der);
  }

  // ----- the encoder

  /** Writes at a position that must be inside the buffer. */
  method Put(out: array<byte>, at: nat, src: Bytes)
    requires at + |src| <= out.Length
    modifies out
    ensures forall i :: 0 <= i < out.Length && !(at <= i < at + |src|) ==> out[i] == old(out[i])
    ensures out[at..at + |src|] == src && out[..at + |src|] == old(out[..at]) + src
  {
    forall i | 0 <= i < |src| {
      out[at + i] := src[i];
    }
  }

  /** A chunk of 48 bytes is one full line of the whole encoding; a shorter one is the last. */
  lemma NextLine(der: Bytes, n: nat) returns (line: Bytes, tail: Bytes)
    requires der != [] && n == if |der| <= CHUNK then |der| else CHUNK
    ensures line == Base64(der[..n]) + [NEWLINE] && tail == Lines(Base64(der[n..]))
    ensures Lines(Base64(der)) == line + tail && |line| == EncodedLength(n) + 1
  {
    line, tail := Base64(der[..n]) + [NEWLINE], Lines(Base64(der[n..]));
    Base64Length(der[..n]);
    Base64Length(der[n..]);
    if |der| <= CHUNK {
      assert der[..n] == der && der[n..] == [];
      assert Base64(der) + [NEWLINE] + [] == Base64(der) + [NEWLINE];
    } else {
      assert der == der[..n] + der[n..];
      Base64Concat(der[..n], der[n..], 16);
      FirstLine(Base64(der[..n]), Base64(der[n..]));
    }
  }

  lemma FirstLine(line: Bytes, rest: Bytes)
    requires |line| == LINE && rest != []
    ensures Lines(line + rest) == line + [NEWLINE] + Lines(rest)
  {
    var t := line + rest;
    assert t[..LINE] == line && t[LINE..] == rest;
  }

  /** encodeCertificatePEM: a buffer one byte longer than the document, which ends it with a zero byte. */
  method EncodeCertificatePEM(der: Bytes) returns (out: array<byte>, length: nat)
    ensures length == PemSize(|der|) && out.Length == length + 1
    ensures out[..length] == Document(der) && out[length] == 0
  {
    length := PemSize(|der|);
    DocumentSize(der);
    out := Encode(length, HEADER, der, FOOTER);
  }

  method Encode(length: nat, header: Bytes, der: Bytes, footer: Bytes) returns (out: array<byte>)
    requires length == |header| + |Lines(Base64(der))| + |footer|
    ensures fresh(out) && out.Length == length + 1
    ensures out[..length] == header + Lines(Base64(der)) + footer && out[length] == 0
  {
    out := new byte[length + 1](_ => 0);
    Put(out, 0, header);
    var offset := PutLines(out, |header|, der);
    Put(out, offset, footer);
  }

  /** The encoder's loop. */
  method PutLines(out: array<byte>, start: nat, der: Bytes) returns (offset: nat)
    requires start + |Lines(Base64(der))| <= out.Length
    modifies out
    ensures offset == start + |Lines(Base64(der))| && out[..offset] == old(out[..start]) + Lines(Base64(der))
    ensures forall i :: 0 <= i < out.Length && !(start <= i < offset) ==> out[i] == old(out[i])
  {
    var rest := der;
    offset := start;
    ghost var all := Lines(Base64(der));
    ghost var left := all;
    while rest != []
      invariant start <= offset && left == Lines(Base64(rest))
      invariant offset + |left| == start + |all| && all == out[start..offset] + left
      invariant forall i :: 0 <= i < out.Length && !(start <= i < offset) ==> out[i] == old(out[i])
      decreases |rest|
    {
      var n := if |rest| <= CHUNK then |rest| else CHUNK;
      ghost var line, tail := NextLine(rest, n);
      ghost var before := out[start..offset];
      Assoc(before, line, tail);
      offset := PutLine(out, start, offset, rest[..n]);
      rest, left := rest[n..], tail;
    }
    assert out[..offset] == out[..start] + out[start..offset];
    assert out[..start] == old(out[..start]);
  }

  /** One chunk in Base64 and its newline. */
  method PutLine(out: array<byte>, ghost start: nat, at: nat, chunk: Bytes) returns (offset: nat)
    requires start <= at && at + EncodedLength(|chunk|) < out.Length
    modifies out
    ensures offset == at + EncodedLength(|chunk|) + 1 <= out.Length
    ensures forall i :: 0 <= i < out.Length && !(at <= i < offset) ==> out[i] == old(out[i])
    ensures out[start..offset] == old(out[start..at]) + (Base64(chunk) + [NEWLINE])
  {
    Base64Length(chunk);
    Put(out, at, Base64(chunk));
    offset := at + EncodedLength(|chunk|);
    out[offset] := NEWLINE;
    offset := offset + 1;
    assert out[at..offset] == Base64(chunk) + [NEWLINE];
  }
}
