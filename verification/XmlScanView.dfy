/**
 * Scan views: the document re-encoded so that its tags can be found, and the stateful mappers that lead from
 * offsets in the view back to offsets in the document.
 */
module XmlScanView {
  import opened Wire

  // ----- documents and views as sequences of characters

  /** One character: its bytes in the document and in the view. */
  datatype Unit = Unit(src: Bytes, view: Bytes)

  /** ASCII bytes of the view are characters of their own. */
  ghost predicate Good(u: Unit) {
    |u.src| > 0 && |u.view| > 0 && (|u.view| == 1 || forall i :: 0 <= i < |u.view| ==> u.view[i] >= 0x80)
  }

  ghost predicate AllGood(units: seq<Unit>) { forall i :: 0 <= i < |units| ==> Good(units[i]) }

  function Source(units: seq<Unit>): Bytes { if units == [] then [] else units[0].src + Source(units[1..]) }

  function View(units: seq<Unit>): Bytes { if units == [] then [] else units[0].view + View(units[1..]) }

  lemma {:induction false} SourceConcat(a: seq<Unit>, b: seq<Unit>)
    ensures Source(a + b) == Source(a) + Source(b)
  {
    if a == [] {
      assert a + b == b;
    } else {
      assert (a + b)[1..] == a[1..] + b;
      SourceConcat(a[1..], b);
    }
  }

  lemma {:induction false} ViewConcat(a: seq<Unit>, b: seq<Unit>)
    ensures View(a + b) == View(a) + View(b)
  {
    if a == [] {
      assert a + b == b;
    } else {
      assert (a + b)[1..] == a[1..] + b;
      ViewConcat(a[1..], b);
    }
  }

  lemma One(u: Unit)
    ensures Source([u]) == u.src && View([u]) == u.view
  {
    assert [u][1..] == [] && u.src + [] == u.src && u.view + [] == u.view;
  }

  /** The document offset of a view offset; inside a character, the offset of the character's end. */
  function SourceOffset(units: seq<Unit>, p: int): nat {
    if units == [] || p <= 0 then 0 else |units[0].src| + SourceOffset(units[1..], p - |units[0].view|)
  }

  /** The first `k` characters can be skipped on both sides. */
  lemma {:induction false} SourceOffsetSkips(units: seq<Unit>, k: nat, p: int)
    requires k <= |units| && AllGood(units) && p >= |View(units[..k])|
    ensures SourceOffset(units, p) == |Source(units[..k])| + SourceOffset(units[k..], p - |View(units[..k])|)
    decreases k
  {
    if k == 0 {
      assert units[..0] == [] && units[0..] == units;
    } else {
      assert units[..k][1..] == units[1..][..k - 1] && units[k..] == units[1..][k - 1..];
      SourceOffsetSkips(units[1..], k - 1, p - |units[0].view|);
    }
  }

  /** At a character boundary the view offset leads to the same boundary of the document. */
  lemma BoundaryOffset(units: seq<Unit>, k: nat)
    requires k <= |units| && AllGood(units)
    ensures SourceOffset(units, |View(units[..k])|) == |Source(units[..k])|
  {
    SourceOffsetSkips(units, k, |View(units[..k])|);
  }

  /** An ASCII byte of the view is a whole character. */
  lemma {:induction false} AsciiIsCharacter(units: seq<Unit>, p: nat) returns (k: nat)
    requires AllGood(units) && p < |View(units)| && View(units)[p] < 0x80
    ensures k < |units| && |View(units[..k])| == p && |View(units[..k + 1])| == p + 1
  {
    var n := |units[0].view|;
    if p < n {
      k := 0;
      assert units[..0] == [] && units[..1] == [units[0]];
      One(units[0]);
    } else {
      var j := AsciiIsCharacter(units[1..], p - n);
      k := j + 1;
      assert units[..k] == [units[0]] + units[1..][..j] && units[..k + 1] == [units[0]] + units[1..][..j + 1];
      ViewConcat([units[0]], units[1..][..j]);
      ViewConcat([units[0]], units[1..][..j + 1]);
      One(units[0]);
    }
  }

  // ----- UTF-8

  type rune = r: int | 0 <= r < 0x11_0000

  predicate Surrogate(r: int) { 0xD800 <= r < 0xE000 }

  function Utf8(r: rune): (s: Bytes)
    ensures 1 <= |s| <= 4
  {
    if r < 0x80 then [r]
    else if r < 0x800 then [0xC0 + r / 64, 0x80 + r % 64]
    else if r < 0x1_0000 then [0xE0 + r / 4096, 0x80 + r / 64 % 64, 0x80 + r % 64]
    else [0xF0 + r / 0x4_0000, 0x80 + r / 4096 % 64, 0x80 + r / 64 % 64, 0x80 + r % 64]
  }

  lemma Utf8Good(r: rune)
    ensures |Utf8(r)| == 1 || forall i :: 0 <= i < |Utf8(r)| ==> Utf8(r)[i] >= 0x80
  {
  }

  predicate Cont(b: byte) { 0x80 <= b < 0xC0 }

  /** The six bits a continuation byte carries. */
  function Bits(b: int): int { b - 0x80 }

  predicate TwoByteForm(s: Bytes) { |s| >= 2 && 0xC2 <= s[0] < 0xE0 && Cont(s[1]) }

  predicate ThreeByteForm(s: Bytes) {
    && |s| >= 3 && 0xE0 <= s[0] < 0xF0 && Cont(s[1]) && Cont(s[2])
    && (s[0] == 0xE0 ==> s[1] >= 0xA0) && (s[0] == 0xED ==> s[1] < 0xA0)
  }

  predicate FourByteForm(s: Bytes) {
    && |s| >= 4 && 0xF0 <= s[0] < 0xF5 && Cont(s[1]) && Cont(s[2]) && Cont(s[3])
    && (s[0] == 0xF0 ==> s[1] >= 0x90) && (s[0] == 0xF4 ==> s[1] < 0x90)
  }

  datatype Decoded = Decoded(value: int, size: nat)

  /** utf8.DecodeRune of a nonempty slice: the first rune and its width, or the error rune and one. */
  function DecodeRune(s: Bytes): Decoded
    requires s != []
  {
    var b: int := s[0];
    if b < 0x80 then Decoded(b, 1)
    else if TwoByteForm(s) then Decoded((b - 0xC0) * 64 + Bits(s[1]), 2)
    else if ThreeByteForm(s) then Decoded((b - 0xE0) * 4096 + Bits(s[1]) * 64 + Bits(s[2]), 3)
    else if FourByteForm(s) then Decoded((b - 0xF0) * 0x4_0000 + Bits(s[1]) * 4096 + Bits(s[2]) * 64 + Bits(s[3]), 4)
    else Decoded(0xFFFD, 1)
  }

  lemma DecodeTwo(r: rune, s: Bytes)
    requires 0x80 <= r < 0x800 && |s| >= 2 && s[0] == 0xC0 + r / 64 && s[1] == 0x80 + r % 64
    ensures DecodeRune(s) == Decoded(r, 2)
  {
  }

  lemma DecodeThree(r: rune, s: Bytes)
    requires 0x800 <= r < 0x1_0000 && !Surrogate(r)
    requires |s| >= 3 && s[0] == 0xE0 + r / 4096 && s[1] == 0x80 + r / 64 % 64 && s[2] == 0x80 + r % 64
    ensures DecodeRune(s) == Decoded(r, 3)
  {
    var h, m, l := r / 4096, r / 64 % 64, r % 64;
    assert r == h * 4096 + m * 64 + l;
    assert h == 0 ==> m >= 32;
    assert h == 13 ==> m < 32;
  }

  lemma DecodeFour(r: rune, s: Bytes)
    requires 0x1_0000 <= r
    requires |s| >= 4 && s[0] == 0xF0 + r / 0x4_0000 && s[1] == 0x80 + r / 4096 % 64 && s[2] == 0x80 + r / 64 % 64
    requires s[3] == 0x80 + r % 64
    ensures DecodeRune(s) == Decoded(r, 4)
  {
    var g, h, m, l := r / 0x4_0000, r / 4096 % 64, r / 64 % 64, r % 64;
    assert r == g * 0x4_0000 + h * 4096 + m * 64 + l;
    assert g == 0 ==> h >= 16;
    assert g == 4 ==> h < 16;
  }

  /** Decoding gives back an encoded rune and its width. */
  lemma DecodeEncoded(r: rune, rest: Bytes, s: Bytes)
    requires !Surrogate(r) && s == Utf8(r) + rest
    ensures DecodeRune(s) == Decoded(r, |Utf8(r)|)
  {
    if 0x80 <= r < 0x800 { DecodeTwo(r, s); }
    if 0x800 <= r < 0x1_0000 { DecodeThree(r, s); }
    if 0x1_0000 <= r { DecodeFour(r, s); }
  }

  // ----- legacy documents: one byte per character

  /** A byte outside ASCII stands for a rune of its own that may occur in names. */
  function LegacyRune(b: int): int { 0x4E00 + b }

  function LegacyUnit(b: byte): Unit { Unit([b], if b < 0x80 then [b] else Utf8(LegacyRune(b))) }

  function LegacyUnits(document: Bytes): (units: seq<Unit>)
    ensures |units| == |document|
  {
    seq(|document|, i requires 0 <= i < |document| => LegacyUnit(document[i]))
  }

  function PlainUnits(document: Bytes): (units: seq<Unit>)
    ensures |units| == |document|
  {
    seq(|document|, i requires 0 <= i < |document| => Unit([document[i]], [document[i]]))
  }

  lemma LegacyGood(document: Bytes)
    ensures AllGood(LegacyUnits(document)) && AllGood(PlainUnits(document))
  {
    forall i | 0 <= i < |document|
      ensures Good(LegacyUnits(document)[i])
    {
      LegacyUnitGood(document[i]);
    }
  }

  lemma LegacyUnitGood(b: byte)
    ensures Good(LegacyUnit(b)) && |LegacyUnit(b).view| == if b < 0x80 then 1 else 3
  {
    if b >= 0x80 { Utf8Good(LegacyRune(b)); }
  }

  lemma {:induction false} BytesOf(document: Bytes, units: seq<Unit>)
    requires |units| == |document| && forall i :: 0 <= i < |units| ==> units[i].src == [document[i]]
    ensures Source(units) == document
  {
    if units != [] {
      BytesOf(document[1..], units[1..]);
      assert document == [document[0]] + document[1..];
    }
  }

  lemma {:induction false} PlainView(document: Bytes, units: seq<Unit>)
    requires |units| == |document| && forall i :: 0 <= i < |units| ==> units[i] == Unit([document[i]], [document[i]])
    ensures View(units) == document
  {
    if units != [] {
      PlainView(document[1..], units[1..]);
      assert document == [document[0]] + document[1..];
    }
  }

  /** The loop that builds the legacy view. */
  method LegacyView(document: Bytes) returns (view: Bytes)
    ensures view == View(LegacyUnits(document))
  {
    view := [];
    ghost var units := LegacyUnits(document);
    for i := 0 to |document|
      invariant view == View(units[..i])
    {
      var value := document[i];
      ViewConcat(units[..i], [units[i]]);
      One(units[i]);
      assert units[..i + 1] == units[..i] + [units[i]];
      if value < 0x80 { view := view + [value]; } else { view := view + Utf8(LegacyRune(value)); }
    }
    assert units[..|document|] == units;
  }

  /** Distinct documents have distinct views: re-encoding makes no two names collide. */
  lemma {:induction false} LegacyInjective(a: Bytes, b: Bytes)
    requires View(LegacyUnits(a)) == View(LegacyUnits(b))
    ensures a == b
  {
    ViewEmpty(a);
    ViewEmpty(b);
    if a != [] {
      var s := View(LegacyUnits(a));
      var ra := FirstLegacy(a, s);
      var rb := FirstLegacy(b, s);
      LegacyInjective(a[1..], b[1..]);
      assert a == [a[0]] + a[1..] && b == [b[0]] + b[1..];
    }
  }

  lemma ViewEmpty(document: Bytes)
    ensures View(LegacyUnits(document)) == [] <==> document == []
  {
    if document != [] { LegacyUnitGood(document[0]); }
  }

  /** The first rune of a legacy view tells the first byte and where the rest begins. */
  lemma FirstLegacy(document: Bytes, s: Bytes) returns (rest: Bytes)
    requires document != [] && s == View(LegacyUnits(document))
    ensures s != [] && DecodeRune(s).value == (if document[0] < 0x80 then document[0] else LegacyRune(document[0]))
    ensures DecodeRune(s).size <= |s| && rest == s[DecodeRune(s).size..] == View(LegacyUnits(document[1..]))
  {
    var b := document[0];
    var units := LegacyUnits(document);
    assert units[1..] == LegacyUnits(document[1..]);
    rest := View(units[1..]);
    if b >= 0x80 { DecodeEncoded(LegacyRune(b), rest, s); }
  }

  // ----- UTF-16 documents

  function Word(little: bool, a: byte, b: byte): int { if little then a + 256 * b else 256 * a + b }

  /** utf16.DecodeRune: a high and a low surrogate make a rune above the basic plane. */
  function Pair(high: int, low: int): (r: Option<rune>)
    ensures r.Some? ==> r.value >= 0x1_0000
  {
    if 0xD800 <= high < 0xDC00 && 0xDC00 <= low < 0xE000 then
      Some(0x1_0000 + (high - 0xD800) * 1024 + low - 0xDC00)
    else None
  }

  datatype Step = Step(unit: Unit, next: nat)

  /** The character at an offset of a UTF-16 document, if it is complete. */
  function Utf16Step(document: Bytes, little: bool, i: nat): (r: Option<Step>)
    requires i + 2 <= |document|
    ensures r.Some? ==> r.value.next in {i + 2, i + 4} && r.value.next <= |document|
    ensures r.Some? ==> r.value.unit.src == document[i..r.value.next]
  {
    var w := Word(little, document[i], document[i + 1]);
    if !Surrogate(w) then Some(Step(Unit(document[i..i + 2], Utf8(w)), i + 2))
    else if i + 4 > |document| then None
    else
      var p := Pair(w, Word(little, document[i + 2], document[i + 3]));
      if p.None? then None else Some(Step(Unit(document[i..i + 4], Utf8(p.value)), i + 4))
  }

  function Utf16Units(document: Bytes, little: bool, i: nat): (r: Option<seq<Unit>>)
    requires i <= |document|
    decreases |document| - i
  {
    if i == |document| then Some([])
    else if i + 2 > |document| then None
    else
      var step := Utf16Step(document, little, i);
      if step.None? then None
      else
        var rest := Utf16Units(document, little, step.value.next);
        if rest.None? then None else Some([step.value.unit] + rest.value)
  }

  /** A character of UTF-16: two or four bytes, told apart by its rune. */
  ghost predicate Utf16Unit(u: Unit, r: rune) {
    !Surrogate(r) && u.view == Utf8(r) && |u.src| == if r > 0xFFFF then 4 else 2
  }

  lemma StepUnit(document: Bytes, little: bool, i: nat) returns (r: rune)
    requires i + 2 <= |document| && Utf16Step(document, little, i).Some?
    ensures Utf16Unit(Utf16Step(document, little, i).value.unit, r) && Good(Utf16Step(document, little, i).value.unit)
  {
    var w := Word(little, document[i], document[i + 1]);
    r := if !Surrogate(w) then w else Pair(w, Word(little, document[i + 2], document[i + 3])).value;
    Utf8Good(r);
  }

  /** Decoding loses no byte of the document. */
  lemma {:induction false} Utf16Source(document: Bytes, little: bool, i: nat)
    requires i <= |document| && Utf16Units(document, little, i).Some?
    ensures Source(Utf16Units(document, little, i).value) == document[i..]
    decreases |document| - i
  {
    if i < |document| {
      var step := Utf16Step(document, little, i).value;
      var units := Utf16Units(document, little, i).value;
      var rest := Utf16Units(document, little, step.next).value;
      Utf16Source(document, little, step.next);
      assert units[1..] == rest;
      assert document[i..] == document[i..step.next] + document[step.next..];
    }
  }

  lemma {:induction false} Utf16Good(document: Bytes, little: bool, i: nat, k: nat) returns (r: rune)
    requires i <= |document| && Utf16Units(document, little, i).Some? && k < |Utf16Units(document, little, i).value|
    ensures Utf16Unit(Utf16Units(document, little, i).value[k], r) && Good(Utf16Units(document, little, i).value[k])
    decreases k
  {
    var step := Utf16Step(document, little, i).value;
    if k == 0 {
      r := StepUnit(document, little, i);
    } else {
      r := Utf16Good(document, little, step.next, k - 1);
    }
  }
}
