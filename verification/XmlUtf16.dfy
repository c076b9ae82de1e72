/** UTF-16 documents in either byte order: the view of an encoded text is its UTF-8 form. */
module XmlUtf16 {
  import opened Wire
  import opened XmlScanView
  import opened XmlEdit

  /** A 16-bit word, low byte first or high byte first. */
  function EncodeWord(w: nat, little: bool): Bytes
    requires w < 0x1_0000
  {
    if little then [w % 256, w / 256] else [w / 256, w % 256]
  }

  /** Section 2.1 of RFC 2781: one word, or a high and a low surrogate of ten bits each. */
  function EncodeRune(r: rune, little: bool): Bytes {
    if r < 0x1_0000 then EncodeWord(r, little)
    else
      var v := r - 0x1_0000;
      EncodeWord(0xD800 + v / 1024, little) + EncodeWord(0xDC00 + v % 1024, little)
  }

  function EncodeText(runes: seq<rune>, little: bool): Bytes {
    if runes == [] then [] else EncodeRune(runes[0], little) + EncodeText(runes[1..], little)
  }

  /** The text in UTF-8. */
  function Utf8Text(runes: seq<rune>): Bytes { if runes == [] then [] else Utf8(runes[0]) + Utf8Text(runes[1..]) }

  /** A text of Unicode scalar values. */
  ghost predicate Scalars(runes: seq<rune>) { forall i :: 0 <= i < |runes| ==> !Surrogate(runes[i]) }

  lemma WordDecodes(w: nat, little: bool)
    requires w < 0x1_0000
    ensures var s := EncodeWord(w, little); |s| == 2 && Word(little, s[0], s[1]) == w
  {
  }

  lemma WordEncodes(little: bool, a: byte, b: byte)
    ensures 0 <= Word(little, a, b) < 0x1_0000 && EncodeWord(Word(little, a, b), little) == [a, b]
  {
  }

  lemma PairDecodes(r: rune)
    requires r >= 0x1_0000
    ensures var v := r - 0x1_0000;
      v / 1024 < 1024 && Pair(0xD800 + v / 1024, 0xDC00 + v % 1024) == Some(r)
  {
    var v := r - 0x1_0000;
    assert v == v / 1024 * 1024 + v % 1024;
  }

  lemma PairEncodes(high: int, low: int)
    requires Pair(high, low).Some?
    ensures var v := Pair(high, low).value - 0x1_0000; high == 0xD800 + v / 1024 && low == 0xDC00 + v % 1024
  {
  }

  ghost predicate Steps(document: Bytes, little: bool, i: nat, r: rune, next: nat) {
    && i + 2 <= |document| && Utf16Step(document, little, i).Some?
    && Utf16Step(document, little, i).value.unit.view == Utf8(r) && Utf16Step(document, little, i).value.next == next
  }

  lemma OneWord(document: Bytes, little: bool, i: nat, r: rune)
    requires r < 0x1_0000 && !Surrogate(r) && i + 2 <= |document|
    requires Word(little, document[i], document[i + 1]) == r
    ensures Steps(document, little, i, r, i + 2)
  {
  }

  lemma TwoWords(document: Bytes, little: bool, i: nat, r: rune, high: int, low: int)
    requires i + 4 <= |document| && Pair(high, low) == Some(r)
    requires Word(little, document[i], document[i + 1]) == high && Word(little, document[i + 2], document[i + 3]) == low
    ensures Steps(document, little, i, r, i + 4)
  {
  }

  lemma StepDecodes(document: Bytes, little: bool, i: nat, r: rune, next: nat)
    requires !Surrogate(r) && i <= next <= |document| && document[i..next] == EncodeRune(r, little)
    ensures Steps(document, little, i, r, next)
  {
    var s := EncodeRune(r, little);
    if r < 0x1_0000 {
      WordDecodes(r, little);
      assert document[i] == s[0] && document[i + 1] == s[1];
      OneWord(document, little, i, r);
    } else {
      var high, low := 0xD800 + (r - 0x1_0000) / 1024, 0xDC00 + (r - 0x1_0000) % 1024;
      PairDecodes(r);
      WordDecodes(high, little);
      WordDecodes(low, little);
      assert s == EncodeWord(high, little) + EncodeWord(low, little);
      assert document[i] == s[0] && document[i + 1] == s[1] && document[i + 2] == s[2] && document[i + 3] == s[3];
      TwoWords(document, little, i, r, high, low);
    }
  }

  lemma SplitAt(document: Bytes, i: nat, a: Bytes, b: Bytes) returns (next: nat)
    requires i <= |document| && document[i..] == a + b
    ensures next == i + |a| <= |document| && document[i..next] == a && document[next..] == b
  {
    next := i + |a|;
    assert document[i..next] == document[i..][..|a|];
    assert document[next..] == document[i..][|a|..];
  }

  lemma UnitsFrom(document: Bytes, little: bool, i: nat, next: nat)
    requires i + 2 <= |document| && Utf16Step(document, little, i).Some?
    requires Utf16Step(document, little, i).value.next == next
    ensures var unit, rest := Utf16Step(document, little, i).value.unit, Utf16Units(document, little, next);
      && (Utf16Units(document, little, i).Some? <==> rest.Some?)
      && (rest.Some? ==> View(Utf16Units(document, little, i).value) == unit.view + View(rest.value))
  {
    var unit, rest := Utf16Step(document, little, i).value.unit, Utf16Units(document, little, next);
    if rest.Some? { assert ([unit] + rest.value)[1..] == rest.value; }
  }

  lemma {:induction false} TextDecodes(document: Bytes, little: bool, i: nat, runes: seq<rune>)
    requires Scalars(runes) && i <= |document| && document[i..] == EncodeText(runes, little)
    ensures Utf16Units(document, little, i).Some? && View(Utf16Units(document, little, i).value) == Utf8Text(runes)
    decreases |runes|
  {
    if runes != [] {
      var next := SplitAt(document, i, EncodeRune(runes[0], little), EncodeText(runes[1..], little));
      StepDecodes(document, little, i, runes[0], next);
      TextDecodes(document, little, next, runes[1..]);
      UnitsFrom(document, little, i, next);
    }
  }

  lemma StepEncodes(document: Bytes, little: bool, i: nat) returns (r: rune)
    requires i + 2 <= |document| && Utf16Step(document, little, i).Some?
    ensures var step := Utf16Step(document, little, i).value;
      !Surrogate(r) && step.unit.view == Utf8(r) && document[i..step.next] == EncodeRune(r, little)
  {
    var a, b := document[i], document[i + 1];
    var w := Word(little, a, b);
    WordEncodes(little, a, b);
    if !Surrogate(w) {
      r := w;
      assert document[i..i + 2] == [a, b];
    } else {
      var c, d := document[i + 2], document[i + 3];
      WordEncodes(little, c, d);
      PairEncodes(w, Word(little, c, d));
      r := Pair(w, Word(little, c, d)).value;
      assert document[i..i + 4] == [a, b] + [c, d];
    }
  }

  /** Whatever decodes is an encoded text. */
  lemma {:induction false} DecodedIsText(document: Bytes, little: bool, i: nat) returns (runes: seq<rune>)
    requires i <= |document| && Utf16Units(document, little, i).Some?
    ensures Scalars(runes) && document[i..] == EncodeText(runes, little)
    decreases |document| - i
  {
    if i == |document| { return []; }
    var next := Utf16Step(document, little, i).value.next;
    UnitsFrom(document, little, i, next);
    var r := StepEncodes(document, little, i);
    var rest := DecodedIsText(document, little, next);
    runes := [r] + rest;
    Rejoin(document, i, next, r, rest, little);
  }

  lemma Rejoin(document: Bytes, i: nat, next: nat, r: rune, rest: seq<rune>, little: bool)
    requires i <= next <= |document| && document[i..next] == EncodeRune(r, little)
    requires document[next..] == EncodeText(rest, little)
    ensures document[i..] == EncodeText([r] + rest, little)
  {
    assert ([r] + rest)[1..] == rest;
    assert document[i..] == document[i..next] + document[next..];
  }

  /** A document decodes exactly if it is the encoding of some text. */
  lemma DecodesExactly(document: Bytes, little: bool)
    ensures Utf16Units(document, little, 0).Some? <==>
      exists runes :: Scalars(runes) && document == EncodeText(runes, little)
  {
    assert document[0..] == document;
    if Utf16Units(document, little, 0).Some? {
      var runes := DecodedIsText(document, little, 0);
    }
    forall runes | Scalars(runes) && document == EncodeText(runes, little)
      ensures Utf16Units(document, little, 0).Some?
    {
      TextDecodes(document, little, 0, runes);
    }
  }

  /** A text that begins with a byte order mark or with a tag is read as UTF-16 in the byte order it was written in. */
  lemma TextIsViewed(runes: seq<rune>, little: bool, valid: bool)
    requires Scalars(runes) && runes != [] && runes[0] in {0xFEFF, 0x3C}
    ensures Detect(EncodeText(runes, little)) == Utf16(little)
    ensures View(UnitsOf(EncodeText(runes, little), valid)) == Utf8Text(runes)
  {
    var document := EncodeText(runes, little);
    assert document[..2] == EncodeWord(runes[0], little);
    assert document[0] == document[..2][0] && document[1] == document[..2][1];
    assert document[0..] == document;
    TextDecodes(document, little, 0, runes);
  }
}
