/** Removing the unqualified Id attributes of ds:Signature start tags from a copy of a document. */
module XmlEdit {
  import opened Wire
  import opened XmlTag
  import opened XmlScanView

  // ----- the scan view of a document

  datatype Encoding = Utf16(little: bool) | Bytewise

  function Detect(document: Bytes): Encoding {
    if |document| < 2 then Bytewise
    else if document[..2] == [0xFF, 0xFE] || (document[0] == 0x3C && document[1] == 0) then Utf16(true)
    else if document[..2] == [0xFE, 0xFF] || (document[0] == 0 && document[1] == 0x3C) then Utf16(false)
    else Bytewise
  }

  /** The characters of a document; `valid` says whether it is valid UTF-8. */
  function UnitsOf(document: Bytes, valid: bool): seq<Unit> {
    match Detect(document)
    case Utf16(little) =>
      var units := Utf16Units(document, little, 0);
      if units.Some? then units.value else PlainUnits(document)
    case Bytewise => if valid then PlainUnits(document) else LegacyUnits(document)
  }

  lemma UnitsGood(document: Bytes, valid: bool)
    ensures AllGood(UnitsOf(document, valid)) && Source(UnitsOf(document, valid)) == document
  {
    LegacyGood(document);
    BytesOf(document, LegacyUnits(document));
    BytesOf(document, PlainUnits(document));
    var e := Detect(document);
    if e.Utf16? && Utf16Units(document, e.little, 0).Some? {
      Utf16Source(document, e.little, 0);
      var units := Utf16Units(document, e.little, 0).value;
      forall k | 0 <= k < |units|
        ensures Good(units[k])
      {
        var r := Utf16Good(document, e.little, 0, k);
      }
    }
  }

  lemma {:induction false} EvenLength(document: Bytes, little: bool, i: nat) returns (words: nat)
    requires i <= |document| && Utf16Units(document, little, i).Some?
    ensures |document| == i + 2 * words
    decreases |document| - i
  {
    if i == |document| { return 0; }
    var next := NextCharacter(document, little, i);
    var rest := EvenLength(document, little, next);
    words := if next == i + 2 then rest + 1 else rest + 2;
  }

  lemma OddFails(document: Bytes, little: bool)
    requires |document| % 2 != 0
    ensures Utf16Units(document, little, 0).None?
  {
    if Utf16Units(document, little, 0).Some? {
      var words := EvenLength(document, little, 0);
      assert false;
    }
  }

  lemma NextCharacter(document: Bytes, little: bool, i: nat) returns (next: nat)
    requires i < |document| && Utf16Units(document, little, i).Some?
    ensures (next == i + 2 || next == i + 4) && next <= |document| && Utf16Units(document, little, next).Some?
  {
    next := Utf16Step(document, little, i).value.next;
  }

  /** The UTF-16 half of the view builder; None says that the document is scanned unchanged. */
  method Utf16View(document: Bytes, little: bool) returns (r: Option<Bytes>)
    ensures r == var units := Utf16Units(document, little, 0);
      if units.None? then None else Some(View(units.value))
  {
    if |document| % 2 != 0 {
      OddFails(document, little);
      return None;
    }
    r := DecodeWords(document, little, |document| / 2);
  }

  method DecodeWords(document: Bytes, little: bool, ghost words: nat) returns (r: Option<Bytes>)
    requires |document| == 2 * words
    ensures r == var units := Utf16Units(document, little, 0);
      if units.None? then None else Some(View(units.value))
  {
    var view: Bytes := [];
    var index := 0;
    ghost var done: seq<Unit>, word: nat := [], 0;
    ghost var whole := Utf16Units(document, little, 0);
    Restart(whole);
    while index < |document|
      invariant index == 2 * word <= 2 * words && view == View(done)
      invariant whole == Follow(done, Utf16Units(document, little, index))
    {
      var value, next := Utf16Next(document, little, index);
      ghost var unit := OneMore(document, little, index, done, value, next);
      if value.None? { return None; }
      ViewConcat(done, [unit]);
      One(unit);
      view := view + Utf8(value.value);
      word := if next == index + 2 then word + 1 else word + 2;
      done := done + [unit];
      index := next;
    }
    AtEnd(document, little, done);
    return Some(view);
  }

  lemma AtEnd(document: Bytes, little: bool, done: seq<Unit>)
    ensures Follow(done, Utf16Units(document, little, |document|)) == Some(done)
  {
    assert done + [] == done;
  }

  /** What was decoded, then what follows. */
  ghost function Follow(done: seq<Unit>, rest: Option<seq<Unit>>): Option<seq<Unit>> {
    if rest.None? then None else Some(done + rest.value)
  }

  lemma Restart(rest: Option<seq<Unit>>)
    ensures Follow([], rest) == rest
  {
    if rest.Some? { assert [] + rest.value == rest.value; }
  }

  lemma OneMore(document: Bytes, little: bool, i: nat, done: seq<Unit>, value: Option<rune>, next: nat)
    returns (unit: Unit)
    requires i + 2 <= |document| && (value.None? <==> Utf16Step(document, little, i).None?)
    requires value.Some? ==>
      i <= next <= |document| && Utf16Step(document, little, i) ==
        Some(Step(Unit(document[i..next], Utf8(value.value)), next))
    ensures value.None? ==> Follow(done, Utf16Units(document, little, i)) == None
    ensures value.Some? ==>
      && unit.view == Utf8(value.value) && (next == i + 2 || next == i + 4)
      && Follow(done, Utf16Units(document, little, i)) == Follow(done + [unit], Utf16Units(document, little, next))
  {
    if value.None? { return Unit([], []); }
    unit := Utf16Step(document, little, i).value.unit;
    var rest := Utf16Units(document, little, next);
    if rest.Some? { assert done + ([unit] + rest.value) == done + [unit] + rest.value; }
  }

  /** One rune of UTF-16, and where the next begins. */
  method Utf16Next(document: Bytes, little: bool, at: nat) returns (r: Option<rune>, next: nat)
    requires at + 2 <= |document|
    ensures r.None? <==> Utf16Step(document, little, at).None?
    ensures r.Some? ==>
      at <= next <= |document| && Utf16Step(document, little, at) ==
        Some(Step(Unit(document[at..next], Utf8(r.value)), next))
  {
    var index := at;
    var value := Word(little, document[index], document[index + 1]);
    if Surrogate(value) {
      if index + 4 > |document| { return None, 0; }
      var pair := Pair(value, Word(little, document[index + 2], document[index + 3]));
      if pair.None? { return None, 0; }
      value := pair.value;
      index := index + 2;
    }
    return Some(value), index + 2;
  }

  // ----- the offset mapper

  datatype Kind = Unchanged | LegacyKind(document: Bytes) | Utf16Kind(view: Bytes)

  ghost predicate Boundary(units: seq<Unit>, p: int) { exists j :: 0 <= j <= |units| && |View(units[..j])| == p }

  /** The runes of the characters of a UTF-16 document. */
  ghost predicate Spells(units: seq<Unit>, runes: seq<rune>) {
    |runes| == |units| && forall i {:trigger SpellsAt(units, runes, i)} :: 0 <= i < |units| ==>
      SpellsAt(units, runes, i)
  }

  ghost predicate SpellsAt(units: seq<Unit>, runes: seq<rune>, i: nat)
    requires |runes| == |units| && i < |units|
  {
    Utf16Unit(units[i], runes[i])
  }

  /** The characters of a legacy document. */
  ghost predicate LegacySpelled(units: seq<Unit>, document: Bytes) {
    |units| == |document| && forall i {:trigger LegacyAt(units, document, i)} :: 0 <= i < |units| ==>
      LegacyAt(units, document, i)
  }

  ghost predicate LegacyAt(units: seq<Unit>, document: Bytes, i: nat)
    requires |units| == |document| && i < |units|
  {
    units[i] == LegacyUnit(document[i])
  }

  /** The closure that the view builder returns, with the two offsets it keeps between calls. */
  class OffsetMapper {
    const kind: Kind
    ghost const units: seq<Unit>
    ghost const runes: seq<rune>
    var scanned: nat
    var consumed: nat
    ghost var k: nat

    ghost predicate Valid()
      reads this
    {
      && AllGood(units) && k <= |units|
      && (kind.Unchanged? ==> forall i :: 0 <= i < |units| ==> |units[i].src| == 1 == |units[i].view|)
      && (kind.LegacyKind? ==> LegacySpelled(units, kind.document))
      && (kind.Utf16Kind? ==> kind.view == View(units) && Spells(units, runes))
      && scanned == |View(units[..k])| && consumed == |Source(units[..k])|
    }

    constructor (kind: Kind, ghost units: seq<Unit>, ghost runes: seq<rune>)
      requires AllGood(units)
      requires kind.Unchanged? ==> forall i :: 0 <= i < |units| ==> |units[i].src| == 1 == |units[i].view|
      requires kind.LegacyKind? ==> LegacySpelled(units, kind.document)
      requires kind.Utf16Kind? ==> kind.view == View(units) && Spells(units, runes)
      ensures Valid() && this.units == units && scanned == 0
    {
      this.kind, this.units, this.runes := kind, units, runes;
      scanned, consumed, k := 0, 0, 0;
      new;
      assert units[..0] == [];
    }

    /** Leads from a view offset to the document; offsets are asked for in ascending order. */
    method Lookup(offset: nat) returns (r: nat)
      requires Valid() && scanned <= offset <= |View(units)|
      modifies this
      ensures Valid() && r == SourceOffset(units, offset)
      ensures Boundary(units, offset) ==> scanned <= offset
    {
      if kind.Unchanged? {
        UnchangedOffset(units, offset);
        return offset;
      }
      SourceOffsetSkips(units, k, offset);
      ghost var goal := Goal(units, k, offset);
      while scanned < offset
        invariant Valid() && k <= goal
        decreases goal - k
      {
        Advance();
      }
      return consumed;
    }

    /** The body of the mapper's loop: over one character. */
    method Advance()
      requires Valid() && k < |units| && !kind.Unchanged?
      modifies this
      ensures Valid() && k == old(k) + 1
    {
      Extend(units, k);
      if kind.LegacyKind? {
        LegacyAdvances(units, kind.document, k);
        scanned := scanned + 1;
        if kind.document[consumed] >= 0x80 { scanned := scanned + 2; }
        consumed := consumed + 1;
      } else {
        assert SpellsAt(units, runes, k);
        Utf16Advances(units, k, runes[k]);
        var decoded := DecodeRune(kind.view[scanned..]);
        scanned := scanned + decoded.size;
        consumed := consumed + 2;
        if decoded.value > 0xFFFF { consumed := consumed + 2; }
      }
      k := k + 1;
    }
  }

  lemma {:induction false} UnchangedOffset(units: seq<Unit>, p: nat)
    requires (forall i :: 0 <= i < |units| ==> |units[i].src| == 1 == |units[i].view|) && p <= |View(units)|
    ensures SourceOffset(units, p) == p
  {
    if p > 0 { UnchangedOffset(units[1..], p - 1); }
  }

  /** Where a mapper that stands before character `k` will stop: at the first boundary not before the offset. */
  lemma {:induction false} Goal(units: seq<Unit>, k: nat, offset: nat) returns (goal: nat)
    requires AllGood(units) && k <= |units| && |View(units[..k])| <= offset <= |View(units)|
    ensures k <= goal <= |units| && |View(units[..goal])| >= offset
    ensures forall m :: k <= m < goal ==> |View(units[..m])| < offset
    ensures |Source(units[..k])| + SourceOffset(units[k..], offset - |View(units[..k])|) == |Source(units[..goal])|
    ensures Boundary(units, offset) ==> |View(units[..goal])| == offset
    decreases |units| - k
  {
    if |View(units[..k])| == offset { return k; }
    assert units[..|units|] == units;
    Extend(units, k);
    assert units[k..][1..] == units[k + 1..];
    if Boundary(units, offset) { NoBoundaryInside(units, k, offset); }
    if |View(units[..k + 1])| > offset { return k + 1; }
    goal := Goal(units, k + 1, offset);
  }

  lemma NoBoundaryInside(units: seq<Unit>, k: nat, offset: nat)
    requires k < |units| && Boundary(units, offset)
    ensures |View(units[..k])| < offset ==> |View(units[..k + 1])| <= offset
  {
    var j :| 0 <= j <= |units| && |View(units[..j])| == offset;
    if j <= k { ViewMonotone(units, j, k); } else { ViewMonotone(units, k + 1, j); }
  }

  lemma Extend(units: seq<Unit>, k: nat)
    requires k < |units|
    ensures View(units[..k + 1]) == View(units[..k]) + units[k].view
    ensures Source(units[..k + 1]) == Source(units[..k]) + units[k].src
  {
    assert units[..k + 1] == units[..k] + [units[k]];
    ViewConcat(units[..k], [units[k]]);
    SourceConcat(units[..k], [units[k]]);
    One(units[k]);
  }

  lemma ViewMonotone(units: seq<Unit>, a: nat, b: nat)
    requires a <= b <= |units|
    ensures |View(units[..a])| <= |View(units[..b])| && |Source(units[..a])| <= |Source(units[..b])|
  {
    assert units[..b] == units[..a] + units[a..b];
    ViewConcat(units[..a], units[a..b]);
    SourceConcat(units[..a], units[a..b]);
  }

  lemma LegacyAdvances(units: seq<Unit>, document: Bytes, k: nat)
    requires LegacySpelled(units, document) && k < |document|
    ensures |Source(units[..k])| == k && |units[k].src| == 1
    ensures |units[k].view| == if document[k] >= 0x80 then 3 else 1
  {
    forall i | 0 <= i < k
      ensures units[i].src == [document[i]]
    {
      assert LegacyAt(units, document, i);
    }
    BytesOf(document[..k], units[..k]);
    assert LegacyAt(units, document, k);
    LegacyUnitGood(document[k]);
  }

  lemma Utf16Advances(units: seq<Unit>, k: nat, r: rune)
    requires k < |units| && Utf16Unit(units[k], r)
    ensures |View(units[..k])| < |View(units)|
    ensures DecodeRune(View(units)[|View(units[..k])|..]) == Decoded(r, |units[k].view|)
  {
    assert units == units[..k] + units[k..];
    ViewConcat(units[..k], units[k..]);
    var s := View(units)[|View(units[..k])|..];
    assert s == View(units[k..]);
    DecodeEncoded(r, View(units[k..][1..]), s);
  }

  /** xmlCertificateScanView; `valid` says whether the document is valid UTF-8. */
  method ScanView(document: Bytes, valid: bool) returns (view: Bytes, mapper: OffsetMapper)
    ensures view == View(UnitsOf(document, valid))
    ensures fresh(mapper) && mapper.Valid() && mapper.units == UnitsOf(document, valid) && mapper.scanned == 0
  {
    UnitsGood(document, valid);
    ghost var units := UnitsOf(document, valid);
    var encoding := Detect(document);
    if encoding.Utf16? {
      var decoded := Utf16View(document, encoding.little);
      if decoded.Some? {
        view := decoded.value;
        ghost var runes := RunesOf(document, encoding.little, units);
        mapper := new OffsetMapper(Utf16Kind(view), units, runes);
        return;
      }
    } else if !valid {
      view := LegacyView(document);
      assert LegacySpelled(units, document);
      mapper := new OffsetMapper(LegacyKind(document), units, []);
      return;
    }
    PlainView(document, units);
    view := document;
    mapper := new OffsetMapper(Unchanged, units, []);
  }

  lemma RunesOf(document: Bytes, little: bool, units: seq<Unit>) returns (runes: seq<rune>)
    requires Utf16Units(document, little, 0) == Some(units)
    ensures Spells(units, runes)
  {
    runes := [];
    for k := 0 to |units|
      invariant |runes| == k && forall i :: 0 <= i < k ==> Utf16Unit(units[i], runes[i])
    {
      var r := Utf16Good(document, little, 0, k);
      runes := runes + [r];
    }
  }

  // ----- deleting spans

  /** Spans in ascending order, apart from each other and inside `n`. */
  ghost predicate Ascending(spans: seq<Span>, n: nat) {
    && (forall i :: 0 <= i < |spans| ==> spans[i].from < spans[i].until <= n)
    && (forall i, j :: 0 <= i < j < |spans| ==> spans[i].until <= spans[j].from)
  }

  function LastUntil(spans: seq<Span>): nat { if spans == [] then 0 else spans[|spans| - 1].until }

  /** What is kept before the end of the last span. */
  function Kept<T>(s: seq<T>, spans: seq<Span>): seq<T> {
    if spans == [] then []
    else
      var n := |spans| - 1;
      var from := LastUntil(spans[..n]);
      Kept(s, spans[..n]) + if from <= spans[n].from <= |s| then s[from..spans[n].from] else []
  }

  function Delete<T>(s: seq<T>, spans: seq<Span>): seq<T> {
    Kept(s, spans) + if LastUntil(spans) <= |s| then s[LastUntil(spans)..] else []
  }

  /** How many positions before `p` lie in the span. */
  function Covered(span: Span, p: nat): nat {
    if p <= span.from || span.until <= span.from then 0 else (if p < span.until then p else span.until) - span.from
  }

  function RemovedBefore(spans: seq<Span>, p: nat): nat {
    if spans == [] then 0 else Covered(spans[0], p) + RemovedBefore(spans[1..], p)
  }

  ghost predicate Outside(spans: seq<Span>, p: nat) {
    forall i :: 0 <= i < |spans| ==> !(spans[i].from <= p < spans[i].until)
  }

  /** `r` is `s` without the spans: every position outside them is kept, moved by what is gone before it. */
  ghost predicate Without<T(!new)>(s: seq<T>, spans: seq<Span>, r: seq<T>) {
    && |r| + RemovedBefore(spans, |s|) == |s|
    && forall p :: 0 <= p < |s| && Outside(spans, p) ==> KeptAt(s, spans, r, p)
  }

  ghost predicate KeptAt<T(!new)>(s: seq<T>, spans: seq<Span>, r: seq<T>, p: nat) {
    && RemovedBefore(spans, p) <= p < |s| && p - RemovedBefore(spans, p) < |r|
    && r[p - RemovedBefore(spans, p)] == s[p]
  }

  lemma {:induction false} RemovedAppend(spans: seq<Span>, last: Span, p: nat)
    ensures RemovedBefore(spans + [last], p) == RemovedBefore(spans, p) + Covered(last, p)
  {
    if spans == [] {
      assert (spans + [last])[1..] == [];
    } else {
      assert (spans + [last])[1..] == spans[1..] + [last];
      RemovedAppend(spans[1..], last, p);
    }
  }

  /** Behind the last span everything is removed that will be. */
  lemma {:induction false} RemovedBehind(spans: seq<Span>, p: nat)
    requires forall i :: 0 <= i < |spans| ==> spans[i].until <= p
    ensures forall q :: q >= p ==> RemovedBefore(spans, q) == RemovedBefore(spans, p)
  {
    if spans != [] { RemovedBehind(spans[1..], p); }
  }

  /** The part that was copied so far, position by position. */
  ghost predicate KeptSoFar<T(!new)>(s: seq<T>, spans: seq<Span>, out: seq<T>, until: nat) {
    && until <= |s| && |out| + RemovedBefore(spans, until) == until
    && forall p :: 0 <= p < until && Outside(spans, p) ==> KeptAt(s, spans, out, p)
  }

  /** Copying on to the next span. */
  lemma CopyOn<T(!new)>(s: seq<T>, spans: seq<Span>, out: seq<T>, from: nat, until: nat)
    requires KeptSoFar(s, spans, out, from) && from <= until <= |s|
    requires forall i :: 0 <= i < |spans| ==> spans[i].until <= from
    ensures KeptSoFar(s, spans, out + s[from..until], until)
  {
    RemovedBehind(spans, from);
    var more := out + s[from..until];
    forall p | 0 <= p < until && Outside(spans, p) ensures KeptAt(s, spans, more, p) {
      if p < from { assert KeptAt(s, spans, out, p); }
    }
  }

  /** Skipping a span. */
  lemma SkipSpan<T(!new)>(s: seq<T>, spans: seq<Span>, last: Span, out: seq<T>)
    requires KeptSoFar(s, spans, out, last.from) && last.from < last.until <= |s|
    requires forall i :: 0 <= i < |spans| ==> spans[i].until <= last.from
    ensures KeptSoFar(s, spans + [last], out, last.until)
  {
    var all := spans + [last];
    RemovedBehind(spans, last.from);
    RemovedAppend(spans, last, last.until);
    forall p | 0 <= p < last.until && Outside(all, p) ensures KeptAt(s, all, out, p) {
      assert forall i :: 0 <= i < |spans| ==> all[i] == spans[i];
      assert all[|spans|] == last;
      assert Outside(spans, p) && p < last.from;
      assert KeptAt(s, spans, out, p);
      RemovedAppend(spans, last, p);
    }
  }

  lemma {:induction false} KeptIsKept<T(!new)>(s: seq<T>, spans: seq<Span>)
    requires Ascending(spans, |s|)
    ensures KeptSoFar(s, spans, Kept(s, spans), LastUntil(spans))
    ensures forall i :: 0 <= i < |spans| ==> spans[i].until <= LastUntil(spans)
  {
    if spans != [] {
      var n := |spans| - 1;
      var init, last := spans[..n], spans[n];
      KeptIsKept(s, init);
      CopyOn(s, init, Kept(s, init), LastUntil(init), last.from);
      SkipSpan(s, init, last, Kept(s, spans));
      assert init + [last] == spans;
    }
  }

  /** Deleting ascending spans keeps every other position, in order. */
  lemma DeleteIsWithout<T(!new)>(s: seq<T>, spans: seq<Span>)
    requires Ascending(spans, |s|)
    ensures Without(s, spans, Delete(s, spans))
  {
    KeptIsKept(s, spans);
    CopyOn(s, spans, Kept(s, spans), LastUntil(spans), |s|);
    assert s[LastUntil(spans)..|s|] == s[LastUntil(spans)..];
  }

  // ----- the edit

  /** A token of the scan: where it ends in the view, and what the decoder says about it. */
  datatype Token = Token(end: nat, signature: bool, duplicate: bool, hasId: bool)

  function Start(tokens: seq<Token>, i: nat): nat
    requires i <= |tokens|
  {
    if i == 0 then 0 else tokens[i - 1].end
  }

  /** The decoder's input offsets: each token starts where the one before it ends. */
  ghost predicate Contiguous(tokens: seq<Token>, n: nat) {
    forall i :: 0 <= i < |tokens| ==> Start(tokens, i) <= tokens[i].end <= n
  }

  /** The Id attribute of a ds:Signature start tag, in view offsets. */
  function TokenSpan(view: Bytes, tokens: seq<Token>, i: nat): (r: Option<Span>)
    requires i < |tokens| && Start(tokens, i) <= tokens[i].end <= |view|
    ensures r.Some? ==> Start(tokens, i) < r.value.from < r.value.until <= tokens[i].end
  {
    if tokens[i].signature && tokens[i].hasId then
      var found := ScanTag(view[Start(tokens, i)..tokens[i].end]);
      if found.None? then None
      else Some(Span(Start(tokens, i) + found.value.from, Start(tokens, i) + found.value.until))
    else None
  }

  /** What the scanner finds in every token. */
  function Found(view: Bytes, tokens: seq<Token>): (found: seq<Option<Span>>)
    requires Contiguous(tokens, |view|)
    ensures |found| == |tokens|
  {
    seq(|tokens|, i requires 0 <= i < |tokens| => TokenSpan(view, tokens, i))
  }

  function Collect(found: seq<Option<Span>>): seq<Span> {
    if found == [] then []
    else
      var n := |found| - 1;
      Collect(found[..n]) + if found[n].Some? then [found[n].value] else []
  }

  /** All Id attributes, in view offsets. */
  function Spans(view: Bytes, tokens: seq<Token>): seq<Span>
    requires Contiguous(tokens, |view|)
  {
    Collect(Found(view, tokens))
  }

  lemma CollectNext(found: seq<Option<Span>>, i: nat)
    requires i < |found|
    ensures Collect(found[..i + 1]) == Collect(found[..i]) + if found[i].Some? then [found[i].value] else []
  {
    assert found[..i + 1][..i] == found[..i];
  }

  /** Found spans lie in their own tokens. */
  ghost predicate Inside(found: seq<Option<Span>>, tokens: seq<Token>) {
    && |found| == |tokens|
    && forall i :: 0 <= i < |found| && found[i].Some? ==>
         Start(tokens, i) < found[i].value.from < found[i].value.until <= tokens[i].end
  }

  lemma {:induction false} SpansAscend(found: seq<Option<Span>>, tokens: seq<Token>, n: nat, size: nat)
    requires n <= |tokens| && Contiguous(tokens, size) && Inside(found, tokens)
    ensures Ascending(Collect(found[..n]), size) && LastUntil(Collect(found[..n])) <= Start(tokens, n)
    ensures forall i :: 0 <= i < |Collect(found[..n])| ==> Collect(found[..n])[i].until <= Start(tokens, n)
  {
    if n > 0 {
      SpansAscend(found, tokens, n - 1, size);
      CollectNext(found, n - 1);
      if found[n - 1].Some? {
        AscendingAppend(Collect(found[..n - 1]), found[n - 1].value, size, Start(tokens, n - 1));
      }
    }
  }

  lemma AscendingAppend(spans: seq<Span>, s: Span, n: nat, limit: nat)
    requires Ascending(spans, n) && (forall i :: 0 <= i < |spans| ==> spans[i].until <= limit)
    requires limit <= s.from < s.until <= n
    ensures Ascending(spans + [s], n)
  {
  }

  function MapSpan(units: seq<Unit>, s: Span): Span { Span(SourceOffset(units, s.from), SourceOffset(units, s.until)) }

  function MapSpans(units: seq<Unit>, spans: seq<Span>): (r: seq<Span>)
    ensures |r| == |spans| && forall i :: 0 <= i < |spans| ==> r[i] == MapSpan(units, spans[i])
  {
    seq(|spans|, i requires 0 <= i < |spans| => MapSpan(units, spans[i]))
  }

  predicate Refused(tokens: seq<Token>) { exists i :: 0 <= i < |tokens| && tokens[i].signature && tokens[i].duplicate }
}
