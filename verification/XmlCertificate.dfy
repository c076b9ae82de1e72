/** The copy of a signed document that is handed to certificate extraction. */
module XmlCertificate {
  import opened Wire
  import opened XmlTag
  import opened XmlScanView
  import opened XmlEdit

  // ----- offsets

  lemma {:induction false} OffsetMonotone(units: seq<Unit>, p: int, q: int)
    requires p <= q
    ensures SourceOffset(units, p) <= SourceOffset(units, q) <= |Source(units)|
  {
    if units != [] && q > 0 { OffsetMonotone(units[1..], p - |units[0].view|, q - |units[0].view|); }
  }

  /** A span that starts and ends with ASCII bytes. */
  ghost predicate Edged(view: Bytes, span: Span) {
    span.from < span.until <= |view| && view[span.from] < 0x80 && view[span.until - 1] < 0x80
  }

  /** The edges of such a span are character boundaries of the view. */
  lemma SpanBoundaries(units: seq<Unit>, view: Bytes, span: Span) returns (u: Span)
    requires AllGood(units) && view == View(units) && Edged(view, span)
    ensures u.from <= |units| && u.until <= |units|
    ensures |View(units[..u.from])| == span.from && |View(units[..u.until])| == span.until
  {
    var a := AsciiIsCharacter(units, span.from);
    var b := AsciiIsCharacter(units, span.until - 1);
    u := Span(a, b + 1);
  }

  lemma AsciiEdges(view: Bytes, tokens: seq<Token>, i: nat, span: Span)
    requires i < |tokens| && Start(tokens, i) <= tokens[i].end <= |view| && TokenSpan(view, tokens, i) == Some(span)
    ensures Edged(view, span)
  {
    var start := Start(tokens, i);
    var tag := view[start..tokens[i].end];
    var found := ScanTag(tag).value;
    FoundEdges(tag, found);
    assert view[span.from] == tag[found.from] && view[span.until - 1] == tag[found.until - 1];
  }

  // ----- deletion

  lemma KeptAppend<T>(s: seq<T>, spans: seq<Span>, last: Span)
    requires LastUntil(spans) <= last.from <= |s|
    ensures Kept(s, spans + [last]) == Kept(s, spans) + s[LastUntil(spans)..last.from]
    ensures LastUntil(spans + [last]) == last.until
  {
    assert (spans + [last])[..|spans|] == spans;
  }

  lemma MapAppend(units: seq<Unit>, spans: seq<Span>, last: Span)
    ensures MapSpans(units, spans + [last]) == MapSpans(units, spans) + [MapSpan(units, last)]
  {
  }

  /** The ends of mapped spans are the mapped ends. */
  lemma MapLast(units: seq<Unit>, spans: seq<Span>)
    ensures LastUntil(MapSpans(units, spans)) == SourceOffset(units, LastUntil(spans))
  {
  }

  /** The document without the Id attributes of its signature tags. */
  function Cut(units: seq<Unit>, document: Bytes, tokens: seq<Token>): Bytes
    requires Contiguous(tokens, |View(units)|)
  {
    Delete(document, MapSpans(units, Spans(View(units), tokens)))
  }

  /** What the edit returns; `failed` says whether the decoder ended with an error instead of the end of the input. */
  function Edited(document: Bytes, valid: bool, tokens: seq<Token>, failed: bool): Bytes
    requires Contiguous(tokens, |View(UnitsOf(document, valid))|)
  {
    if failed || Refused(tokens) then document else Cut(UnitsOf(document, valid), document, tokens)
  }

  /** xmlCertificateInput over the tokens of the view. */
  method CertificateInput(document: Bytes, valid: bool, tokens: seq<Token>, failed: bool) returns (r: Bytes)
    requires Contiguous(tokens, |View(UnitsOf(document, valid))|)
    ensures r == Edited(document, valid, tokens, failed)
    ensures var units := UnitsOf(document, valid);
      Without(document, MapSpans(units, Removed(View(units), tokens, failed)), r)
  {
    EditedWithout(document, valid, tokens, failed);
    UnitsGood(document, valid);
    var view, mapper := ScanView(document, valid);
    r := Apply(document, view, mapper, tokens, failed);
  }

  method Apply(document: Bytes, view: Bytes, mapper: OffsetMapper, tokens: seq<Token>, failed: bool) returns (r: Bytes)
    requires mapper.Valid() && mapper.scanned == 0 && view == View(mapper.units) && document == Source(mapper.units)
    requires Contiguous(tokens, |view|)
    modifies mapper
    ensures r == if failed || Refused(tokens) then document else Cut(mapper.units, document, tokens)
  {
    ghost var found := FoundSpans(view, tokens);
    var refused, out, keptFrom := CutAll(document, view, mapper, tokens, found);
    if failed || refused || out == [] { return document; }
    return out + document[keptFrom..];
  }

  /** The token loop: copies what lies between the attributes, or refuses a tag with duplicate attributes. */
  method CutAll(document: Bytes, view: Bytes, mapper: OffsetMapper, tokens: seq<Token>, ghost found: seq<Option<Span>>)
    returns (refused: bool, out: Bytes, keptFrom: nat)
    requires mapper.Valid() && mapper.scanned == 0 && view == View(mapper.units) && document == Source(mapper.units)
    requires Contiguous(tokens, |view|) && Inside(found, tokens)
    requires forall i {:trigger FoundAt(view, tokens, found, i)} :: 0 <= i < |tokens| ==>
      FoundAt(view, tokens, found, i)
    modifies mapper
    ensures refused == Refused(tokens) && (!refused ==> CutTo(document, mapper.units, found, out, keptFrom))
  {
    out, keptFrom := [], 0;
    for i := 0 to |tokens|
      invariant mapper.Valid() && mapper.scanned <= Start(tokens, i)
      invariant CutTo(document, mapper.units, found[..i], out, keptFrom)
      invariant forall j :: 0 <= j < i ==> !(tokens[j].signature && tokens[j].duplicate)
    {
      if tokens[i].signature && tokens[i].duplicate { return true, [], 0; }
      out, keptFrom := CutToken(document, view, mapper, tokens, found, i, out, keptFrom);
    }
    assert found[..|tokens|] == found;
    return false, out, keptFrom;
  }

  /** What was copied so far is the document without the attributes found so far. */
  ghost predicate CutTo(document: Bytes, units: seq<Unit>, found: seq<Option<Span>>, out: Bytes, keptFrom: nat) {
    var mapped := MapSpans(units, Collect(found));
    keptFrom == LastUntil(mapped) <= |document| && out == Kept(document, mapped) && (out == [] <==> mapped == [])
  }

  method CutToken(document: Bytes, view: Bytes, mapper: OffsetMapper, tokens: seq<Token>,
                  ghost found: seq<Option<Span>>, i: nat, out: Bytes, keptFrom: nat)
    returns (out': Bytes, keptFrom': nat)
    requires mapper.Valid() && view == View(mapper.units) && document == Source(mapper.units)
    requires Contiguous(tokens, |view|) && Inside(found, tokens) && i < |tokens| && FoundAt(view, tokens, found, i)
    requires mapper.scanned <= Start(tokens, i) && CutTo(document, mapper.units, found[..i], out, keptFrom)
    modifies mapper
    ensures mapper.Valid() && mapper.scanned <= tokens[i].end
    ensures CutTo(document, mapper.units, found[..i + 1], out', keptFrom')
  {
    var cut := TokenCut(view, tokens, i, mapper);
    out', keptFrom' := out, keptFrom;
    if cut.Some? {
      SpansAscend(found, tokens, i, |view|);
      NextCut(document, mapper.units, found, i, out, keptFrom, cut.value);
      out' := out + document[keptFrom..cut.value.from];
      keptFrom' := cut.value.until;
    } else {
      CollectNext(found, i);
      assert Collect(found[..i]) + [] == Collect(found[..i]);
    }
  }

  lemma NextCut(document: Bytes, units: seq<Unit>, found: seq<Option<Span>>, i: nat, out: Bytes, keptFrom: nat, m: Span)
    requires document == Source(units) && AllGood(units) && i < |found| && found[i].Some?
    requires var span := found[i].value;
      1 <= span.from < span.until && span.from <= |View(units)| && LastUntil(Collect(found[..i])) <= span.from
    requires CutTo(document, units, found[..i], out, keptFrom) && m == MapSpan(units, found[i].value)
    ensures keptFrom <= m.from <= |document|
    ensures CutTo(document, units, found[..i + 1], out + document[keptFrom..m.from], m.until)
  {
    var spans := Collect(found[..i]);
    CollectNext(found, i);
    Recorded(document, units, spans, found[i].value, MapSpans(units, spans), m);
  }

  ghost predicate FoundAt(view: Bytes, tokens: seq<Token>, found: seq<Option<Span>>, i: nat)
    requires Contiguous(tokens, |view|) && |found| == |tokens| && i < |tokens|
  {
    found[i] == TokenSpan(view, tokens, i)
  }

  lemma FoundSpans(view: Bytes, tokens: seq<Token>) returns (found: seq<Option<Span>>)
    requires Contiguous(tokens, |view|)
    ensures found == Found(view, tokens) && Inside(found, tokens)
    ensures forall i {:trigger FoundAt(view, tokens, found, i)} :: 0 <= i < |tokens| ==> FoundAt(view, tokens, found, i)
    ensures forall i :: 0 <= i < |found| && found[i].Some? ==> Edged(view, found[i].value)
  {
    found := Found(view, tokens);
    forall i | 0 <= i < |found| && found[i].Some?
      ensures Edged(view, found[i].value)
    {
      AsciiEdges(view, tokens, i, found[i].value);
    }
  }

  /** The attribute to cut out of one token, in document offsets. */
  method TokenCut(view: Bytes, tokens: seq<Token>, i: nat, mapper: OffsetMapper) returns (cut: Option<Span>)
    requires mapper.Valid() && view == View(mapper.units) && Contiguous(tokens, |view|) && i < |tokens|
    requires mapper.scanned <= Start(tokens, i)
    modifies mapper
    ensures mapper.Valid() && mapper.scanned <= tokens[i].end
    ensures var span := TokenSpan(view, tokens, i);
      cut == if span.None? then None else Some(MapSpan(mapper.units, span.value))
  {
    var found := FindInToken(view, tokens, i);
    if found.None? { return None; }
    ghost var u := SpanBoundaries(mapper.units, view, found.value);
    var attributeStart, attributeEnd := MapEdges(mapper, found.value.from, found.value.until, u);
    return Some(Span(attributeStart, attributeEnd));
  }

  method FindInToken(view: Bytes, tokens: seq<Token>, i: nat) returns (r: Option<Span>)
    requires Contiguous(tokens, |view|) && i < |tokens|
    ensures r == TokenSpan(view, tokens, i)
    ensures r.Some? ==>
      Start(tokens, i) < r.value.from < r.value.until <= tokens[i].end <= |view| && Edged(view, r.value)
  {
    if !tokens[i].signature || !tokens[i].hasId { return None; }
    var start := Start(tokens, i);
    var from, until := SignatureIDAttribute(view[start..tokens[i].end]);
    if until == 0 { return None; }
    AsciiEdges(view, tokens, i, Span(start + from, start + until));
    return Some(Span(start + from, start + until));
  }

  /** Both ends of an attribute, in document offsets. */
  method MapEdges(mapper: OffsetMapper, from: nat, until: nat, ghost u: Span) returns (start: nat, end: nat)
    requires mapper.Valid() && mapper.scanned <= from <= until <= |View(mapper.units)|
    requires u.from <= |mapper.units| && |View(mapper.units[..u.from])| == from
    requires u.until <= |mapper.units| && |View(mapper.units[..u.until])| == until
    modifies mapper
    ensures mapper.Valid() && mapper.scanned <= until
    ensures start == SourceOffset(mapper.units, from) && end == SourceOffset(mapper.units, until)
  {
    assert Boundary(mapper.units, from) && Boundary(mapper.units, until);
    start := mapper.Lookup(from);
    end := mapper.Lookup(until);
  }

  /** One more span: what is kept before it is not empty, and the rest follows on. */
  lemma Recorded(document: Bytes, units: seq<Unit>, spans: seq<Span>, span: Span, mapped: seq<Span>, m: Span)
    requires Source(units) == document && AllGood(units) && span.from <= |View(units)|
    requires LastUntil(spans) <= span.from < span.until && 1 <= span.from
    requires mapped == MapSpans(units, spans) && m == MapSpan(units, span)
    ensures LastUntil(mapped) <= m.from <= m.until <= |document| && 1 <= m.from
    ensures MapSpans(units, spans + [span]) == mapped + [m] && LastUntil(mapped + [m]) == m.until
    ensures Kept(document, mapped + [m]) == Kept(document, mapped) + document[LastUntil(mapped)..m.from]
  {
    OffsetMonotone(units, LastUntil(spans), span.from);
    OffsetMonotone(units, span.from, span.until);
    MapAppend(units, spans, span);
    MapLast(units, spans);
    KeptAppend(document, mapped, m);
  }

  // ----- only those attributes vanish

  lemma ViewSlice(units: seq<Unit>, a: nat, b: nat)
    requires a <= b <= |units|
    ensures |View(units[..a])| <= |View(units[..b])| <= |View(units)|
    ensures View(units[a..b]) == View(units)[|View(units[..a])|..|View(units[..b])|]
    ensures |Source(units[..a])| <= |Source(units[..b])| <= |Source(units)|
    ensures Source(units[a..b]) == Source(units)[|Source(units[..a])|..|Source(units[..b])|]
  {
    assert units == units[..b] + units[b..] && units[..b] == units[..a] + units[a..b];
    ViewConcat(units[..b], units[b..]);
    ViewConcat(units[..a], units[a..b]);
    SourceConcat(units[..b], units[b..]);
    SourceConcat(units[..a], units[a..b]);
  }

  /** Characters `u` of a document are the bytes `v` of its view and the bytes `s` of its source. */
  ghost predicate Matches(units: seq<Unit>, u: Span, v: Span, s: Span) {
    && u.from <= u.until <= |units|
    && v == Span(|View(units[..u.from])|, |View(units[..u.until])|)
    && s == Span(|Source(units[..u.from])|, |Source(units[..u.until])|)
  }

  ghost predicate AllMatch(units: seq<Unit>, us: seq<Span>, vs: seq<Span>, ss: seq<Span>) {
    && |us| == |vs| == |ss|
    && (forall i :: 0 <= i < |us| ==> Matches(units, us[i], vs[i], ss[i]))
    && (forall i, j :: 0 <= i < j < |us| ==> us[i].until <= us[j].from)
  }

  lemma LastMatches(units: seq<Unit>, us: seq<Span>, vs: seq<Span>, ss: seq<Span>)
    requires AllMatch(units, us, vs, ss)
    ensures LastUntil(us) <= |units|
    ensures LastUntil(vs) == |View(units[..LastUntil(us)])| && LastUntil(ss) == |Source(units[..LastUntil(us)])|
  {
    if us == [] {
      assert units[..0] == [];
    } else {
      assert Matches(units, us[|us| - 1], vs[|us| - 1], ss[|us| - 1]);
    }
  }

  lemma PrefixMatches(units: seq<Unit>, us: seq<Span>, vs: seq<Span>, ss: seq<Span>, n: nat)
    requires AllMatch(units, us, vs, ss) && n <= |us|
    ensures AllMatch(units, us[..n], vs[..n], ss[..n]) && (n < |us| ==> LastUntil(us[..n]) <= us[n].from)
  {
  }

  /** Deleting characters deletes matching bytes of the view and of the source. */
  lemma {:induction false} KeptMatches(units: seq<Unit>, us: seq<Span>, vs: seq<Span>, ss: seq<Span>)
    requires AllMatch(units, us, vs, ss)
    ensures View(Kept(units, us)) == Kept(View(units), vs) && Source(Kept(units, us)) == Kept(Source(units), ss)
  {
    if us != [] {
      var n := |us| - 1;
      PrefixMatches(units, us, vs, ss, n);
      KeptMatches(units, us[..n], vs[..n], ss[..n]);
      LastMatches(units, us[..n], vs[..n], ss[..n]);
      OneKept(units, Kept(units, us[..n]), LastUntil(us[..n]), us[n].from);
    }
  }

  lemma OneKept(units: seq<Unit>, kept: seq<Unit>, a: nat, b: nat)
    requires a <= b <= |units|
    ensures |View(units[..a])| <= |View(units[..b])| <= |View(units)|
    ensures |Source(units[..a])| <= |Source(units[..b])| <= |Source(units)|
    ensures View(kept + units[a..b]) == View(kept) + View(units)[|View(units[..a])|..|View(units[..b])|]
    ensures Source(kept + units[a..b]) == Source(kept) + Source(units)[|Source(units[..a])|..|Source(units[..b])|]
  {
    ViewSlice(units, a, b);
    ViewConcat(kept, units[a..b]);
    SourceConcat(kept, units[a..b]);
  }

  lemma DeleteMatches(units: seq<Unit>, us: seq<Span>, vs: seq<Span>, ss: seq<Span>)
    requires AllMatch(units, us, vs, ss)
    ensures View(Delete(units, us)) == Delete(View(units), vs) && Source(Delete(units, us)) == Delete(Source(units), ss)
  {
    KeptMatches(units, us, vs, ss);
    LastMatches(units, us, vs, ss);
    RestKept(units, Kept(units, us), LastUntil(us));
  }

  lemma RestKept(units: seq<Unit>, kept: seq<Unit>, a: nat)
    requires a <= |units|
    ensures |View(units[..a])| <= |View(units)| && |Source(units[..a])| <= |Source(units)|
    ensures View(kept + units[a..]) == View(kept) + View(units)[|View(units[..a])|..]
    ensures Source(kept + units[a..]) == Source(kept) + Source(units)[|Source(units[..a])|..]
  {
    OneKept(units, kept, a, |units|);
    assert units[..|units|] == units && units[a..|units|] == units[a..];
  }

  /** Every span with ASCII edges is a run of whole characters. */
  lemma {:induction false} FindCharacters(units: seq<Unit>, view: Bytes, vs: seq<Span>) returns (us: seq<Span>)
    requires AllGood(units) && view == View(units) && Ascending(vs, |view|)
    requires forall i :: 0 <= i < |vs| ==> Edged(view, vs[i])
    ensures AllMatch(units, us, vs, MapSpans(units, vs))
    decreases |vs|
  {
    if vs == [] { return []; }
    var n := |vs| - 1;
    var init, last := vs[..n], vs[n];
    var found := FindCharacters(units, view, init);
    us := AddMatch(units, view, found, init, last, vs);
  }

  lemma {:induction false} CollectEdged(view: Bytes, found: seq<Option<Span>>)
    requires forall i :: 0 <= i < |found| && found[i].Some? ==> Edged(view, found[i].value)
    ensures forall i :: 0 <= i < |Collect(found)| ==> Edged(view, Collect(found)[i])
  {
    if found != [] { CollectEdged(view, found[..|found| - 1]); }
  }

  lemma AddMatch(units: seq<Unit>, view: Bytes, us: seq<Span>, vs: seq<Span>, v: Span, whole: seq<Span>)
    returns (all: seq<Span>)
    requires whole == vs + [v] && AllGood(units) && view == View(units) && AllMatch(units, us, vs, MapSpans(units, vs))
    requires LastUntil(vs) <= v.from && Edged(view, v)
    ensures AllMatch(units, all, whole, MapSpans(units, whole))
  {
    var u := SpanBoundaries(units, view, v);
    MapAppend(units, vs, v);
    LastMatches(units, us, vs, MapSpans(units, vs));
    OrderedBoundaries(units, LastUntil(us), u.from);
    OrderedBoundaries(units, u.from, u.until);
    BoundaryOffset(units, u.from);
    BoundaryOffset(units, u.until);
    all := AppendMatch(units, us, vs, MapSpans(units, vs), u, v, MapSpan(units, v));
  }

  lemma AppendMatch(units: seq<Unit>, us: seq<Span>, vs: seq<Span>, ss: seq<Span>, u: Span, v: Span, s: Span)
    returns (all: seq<Span>)
    requires AllMatch(units, us, vs, ss) && Matches(units, u, v, s) && LastUntil(us) <= u.from
    ensures AllMatch(units, all, vs + [v], ss + [s])
  {
    all := us + [u];
    forall i | 0 <= i < |us|
      ensures us[i].until <= u.from
    {
      if i < |us| - 1 { assert us[i].until <= us[|us| - 1].from <= us[|us| - 1].until; }
    }
  }

  lemma OrderedBoundaries(units: seq<Unit>, a: nat, b: nat)
    requires AllGood(units) && a <= |units| && b <= |units| && |View(units[..a])| <= |View(units[..b])|
    ensures a <= b
  {
    if b < a { StrictlyAfter(units, b, a); }
  }

  lemma StrictlyAfter(units: seq<Unit>, a: nat, b: nat)
    requires AllGood(units) && a < b <= |units|
    ensures |View(units[..a])| < |View(units[..b])|
  {
    ViewSlice(units, a, b);
    assert units[a..b][0] == units[a];
    assert |View(units[a..b])| >= |units[a].view|;
  }

  /** Matching spans ascend in the document as they do in the view. */
  lemma MatchesAscend(units: seq<Unit>, us: seq<Span>, vs: seq<Span>, ss: seq<Span>)
    requires AllGood(units) && AllMatch(units, us, vs, ss) && Ascending(vs, |View(units)|)
    ensures Ascending(ss, |Source(units)|)
  {
    forall i | 0 <= i < |ss| ensures ss[i].from < ss[i].until <= |Source(units)| {
      assert Matches(units, us[i], vs[i], ss[i]) && vs[i].from < vs[i].until;
      ViewSlice(units, us[i].from, us[i].until);
      assert us[i].from < us[i].until;
      SourceAfter(units, us[i].from, us[i].until);
    }
    forall i, j | 0 <= i < j < |ss| ensures ss[i].until <= ss[j].from {
      assert Matches(units, us[i], vs[i], ss[i]) && Matches(units, us[j], vs[j], ss[j]);
      ViewSlice(units, us[i].until, us[j].from);
    }
  }

  lemma SourceAfter(units: seq<Unit>, a: nat, b: nat)
    requires AllGood(units) && a < b <= |units|
    ensures |Source(units[..a])| < |Source(units[..b])|
  {
    ViewSlice(units, a, b);
    assert units[a..b][0] == units[a];
    assert |Source(units[a..b])| >= |units[a].src|;
  }

  /**
   * The result consists of whole characters of the document. In the view exactly the Id attributes of the signature
   * tags are gone, in the document exactly their bytes, and every other byte is kept in its order.
   */
  lemma OnlyIdsVanish(document: Bytes, valid: bool, tokens: seq<Token>) returns (kept: seq<Unit>)
    requires Contiguous(tokens, |View(UnitsOf(document, valid))|)
    ensures Source(kept) == Cut(UnitsOf(document, valid), document, tokens)
    ensures var units := UnitsOf(document, valid); var spans := Spans(View(units), tokens);
      && Ascending(spans, |View(units)|) && Without(View(units), spans, View(kept))
      && Ascending(MapSpans(units, spans), |document|) && Without(document, MapSpans(units, spans), Source(kept))
  {
    UnitsGood(document, valid);
    kept := CutCharacters(UnitsOf(document, valid), document, tokens);
  }

  lemma CutCharacters(units: seq<Unit>, document: Bytes, tokens: seq<Token>) returns (kept: seq<Unit>)
    requires AllGood(units) && document == Source(units) && Contiguous(tokens, |View(units)|)
    ensures Source(kept) == Cut(units, document, tokens)
    ensures var spans := Spans(View(units), tokens);
      && Ascending(spans, |View(units)|) && Without(View(units), spans, View(kept))
      && Ascending(MapSpans(units, spans), |document|) && Without(document, MapSpans(units, spans), Source(kept))
  {
    var view := View(units);
    var found := FoundSpans(view, tokens);
    assert found[..|tokens|] == found;
    SpansAscend(found, tokens, |tokens|, |view|);
    CollectEdged(view, found);
    var spans := Collect(found);
    var us := FindCharacters(units, view, spans);
    DeleteMatches(units, us, spans, MapSpans(units, spans));
    MatchesAscend(units, us, spans, MapSpans(units, spans));
    DeleteIsWithout(view, spans);
    DeleteIsWithout(document, MapSpans(units, spans));
    kept := Delete(units, us);
  }

  // ----- which Ids survive

  /** The spans that the edit removes, in view offsets. */
  function Removed(view: Bytes, tokens: seq<Token>, failed: bool): seq<Span>
    requires Contiguous(tokens, |view|)
  {
    if failed || Refused(tokens) then [] else Spans(view, tokens)
  }

  /** The edit keeps every byte of the document outside these spans, whatever the decoder did. */
  lemma EditedWithout(document: Bytes, valid: bool, tokens: seq<Token>, failed: bool)
    requires Contiguous(tokens, |View(UnitsOf(document, valid))|)
    ensures var units := UnitsOf(document, valid);
      var mapped := MapSpans(units, Removed(View(units), tokens, failed));
      Ascending(mapped, |document|) && Without(document, mapped, Edited(document, valid, tokens, failed))
  {
    if failed || Refused(tokens) {
      var none := MapSpans(UnitsOf(document, valid), []);
      DeleteNothing(document, none);
      DeleteIsWithout(document, none);
    } else {
      var kept := OnlyIdsVanish(document, valid, tokens);
    }
  }

  /** Whatever is removed is a complete Id attribute of a signature tag in which the decoder saw an Id. */
  lemma RemovedIsId(view: Bytes, tokens: seq<Token>, failed: bool, k: nat) returns (i: nat, id: Attribute)
    requires Contiguous(tokens, |view|) && k < |Removed(view, tokens, failed)|
    ensures var span := Removed(view, tokens, failed)[k];
      && i < |tokens| && tokens[i].signature && tokens[i].hasId && InToken(span, tokens, i)
      && Complete(id) && span.from <= span.until <= |view| && view[span.from..span.until] == ID + RenderValue(id)
  {
    var found := FoundSpans(view, tokens);
    i := CollectedFrom(found, k);
    assert FoundAt(view, tokens, found, i);
    id := TokenText(view, tokens, i, found[i].value);
  }

  lemma TokenText(view: Bytes, tokens: seq<Token>, i: nat, span: Span) returns (id: Attribute)
    requires i < |tokens| && Start(tokens, i) <= tokens[i].end <= |view| && TokenSpan(view, tokens, i) == Some(span)
    ensures tokens[i].signature && tokens[i].hasId && InToken(span, tokens, i)
    ensures Complete(id) && span.from <= span.until <= |view| && view[span.from..span.until] == ID + RenderValue(id)
  {
    var start, end := Start(tokens, i), tokens[i].end;
    var inTag := ScanTag(view[start..end]).value;
    id := FoundText(view[start..end], inTag);
    SliceOfSlice(view, start, end, inTag);
  }

  lemma SliceOfSlice(view: Bytes, start: nat, end: nat, span: Span)
    requires start <= end <= |view| && span.from <= span.until <= end - start
    ensures view[start + span.from..start + span.until] == view[start..end][span.from..span.until]
  {
    var tag := view[start..end];
    var a, b := view[start + span.from..start + span.until], tag[span.from..span.until];
    forall k | 0 <= k < |a| ensures a[k] == b[k] { assert tag[span.from + k] == view[start + (span.from + k)]; }
    assert a == b;
  }

  lemma DeleteNothing(document: Bytes, spans: seq<Span>)
    requires spans == []
    ensures Delete(document, spans) == document
  {
    assert document[0..] == document && [] + document == document;
  }

  ghost predicate InToken(span: Span, tokens: seq<Token>, i: nat)
    requires i < |tokens|
  {
    Start(tokens, i) <= span.from && span.until <= tokens[i].end
  }

  lemma {:induction false} CollectedFrom(found: seq<Option<Span>>, k: nat) returns (j: nat)
    requires k < |Collect(found)|
    ensures j < |found| && found[j] == Some(Collect(found)[k])
  {
    var n := |found| - 1;
    if k < |Collect(found[..n])| {
      j := CollectedFrom(found[..n], k);
    } else {
      j := n;
    }
  }

  lemma {:induction false} CollectedAt(found: seq<Option<Span>>, j: nat) returns (k: nat)
    requires j < |found| && found[j].Some?
    ensures k < |Collect(found)| && Collect(found)[k] == found[j].value
  {
    var n := |found| - 1;
    if j < n {
      k := CollectedAt(found[..n], j);
    } else {
      k := |Collect(found[..n])|;
    }
  }

  lemma {:induction false} EndsAscend(tokens: seq<Token>, i: nat, j: nat, size: nat)
    requires Contiguous(tokens, size) && i < j < |tokens|
    ensures tokens[i].end <= Start(tokens, j)
    decreases j
  {
    if i < j - 1 { EndsAscend(tokens, i, j - 1, size); }
  }

  /** A span found in one token lies in no other. */
  lemma OwnToken(found: seq<Option<Span>>, tokens: seq<Token>, i: nat, j: nat, size: nat)
    requires Contiguous(tokens, size) && Inside(found, tokens) && i < |tokens| && j < |tokens| && found[j].Some?
    ensures InToken(found[j].value, tokens, i) <==> i == j
  {
    if i < j { EndsAscend(tokens, i, j, size); }
    if j < i { EndsAscend(tokens, j, i, size); }
  }

  /** Something is removed from a token exactly when the edit removes anything and the scanner finds its attribute. */
  lemma RemovedFromToken(view: Bytes, tokens: seq<Token>, failed: bool, i: nat)
    requires Contiguous(tokens, |view|) && i < |tokens|
    ensures var removed := Removed(view, tokens, failed);
      (exists k :: 0 <= k < |removed| && InToken(removed[k], tokens, i)) <==>
        !failed && !Refused(tokens) && TokenSpan(view, tokens, i).Some?
  {
    var removed := Removed(view, tokens, failed);
    var found := FoundSpans(view, tokens);
    assert FoundAt(view, tokens, found, i);
    if !failed && !Refused(tokens) {
      if found[i].Some? {
        var k := CollectedAt(found, i);
        OwnToken(found, tokens, i, i, |view|);
        assert InToken(removed[k], tokens, i);
      }
      forall k | 0 <= k < |removed| && InToken(removed[k], tokens, i)
        ensures found[i].Some?
      {
        var j := CollectedFrom(found, k);
        OwnToken(found, tokens, i, j, |view|);
      }
    }
  }

  /**
   * The edit removes the Id from a signature tag in which the decoder saw one exactly when the decoder finished, no
   * signature tag has duplicate attributes, and the tag does not break off before its first complete Id attribute.
   */
  lemma IdSurvivesExactly(view: Bytes, tokens: seq<Token>, failed: bool, i: nat)
    requires Contiguous(tokens, |view|) && i < |tokens| && Start(tokens, i) < tokens[i].end
    requires tokens[i].signature && tokens[i].hasId
    ensures var removed := Removed(view, tokens, failed);
      (exists k :: 0 <= k < |removed| && InToken(removed[k], tokens, i)) <==>
        && !failed && (forall j :: 0 <= j < |tokens| && tokens[j].signature ==> !tokens[j].duplicate)
        && !(exists before :: Stuck(view[Start(tokens, i)..tokens[i].end], before))
  {
    RemovedFromToken(view, tokens, failed, i);
    MissesExactly(view[Start(tokens, i)..tokens[i].end]);
  }

  /**
   * An empty signature element in the XML Signature namespace with an attribute without a value before its Id. The
   * decoder yields its start tag and then its end, both at the end of the document, and finishes; the Id survives.
   */
  lemma SurvivingId(document: Bytes, tokens: seq<Token>)
    requires document == ValuelessStart() + NamespaceEnd()
    requires tokens == [Token(|document|, true, false, true), Token(|document|, false, false, false)]
    ensures UnitsOf(document, true) == PlainUnits(document) && View(UnitsOf(document, true)) == document
    ensures Edited(document, true, tokens, false) == document
    ensures At(document, 15, Render(Attribute([32], ID, [], [], QUOTE, [50])))
  {
    PlainView(document, PlainUnits(document));
    Undetected(document);
    ValuelessHidesId(document, NamespaceEnd());
    NothingCut(PlainUnits(document), document, tokens);
  }

  lemma Undetected(document: Bytes)
    requires |document| >= 2 && document[0] == 60 && document[1] != 0
    ensures UnitsOf(document, true) == PlainUnits(document)
  {
  }

  /** A start tag in which the scanner finds nothing and an end leave the document as it is. */
  lemma NothingCut(units: seq<Unit>, document: Bytes, tokens: seq<Token>)
    requires View(units) == document && ScanTag(document) == None
    requires tokens == [Token(|document|, true, false, true), Token(|document|, false, false, false)]
    ensures Contiguous(tokens, |document|) && !Refused(tokens) && Cut(units, document, tokens) == document
  {
    assert document[0..|document|] == document;
    var found := Found(document, tokens);
    assert found[0] == TokenSpan(document, tokens, 0) == None && found[1] == TokenSpan(document, tokens, 1) == None;
    NothingFound(found);
    DeleteNothing(document, MapSpans(units, Collect(found)));
  }

  lemma {:induction false} NothingFound(found: seq<Option<Span>>)
    requires forall i :: 0 <= i < |found| ==> found[i].None?
    ensures Collect(found) == []
  {
    if found != [] { NothingFound(found[..|found| - 1]); }
  }
}
