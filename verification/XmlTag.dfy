/** Finding an unqualified Id attribute in the bytes of a start tag. */
module XmlTag {
  import opened Wire

  const EQUALS: byte := 61
  const GREATER: byte := 62
  const SLASH: byte := 47
  const APOSTROPHE: byte := 39
  const QUOTE: byte := 34
  /** "Id" */
  const ID: Bytes := [73, 100]

  /** What the scanner skips over. */
  datatype Class = Blanks | ElementName | AttributeName | Until(quote: byte)

  predicate Space(b: byte) { b == 32 || b == 9 || b == 13 || b == 10 }

  predicate Member(c: Class, b: byte) {
    match c
    case Blanks => Space(b)
    case ElementName => !Space(b) && b != GREATER && b != SLASH
    case AttributeName => !Space(b) && b != EQUALS && b != GREATER && b != SLASH
    case Until(quote) => b != quote
  }

  /** The first position at or after `i` whose byte is no member. */
  function Skip(tag: Bytes, i: nat, c: Class): (j: nat)
    ensures i <= |tag| ==> j <= |tag|
    ensures i <= j
    decreases |tag| - i
  {
    if i < |tag| && Member(c, tag[i]) then Skip(tag, i + 1, c) else i
  }

  /** Everything skipped is a member, and what stops the skipping is not. */
  lemma {:induction false} SkipMembers(tag: Bytes, i: nat, c: Class)
    requires i <= |tag|
    ensures All(tag[i..Skip(tag, i, c)], c)
    ensures Skip(tag, i, c) < |tag| ==> !Member(c, tag[Skip(tag, i, c)])
    decreases |tag| - i
  {
    if i < |tag| && Member(c, tag[i]) {
      SkipMembers(tag, i + 1, c);
      var j := Skip(tag, i + 1, c);
      assert Skip(tag, i, c) == j && i + 1 <= j <= |tag|;
      OneMoreMember(tag, i, j, c);
    }
  }

  lemma OneMoreMember(tag: Bytes, i: nat, j: nat, c: Class)
    requires i < j <= |tag| && Member(c, tag[i]) && All(tag[i + 1..j], c)
    ensures All(tag[i..j], c)
  {
    assert tag[i..j] == [tag[i]] + tag[i + 1..j];
  }

  lemma {:induction false} SkipTo(tag: Bytes, i: nat, j: nat, c: Class)
    requires i <= j <= |tag| && (forall k :: i <= k < j ==> Member(c, tag[k])) && (j < |tag| ==> !Member(c, tag[j]))
    ensures Skip(tag, i, c) == j
    decreases j - i
  {
    if i < j { SkipTo(tag, i + 1, j, c); }
  }

  predicate IsQuote(b: byte) { b == APOSTROPHE || b == QUOTE }

  /** After a name: blanks, '=', blanks and a quoted value; the position after the closing quote. */
  function ValueEnd(tag: Bytes, i: nat): (r: Option<nat>)
    ensures r.Some? ==> i < r.value <= |tag|
  {
    var equals := Skip(tag, i, Blanks);
    if equals >= |tag| || tag[equals] != EQUALS then None
    else
      var left := Skip(tag, equals + 1, Blanks);
      if left >= |tag| || !IsQuote(tag[left]) then None
      else
        var right := Skip(tag, left + 1, Until(tag[left]));
        if right >= |tag| then None else Some(right + 1)
  }

  datatype Span = Span(from: nat, until: nat)

  function ScanAttributes(tag: Bytes, i: nat): (r: Option<Span>)
    ensures r.Some? ==> i <= r.value.from < r.value.until <= |tag|
    decreases |tag| - i
  {
    var start := Skip(tag, i, Blanks);
    var nameEnd := Skip(tag, start, AttributeName);
    var until := ValueEnd(tag, nameEnd);
    if until.None? then None
    else if tag[start..nameEnd] == ID then Some(Span(start, until.value))
    else ScanAttributes(tag, until.value)
  }

  function ScanTag(tag: Bytes): (r: Option<Span>)
    ensures r.Some? ==> 1 <= r.value.from < r.value.until <= |tag|
  {
    ScanAttributes(tag, Skip(tag, 1, ElementName))
  }

  // ----- the scanner's loops

  method SkipBytes(tag: Bytes, from: nat, c: Class) returns (i: nat)
    ensures i == Skip(tag, from, c)
  {
    i := from;
    while i < |tag| && Member(c, tag[i])
      invariant Skip(tag, i, c) == Skip(tag, from, c)
    {
      i := i + 1;
    }
  }

  method SkipValue(tag: Bytes, from: nat) returns (r: Option<nat>)
    ensures r == ValueEnd(tag, from)
  {
    var i := SkipBytes(tag, from, Blanks);
    if i >= |tag| || tag[i] != EQUALS { return None; }
    i := i + 1;
    i := SkipBytes(tag, i, Blanks);
    if i >= |tag| || (tag[i] != APOSTROPHE && tag[i] != QUOTE) { return None; }
    var quote := tag[i];
    i := i + 1;
    i := SkipBytes(tag, i, Until(quote));
    if i >= |tag| { return None; }
    return Some(i + 1);
  }

  /** xmlSignatureIDAttribute; (0, 0) says that no attribute was found. */
  method SignatureIDAttribute(tag: Bytes) returns (from: nat, until: nat)
    ensures ScanTag(tag) == if until == 0 then None else Some(Span(from, until))
    ensures until == 0 ==> from == 0
  {
    var i := SkipBytes(tag, 1, ElementName);
    while i < |tag|
      invariant ScanTag(tag) == ScanAttributes(tag, i)
      decreases |tag| - i
    {
      var start := SkipBytes(tag, i, Blanks);
      var nameEnd := SkipBytes(tag, start, AttributeName);
      var name := tag[start..nameEnd];
      var end := SkipValue(tag, nameEnd);
      if end.None? { return 0, 0; }
      i := end.value;
      if name == ID { return start, i; }
    }
    return 0, 0;
  }

  // ----- what a tag is made of

  datatype Attribute = Attribute(lead: Bytes, name: Bytes, mid: Bytes, gap: Bytes, quote: byte, value: Bytes)

  ghost predicate All(s: Bytes, c: Class) { forall i :: 0 <= i < |s| ==> Member(c, s[i]) }

  /** A complete attribute: a quoted value never contains its own quote. */
  ghost predicate Complete(a: Attribute) {
    && All(a.lead, Blanks) && All(a.name, AttributeName) && All(a.mid, Blanks) && All(a.gap, Blanks)
    && (a.name == [] ==> a.mid == []) && IsQuote(a.quote) && All(a.value, Until(a.quote))
  }

  /** The part after the name. */
  function RenderValue(a: Attribute): Bytes { a.mid + [EQUALS] + a.gap + [a.quote] + a.value + [a.quote] }

  function Render(a: Attribute): Bytes { a.lead + a.name + RenderValue(a) }

  /** `s` lies in `tag` at position `i`. */
  ghost predicate At(tag: Bytes, i: nat, s: Bytes) { i + |s| <= |tag| && tag[i..i + |s|] == s }

  lemma AtConcat(tag: Bytes, i: nat, a: Bytes, b: Bytes)
    ensures At(tag, i, a + b) <==> At(tag, i, a) && At(tag, i + |a|, b)
  {
    var j, k := i + |a|, i + |a| + |b|;
    if k <= |tag| {
      assert tag[i..k] == tag[i..j] + tag[j..k];
      if At(tag, i, a + b) {
        assert tag[i..k][..|a|] == a && tag[i..k][|a|..] == b;
      }
    }
  }

  lemma AtIndex(tag: Bytes, i: nat, s: Bytes)
    requires At(tag, i, s)
    ensures forall k :: i <= k < i + |s| ==> tag[k] == s[k - i]
  {
    assert forall k :: i <= k < i + |s| ==> tag[k] == tag[i..i + |s|][k - i];
  }

  /** A run of members that stops at a non-member is skipped exactly. */
  lemma SkipRun(tag: Bytes, i: nat, s: Bytes, c: Class)
    requires At(tag, i, s) && All(s, c) && i + |s| < |tag| && !Member(c, tag[i + |s|])
    ensures Skip(tag, i, c) == i + |s|
  {
    AtIndex(tag, i, s);
    SkipTo(tag, i, i + |s|, c);
  }

  lemma AtByte(tag: Bytes, i: nat, b: byte)
    ensures At(tag, i, [b]) <==> i < |tag| && tag[i] == b
  {
    if i < |tag| { assert tag[i..i + 1] == [tag[i]]; }
  }

  /** Where the parts of a value lie. */
  lemma ValueParts(tag: Bytes, i: nat, a: Attribute) returns (equals: nat, left: nat, right: nat)
    requires At(tag, i, RenderValue(a))
    ensures equals == i + |a.mid| && left == equals + 1 + |a.gap| && right == left + 1 + |a.value|
    ensures right + 1 == i + |RenderValue(a)| <= |tag|
    ensures At(tag, i, a.mid) && At(tag, equals + 1, a.gap) && At(tag, left + 1, a.value)
    ensures tag[equals] == EQUALS && tag[left] == a.quote == tag[right]
  {
    equals := i + |a.mid|;
    left := equals + 1 + |a.gap|;
    right := left + 1 + |a.value|;
    AtConcat(tag, i, a.mid + [EQUALS] + a.gap + [a.quote] + a.value, [a.quote]);
    AtConcat(tag, i, a.mid + [EQUALS] + a.gap + [a.quote], a.value);
    AtConcat(tag, i, a.mid + [EQUALS] + a.gap, [a.quote]);
    AtConcat(tag, i, a.mid + [EQUALS], a.gap);
    AtConcat(tag, i, a.mid, [EQUALS]);
    AtByte(tag, equals, EQUALS);
    AtByte(tag, left, a.quote);
    AtByte(tag, right, a.quote);
  }

  lemma ValueComplete(tag: Bytes, i: nat, a: Attribute) returns (until: nat)
    requires Complete(a) && At(tag, i, RenderValue(a))
    ensures until == i + |RenderValue(a)| && ValueEnd(tag, i) == Some(until)
    ensures i < |tag| && !Member(AttributeName, tag[i]) && (a.mid == [] ==> tag[i] == EQUALS)
  {
    var equals, left, right := ValueParts(tag, i, a);
    ValueSkips(tag, i, a.mid, equals, a.gap, left, a.value, right);
    until := right + 1;
  }

  lemma ValueSkips(tag: Bytes, i: nat, mid: Bytes, equals: nat, gap: Bytes, left: nat, value: Bytes, right: nat)
    requires At(tag, i, mid) && All(mid, Blanks) && equals == i + |mid| < |tag| && tag[equals] == EQUALS
    requires At(tag, equals + 1, gap) && All(gap, Blanks) && left == equals + 1 + |gap| < |tag| && IsQuote(tag[left])
    requires At(tag, left + 1, value) && All(value, Until(tag[left]))
    requires right == left + 1 + |value| < |tag| && tag[right] == tag[left]
    ensures ValueEnd(tag, i) == Some(right + 1)
    ensures !Member(AttributeName, tag[i]) && (mid == [] ==> tag[i] == EQUALS)
  {
    SkipRun(tag, i, mid, Blanks);
    SkipRun(tag, equals + 1, gap, Blanks);
    SkipRun(tag, left + 1, value, Until(tag[left]));
    AtIndex(tag, i, mid);
    ValueFound(tag, i, equals, left, right);
  }

  lemma ValueFound(tag: Bytes, i: nat, equals: nat, left: nat, right: nat)
    requires equals == Skip(tag, i, Blanks) < |tag| && tag[equals] == EQUALS
    requires left == Skip(tag, equals + 1, Blanks) < |tag| && IsQuote(tag[left])
    requires right == Skip(tag, left + 1, Until(tag[left])) < |tag|
    ensures ValueEnd(tag, i) == Some(right + 1)
  {
  }

  lemma NameParts(tag: Bytes, i: nat, a: Attribute) returns (start: nat, nameEnd: nat)
    requires At(tag, i, Render(a))
    ensures start == i + |a.lead| && nameEnd == start + |a.name| && nameEnd + |RenderValue(a)| == i + |Render(a)|
    ensures At(tag, i, a.lead) && At(tag, start, a.name) && At(tag, nameEnd, RenderValue(a))
  {
    start := i + |a.lead|;
    nameEnd := start + |a.name|;
    AtConcat(tag, i, a.lead + a.name, RenderValue(a));
    AtConcat(tag, i, a.lead, a.name);
  }

  /** A complete attribute is recognized as such, whatever follows it. */
  lemma AttributeComplete(tag: Bytes, i: nat, a: Attribute) returns (next: nat)
    requires Complete(a) && At(tag, i, Render(a))
    ensures next == i + |Render(a)| <= |tag|
    ensures ScanAttributes(tag, i) == if a.name == ID then Some(Span(i + |a.lead|, next)) else ScanAttributes(tag, next)
  {
    var start, nameEnd := NameParts(tag, i, a);
    next := ValueComplete(tag, nameEnd, a);
    NameComplete(tag, i, a.lead, a.name);
    ScanStep(tag, i, start, nameEnd, next, a.name);
  }

  lemma ScanStep(tag: Bytes, i: nat, start: nat, nameEnd: nat, until: nat, name: Bytes)
    requires start == Skip(tag, i, Blanks) && nameEnd == Skip(tag, start, AttributeName) <= |tag|
    requires ValueEnd(tag, nameEnd) == Some(until) && tag[start..nameEnd] == name
    ensures ScanAttributes(tag, i) == if name == ID then Some(Span(start, until)) else ScanAttributes(tag, until)
  {
  }

  lemma NameComplete(tag: Bytes, i: nat, lead: Bytes, name: Bytes)
    requires All(lead, Blanks) && All(name, AttributeName) && At(tag, i, lead) && At(tag, i + |lead|, name)
    requires i + |lead| + |name| < |tag| && !Member(AttributeName, tag[i + |lead| + |name|])
    requires name == [] ==> !Space(tag[i + |lead|])
    ensures Skip(tag, i, Blanks) == i + |lead| && Skip(tag, i + |lead|, AttributeName) == i + |lead| + |name|
  {
    AtIndex(tag, i + |lead|, name);
    SkipRun(tag, i + |lead|, name, AttributeName);
    SkipRun(tag, i, lead, Blanks);
  }

  /** What is recognized as a value is one. */
  lemma ValueSound(tag: Bytes, i: nat) returns (mid: Bytes, gap: Bytes, quote: byte, value: Bytes)
    requires ValueEnd(tag, i).Some? && i <= |tag|
    ensures All(mid, Blanks) && All(gap, Blanks) && IsQuote(quote) && All(value, Until(quote))
    ensures tag[i..ValueEnd(tag, i).value] == mid + [EQUALS] + gap + [quote] + value + [quote]
    ensures !Space(tag[i]) ==> mid == []
  {
    var equals, left, right := ValueSplit(tag, i);
    quote := tag[left];
    mid, gap, value := tag[i..equals], tag[equals + 1..left], tag[left + 1..right];
    Assemble(tag, i, equals, left, right);
  }

  lemma ValueSplit(tag: Bytes, i: nat) returns (equals: nat, left: nat, right: nat)
    requires ValueEnd(tag, i).Some? && i <= |tag|
    ensures i <= equals < left < right < |tag| && ValueEnd(tag, i) == Some(right + 1)
    ensures All(tag[i..equals], Blanks) && tag[equals] == EQUALS && All(tag[equals + 1..left], Blanks)
    ensures IsQuote(tag[left]) && All(tag[left + 1..right], Until(tag[left])) && tag[right] == tag[left]
    ensures !Space(tag[i]) ==> equals == i
  {
    equals := Skip(tag, i, Blanks);
    left := Skip(tag, equals + 1, Blanks);
    right := Skip(tag, left + 1, Until(tag[left]));
    SkipMembers(tag, i, Blanks);
    SkipMembers(tag, equals + 1, Blanks);
    SkipMembers(tag, left + 1, Until(tag[left]));
  }

  lemma Assemble(tag: Bytes, i: nat, equals: nat, left: nat, right: nat)
    requires i <= equals < left < right < |tag|
    ensures tag[i..right + 1] ==
      tag[i..equals] + [tag[equals]] + tag[equals + 1..left] + [tag[left]] + tag[left + 1..right] + [tag[right]]
  {
    assert tag[i..right + 1] == tag[i..left] + [tag[left]] + tag[left + 1..right] + [tag[right]];
    assert tag[i..left] == tag[i..equals] + [tag[equals]] + tag[equals + 1..left];
  }

  /** What is recognized as an attribute is one. */
  lemma AttributeSound(tag: Bytes, i: nat, start: nat, nameEnd: nat, until: nat) returns (a: Attribute)
    requires i <= |tag| && start == Skip(tag, i, Blanks) && nameEnd == Skip(tag, start, AttributeName)
    requires ValueEnd(tag, nameEnd) == Some(until)
    ensures Complete(a) && start == i + |a.lead| && a.name == tag[start..nameEnd]
    ensures until == i + |Render(a)| && At(tag, i, Render(a))
  {
    var mid, gap, quote, value := ValueSound(tag, nameEnd);
    a := Attribute(tag[i..start], tag[start..nameEnd], mid, gap, quote, value);
    SkipMembers(tag, i, Blanks);
    SkipMembers(tag, start, AttributeName);
    Attach(tag, i, start, nameEnd, until, a.lead, a.name, RenderValue(a));
  }

  lemma Attach(tag: Bytes, i: nat, start: nat, nameEnd: nat, until: nat, a: Bytes, b: Bytes, c: Bytes)
    requires i <= start <= nameEnd <= until <= |tag|
    requires a == tag[i..start] && b == tag[start..nameEnd] && c == tag[nameEnd..until]
    ensures At(tag, i, a + b + c) && |a + b + c| == until - i
  {
    assert tag[i..until] == tag[i..start] + tag[start..nameEnd] + tag[nameEnd..until];
  }

  // ----- the scanner decides exactly this

  /** Complete attributes of other names, then a complete Id attribute, which spans from its name to its last quote. */
  ghost predicate ParsedFrom(tag: Bytes, i: nat, before: seq<Attribute>, id: Attribute, span: Span)
    decreases |before|
  {
    if before == [] then
      Complete(id) && id.name == ID && At(tag, i, Render(id)) && span == Span(i + |id.lead|, i + |Render(id)|)
    else
      && Complete(before[0]) && before[0].name != ID && At(tag, i, Render(before[0]))
      && ParsedFrom(tag, i + |Render(before[0])|, before[1..], id, span)
  }

  /** The same from the start of a tag: what precedes the attributes is an element name. */
  ghost predicate Parsed(tag: Bytes, before: seq<Attribute>, id: Attribute, span: Span) {
    ParsedFrom(tag, Skip(tag, 1, ElementName), before, id, span)
  }

  lemma {:induction false} ScanFinds(tag: Bytes, i: nat, before: seq<Attribute>, id: Attribute, span: Span)
    requires ParsedFrom(tag, i, before, id, span)
    ensures ScanAttributes(tag, i) == Some(span)
    decreases |before|
  {
    if before == [] {
      var next := AttributeComplete(tag, i, id);
    } else {
      var next := FirstParsed(tag, i, before, id, span);
      ScanFinds(tag, next, before[1..], id, span);
    }
  }

  lemma FirstParsed(tag: Bytes, i: nat, before: seq<Attribute>, id: Attribute, span: Span) returns (next: nat)
    requires before != [] && ParsedFrom(tag, i, before, id, span)
    ensures ParsedFrom(tag, next, before[1..], id, span) && ScanAttributes(tag, i) == ScanAttributes(tag, next)
  {
    next := AttributeComplete(tag, i, before[0]);
  }

  lemma {:induction false} ScanSound(tag: Bytes, i: nat, span: Span) returns (before: seq<Attribute>, id: Attribute)
    requires i <= |tag| && ScanAttributes(tag, i) == Some(span)
    ensures ParsedFrom(tag, i, before, id, span)
    decreases |tag| - i
  {
    var a, until := FirstSound(tag, i, span);
    if a.name == ID {
      before, id := [], a;
    } else {
      var rest;
      rest, id := ScanSound(tag, until, span);
      before := Prepend(tag, i, a, until, rest, id, span);
    }
  }

  lemma Prepend(tag: Bytes, i: nat, a: Attribute, until: nat, rest: seq<Attribute>, id: Attribute, span: Span)
    returns (before: seq<Attribute>)
    requires Complete(a) && a.name != ID && At(tag, i, Render(a)) && until == i + |Render(a)|
    requires ParsedFrom(tag, until, rest, id, span)
    ensures ParsedFrom(tag, i, before, id, span)
  {
    before := [a] + rest;
    assert before[1..] == rest;
  }

  lemma FirstSound(tag: Bytes, i: nat, span: Span) returns (a: Attribute, until: nat)
    requires i <= |tag| && ScanAttributes(tag, i) == Some(span)
    ensures Complete(a) && At(tag, i, Render(a)) && i < until == i + |Render(a)| <= |tag|
    ensures if a.name == ID then span == Span(i + |a.lead|, until) else ScanAttributes(tag, until) == Some(span)
  {
    var start := Skip(tag, i, Blanks);
    var nameEnd := Skip(tag, start, AttributeName);
    until := ValueEnd(tag, nameEnd).value;
    a := AttributeSound(tag, i, start, nameEnd, until);
    ScanStep(tag, i, start, nameEnd, until, a.name);
  }

  /** The scanner finds a span exactly when the tag parses up to a complete Id attribute, and then that attribute. */
  lemma ScanExact(tag: Bytes, span: Span)
    ensures ScanTag(tag) == Some(span) <==> exists before, id :: Parsed(tag, before, id, span)
  {
    var head := Skip(tag, 1, ElementName);
    if ScanTag(tag) == Some(span) {
      var before, id := ScanSound(tag, head, span);
      assert Parsed(tag, before, id, span);
    }
    forall before, id | Parsed(tag, before, id, span)
      ensures ScanTag(tag) == Some(span)
    {
      ScanFinds(tag, head, before, id, span);
    }
  }

  // ----- and misses exactly this

  /** No complete attribute stands at a position. */
  ghost predicate Incomplete(tag: Bytes, i: nat) { forall a :: !(Complete(a) && At(tag, i, Render(a))) }

  /** After complete attributes of other names comes something that is no complete attribute. */
  ghost predicate StuckFrom(tag: Bytes, i: nat, before: seq<Attribute>)
    decreases |before|
  {
    if before == [] then Incomplete(tag, i)
    else
      && Complete(before[0]) && before[0].name != ID && At(tag, i, Render(before[0]))
      && StuckFrom(tag, i + |Render(before[0])|, before[1..])
  }

  ghost predicate Stuck(tag: Bytes, before: seq<Attribute>) { StuckFrom(tag, Skip(tag, 1, ElementName), before) }

  lemma StandingIsRead(tag: Bytes, i: nat, a: Attribute)
    requires Complete(a) && At(tag, i, Render(a))
    ensures ValueEnd(tag, Skip(tag, Skip(tag, i, Blanks), AttributeName)).Some?
  {
    var start, nameEnd := NameParts(tag, i, a);
    var until := ValueComplete(tag, nameEnd, a);
    NameComplete(tag, i, a.lead, a.name);
  }

  lemma IncompleteIsMissed(tag: Bytes, i: nat, start: nat, nameEnd: nat)
    requires i <= |tag| && start == Skip(tag, i, Blanks) && nameEnd == Skip(tag, start, AttributeName)
    ensures Incomplete(tag, i) <==> ValueEnd(tag, nameEnd).None?
  {
    if ValueEnd(tag, nameEnd).Some? {
      var a := AttributeSound(tag, i, start, nameEnd, ValueEnd(tag, nameEnd).value);
      assert Complete(a) && At(tag, i, Render(a));
    } else {
      forall a | Complete(a) && At(tag, i, Render(a))
        ensures false
      {
        StandingIsRead(tag, i, a);
      }
    }
  }

  lemma {:induction false} StuckIsMissed(tag: Bytes, i: nat, before: seq<Attribute>)
    requires i <= |tag| && StuckFrom(tag, i, before)
    ensures ScanAttributes(tag, i) == None
    decreases |before|
  {
    if before == [] {
      IncompleteIsMissed(tag, i, Skip(tag, i, Blanks), Skip(tag, Skip(tag, i, Blanks), AttributeName));
    } else {
      var next := AttributeComplete(tag, i, before[0]);
      StuckIsMissed(tag, next, before[1..]);
    }
  }

  lemma {:induction false} MissedIsStuck(tag: Bytes, i: nat) returns (before: seq<Attribute>)
    requires i <= |tag| && ScanAttributes(tag, i) == None
    ensures StuckFrom(tag, i, before)
    decreases |tag| - i
  {
    var start := Skip(tag, i, Blanks);
    var nameEnd := Skip(tag, start, AttributeName);
    if ValueEnd(tag, nameEnd).None? {
      IncompleteIsMissed(tag, i, start, nameEnd);
      return [];
    }
    var until := ValueEnd(tag, nameEnd).value;
    var a := AttributeSound(tag, i, start, nameEnd, until);
    ScanStep(tag, i, start, nameEnd, until, a.name);
    var rest := MissedIsStuck(tag, until);
    before := PrependStuck(tag, i, a, until, rest);
  }

  lemma PrependStuck(tag: Bytes, i: nat, a: Attribute, until: nat, rest: seq<Attribute>)
    returns (before: seq<Attribute>)
    requires Complete(a) && a.name != ID && At(tag, i, Render(a)) && until == i + |Render(a)|
    requires StuckFrom(tag, until, rest)
    ensures StuckFrom(tag, i, before)
  {
    before := [a] + rest;
    assert before[1..] == rest;
  }

  /** The scanner finds nothing exactly when the tag breaks off before any complete Id attribute. */
  lemma MissesExactly(tag: Bytes)
    requires tag != []
    ensures ScanTag(tag) == None <==> exists before :: Stuck(tag, before)
  {
    var head := Skip(tag, 1, ElementName);
    if ScanTag(tag) == None {
      var before := MissedIsStuck(tag, head);
      assert Stuck(tag, before);
    }
    forall before | Stuck(tag, before)
      ensures ScanTag(tag) == None
    {
      StuckIsMissed(tag, head, before);
    }
  }

  /** <ds:Signature x Id="2" */
  function ValuelessStart(): Bytes {
    [60, 100, 115, 58, 83, 105, 103, 110, 97, 116, 117, 114, 101, 32, 120, 32, 73, 100, 61, 34, 50, 34]
  }

  /** xmlns:ds="http://www.w3.org/2000/09/xmldsig#"/> after a blank */
  function NamespaceEnd(): Bytes {
    [
      32, 120, 109, 108, 110, 115, 58, 100, 115, 61, 34, 104, 116, 116, 112, 58, 47, 47, 119, 119, 119, 46, 119, 51,
      46, 111, 114, 103, 47, 50, 48, 48, 48, 47, 48, 57, 47, 120, 109, 108, 100, 115, 105, 103, 35, 34, 47, 62
    ]
  }

  /** A name that blanks and then something other than '=' follow ends the scan. */
  lemma ValuelessStops(tag: Bytes, head: nat, start: nat, nameEnd: nat, after: nat)
    requires 1 <= head <= start <= nameEnd <= after < |tag| && tag[after] != EQUALS && !Space(tag[after])
    requires (forall k :: 1 <= k < head ==> Member(ElementName, tag[k])) && !Member(ElementName, tag[head])
    requires (forall k :: head <= k < start ==> Space(tag[k])) && !Space(tag[start])
    requires (forall k :: start <= k < nameEnd ==> Member(AttributeName, tag[k])) &&
      !Member(AttributeName, tag[nameEnd])
    requires forall k :: nameEnd <= k < after ==> Space(tag[k])
    ensures ScanTag(tag) == None
  {
    SkipTo(tag, 1, head, ElementName);
    SkipTo(tag, head, start, Blanks);
    SkipTo(tag, start, nameEnd, AttributeName);
    SkipTo(tag, nameEnd, after, Blanks);
  }

  /** Whatever follows, the attribute without a value hides the complete Id attribute behind it. */
  lemma ValuelessHidesId(tag: Bytes, tail: Bytes)
    requires tag == ValuelessStart() + tail
    ensures ScanTag(tag) == None
    ensures var id := Attribute([32], ID, [], [], QUOTE, [50]); Complete(id) && At(tag, 15, Render(id))
  {
    ValuelessStops(tag, 13, 14, 15, 16);
    HiddenId(tag, tail);
  }

  lemma HiddenId(tag: Bytes, tail: Bytes)
    requires tag == ValuelessStart() + tail
    ensures var id := Attribute([32], ID, [], [], QUOTE, [50]); Complete(id) && At(tag, 15, Render(id))
  {
    assert tag[15..22] == [32, 73, 100, 61, 34, 50, 34];
  }

  // ----- where found spans begin and end

  /** An Id attribute starts, after its blanks, with the first letter of its name and ends with a quote. */
  lemma AttributeEdges(tag: Bytes, i: nat, id: Attribute, span: Span)
    requires ParsedFrom(tag, i, [], id, span)
    ensures span.from < span.until <= |tag| && tag[span.from] == ID[0] && IsQuote(tag[span.until - 1])
  {
    var start, nameEnd := NameParts(tag, i, id);
    AtIndex(tag, start, id.name);
    var equals, left, right := ValueParts(tag, nameEnd, id);
  }

  lemma {:induction false} SpanEdges(tag: Bytes, i: nat, before: seq<Attribute>, id: Attribute, span: Span)
    requires ParsedFrom(tag, i, before, id, span)
    ensures span.from < span.until <= |tag| && tag[span.from] == ID[0] && IsQuote(tag[span.until - 1])
    decreases |before|
  {
    if before == [] {
      AttributeEdges(tag, i, id, span);
    } else {
      SpanEdges(tag, i + |Render(before[0])|, before[1..], id, span);
    }
  }

  /** What a found span reads: the name Id, an equals sign and a quoted value, with blanks in between. */
  lemma {:induction false} SpanText(tag: Bytes, i: nat, before: seq<Attribute>, id: Attribute, span: Span)
    requires ParsedFrom(tag, i, before, id, span)
    ensures Complete(id) && span.from <= span.until <= |tag| && tag[span.from..span.until] == ID + RenderValue(id)
    decreases |before|
  {
    if before == [] {
      var whole := tag[i..i + |Render(id)|];
      assert whole == id.lead + (id.name + RenderValue(id));
      assert tag[span.from..span.until] == whole[|id.lead|..];
    } else {
      SpanText(tag, i + |Render(before[0])|, before[1..], id, span);
    }
  }

  lemma FoundText(tag: Bytes, span: Span) returns (id: Attribute)
    requires ScanTag(tag) == Some(span)
    ensures Complete(id) && span.from <= span.until <= |tag| && tag[span.from..span.until] == ID + RenderValue(id)
  {
    var head := Skip(tag, 1, ElementName);
    var before;
    before, id := ScanSound(tag, head, span);
    SpanText(tag, head, before, id, span);
  }

  lemma FoundEdges(tag: Bytes, span: Span)
    requires ScanTag(tag) == Some(span)
    ensures tag[span.from] == ID[0] && IsQuote(tag[span.until - 1])
  {
    var head := Skip(tag, 1, ElementName);
    var before, id := ScanSound(tag, head, span);
    SpanEdges(tag, head, before, id, span);
  }
}
