/** The one-pass SOAP signature-structure scan: ancestor stack, counters and depth-marker automaton. */
module SoapScan {
  import opened XmlTokens

  const XMLNS_SOAP := "http://schemas.xmlsoap.org/soap/envelope/"
  const XMLNS_SOAP12 := "http://www.w3.org/2003/05/soap-envelope"
  const XMLNS_WSU := "http://docs.oasis-open.org/wss/2004/01/oasis-200401-wss-wssecurity-utility-1.0.xsd"
  const XMLNS_DSIG := "http://www.w3.org/2000/09/xmldsig#"
  const EXCLUSIVE_C14N := "http://www.w3.org/2001/10/xml-exc-c14n#"
  const MAX_LINEAR_ATTRIBUTE_COUNT := 8

  // ----- names and attributes

  predicate IsSOAPSpace(space: string) { space == XMLNS_SOAP || space == XMLNS_SOAP12 }
  predicate IsSOAPEnvelope(n: Name) { n.local == "Envelope" && IsSOAPSpace(n.space) }
  predicate IsSOAPBody(n: Name) { n.local == "Body" && IsSOAPSpace(n.space) }
  predicate IsDSig(n: Name, local: string) { n.local == local && n.space == XMLNS_DSIG }
  predicate IsDSigReference(n: Name) { IsDSig(n, "Reference") }
  predicate IsDSigSignature(n: Name) { IsDSig(n, "Signature") }
  predicate IsDSigSignedInfo(n: Name) { IsDSig(n, "SignedInfo") }
  predicate IsDSigTransforms(n: Name) { IsDSig(n, "Transforms") }
  predicate IsInclusiveNamespaces(n: Name) { n.space == EXCLUSIVE_C14N && n.local == "InclusiveNamespaces" }
  predicate IsNamespaceDeclaration(n: Name) { n.space == "xmlns" || (n.space == "" && n.local == "xmlns") }

  function FirstUnqualified(attrs: seq<Attr>, local: string): string {
    if attrs == [] then ""
    else if attrs[0].name.space == "" && attrs[0].name.local == local then attrs[0].value
    else FirstUnqualified(attrs[1..], local)
  }

  predicate IsXMLSpace(c: char) { c == ' ' || c == '\t' || c == '\r' || c == '\n' }

  function TrimXML(s: string): string {
    if s != "" && IsXMLSpace(s[0]) then TrimXML(s[1..])
    else if s != "" && IsXMLSpace(s[|s| - 1]) then TrimXML(s[..|s| - 1])
    else s
  }

  predicate CarriesID(a: Attr, id: string) {
    !IsNamespaceDeclaration(a.name) && (a.name.local == "Id" || a.name.local == "ID" || a.name.local == "id") &&
    TrimXML(a.value) == id
  }
  function IDMatcher(id: string): Attr -> bool { a => CarriesID(a, id) }

  predicate HasWSUID(start: Start, id: string) {
    exists i :: 0 <= i < |start.attrs| && start.attrs[i] == Attr(Name(XMLNS_WSU, "Id"), id)
  }

  predicate TransformAttributesAllowed(attrs: seq<Attr>) {
    forall i :: 0 <= i < |attrs| ==>
      attrs[i].name == Name("", "Algorithm") || IsNamespaceDeclaration(attrs[i].name)
  }

  predicate ParameterAttributesAllowed(attrs: seq<Attr>) {
    && (forall i :: 0 <= i < |attrs| ==>
          attrs[i].name == Name("", "PrefixList") || IsNamespaceDeclaration(attrs[i].name))
    && exists i :: 0 <= i < |attrs| && attrs[i].name == Name("", "PrefixList")
  }

  predicate IsDirectExpectedReference(start: Start, id: string, ancestors: seq<Name>) {
    var depth := |ancestors|;
    && IsDSigReference(start.name) && depth >= 2
    && IsDSigSignedInfo(ancestors[depth - 1]) && IsDSigSignature(ancestors[depth - 2])
    && FirstUnqualified(start.attrs, "URI") == "#" + id
  }

  // ----- the depth-marker automaton; an inactive marker is -1

  datatype TransformState = TransformState(
    referenceDepth: int, transformsDepth: int, transformDepth: int,
    containers: nat, transforms: nat, parameters: nat)

  const INACTIVE := TransformState(-1, -1, -1, 0, 0, 0)

  function ObserveStart(ts: TransformState, start: Start, id: string, ancestors: seq<Name>): Outcome<TransformState> {
    var depth := |ancestors|;
    if ts.referenceDepth < 0 then
      if IsDirectExpectedReference(start, id, ancestors)
      then Ok(TransformState(depth, -1, -1, 0, 0, 0))
      else Ok(ts)
    else if ts.transformDepth >= 0 && depth > ts.transformDepth then ObserveParameter(ts, start, depth)
    else if IsDSigReference(start.name) then Rejected(NestedReference)
    else if start.name.local == "Transforms" then ObserveTransforms(ts, start, depth)
    else if start.name.local == "Transform" then ObserveTransform(ts, start, ancestors)
    else if ts.transformsDepth >= 0 && depth == ts.transformsDepth + 1 then Rejected(OnlyTransforms)
    else Ok(ts)
  }

  function ObserveTransforms(ts: TransformState, start: Start, depth: nat): Outcome<TransformState> {
    if start.name.space != XMLNS_DSIG then Rejected(TransformsNamespace)
    else if depth != ts.referenceDepth + 1 then Rejected(TransformsPlacement)
    else if ts.containers + 1 > 1 then Rejected(SecondTransforms)
    else Ok(ts.(containers := ts.containers + 1, transformsDepth := depth))
  }

  function ObserveTransform(ts: TransformState, start: Start, ancestors: seq<Name>): Outcome<TransformState> {
    var depth := |ancestors|;
    if start.name.space != XMLNS_DSIG then
      var direct := ts.transformsDepth >= 0 && depth == ts.transformsDepth + 1;
      Rejected(if direct then OnlyTransforms else TransformNamespace)
    else if ts.transformsDepth < 0 || depth != ts.transformsDepth + 1 || depth == 0 ||
            !IsDSigTransforms(ancestors[depth - 1]) then Rejected(TransformPlacement)
    else if ts.transforms + 1 == 1 && FirstUnqualified(start.attrs, "Algorithm") != EXCLUSIVE_C14N then
      Rejected(TransformAlgorithm)
    else if !TransformAttributesAllowed(start.attrs) then Rejected(TransformAttribute)
    else Ok(ts.(transforms := ts.transforms + 1, transformDepth := depth))
  }

  function ObserveParameter(ts: TransformState, start: Start, depth: nat): Outcome<TransformState> {
    if depth != ts.transformDepth + 1 || !IsInclusiveNamespaces(start.name) then Rejected(UnsupportedParameter)
    else if ts.parameters + 1 > 1 then Rejected(SecondParameter)
    else if !ParameterAttributesAllowed(start.attrs) then Rejected(ParameterAttribute)
    else Ok(ts.(parameters := ts.parameters + 1))
  }

  function ObserveEnd(ts: TransformState, depth: nat): Outcome<TransformState> {
    var t1 := if depth == ts.transformDepth then ts.(transformDepth := -1) else ts;
    var t2 := if depth == t1.transformsDepth then t1.(transformsDepth := -1) else t1;
    if depth != t2.referenceDepth then Ok(t2)
    else if t2.containers != 0 && t2.transforms != 1 then Rejected(TransformCount)
    else Ok(t2.(referenceDepth := -1, transformsDepth := -1, transformDepth := -1, parameters := 0))
  }

  function ObserveCharData(ts: TransformState, text: string): Outcome<TransformState> {
    if ts.transformsDepth < 0 || IsBlank(text) then Ok(ts)
    else Rejected(if ts.transformDepth >= 0 then TransformText else OnlyTransforms)
  }

  // ----- the counters

  datatype Counters = Counters(
    documentElements: nat, root: Name, bodies: nat, directBodies: nat, expectedBodies: nat, expectedIDs: nat,
    signatures: nat, signedInfos: nat, directSignedInfos: nat, expectedReferences: nat)

  const ZERO := Counters(0, Name("", ""), 0, 0, 0, 0, 0, 0, 0, 0)

  predicate IsDirectSignedInfo(start: Start, ancestors: seq<Name>) {
    IsDSigSignedInfo(start.name) && |ancestors| > 0 && IsDSigSignature(ancestors[|ancestors| - 1])
  }

  predicate IsDirectBody(start: Start, ancestors: seq<Name>, root: Name) {
    IsSOAPBody(start.name) && |ancestors| == 1 && IsSOAPEnvelope(root) && start.name.space == root.space
  }

  function Bump(b: bool): nat { if b then 1 else 0 }

  function ObserveElement(c: Counters, start: Start, id: string, ancestors: seq<Name>): Counters {
    var root := if |ancestors| == 0 && c.documentElements == 0 then start.name else c.root;
    var direct := IsDirectBody(start, ancestors, root);
    Counters(
      c.documentElements + Bump(|ancestors| == 0), root,
      c.bodies + Bump(IsSOAPBody(start.name)),
      c.directBodies + Bump(direct),
      c.expectedBodies + Bump(direct && HasWSUID(start, id)),
      c.expectedIDs + (if id == "" then 0 else Count(start.attrs, IDMatcher(id))),
      c.signatures + Bump(IsDSigSignature(start.name)),
      c.signedInfos + Bump(IsDSigSignedInfo(start.name)),
      c.directSignedInfos + Bump(IsDirectSignedInfo(start, ancestors)),
      c.expectedReferences + Bump(IsDirectExpectedReference(start, id, ancestors)))
  }

  function ValidateState(c: Counters): Outcome<()> {
    if c.documentElements != 1 then Rejected(RootCount)
    else if c.signatures != 1 then Rejected(SignatureCount)
    else if c.signedInfos != 1 then Rejected(SignedInfoCount)
    else if c.directSignedInfos != 1 then Rejected(SignedInfoPlacement)
    else if c.bodies != 1 then Rejected(BodyCount)
    else if c.directBodies != 1 then Rejected(BodyPlacement)
    else if c.expectedIDs != 1 then Rejected(IdCount)
    else if c.expectedBodies != 1 then Rejected(BodyId)
    else if c.expectedReferences != 1 then Rejected(ReferenceCount)
    else Ok(())
  }

  // ----- one token

  datatype Scan = Scan(counters: Counters, transform: TransformState, stack: seq<Name>)

  function OnStart(sc: Scan, start: Start, id: string): Outcome<Scan> {
    if !UniqueNames(start.attrs) then Rejected(DuplicateAttribute)
    else
      var ts :- ObserveStart(sc.transform, start, id, sc.stack);
      Ok(Scan(ObserveElement(sc.counters, start, id, sc.stack), ts, sc.stack + [start.name]))
  }

  function OnEnd(sc: Scan): Outcome<Scan> {
    if sc.stack == [] then Ok(sc)
    else
      var ts :- ObserveEnd(sc.transform, |sc.stack| - 1);
      Ok(sc.(transform := ts, stack := sc.stack[..|sc.stack| - 1]))
  }

  function OnCharData(sc: Scan, text: string): Outcome<Scan> {
    var ts :- ObserveCharData(sc.transform, text);
    if sc.stack == [] && !IsBlank(text) then Rejected(TextOutsideRoot) else Ok(sc.(transform := ts))
  }

  function OnToken(sc: Scan, token: Token, id: string): Outcome<Scan> {
    match token
    case StartElement(start) => OnStart(sc, start, id)
    case EndElement => OnEnd(sc)
    case CharData(text) => OnCharData(sc, text)
    case Directive => Rejected(DirectiveFound)
    case Misc => Ok(sc)
  }

  function Run(sc: Scan, tokens: seq<Token>, id: string): Outcome<Scan>
    decreases |tokens|
  {
    if tokens == [] then Ok(sc)
    else
      var next :- OnToken(sc, tokens[0], id);
      Run(next, tokens[1..], id)
  }

  // ----- the loops of the source

  /** Linear search for few attributes, a seen-set for many: both decide pairwise distinct names. */
  method ValidateUniqueXMLAttributes(attrs: seq<Attr>) returns (unique: bool)
    ensures unique == UniqueNames(attrs)
  {
    if |attrs| <= MAX_LINEAR_ATTRIBUTE_COUNT {
      for index := 0 to |attrs|
        invariant UniqueNames(attrs[..index])
      {
        for previous := 0 to index
          invariant forall p :: 0 <= p < previous ==> attrs[p].name != attrs[index].name
        {
          if attrs[index].name == attrs[previous].name { return false; }
        }
      }
      assert attrs[..|attrs|] == attrs;
      return true;
    }
    var seen: set<Name> := {};
    for index := 0 to |attrs|
      invariant seen == set p | 0 <= p < index :: attrs[p].name
      invariant UniqueNames(attrs[..index])
    {
      if attrs[index].name in seen {
        var p :| 0 <= p < index && attrs[p].name == attrs[index].name;
        return false;
      }
      seen := seen + {attrs[index].name};
    }
    assert attrs[..|attrs|] == attrs;
    return true;
  }

  /** The scan of everything after the root start tag, driven by the decoder's remaining tokens. */
  method CollectSOAPVerificationState(root: Start, decoder: Stream, id: string) returns (r: Outcome<Counters>)
    ensures r == CollectSpec(root, decoder, id)
  {
    var unique := ValidateUniqueXMLAttributes(root.attrs);
    if !unique { return Rejected(DuplicateAttribute); }
    var begin := ObserveStart(INACTIVE, root, id, []);
    if begin.Rejected? { return Rejected(begin.reason); }
    var counters, transform, stack := ObserveElement(ZERO, root, id, []), begin.value, [root.name];
    ghost var first := Scan(counters, transform, stack);
    assert [] + [root.name] == stack;
    assert OnStart(Scan(ZERO, INACTIVE, []), root, id) == Ok(first);
    for i := 0 to |decoder.tokens|
      invariant Run(first, decoder.tokens, id) == Run(Scan(counters, transform, stack), decoder.tokens[i..], id)
    {
      assert decoder.tokens[i..][1..] == decoder.tokens[i + 1..];
      ghost var step := OnToken(Scan(counters, transform, stack), decoder.tokens[i], id);
      assert step.Rejected? ==> Run(first, decoder.tokens, id) == Rejected(step.reason);
      match decoder.tokens[i]
      case StartElement(start) =>
        unique := ValidateUniqueXMLAttributes(start.attrs);
        if !unique { return Rejected(DuplicateAttribute); }
        var begun := ObserveStart(transform, start, id, stack);
        if begun.Rejected? { return Rejected(begun.reason); }
        transform := begun.value;
        counters := ObserveElement(counters, start, id, stack);
        stack := stack + [start.name];
      case EndElement =>
        if |stack| > 0 {
          var closed := ObserveEnd(transform, |stack| - 1);
          if closed.Rejected? { return Rejected(closed.reason); }
          transform := closed.value;
          stack := stack[..|stack| - 1];
        }
      case CharData(text) =>
        var seen := ObserveCharData(transform, text);
        if seen.Rejected? { return Rejected(seen.reason); }
        if |stack| == 0 && !IsBlank(text) { return Rejected(TextOutsideRoot); }
      case Directive =>
        return Rejected(DirectiveFound);
      case Misc =>
    }
    if !decoder.wellFormed { return Rejected(NotWellFormed); }
    return Ok(counters);
  }

  function CollectSpec(root: Start, decoder: Stream, id: string): Outcome<Counters> {
    var first :- OnStart(Scan(ZERO, INACTIVE, []), root, id);
    var last :- Run(first, decoder.tokens, id);
    if decoder.wellFormed then Ok(last.counters) else Rejected(NotWellFormed)
  }

  // ----- the whole validation

  datatype Preamble = Preamble(root: Start, hasDirective: bool, hasText: bool, after: Stream)

  /** Skips to the first start tag, remembering directives and text on the way. */
  function ScanRoot(decoder: Stream, hasDirective: bool, hasText: bool): Outcome<Preamble>
    decreases |decoder.tokens|
  {
    if decoder.tokens == [] then Rejected(if decoder.wellFormed then NoDocumentElement else NotWellFormed)
    else
      var tail := decoder.(tokens := decoder.tokens[1..]);
      match decoder.tokens[0]
      case StartElement(start) => Ok(Preamble(start, hasDirective, hasText, tail))
      case CharData(text) => ScanRoot(tail, hasDirective, hasText || !IsBlank(text))
      case Directive => ScanRoot(tail, true, hasText)
      case EndElement => ScanRoot(tail, hasDirective, hasText)
      case Misc => ScanRoot(tail, hasDirective, hasText)
  }

  predicate IsNameStart(c: char) {
    var r := c as int;
    c == '_' || 'A' <= c <= 'Z' || 'a' <= c <= 'z' || 0xC0 <= r <= 0xD6 || 0xD8 <= r <= 0xF6 ||
    0xF8 <= r <= 0x2FF || 0x370 <= r <= 0x37D || 0x37F <= r <= 0x1FFF || 0x200C <= r <= 0x200D ||
    0x2070 <= r <= 0x218F || 0x2C00 <= r <= 0x2FEF || 0x3001 <= r <= 0xD7FF || 0xF900 <= r <= 0xFDCF ||
    0xFDF0 <= r <= 0xFFFD || 0x10000 <= r <= 0xEFFFF
  }

  predicate IsNameChar(c: char) {
    var r := c as int;
    IsNameStart(c) || '0' <= c <= '9' || c == '-' || c == '.' || r == 0xB7 || 0x300 <= r <= 0x36F ||
      0x203F <= r <= 0x2040
  }

  predicate IsNCName(s: string) {
    s != "" && IsNameStart(s[0]) && forall i :: 1 <= i < |s| ==> IsNameChar(s[i])
  }

  function ValidateBodyID(id: string): Outcome<()> {
    if IsBlank(id) then Rejected(BodyIdRequired)
    else if IsSpace(id[0]) || IsSpace(id[|id| - 1]) || !IsNCName(id) then Rejected(BodyIdInvalid)
    else Ok(())
  }

  /** Whether the root makes this a SOAP document, or why the root and the expected ID do not fit. */
  function ValidateRoot(root: Name, id: string): Outcome<bool> {
    if !IsSOAPEnvelope(root) then if id != "" then Rejected(EnvelopeRequired) else Ok(false)
    else if id == "" then Rejected(ExpectedIdRequired) else Ok(true)
  }

  /** `strict` and `lenient` are what the two decoders of the source yield for the same document. */
  method ValidateXMLVerificationStructure(strict: Stream, lenient: Stream, id: string) returns (r: Outcome<()>)
    ensures r == ValidateSpec(strict, lenient, id)
  {
    if id != "" {
      var valid := ValidateBodyID(id);
      if valid.Rejected? { return valid; }
    }
    var scanned := ScanRoot(strict, false, false);
    if scanned.Rejected? {
      var again := ScanRoot(lenient, false, false);
      if again.Rejected? { return Rejected(again.reason); }
      var soap := ValidateRoot(again.value.root.name, id);
      if soap.Rejected? { return Rejected(soap.reason); }
      return if soap.value then Rejected(scanned.reason) else Ok(());
    }
    var isSOAP := ValidateRoot(scanned.value.root.name, id);
    if isSOAP.Rejected? { return Rejected(isSOAP.reason); }
    if !isSOAP.value { return Ok(()); }
    if scanned.value.hasDirective { return Rejected(DirectiveFound); }
    if scanned.value.hasText { return Rejected(TextOutsideRoot); }
    var state := CollectSOAPVerificationState(scanned.value.root, scanned.value.after, id);
    if state.Rejected? { return Rejected(state.reason); }
    return ValidateState(state.value);
  }

  function ValidateSpec(strict: Stream, lenient: Stream, id: string): Outcome<()> {
    var _ :- if id != "" then ValidateBodyID(id) else Ok(());
    match ScanRoot(strict, false, false)
    case Rejected(reason) =>
      var again :- ScanRoot(lenient, false, false);
      var isSOAP :- ValidateRoot(again.root.name, id);
      if isSOAP then Rejected(reason) else Ok(())
    case Ok(p) =>
      var isSOAP :- ValidateRoot(p.root.name, id);
      if !isSOAP then Ok(())
      else if p.hasDirective then Rejected(DirectiveFound)
      else if p.hasText then Rejected(TextOutsideRoot)
      else
        var counters :- CollectSpec(p.root, p.after, id);
        ValidateState(counters)
  }
}
