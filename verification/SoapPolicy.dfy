/** What an acceptable signed SOAP document is, said of the whole tree and without any scanner state. */
module SoapPolicy {
  import opened XmlTokens
  import opened SoapScan

  /** A name that may stand anywhere below the Body reference. */
  predicate PlainName(n: Name) { !IsDSigReference(n) && n.local != "Transforms" && n.local != "Transform" }

  /** Only white space, comments and processing instructions. */
  predicate OnlyBlank(f: Forest) {
    match f
    case Empty => true
    case Element(_, _, _) => false
    case Chars(t, r) => IsBlank(t) && OnlyBlank(r)
    case Decl(_) => false
    case Other(r) => OnlyBlank(r)
  }

  /** Free content: any text, plain names, no duplicate attributes, no directives. */
  predicate Clean(f: Forest) {
    match f
    case Empty => true
    case Element(s, k, r) => UniqueNames(s.attrs) && PlainName(s.name) && Clean(k) && Clean(r)
    case Chars(_, r) => Clean(r)
    case Decl(_) => false
    case Other(r) => Clean(r)
  }

  /** Below ds:Transform: at most one InclusiveNamespaces parameter, itself empty. */
  predicate TransformBody(f: Forest) {
    match f
    case Empty => true
    case Element(s, k, r) =>
      IsPrefixParameter(s) && OnlyBlank(k) && OnlyBlank(r)
    case Chars(t, r) => IsBlank(t) && TransformBody(r)
    case Decl(_) => false
    case Other(r) => TransformBody(r)
  }

  /** Besides namespace declarations only the unqualified attribute of this name. */
  predicate OnlyAttribute(attrs: seq<Attr>, local: string) {
    forall a :: a in attrs ==> a.name == Name("", local) || a.name == Name("", "xmlns") || a.name.space == "xmlns"
  }

  /** An InclusiveNamespaces element with its PrefixList. */
  predicate IsPrefixParameter(s: Start) {
    && UniqueNames(s.attrs) && s.name == Name(EXCLUSIVE_C14N, "InclusiveNamespaces")
    && OnlyAttribute(s.attrs, "PrefixList") && exists a :: a in s.attrs && a.name == Name("", "PrefixList")
  }

  /** A ds:Transform whose Algorithm is exclusive canonicalization. */
  predicate IsExclusiveTransform(s: Start) {
    && UniqueNames(s.attrs) && s.name == Name(XMLNS_DSIG, "Transform")
    && OnlyAttribute(s.attrs, "Algorithm") && Attr(Name("", "Algorithm"), EXCLUSIVE_C14N) in s.attrs
  }

  /** Below ds:Transforms: exactly one exclusive-canonicalization transform. */
  predicate SingleTransform(f: Forest) {
    match f
    case Empty => false
    case Element(s, k, r) => IsExclusiveTransform(s) && TransformBody(k) && OnlyBlank(r)
    case Chars(t, r) => IsBlank(t) && SingleTransform(r)
    case Decl(_) => false
    case Other(r) => SingleTransform(r)
  }

  /** Below the Body reference: at most one ds:Transforms child, everything else free of transforms and references. */
  predicate ReferencePolicy(f: Forest) {
    match f
    case Empty => true
    case Element(s, k, r) =>
      && UniqueNames(s.attrs)
      && if IsDSigTransforms(s.name) then SingleTransform(k) && Clean(r)
         else PlainName(s.name) && Clean(k) && ReferencePolicy(r)
    case Chars(_, r) => ReferencePolicy(r)
    case Decl(_) => false
    case Other(r) => ReferencePolicy(r)
  }

  predicate NoDirective(f: Forest) {
    match f
    case Empty => true
    case Element(_, k, r) => NoDirective(k) && NoDirective(r)
    case Chars(_, r) => NoDirective(r)
    case Decl(_) => false
    case Other(r) => NoDirective(r)
  }

  predicate TopTextBlank(f: Forest) {
    match f
    case Empty => true
    case Element(_, _, r) => TopTextBlank(r)
    case Chars(t, r) => IsBlank(t) && TopTextBlank(r)
    case Decl(r) => TopTextBlank(r)
    case Other(r) => TopTextBlank(r)
  }

  // ----- properties of one element occurrence

  function AtTop(): Occurrence -> bool { (o: Occurrence) => o.ancestors == [] }
  function Signature(): Occurrence -> bool { (o: Occurrence) => IsDSigSignature(o.start.name) }
  function SignedInfo(): Occurrence -> bool { (o: Occurrence) => IsDSigSignedInfo(o.start.name) }
  function DirectSignedInfo(): Occurrence -> bool { (o: Occurrence) => IsDirectSignedInfo(o.start, o.ancestors) }
  function Body(): Occurrence -> bool { (o: Occurrence) => IsSOAPBody(o.start.name) }
  function ExpectedReference(id: string): Occurrence -> bool {
    (o: Occurrence) => IsDirectExpectedReference(o.start, id, o.ancestors)
  }
  /** A Body that is a child of its own document element, an Envelope in the same SOAP namespace. */
  predicate IsEnvelopeBody(o: Occurrence) {
    |o.ancestors| == 1 && IsDirectBody(o.start, o.ancestors, o.ancestors[0])
  }

  function AllAttrs(occs: seq<Occurrence>): seq<Attr> {
    if occs == [] then [] else occs[0].start.attrs + AllAttrs(occs[1..])
  }

  ghost predicate Obeys(occs: seq<Occurrence>, id: string) {
    && (forall i :: 0 <= i < |occs| ==> UniqueNames(occs[i].start.attrs))
    && (forall i :: 0 <= i < |occs| && ExpectedReference(id)(occs[i]) ==> ReferencePolicy(occs[i].kids))
  }

  /** No directive, no text around the root, no duplicate attribute, and every Body reference obeys the policy. */
  ghost predicate WellStructured(f: Forest, ancestors: seq<Name>, id: string) {
    && NoDirective(f)
    && (ancestors == [] ==> TopTextBlank(f))
    && Obeys(Occurrences(f, ancestors), id)
  }

  /** The root, if it is a SOAP envelope. */
  function RootEnvelope(): Occurrence -> bool {
    (o: Occurrence) => o.ancestors == [] && IsSOAPEnvelope(o.start.name)
  }
  /** The envelope's Body carrying the expected wsu:Id. */
  function ExpectedBody(id: string): Occurrence -> bool {
    (o: Occurrence) => IsEnvelopeBody(o) && HasWSUID(o.start, id)
  }

  /** The property a SOAP verification must establish before the native verifier runs. */
  ghost predicate SignedEnvelope(f: Forest, id: string) {
    WellStructured(f, [], id) && SignedOnce(Occurrences(f, []), id)
  }

  /** One root, an Envelope; one Signature; one SignedInfo, its child; one Body, the Envelope's child with the ID. */
  predicate SignedOnce(occs: seq<Occurrence>, id: string) {
    && Count(occs, AtTop()) == 1 && Count(occs, RootEnvelope()) == 1
    && Count(occs, Signature()) == 1
    && Count(occs, SignedInfo()) == 1 && Count(occs, DirectSignedInfo()) == 1
    && Count(occs, Body()) == 1 && Count(occs, ExpectedBody(id)) == 1
    && Count(AllAttrs(occs), IDMatcher(id)) == 1
    && Count(occs, ExpectedReference(id)) == 1
  }
}
