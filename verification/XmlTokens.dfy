/** XML names, tokens and balanced token forests, as the strict decoder delivers them. */
module XmlTokens {
  /** The result of a check: a value, or the reason the document is rejected. */
  datatype Outcome<+T> = Ok(value: T) | Rejected(reason: Rejection) {
    predicate IsFailure() { Rejected? }
    function PropagateFailure<U>(): Outcome<U> requires Rejected? { Rejected(reason) }
    function Extract(): T requires Ok? { value }
  }

  datatype Rejection =
    | BodyIdRequired | BodyIdInvalid | NotWellFormed | NoDocumentElement
    | EnvelopeRequired | ExpectedIdRequired
    | DirectiveFound | TextOutsideRoot | DuplicateAttribute
    | NestedReference | TransformsNamespace | TransformsPlacement | SecondTransforms
    | TransformNamespace | TransformPlacement | TransformAlgorithm | TransformAttribute | OnlyTransforms
    | UnsupportedParameter | SecondParameter | ParameterAttribute | TransformText | TransformCount
    | RootCount | SignatureCount | SignedInfoCount | SignedInfoPlacement
    | BodyCount | BodyPlacement | IdCount | BodyId | ReferenceCount

  datatype Name = Name(space: string, local: string)
  datatype Attr = Attr(name: Name, value: string)
  datatype Start = Start(name: Name, attrs: seq<Attr>)

  datatype Token = StartElement(start: Start) | EndElement | CharData(text: string) | Directive | Misc

  /** Everything a decoder yields for a document: tokens, then end of input or a syntax error. */
  datatype Stream = Stream(tokens: seq<Token>, wellFormed: bool)

  /** A balanced token sequence in first-child/next-sibling form. Several top-level elements are possible. */
  datatype Forest =
    | Empty
    | Element(start: Start, kids: Forest, rest: Forest)
    | Chars(text: string, rest: Forest)
    | Decl(rest: Forest)
    | Other(rest: Forest)

  function Flatten(f: Forest): seq<Token> {
    match f
    case Empty => []
    case Element(s, k, r) => [StartElement(s)] + (Flatten(k) + ([EndElement] + Flatten(r)))
    case Chars(t, r) => [CharData(t)] + Flatten(r)
    case Decl(r) => [Directive] + Flatten(r)
    case Other(r) => [Misc] + Flatten(r)
  }

  /** One element of a forest together with the names of its ancestors, outermost first. */
  datatype Occurrence = Occurrence(start: Start, ancestors: seq<Name>, kids: Forest)

  /** Every element of the forest in document order. */
  function Occurrences(f: Forest, ancestors: seq<Name>): seq<Occurrence> {
    match f
    case Empty => []
    case Element(s, k, r) =>
      [Occurrence(s, ancestors, k)] + (Occurrences(k, ancestors + [s.name]) + Occurrences(r, ancestors))
    case Chars(_, r) => Occurrences(r, ancestors)
    case Decl(r) => Occurrences(r, ancestors)
    case Other(r) => Occurrences(r, ancestors)
  }

  /** Unicode White_Space, the class bytes.TrimSpace removes. */
  predicate IsSpace(c: char) {
    var r := c as int;
    9 <= r <= 13 || r == 0x20 || r == 0x85 || r == 0xA0 || r == 0x1680 || 0x2000 <= r <= 0x200A ||
    r == 0x2028 || r == 0x2029 || r == 0x202F || r == 0x205F || r == 0x3000
  }

  predicate IsBlank(text: string) { forall i :: 0 <= i < |text| ==> IsSpace(text[i]) }

  predicate UniqueNames(attrs: seq<Attr>) {
    forall i, j :: 0 <= i < j < |attrs| ==> attrs[i].name != attrs[j].name
  }

  function Count<T>(s: seq<T>, p: T -> bool): nat {
    if s == [] then 0 else (if p(s[0]) then 1 else 0) + Count(s[1..], p)
  }

  ghost predicate ExactlyOne<T>(s: seq<T>, p: T -> bool) {
    exists i :: 0 <= i < |s| && p(s[i]) && forall j :: 0 <= j < |s| && p(s[j]) ==> j == i
  }

  lemma CountZero<T>(s: seq<T>, p: T -> bool)
    ensures Count(s, p) == 0 <==> forall j :: 0 <= j < |s| ==> !p(s[j])
  {
    if s != [] {
      CountZero(s[1..], p);
      assert forall j :: 0 < j < |s| ==> s[j] == s[1..][j - 1];
      if Count(s, p) != 0 && !p(s[0]) {
        var j :| 0 <= j < |s[1..]| && p(s[1..][j]);
        assert p(s[j + 1]);
      }
    }
  }

  /** Counting to one is the same as having a unique witness. */
  lemma {:induction false} CountOne<T>(s: seq<T>, p: T -> bool)
    ensures Count(s, p) == 1 <==> ExactlyOne(s, p)
  {
    if s == [] { return; }
    var t := s[1..];
    assert forall j :: 0 <= j < |t| ==> t[j] == s[j + 1];
    if p(s[0]) {
      CountZero(t, p);
      assert forall j :: 0 < j < |s| ==> s[j] == t[j - 1];
      if ExactlyOne(s, p) {
        forall j | 0 <= j < |t| ensures !p(t[j]) { assert t[j] == s[j + 1]; }
      }
    } else {
      CountOne(t, p);
      if ExactlyOne(t, p) {
        var i :| 0 <= i < |t| && p(t[i]) && forall j :: 0 <= j < |t| && p(t[j]) ==> j == i;
        assert p(s[i + 1]);
        forall j | 0 <= j < |s| && p(s[j]) ensures j == i + 1 { assert t[j - 1] == s[j]; }
      }
      if ExactlyOne(s, p) {
        var i :| 0 <= i < |s| && p(s[i]) && forall j :: 0 <= j < |s| && p(s[j]) ==> j == i;
        assert t[i - 1] == s[i];
        forall j | 0 <= j < |t| && p(t[j]) ensures j == i - 1 { assert t[j] == s[j + 1]; }
      }
    }
  }

  lemma {:induction false} CountConcat<T>(a: seq<T>, b: seq<T>, p: T -> bool)
    ensures Count(a + b, p) == Count(a, p) + Count(b, p)
  {
    if a == [] {
      assert a + b == b;
    } else {
      CountConcat(a[1..], b, p);
      assert (a + b)[1..] == a[1..] + b;
    }
  }

  lemma {:induction false} CountImplies<T>(s: seq<T>, p: T -> bool, q: T -> bool)
    requires forall i :: 0 <= i < |s| && p(s[i]) ==> q(s[i])
    ensures Count(s, p) <= Count(s, q)
  {
    if s != [] {
      assert forall i :: 0 <= i < |s[1..]| ==> s[1..][i] == s[i + 1];
      CountImplies(s[1..], p, q);
    }
  }
}
