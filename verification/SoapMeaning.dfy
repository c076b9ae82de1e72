/** What acceptance means, in words of characters, names and attributes and without any predicate of the scanner. */
module SoapMeaning {
  import opened XmlTokens
  import opened SoapScan
  import opened SoapPolicy
  import opened SoapProof

  // ----- which expected IDs are valid

  /** The characters that XML 1.0 (Fifth Edition) admits in a name, without the colon: all but the listed gaps. */
  predicate NameCharacter(c: char) {
    var r := c as int;
    if r < 0x80 then 'a' <= c <= 'z' || 'A' <= c <= 'Z' || '0' <= c <= '9' || c in "_-."
    else
      r == 0xB7 ||
      (0xC0 <= r < 0xF0000 && r !in {0xD7, 0xF7, 0x37E, 0xFFFE, 0xFFFF} &&
       !(0x2000 <= r < 0x200C) && !(0x200E <= r < 0x203F) && !(0x2041 <= r < 0x2070) && !(0x2190 <= r < 0x2C00) &&
       !(0x2FF0 <= r < 0x3001) && !(0xD800 <= r < 0xF900) && !(0xFDD0 <= r < 0xFDF0))
  }

  /** Digits, hyphen, full stop, middle dot, combining marks and the two ties do not begin a name. */
  predicate NameBeginning(c: char) {
    NameCharacter(c) && !('0' <= c <= '9') && c !in "-.\U{B7}\U{203F}\U{2040}" && !('\U{300}' <= c <= '\U{36F}')
  }

  predicate NCName(id: string) {
    && id != "" && NameBeginning(id[0])
    && forall i :: 0 <= i < |id| ==> NameCharacter(id[i])
  }

  /** The Ogham space mark is the one character that names admit and that Go trims as white space. */
  const OGHAM_SPACE := '\U{1680}'

  predicate ValidID(id: string) { NCName(id) && id[0] != OGHAM_SPACE && id[|id| - 1] != OGHAM_SPACE }

  lemma NameCharacters(c: char)
    ensures IsNameChar(c) <==> NameCharacter(c)
    ensures IsNameStart(c) <==> NameBeginning(c)
    ensures NameCharacter(c) && IsSpace(c) <==> c == OGHAM_SPACE
  {
  }

  /** The check of the expected ID passes exactly the valid IDs. */
  lemma ValidIDExactly(id: string)
    ensures ValidateBodyID(id).Ok? <==> ValidID(id)
  {
    if id != "" {
      NameCharacters(id[0]);
      NameCharacters(id[|id| - 1]);
      forall i | 0 <= i < |id| ensures IsNameChar(id[i]) <==> NameCharacter(id[i]) { NameCharacters(id[i]); }
      assert NCName(id) <==> IsNCName(id);
    }
  }

  /** Whatever the two decoders yield, an expected ID that is no valid ID is rejected, and the reason names the ID. */
  lemma InvalidIDRejected(strict: Stream, lenient: Stream, id: string)
    requires id != "" && !ValidID(id)
    ensures ValidateSpec(strict, lenient, id) == Rejected(if IsBlank(id) then BodyIdRequired else BodyIdInvalid)
  {
    ValidIDExactly(id);
  }

  /** An ID of blanks, one with outer white space and one that is no NCName are not valid. */
  lemma InvalidIDs(id: string)
    requires id != ""
    ensures IsBlank(id) || IsSpace(id[0]) || IsSpace(id[|id| - 1]) || !NCName(id) <==> !ValidID(id)
  {
    NameCharacters(id[0]);
    NameCharacters(id[|id| - 1]);
  }

  /** A name that XML admits and the validation refuses. */
  lemma OghamNameRefused(strict: Stream, lenient: Stream, id: string)
    requires id == ['a', OGHAM_SPACE]
    ensures NCName(id) && ValidateSpec(strict, lenient, id) == Rejected(BodyIdInvalid)
  {
    NameCharacters('a');
    NameCharacters(OGHAM_SPACE);
    assert id[0] == 'a' && id[1] == OGHAM_SPACE && !IsSpace(id[0]);
    InvalidIDRejected(strict, lenient, id);
  }

  // ----- which documents are accepted

  /** The value is the ID with nothing but XML white space around it. */
  predicate SpellsID(value: string, id: string) { exists b :: 0 <= b <= |value| && SpellsAt(value, id, b) }

  predicate SpellsAt(value: string, id: string, b: nat) {
    && b + |id| <= |value| && value[b..b + |id|] == id
    && forall i :: 0 <= i < |value| && !(b <= i < b + |id|) ==> value[i] in " \t\r\n"
  }

  /** An attribute that a consumer may take for an ID declaration with this value. */
  predicate DeclaresID(a: Attr, id: string) {
    a.name.local in {"Id", "ID", "id"} && a.name.space != "xmlns" && SpellsID(a.value, id)
  }

  predicate IsSOAP(n: Name, local: string) { n.local == local && n.space in {XMLNS_SOAP, XMLNS_SOAP12} }

  /** A reference to the ID directly under the SignedInfo of a Signature. */
  predicate RefersTo(o: Occurrence, id: string) {
    var depth := |o.ancestors|;
    && o.start.name == Name(XMLNS_DSIG, "Reference") && depth >= 2
    && o.ancestors[depth - 1] == Name(XMLNS_DSIG, "SignedInfo")
    && o.ancestors[depth - 2] == Name(XMLNS_DSIG, "Signature")
    && Attr(Name("", "URI"), "#" + id) in o.start.attrs
  }

  /** Where the parts of a signed document stand in document order; `wsuId` is an attribute of the Body. */
  datatype Parts = Parts(root: nat, signature: nat, signedInfo: nat, body: nat, wsuId: nat, reference: nat)

  ghost predicate Has(occs: seq<Occurrence>, p: Parts) {
    && p.root < |occs| && p.signature < |occs| && p.signedInfo < |occs| && p.body < |occs| && p.reference < |occs|
    && p.wsuId < |occs[p.body].start.attrs|
  }

  /** Each part is the only one of its kind and stands where it must. */
  ghost predicate Signed(occs: seq<Occurrence>, id: string, p: Parts) {
    && Has(occs, p)
    && (forall i :: 0 <= i < |occs| ==> (occs[i].ancestors == [] <==> i == p.root))
    && IsSOAP(occs[p.root].start.name, "Envelope")
    && (forall i :: 0 <= i < |occs| ==> (occs[i].start.name == Name(XMLNS_DSIG, "Signature") <==> i == p.signature))
    && (forall i :: 0 <= i < |occs| ==> (occs[i].start.name == Name(XMLNS_DSIG, "SignedInfo") <==> i == p.signedInfo))
    && (var above := occs[p.signedInfo].ancestors;
        above != [] && above[|above| - 1] == Name(XMLNS_DSIG, "Signature"))
    && (forall i :: 0 <= i < |occs| ==> (IsSOAP(occs[i].start.name, "Body") <==> i == p.body))
    && occs[p.body].ancestors == [Name(occs[p.body].start.name.space, "Envelope")]
    && occs[p.body].start.attrs[p.wsuId] == Attr(Name(XMLNS_WSU, "Id"), id)
    && (forall i, j :: 0 <= i < |occs| && 0 <= j < |occs[i].start.attrs| ==>
          (DeclaresID(occs[i].start.attrs[j], id) <==> i == p.body && j == p.wsuId))
    && (forall i :: 0 <= i < |occs| ==> (RefersTo(occs[i], id) <==> i == p.reference))
    && ReferencePolicy(occs[p.reference].kids)
  }

  ghost predicate SignedDocument(f: Forest, id: string) {
    var occs := Occurrences(f, []);
    && NoDirective(f) && TopTextBlank(f)
    && (forall i :: 0 <= i < |occs| ==> UniqueNames(occs[i].start.attrs))
    && exists p :: Signed(occs, id, p)
  }

  // ----- the scan decides it

  lemma SpellsShift(c: char, v: string, id: string, b: nat)
    requires c in " \t\r\n"
    ensures SpellsAt([c] + v, id, b + 1) <==> SpellsAt(v, id, b)
  {
    var value := [c] + v;
    assert forall i :: 0 < i < |value| ==> value[i] == v[i - 1];
    assert forall i :: 0 <= i < |v| ==> v[i] == value[i + 1];
    if b + |id| <= |v| { assert value[b + 1..b + 1 + |id|] == v[b..b + |id|]; }
  }

  /** Leading white space only moves the ID. */
  lemma SpellsBehindSpace(value: string, id: string)
    requires id != "" && !IsXMLSpace(id[0]) && value != "" && IsXMLSpace(value[0])
    ensures SpellsID(value, id) <==> SpellsID(value[1..], id)
  {
    var v := value[1..];
    assert value == [value[0]] + v;
    if SpellsID(value, id) {
      var b :| 0 <= b <= |value| && SpellsAt(value, id, b);
      assert value[b] == value[b..b + |id|][0];
      SpellsShift(value[0], v, id, b - 1);
    }
    if SpellsID(v, id) {
      var b :| 0 <= b <= |v| && SpellsAt(v, id, b);
      SpellsShift(value[0], v, id, b);
    }
  }

  lemma SpellsPad(v: string, c: char, id: string, b: nat)
    requires c in " \t\r\n" && b + |id| <= |v|
    ensures SpellsAt(v + [c], id, b) <==> SpellsAt(v, id, b)
  {
    var value := v + [c];
    assert forall i :: 0 <= i < |v| ==> value[i] == v[i];
    assert value[b..b + |id|] == v[b..b + |id|];
  }

  /** Trailing white space does not matter. */
  lemma SpellsBeforeSpace(value: string, id: string)
    requires id != "" && !IsXMLSpace(id[|id| - 1]) && value != "" && IsXMLSpace(value[|value| - 1])
    ensures SpellsID(value, id) <==> SpellsID(value[..|value| - 1], id)
  {
    var v, c := value[..|value| - 1], value[|value| - 1];
    assert value == v + [c];
    if SpellsID(value, id) {
      var b :| 0 <= b <= |value| && SpellsAt(value, id, b);
      assert value[b + |id| - 1] == value[b..b + |id|][|id| - 1];
      SpellsPad(v, c, id, b);
    }
    if SpellsID(v, id) {
      var b :| 0 <= b <= |v| && SpellsAt(v, id, b);
      SpellsPad(v, c, id, b);
    }
  }

  lemma {:induction false} TrimSpells(value: string, id: string)
    requires id != "" && !IsXMLSpace(id[0]) && !IsXMLSpace(id[|id| - 1])
    ensures TrimXML(value) == id <==> SpellsID(value, id)
  {
    if value != "" {
      if IsXMLSpace(value[0]) {
        SpellsBehindSpace(value, id);
        TrimSpells(value[1..], id);
      } else if IsXMLSpace(value[|value| - 1]) {
        SpellsBeforeSpace(value, id);
        TrimSpells(value[..|value| - 1], id);
      } else {
        if SpellsID(value, id) {
          var b :| 0 <= b <= |value| && SpellsAt(value, id, b);
          assert b == 0 && b + |id| == |value|;
        }
        if value == id { assert SpellsAt(value, id, 0); }
      }
    }
  }

  lemma CarriesDeclares(a: Attr, id: string)
    requires ValidID(id)
    ensures CarriesID(a, id) <==> DeclaresID(a, id)
  {
    TrimSpells(a.value, id);
  }

  lemma RefersExactly(o: Occurrence, id: string)
    requires UniqueNames(o.start.attrs)
    ensures ExpectedReference(id)(o) <==> RefersTo(o, id)
  {
    FirstIsOnly(o.start.attrs, "URI", "#" + id);
  }

  lemma CountIsUnique<T>(s: seq<T>, p: T -> bool, k: nat)
    requires k < |s| && forall i :: 0 <= i < |s| ==> (p(s[i]) <==> i == k)
    ensures Count(s, p) == 1
  {
    assert p(s[k]);
    CountOne(s, p);
  }

  lemma UniqueIndex<T>(s: seq<T>, p: T -> bool) returns (k: nat)
    requires Count(s, p) == 1
    ensures k < |s| && forall i :: 0 <= i < |s| ==> (p(s[i]) <==> i == k)
  {
    CountOne(s, p);
    k :| 0 <= k < |s| && p(s[k]) && forall j :: 0 <= j < |s| && p(s[j]) ==> j == k;
  }

  /** Every attribute of the document belongs to one element. */
  lemma {:induction false} AttrOwner(occs: seq<Occurrence>, k: nat) returns (i: nat, j: nat)
    requires k < |AllAttrs(occs)|
    ensures i < |occs| && j < |occs[i].start.attrs| && AttrIndex(occs, i, j) == k
  {
    var first := |occs[0].start.attrs|;
    if k < first {
      i, j := 0, k;
    } else {
      i, j := AttrOwner(occs[1..], k - first);
      i := i + 1;
    }
  }

  /** The spelled-out parts of an accepted document. */
  lemma PartsOf(occs: seq<Occurrence>, id: string) returns (p: Parts)
    requires ValidID(id) && Obeys(occs, id) && SignedOnce(occs, id)
    requires forall i :: 0 <= i < |occs| ==> UniqueNames(occs[i].start.attrs)
    ensures Signed(occs, id, p)
  {
    var root := UniqueIndex(occs, AtTop());
    var top := UniqueIndex(occs, RootEnvelope());
    assert AtTop()(occs[top]);
    var signature := UniqueIndex(occs, Signature());
    var signedInfo := UniqueIndex(occs, SignedInfo());
    var direct := UniqueIndex(occs, DirectSignedInfo());
    assert SignedInfo()(occs[direct]);
    var body := UniqueIndex(occs, Body());
    var expected := UniqueIndex(occs, ExpectedBody(id));
    assert Body()(occs[expected]);
    var reference := UniqueIndex(occs, ExpectedReference(id));
    var w :| 0 <= w < |occs[body].start.attrs| && occs[body].start.attrs[w] == Attr(Name(XMLNS_WSU, "Id"), id);
    p := Parts(root, signature, signedInfo, body, w, reference);
    assert occs[body].ancestors == [occs[body].ancestors[0]];
    forall i | 0 <= i < |occs| ensures RefersTo(occs[i], id) <==> i == reference { RefersExactly(occs[i], id); }
    OnlyDeclaration(occs, id, body, w);
    assert forall i :: 0 <= i < |occs| ==> (AtTop()(occs[i]) <==> occs[i].ancestors == []);
    assert forall i :: 0 <= i < |occs| ==> (Body()(occs[i]) <==> IsSOAP(occs[i].start.name, "Body"));
    assert forall i :: 0 <= i < |occs| ==>
        (SignedInfo()(occs[i]) <==> occs[i].start.name == Name(XMLNS_DSIG, "SignedInfo"));
    assert forall i :: 0 <= i < |occs| ==>
        (Signature()(occs[i]) <==> occs[i].start.name == Name(XMLNS_DSIG, "Signature"));
  }

  lemma WsuIdDeclares(id: string)
    requires ValidID(id)
    ensures DeclaresID(Attr(Name(XMLNS_WSU, "Id"), id), id)
  {
    ValidIDExactly(id);
    WsuIdCarries(Attr(Name(XMLNS_WSU, "Id"), id), id);
    CarriesDeclares(Attr(Name(XMLNS_WSU, "Id"), id), id);
  }

  /** Counting one carrier of the ID is the same as having one place where it is declared. */
  lemma OnlyDeclaration(occs: seq<Occurrence>, id: string, b: nat, w: nat)
    requires ValidID(id) && b < |occs| && w < |occs[b].start.attrs|
    requires occs[b].start.attrs[w] == Attr(Name(XMLNS_WSU, "Id"), id)
    ensures Count(AllAttrs(occs), IDMatcher(id)) == 1 <==>
      forall i, j :: 0 <= i < |occs| && 0 <= j < |occs[i].start.attrs| ==>
        (DeclaresID(occs[i].start.attrs[j], id) <==> i == b && j == w)
  {
    var all := AllAttrs(occs);
    AttrAt(occs, b, w);
    WsuIdDeclares(id);
    if Count(all, IDMatcher(id)) == 1 {
      var k := UniqueIndex(all, IDMatcher(id));
      CarriesDeclares(all[AttrIndex(occs, b, w)], id);
      forall i, j | 0 <= i < |occs| && 0 <= j < |occs[i].start.attrs| && DeclaresID(occs[i].start.attrs[j], id)
        ensures i == b && j == w
      {
        AttrAt(occs, i, j);
        CarriesDeclares(occs[i].start.attrs[j], id);
        AttrIndexInjective(occs, i, j, b, w);
      }
    }
    if forall i, j :: 0 <= i < |occs| && 0 <= j < |occs[i].start.attrs| ==>
        (DeclaresID(occs[i].start.attrs[j], id) <==> i == b && j == w) {
      forall k | 0 <= k < |all| ensures IDMatcher(id)(all[k]) <==> k == AttrIndex(occs, b, w) {
        var i, j := AttrOwner(occs, k);
        AttrAt(occs, i, j);
        CarriesDeclares(all[k], id);
      }
      CountIsUnique(all, IDMatcher(id), AttrIndex(occs, b, w));
    }
  }

  /** A document with those parts has the counts. */
  lemma PartsCount(occs: seq<Occurrence>, id: string, p: Parts)
    requires ValidID(id) && Signed(occs, id, p)
    requires forall i :: 0 <= i < |occs| ==> UniqueNames(occs[i].start.attrs)
    ensures Obeys(occs, id) && SignedOnce(occs, id)
  {
    forall i | 0 <= i < |occs| ensures ExpectedReference(id)(occs[i]) <==> i == p.reference {
      RefersExactly(occs[i], id);
    }
    CountIsUnique(occs, ExpectedReference(id), p.reference);
    SignatureCounts(occs, id, p);
    EnvelopeCounts(occs, id, p);
    OnlyDeclaration(occs, id, p.body, p.wsuId);
  }

  lemma SignatureCounts(occs: seq<Occurrence>, id: string, p: Parts)
    requires Signed(occs, id, p)
    ensures Count(occs, Signature()) == 1 && Count(occs, SignedInfo()) == 1 && Count(occs, DirectSignedInfo()) == 1
  {
    CountIsUnique(occs, Signature(), p.signature);
    CountIsUnique(occs, SignedInfo(), p.signedInfo);
    CountIsUnique(occs, DirectSignedInfo(), p.signedInfo);
  }

  lemma EnvelopeCounts(occs: seq<Occurrence>, id: string, p: Parts)
    requires Signed(occs, id, p)
    ensures Count(occs, AtTop()) == 1 && Count(occs, RootEnvelope()) == 1
    ensures Count(occs, Body()) == 1 && Count(occs, ExpectedBody(id)) == 1
  {
    CountIsUnique(occs, AtTop(), p.root);
    CountIsUnique(occs, RootEnvelope(), p.root);
    CountIsUnique(occs, Body(), p.body);
    CountIsUnique(occs, ExpectedBody(id), p.body);
  }

  lemma SignedAlike(f: Forest, id: string)
    requires ValidID(id)
    ensures SignedEnvelope(f, id) <==> SignedDocument(f, id)
  {
    var occs := Occurrences(f, []);
    if SignedEnvelope(f, id) {
      var p := PartsOf(occs, id);
    }
    if SignedDocument(f, id) {
      var p :| Signed(occs, id, p);
      PartsCount(occs, id, p);
    }
  }

  /**
   * The main theorem in plain words: with any nonempty expected ID, a balanced document is accepted if and only if the
   * ID is valid and the document is signed once, at the Body that carries the ID.
   */
  lemma AcceptsExactly(f: Forest, lenient: Stream, id: string)
    requires id != ""
    ensures ValidateSpec(Stream(Flatten(f), true), lenient, id).Ok? <==> ValidID(id) && SignedDocument(f, id)
  {
    if ValidID(id) {
      ValidIDExactly(id);
      ScanDecidesSignedEnvelope(f, lenient, id);
      SignedAlike(f, id);
    } else {
      InvalidIDRejected(Stream(Flatten(f), true), lenient, id);
    }
  }
}
