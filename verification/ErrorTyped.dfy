/** What errors.As finds: the first typed error in pre-order, with all its fields, on both sides of the pipe. */
module ErrorTyped {
  import opened Wire
  import opened Schema
  import opened ErrorTree

  datatype Target = NativeError | LimitError | RevocationError

  predicate IsTyped(err: Err, t: Target) {
    match t case NativeError => err.Kalkan? case LimitError => err.Limit? case RevocationError => err.Revoked?
  }

  /** errors.As for the type `t`. */
  function As(err: Err, t: Target): Option<Err>
    decreases Rank(err), 1, 0
  {
    RankOfCauses(err);
    if IsTyped(err, t) then Some(err) else AsIn(CauseList(err), t)
  }

  function AsIn(causes: seq<Ref>, t: Target): Option<Err>
    decreases MaxRank(causes), 0, |causes|
  {
    if causes == [] then None
    else
      RankOfHead(causes);
      var first := if causes[0].To? then As(causes[0].err, t) else None;
      if first.Some? then first else AsIn(causes[1..], t)
  }

  /** The same error, but for the zone of a zero revocation time. */
  function Landed(found: Option<Err>): Option<Err> {
    match found
    case Some(Revoked(endpoint, at)) => Some(Revoked(endpoint, Arrived(at)))
    case _ => found
  }

  lemma {:induction false} AsConcat(a: seq<Ref>, b: seq<Ref>, t: Target)
    ensures AsIn(a + b, t) == if AsIn(a, t).Some? then AsIn(a, t) else AsIn(b, t)
    decreases |a|
  {
    if a == [] {
      assert a + b == b;
    } else {
      assert (a + b)[1..] == a[1..] + b;
      AsConcat(a[1..], b, t);
    }
  }

  lemma AsAlone(r: Ref, t: Target)
    ensures AsIn([r], t) == if r.To? then As(r.err, t) else None
  {
    assert [r][1..] == [];
  }

  lemma {:induction false} NoTypedSentinel(bits: nat, from: nat, t: Target)
    requires from <= SENTINELS
    ensures AsIn(SentinelsOf(bits, from), t).None?
    decreases SENTINELS - from
  {
    if from < SENTINELS {
      NoTypedSentinel(bits / 2, from + 1, t);
      var head := if bits % 2 == 1 then [To(Sentinel(from))] else [];
      AsConcat(head, SentinelsOf(bits / 2, from + 1), t);
      AsAlone(To(Sentinel(from)), t);
      assert CauseList(Sentinel(from)) == [];
    }
  }

  /** The typed error that becomes the first cause answers like the original, if there is one. */
  lemma ConcreteAs(err: Err, t: Target)
    ensures AsIn(Concrete(err), t) == if Concrete(err) == [] then None else Landed(As(err, t))
  {
    if Concrete(err) != [] {
      var first := Concrete(err)[0];
      assert Concrete(err) == [first];
      AsAlone(first, t);
      assert CauseList(first.err) == CauseList(err);
      CodeCauses(err, t);
    }
  }

  /** Behind a typed error there is at most a native one. */
  lemma CodeCauses(err: Err, t: Target)
    requires !err.Plain?
    ensures Landed(AsIn(CauseList(err), t)) == AsIn(CauseList(err), t)
  {
    var small, revoked := To(Kalkan(BUFFER_TOO_SMALL, [])), To(Kalkan(CERT_STATUS_REVOKED, []));
    AsAlone(small, t);
    AsAlone(revoked, t);
    assert CauseList(small.err) == [] && CauseList(revoked.err) == [];
  }

  /** Whatever typed error is found here is found there, field by field. */
  lemma {:induction false} RemoteAs(err: Err, render: Err -> Bytes, t: Target)
    ensures As(Remote(err, render), t) == Landed(As(err, t))
    decreases Rank(err), 1, 0
  {
    RankOfCauses(err);
    var causes := CauseList(err);
    var a, b, c := Concrete(err), RemoteAll(causes, render), SentinelsOf(Bits(err, 0), 0);
    assert CauseList(Remote(err, render)) == a + b + c;
    RemoteAllAs(causes, render, t);
    ConcreteAs(err, t);
    NoTypedSentinel(Bits(err, 0), 0, t);
    AsConcat(a + b, c, t);
    AsConcat(a, b, t);
  }

  lemma {:induction false} RemoteAllAs(causes: seq<Ref>, render: Err -> Bytes, t: Target)
    ensures AsIn(RemoteAll(causes, render), t) == Landed(AsIn(causes, t))
    decreases MaxRank(causes), 0, |causes|
  {
    if causes != [] {
      RankOfHead(causes);
      RemoteAllAs(causes[1..], render, t);
      if causes[0].To? {
        RemoteAs(causes[0].err, render, t);
        var head := [To(Remote(causes[0].err, render))];
        AsConcat(head, RemoteAll(causes[1..], render), t);
        AsAlone(head[0], t);
      } else {
        assert RemoteAll(causes, render) == [] + RemoteAll(causes[1..], render) == RemoteAll(causes[1..], render);
      }
    }
  }

  /** The two typed errors lead to the native codes that they stand for, and to no other. */
  lemma TypedCodes(err: Err, c: nat)
    requires err.Limit? || err.Revoked?
    ensures FirstCode(err) == Some(if err.Limit? then 0x08F0_0005 else 0x08F0_0401)
    ensures HasCode(err, c) <==> Some(c) == FirstCode(err)
  {
    var cause := CauseList(err)[0];
    assert CauseList(err) == [cause] && [cause][1..] == [] && CauseList(cause.err) == [];
    assert FirstCode(cause.err) == Some(cause.err.code) && (HasCode(cause.err, c) <==> c == cause.err.code);
    assert FirstCodeIn([cause]) == FirstCode(cause.err) && (AnyHasCode([cause], c) <==> HasCode(cause.err, c));
  }
}
