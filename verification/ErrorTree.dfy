/** Error trees and their transport: kind, direct causes, sentinel bits and text at every node. */
module ErrorTree {
  import opened Wire
  import opened Codec
  import opened Schema

  const SENTINELS := 18
  const SENTINEL_LIMIT := 262144   // two to the number of sentinels
  const MAX_DEPTH := 32
  const BUFFER_TOO_SMALL := 0x08f0_0005
  const CERT_STATUS_REVOKED := 0x08f0_0401

  /**
   * A Go error value. `own` holds the listed sentinels a node's own Is method accepts. Links are what Unwrap returns:
   * nothing, one error (possibly nil), or a list of errors (possibly with nils).
   */
  datatype Err =
    | Sentinel(i: nat)
    | Kalkan(code: nat, message: Bytes)
    | Limit(operation: Bytes, requested: nat, limit: nat)
    | Revoked(endpoint: Bytes, at: Time)
    | Plain(text: Bytes, own: set<nat>, links: Links)
  /** A possibly nil error. */
  datatype Ref = Nil | To(err: Err)
  datatype Links = NoLinks | Single(cause: Ref) | Many(causes: seq<Ref>)

  /** Unwrap: the two typed errors lead to a native error with their code. */
  function Causes(err: Err): Option<seq<Ref>> {
    match err
    case Limit(_, _, _) => Some([To(Kalkan(BUFFER_TOO_SMALL, []))])
    case Revoked(_, _) => Some([To(Kalkan(CERT_STATUS_REVOKED, []))])
    case Plain(_, _, Single(cause)) => Some([cause])
    case Plain(_, _, Many(causes)) => Some(causes)
    case _ => None
  }

  function Listed(causes: Option<seq<Ref>>): seq<Ref> { if causes.Some? then causes.value else [] }

  function CauseList(err: Err): seq<Ref> { Listed(Causes(err)) }

  // ----- height of a tree, the measure of every traversal

  function Rank(err: Err): nat {
    match err
    case Limit(_, _, _) => 1
    case Revoked(_, _) => 1
    case Plain(_, _, Single(cause)) => RefRank(cause)
    case Plain(_, _, Many(causes)) => MaxRank(causes)
    case _ => 0
  }

  function RefRank(cause: Ref): nat { if cause.To? then Rank(cause.err) + 1 else 0 }

  function MaxRank(causes: seq<Ref>): nat {
    if causes == [] then 0
    else
      var head := RefRank(causes[0]);
      var tail := MaxRank(causes[1..]);
      if head > tail then head else tail
  }

  lemma RankOfHead(causes: seq<Ref>)
    requires causes != []
    ensures causes[0].To? ==> Rank(causes[0].err) < MaxRank(causes)
    ensures MaxRank(causes[1..]) <= MaxRank(causes)
  {
    assert causes[0].To? ==> RefRank(causes[0]) == Rank(causes[0].err) + 1;
  }

  lemma RankOfCauses(err: Err)
    ensures MaxRank(CauseList(err)) == Rank(err)
  {
    match err
    case Plain(_, _, Single(cause)) => assert MaxRank([cause]) == Rank(err);
    case _ =>
  }

  // ----- what callers ask of an error

  predicate OwnIs(err: Err, i: nat) { (err.Sentinel? && err.i == i) || (err.Plain? && i in err.own) }

  /** errors.Is for the listed sentinel `i`. */
  predicate Is(err: Err, i: nat)
    decreases Rank(err), 1, 0
  {
    RankOfCauses(err);
    OwnIs(err, i) || AnyIs(CauseList(err), i)
  }

  predicate AnyIs(causes: seq<Ref>, i: nat)
    decreases MaxRank(causes), 0, |causes|
  {
    causes != [] && (RankOfHead(causes); (causes[0].To? && Is(causes[0].err, i)) || AnyIs(causes[1..], i))
  }

  /** The code of the first native error in pre-order, as ErrorCodeOf finds it. */
  function FirstCode(err: Err): Option<nat>
    decreases Rank(err), 1, 0
  {
    RankOfCauses(err);
    if err.Kalkan? then Some(err.code) else FirstCodeIn(CauseList(err))
  }

  function FirstCodeIn(causes: seq<Ref>): Option<nat>
    decreases MaxRank(causes), 0, |causes|
  {
    if causes == [] then None
    else
      RankOfHead(causes);
      var first := if causes[0].To? then FirstCode(causes[0].err) else None;
      if first.Some? then first else FirstCodeIn(causes[1..])
  }

  /** errors.Is against a native error with code `c`. */
  predicate HasCode(err: Err, c: nat)
    decreases Rank(err), 1, 0
  {
    RankOfCauses(err);
    (err.Kalkan? && err.code == c) || AnyHasCode(CauseList(err), c)
  }

  predicate AnyHasCode(causes: seq<Ref>, c: nat)
    decreases MaxRank(causes), 0, |causes|
  {
    causes != [] && (RankOfHead(causes); (causes[0].To? && HasCode(causes[0].err, c)) || AnyHasCode(causes[1..], c))
  }

  /** Error(): the text of a plain error is its own; the typed ones are rendered from their fields. */
  function Text(err: Err, render: Err -> Bytes): Bytes { if err.Plain? then err.text else render(err) }

  /** Machine integers and representable times throughout the tree. */
  predicate Valid(err: Err) {
    match err
    case Sentinel(i) => i < SENTINELS
    case Kalkan(code, _) => code < U64_LIMIT
    case Limit(_, requested, limit) => requested < U64_LIMIT && limit < U64_LIMIT
    case Revoked(_, at) => at.Valid()
    case Plain(_, _, NoLinks) => true
    case Plain(_, _, Single(cause)) => cause.To? ==> Valid(cause.err)
    case Plain(_, _, Many(causes)) => forall i :: 0 <= i < |causes| && causes[i].To? ==> Valid(causes[i].err)
  }

  predicate ValidAll(causes: seq<Ref>) {
    forall i :: 0 <= i < |causes| && causes[i].To? ==> Valid(causes[i].err)
  }

  lemma ValidCauses(err: Err)
    requires Valid(err)
    ensures ValidAll(CauseList(err))
  {
    match err
    case Limit(_, _, _) => assert Valid(Kalkan(BUFFER_TOO_SMALL, []));
    case Revoked(_, _) => assert Valid(Kalkan(CERT_STATUS_REVOKED, []));
    case _ =>
  }

  // ----- encoding

  function Kind(err: Err): nat {
    match err case Kalkan(_, _) => 1 case Limit(_, _, _) => 2 case Revoked(_, _) => 3 case _ => 0
  }

  function KindLayout(kind: nat): Schema {
    match kind
    case 1 => Field(NCode, SU64, Field(NMessage, SText, End))
    case 2 => Field(NOperation, SText, Field(NRequested, SU64, Field(NLimit, SU64, End)))
    case 3 => Field(NEndpoint, SText, Field(NRevokedAt, STime, End))
    case _ => End
  }

  function KindValue(err: Err): Value {
    match err
    case Kalkan(code, message) => VField(VU64(code), VField(VText(message), VEnd))
    case Limit(operation, requested, limit) =>
      VField(VText(operation), VField(VU64(requested), VField(VU64(limit), VEnd)))
    case Revoked(endpoint, at) => VField(VText(endpoint), VField(VTime(at), VEnd))
    case _ => VEnd
  }

  lemma KindTyped(err: Err)
    requires Valid(err)
    ensures Typed(KindLayout(Kind(err)), KindValue(err)) && Sized(KindLayout(Kind(err)))
  {
    assert Typed(End, VEnd);
    match err
    case Kalkan(_, message) => assert Typed(Field(NMessage, SText, End), VField(VText(message), VEnd));
    case Limit(_, requested, limit) =>
      assert Typed(Field(NLimit, SU64, End), VField(VU64(limit), VEnd));
      assert Typed(Field(NRequested, SU64, Field(NLimit, SU64, End)),
                   VField(VU64(requested), VField(VU64(limit), VEnd)));
    case Revoked(_, at) => assert Typed(Field(NRevokedAt, STime, End), VField(VTime(at), VEnd));
    case _ =>
  }

  /** Bit i - from of the result says whether errors.Is(err, sentinel i). */
  function Bits(err: Err, from: nat): nat
    requires from <= SENTINELS
    decreases SENTINELS - from, err
  {
    if from == SENTINELS then 0 else (if Is(err, from) then 1 else 0) + 2 * Bits(err, from + 1)
  }

  function EncodeError(e: Enc, o: Ref, depth: nat, render: Err -> Bytes): Enc
    requires depth <= MAX_DEPTH && (o.To? ==> Valid(o.err))
    decreases MAX_DEPTH - depth, 1, 0
  {
    var e0 := PutBool(e, o.To?);
    if o.Nil? || e0.err.Some? then e0
    else if depth >= MAX_DEPTH then Fail(e0, MetadataTooLarge)
    else
      var err := o.err;
      ValidCauses(err);
      var e3 := EncodeCausesOf(EncodeKind(e0, err), Causes(err), depth, render);
      if e3.err.Some? then e3 else PutText(Put(e3, U64(Bits(err, 0))), Text(err, render))
  }

  function EncodeKind(e: Enc, err: Err): Enc
    requires Valid(err)
  {
    KindTyped(err);
    Encode(Put(e, U32(Kind(err))), KindLayout(Kind(err)), KindValue(err))
  }

  function EncodeCausesOf(e: Enc, causes: Option<seq<Ref>>, depth: nat, render: Err -> Bytes): Enc
    requires depth < MAX_DEPTH && ValidAll(Listed(causes))
    decreases MAX_DEPTH - depth, 0, 0
  {
    if causes.None? then PutLength(e, 0, false)
    else
      var f := PutLength(e, |causes.value|, true);
      if f.err.Some? then f else EncodeCauses(f, causes.value, depth + 1, render)
  }

  function EncodeCauses(e: Enc, causes: seq<Ref>, depth: nat, render: Err -> Bytes): Enc
    requires depth <= MAX_DEPTH && ValidAll(causes)
    decreases MAX_DEPTH - depth, 2, |causes|
  {
    if causes == [] then e
    else EncodeCauses(EncodeError(e, causes[0], depth, render), causes[1..], depth, render)
  }

  // ----- decoding

  function Rebuild(kind: nat, v: Value): seq<Ref> {
    match (kind, v)
    case (1, VField(VU64(code), VField(VText(message), VEnd))) => [To(Kalkan(code, message))]
    case (2, VField(VText(operation), VField(VU64(requested), VField(VU64(limit), VEnd)))) =>
      [To(Limit(operation, requested, limit))]
    case (3, VField(VText(endpoint), VField(VTime(at), VEnd))) => [To(Revoked(endpoint, at))]
    case _ => []
  }

  /** The sentinels whose bits are set, in list order. */
  function SentinelsOf(bits: nat, from: nat): seq<Ref>
    requires from <= SENTINELS
    decreases SENTINELS - from, bits
  {
    if from == SENTINELS then []
    else (if bits % 2 == 1 then [To(Sentinel(from))] else []) + SentinelsOf(bits / 2, from + 1)
  }

  function DecodeKind(d: Dec, kind: nat): (seq<Ref>, Dec) {
    var (v, f) := Decode(d, KindLayout(kind)); (Rebuild(kind, v), f)
  }

  function DecodeError(d: Dec, depth: nat): (Ref, Dec)
    requires depth <= MAX_DEPTH
    decreases MAX_DEPTH - depth, 1, 0
  {
    var (present, d0) := GetBool(d);
    if !present || d0.err.Some? then (Nil, d0)
    else if depth >= MAX_DEPTH then (Nil, d0.(err := Some(Protocol)))
    else
      var (kind, d1) := GetUint(d0, 4);
      if kind > 3 then (Nil, d1.(err := Some(Protocol))) else DecodeNode(d1, kind, depth)
  }

  /** Behind flag and kind: fields, causes, sentinels and text. */
  function DecodeNode(d1: Dec, kind: nat, depth: nat): (Ref, Dec)
    requires depth < MAX_DEPTH
    decreases MAX_DEPTH - depth, 0, 0
  {
    var (concrete, d2) := DecodeKind(d1, kind);
    var (count, d3) := GetLength(d2, 1);
    var (causes, d4) := if count < 0 then ([], d3) else DecodeCauses(d3, count, depth + 1);
    if d4.err.Some? then (Nil, d4) else FinishNode(concrete + causes, d4)
  }

  function FinishNode(causes: seq<Ref>, d4: Dec): (Ref, Dec) {
    var (bits, d5) := GetUint(d4, 8);
    if bits >= SENTINEL_LIMIT then (Nil, d5.(err := Some(Protocol)))
    else
      var (text, d6) := GetText(d5);
      if d6.err.Some? then (Nil, d6) else (To(Plain(text, {}, Many(causes + SentinelsOf(bits, 0)))), d6)
  }

  function DecodeCauses(d: Dec, count: nat, depth: nat): (seq<Ref>, Dec)
    requires depth <= MAX_DEPTH
    decreases MAX_DEPTH - depth, 2, count
  {
    if count == 0 then ([], d)
    else
      var (cause, f) := DecodeError(d, depth);
      var (rest, g) := DecodeCauses(f, count - 1, depth);
      ((if cause.To? then [cause] else []) + rest, g)
  }

  // ----- what arrives

  /** The typed error itself becomes the first cause; its time loses the zone only at the zero instant. */
  function Concrete(err: Err): seq<Ref> {
    match err
    case Kalkan(_, _) => [To(err)]
    case Limit(_, _, _) => [To(err)]
    case Revoked(endpoint, at) => [To(Revoked(endpoint, Arrived(at)))]
    case _ => []
  }

  function Remote(err: Err, render: Err -> Bytes): Err
    decreases Rank(err), 1, 0
  {
    RankOfCauses(err);
    Plain(Text(err, render), {},
          Many(Concrete(err) + RemoteAll(CauseList(err), render) + SentinelsOf(Bits(err, 0), 0)))
  }

  function RemoteAll(causes: seq<Ref>, render: Err -> Bytes): seq<Ref>
    decreases MaxRank(causes), 0, |causes|
  {
    if causes == [] then []
    else
      RankOfHead(causes);
      (if causes[0].To? then [To(Remote(causes[0].err, render))] else []) + RemoteAll(causes[1..], render)
  }
}
