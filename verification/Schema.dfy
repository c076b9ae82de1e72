/**
 * The typed payloads. Every record encoder of the source writes its fields in a fixed order and every decoder reads
 * fields in a fixed order, so each of them is a layout of named fields; one codec serves all layouts.
 */
module Schema {
  import opened Wire
  import opened Codec

  // ----- values with a reconstruction step

  const UTC_NAME: Bytes := [85, 84, 67]
  const ZERO_SECONDS := -62135596800
  const NANOS := 1_000_000_000

  /** A time.Time as the wire sees it: instant, observed zone, and whether its location is time.UTC. */
  datatype Time = Time(seconds: int, nanos: int, zone: Bytes, offset: int, utc: bool) {
    predicate IsZero() { seconds == ZERO_SECONDS && nanos == 0 }
    predicate Valid() {
      && I64_MIN <= seconds <= I64_MAX && 0 <= nanos < NANOS && I64_MIN <= offset <= I64_MAX
      && (utc ==> zone == UTC_NAME && offset == 0)
    }
  }

  const ZERO_TIME := Time(ZERO_SECONDS, 0, UTC_NAME, 0, true)

  datatype Source = Source(path: Bytes, data: Option<Bytes>, encoding: int, file: bool, set_: bool)

  /** The sources the public constructors can build: absent, bytes, or a file. */
  predicate Constructible(s: Source) {
    && (s.file ==> s.set_ && s.data.None?)
    && (!s.file ==> s.path == [])
    && (!s.set_ ==> s.data.None?)
  }

  // ----- layouts and values

  datatype Schema =
    | SBool | SInt | SU64 | SBytes | SText | SRaw | STime | SSource
    | SOpt(item: Schema) | SList(item: Schema, minSize: nat)
    | Field(name: Label, first: Schema, rest: Schema) | End   // a record: its named fields in wire order

  /** The field names of the records. */
  datatype Label =
    | NAlgorithm | NData | NAlias | NDigest | NDigestAlgorithm | NTimestamp | NIncludeCertificate
    | NOutputFormat | NCertificateTimeCheck | NDetached | NSignature | NEncoding | NSignerID | NXML
    | NSignNodeID | NParentSignNode | NParentNamespace | NCanonicalization | NExpectedBodyID | NBodyID
    | NWrapSOAP | NCertificate | NIssuer | NMode | NRevocationSource | NCheckTime | NReturnOCSPResponse | NType
    | NPath | NPassword | NFormat | NEnabled | NAddress | NPort | NUser | NInputPath | NOutputPath | NFields
    | NInfo | NSignerCert | NOCSPResponse | NSubject | NSerialNumber | NValidFrom | NValidUntil | NPolicy
    | NKeyUsage | NExtKeyUsage | NAuthKeyID | NSubjKeyID | NAlgorithmSignCert | NPublicKey | NOCSPURL | NCRLURL
    | NDeltaCRLURL | NSubjectCountry | NSubjectSerialNumber | NSubjectOrganization | NSubjectOrganizationalUnit
    | NPolicies | NKeyUsages | NExtKeyUsages | NIIN | NBIN | NSubjectType | NRoles | NAllowedHosts
    | NAllowedPorts | NRequireHTTPS | NAllowIPAddresses | NCollectObservations | NLibraryPath | NTSAURL
    | NCustomOCSP | NOCSPTimeout | NProxy | NTrustedCertificates | NMaxInputSize | NMaxOutputBufferSize
    | NAtomicZIPOutput | NEndpointPolicy | NOperation | NQueueWait | NNativeDuration | NTotalDuration
    | NErrorClass | NNativeCode | NExpected | NCode | NMessage | NRequested | NLimit | NEndpoint | NRevokedAt

  datatype Value =
    | VBool(b: bool) | VInt(i: int) | VU64(u: nat) | VBytes(o: Option<Bytes>) | VText(t: Bytes) | VRaw(r: Bytes)
    | VTime(at: Time) | VSource(src: Source)
    | VOpt(opt: Option<Value>) | VList(list: Option<seq<Value>>)
    | VField(first: Value, rest: Value) | VEnd

  predicate IsInt64(i: int) { I64_MIN <= i <= I64_MAX }

  predicate Typed(s: Schema, v: Value)
  {
    match s
    case SBool => v.VBool?
    case SInt => v.VInt? && IsInt64(v.i)
    case SU64 => v.VU64? && v.u < U64_LIMIT
    case SBytes => v.VBytes?
    case SText => v.VText?
    case SRaw => v.VRaw?
    case STime => v.VTime? && v.at.Valid()
    case SSource => v.VSource? && IsInt64(v.src.encoding)
    case SOpt(item) => v.VOpt? && (v.opt.Some? ==> Typed(item, v.opt.value))
    case SList(item, _) =>
      v.VList? && (v.list.Some? ==> forall i :: 0 <= i < |v.list.value| ==> Typed(item, v.list.value[i]))
    case Field(_, first, rest) => v.VField? && Typed(first, v.first) && Typed(rest, v.rest)
    case End => v.VEnd?
  }

  // ----- encoding

  function EncodeTime(e: Enc, t: Time): Enc
    requires t.Valid()
  {
    var f := PutBool(e, !t.IsZero());
    if t.IsZero() then f
    else PutBool(Put(PutText(Put(Put(f, U64(Pattern(t.seconds))), U64(Pattern(t.nanos))), t.zone),
                     U64(Pattern(t.offset))), t.utc)
  }

  function EncodeSource(e: Enc, s: Source): Enc
    requires IsInt64(s.encoding)
  {
    PutBool(PutBool(Put(PutText(PutBytes(e, s.data), s.path), U64(Pattern(s.encoding))), s.file), s.set_)
  }

  function Encode(e: Enc, s: Schema, v: Value): Enc
    requires Typed(s, v)
    decreases s, 0
  {
    match s
    case SBool => PutBool(e, v.b)
    case SInt => Put(e, U64(Pattern(v.i)))
    case SU64 => Put(e, U64(v.u))
    case SBytes => PutBytes(e, v.o)
    case SText => PutText(e, v.t)
    case SRaw => PutRaw(e, v.r)
    case STime => EncodeTime(e, v.at)
    case SSource => EncodeSource(e, v.src)
    case SOpt(item) =>
      var f := PutBool(e, v.opt.Some?);
      if v.opt.Some? then Encode(f, item, v.opt.value) else f
    case SList(item, _) =>
      if v.list.None? then PutLength(e, 0, false)
      else
        var f := PutLength(e, |v.list.value|, true);
        if f.err.Some? then f else EncodeItems(f, item, v.list.value)
    case Field(_, first, rest) => Encode(Encode(e, first, v.first), rest, v.rest)
    case End => e
  }

  function EncodeItems(e: Enc, item: Schema, values: seq<Value>): Enc
    requires forall i :: 0 <= i < |values| ==> Typed(item, values[i])
    decreases item, 1, |values|
  {
    if values == [] then e else EncodeItems(Encode(e, item, values[0]), item, values[1..])
  }

  // ----- decoding

  function GetInt(d: Dec): (int, Dec) {
    var (u, f) := GetUint(d, 8); (Signed(u), f)
  }

  function DecodeTime(d: Dec): (Time, Dec) {
    var (present, d0) := GetBool(d);
    if !present then (ZERO_TIME, d0)
    else
      var (seconds, d1) := GetInt(d0);
      var (nanos, d2) := GetInt(d1);
      var (zone, d3) := GetText(d2);
      var (offset, d4) := GetInt(d3);
      var (utc, d5) := GetBool(d4);
      if nanos < 0 || nanos >= NANOS then (ZERO_TIME, d5.(err := Some(Protocol)))
      else if utc then (Time(seconds, nanos, UTC_NAME, 0, true), d5)
      else (Time(seconds, nanos, zone, offset, false), d5)
  }

  function DecodeSource(d: Dec): (Source, Dec) {
    var (data, d0) := GetBytes(d);
    var (path, d1) := GetText(d0);
    var (encoding, d2) := GetInt(d1);
    var (file, d3) := GetBool(d2);
    var (set_, d4) := GetBool(d3);
    (if !set_ then Source([], None, encoding, false, false)
     else if file then Source(path, None, encoding, true, true)
     else Source([], data, encoding, false, true), d4)
  }

  function Decode(d: Dec, s: Schema): (Value, Dec)
    decreases s, 0
  {
    match s
    case SBool => var (b, f) := GetBool(d); (VBool(b), f)
    case SInt => var (i, f) := GetInt(d); (VInt(i), f)
    case SU64 => var (u, f) := GetUint(d, 8); (VU64(u), f)
    case SBytes => var (o, f) := GetBytes(d); (VBytes(o), f)
    case SText => var (t, f) := GetText(d); (VText(t), f)
    case SRaw => var (r, f) := GetRaw(d); (VRaw(r), f)
    case STime => var (t, f) := DecodeTime(d); (VTime(t), f)
    case SSource => var (t, f) := DecodeSource(d); (VSource(t), f)
    case SOpt(item) =>
      var (present, f) := GetBool(d);
      if !present then (VOpt(None), f) else var (v, g) := Decode(f, item); (VOpt(Some(v)), g)
    case SList(item, minSize) =>
      var (count, f) := GetLength(d, minSize);
      if count < 0 then (VList(None), f)
      else var (vs, g) := DecodeItems(f, item, count); (VList(Some(vs)), g)
    case Field(_, first, rest) =>
      var (v, f) := Decode(d, first);
      var (w, g) := Decode(f, rest);
      (VField(v, w), g)
    case End => (VEnd, d)
  }

  function DecodeItems(d: Dec, item: Schema, count: nat): (seq<Value>, Dec)
    decreases item, 1, count
  {
    if count == 0 then ([], d)
    else
      var (v, f) := Decode(d, item);
      var (vs, g) := DecodeItems(f, item, count - 1);
      ([v] + vs, g)
  }

  // ----- what comes back

  /** What a time becomes on the other side: its zone is lost exactly at the zero instant. */
  function Arrived(t: Time): Time { if t.IsZero() then ZERO_TIME else t }

  function ArrivedSource(s: Source): Source {
    if !s.set_ then Source([], None, s.encoding, false, false)
    else if s.file then s.(data := None) else s.(path := [])
  }

  function Image(s: Schema, v: Value): Value
    requires Typed(s, v)
    decreases s, 0
  {
    match s
    case STime => VTime(Arrived(v.at))
    case SSource => VSource(ArrivedSource(v.src))
    case SOpt(item) => if v.opt.None? then v else VOpt(Some(Image(item, v.opt.value)))
    case SList(item, _) =>
      if v.list.None? then v else VList(Some(ImageItems(item, v.list.value)))
    case Field(_, first, rest) => VField(Image(first, v.first), Image(rest, v.rest))
    case _ => v
  }

  function ImageItems(item: Schema, values: seq<Value>): seq<Value>
    requires forall i :: 0 <= i < |values| ==> Typed(item, values[i])
    decreases item, 1, |values|
  {
    if values == [] then [] else [Image(item, values[0])] + ImageItems(item, values[1..])
  }

  // ----- the smallest encoding, and the layouts whose declared minima are true lower bounds

  function MinSize(s: Schema): nat
  {
    match s
    case SBool => 1
    case SInt => 8
    case SU64 => 8
    case STime => 1
    case SSource => 18
    case SOpt(_) => 1
    case Field(_, first, rest) => MinSize(first) + MinSize(rest)
    case End => 0
    case _ => 4
  }

  predicate Sized(s: Schema)
  {
    match s
    case SOpt(item) => Sized(item)
    case SList(item, minSize) => 0 < minSize <= MinSize(item) && Sized(item)
    case Field(_, first, rest) => Sized(first) && Sized(rest)
    case _ => true
  }
}
