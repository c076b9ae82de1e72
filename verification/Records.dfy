/** The payload round trip for configuration, requests and results. */
module Records {
  import opened Wire
  import opened Codec
  import opened Schema
  import opened SchemaProof
  import opened RecordWriters
  import RecordReaders

  // ----- every declared item minimum is a true lower bound

  lemma ObservationsSized()
    ensures Sized(OBSERVATIONS) && MinSize(OBSERVATION) == 41
  {
    assert MinSize(OBSERVATION_RESULT) == 13;
    assert Sized(OBSERVATION_RESULT);
  }

  lemma ConfigSized()
    ensures Sized(CONFIG) && MinSize(TRUSTED_CERTIFICATE) == 24
  {
    assert Sized(CONFIG_LIMITS);
    TrustedSized();
    ListSized(NTrustedCertificates, TRUSTED_CERTIFICATE, 24, CONFIG_LIMITS);
    assert Sized(PROXY);
    assert Sized(CONFIG_NETWORK);
  }

  lemma TrustedSized()
    ensures Sized(TRUSTED_CERTIFICATE) && MinSize(TRUSTED_CERTIFICATE) == 24
  {
  }

  lemma ListSized(name: Label, item: Schema, minSize: nat, rest: Schema)
    requires Sized(item) && Sized(rest) && 0 < minSize <= MinSize(item)
    ensures Sized(Field(name, SList(item, minSize), rest))
  {
  }

  lemma CertificateInfoSized()
    ensures Sized(CERTIFICATE_INFO)
  {
    assert Sized(CERTIFICATE_DETAILS);
    assert Sized(CERTIFICATE_SUBJECT);
    assert Sized(CERTIFICATE_USAGE);
  }

  /** Every collection length check of every decoder uses a true lower bound of what its encoder writes. */
  lemma LayoutsSized(op: Operation)
    ensures Sized(RequestLayout(op)) && Sized(ResultLayout(op))
  {
    RequestsSized(op);
    ResultsSized(op);
  }

  lemma RequestsSized(op: Operation)
    ensures Sized(RequestLayout(op))
  {
  }

  lemma ResultsSized(op: Operation)
    ensures Sized(ResultLayout(op))
  {
    CertificateInfoSized();
  }

  // ----- writers and readers agree, name by name

  lemma RequestsAgree(op: Operation)
    ensures RecordReaders.RequestLayout(op) == RequestLayout(op)
  {
  }

  lemma ResultsAgree(op: Operation)
    ensures RecordReaders.ResultLayout(op) == ResultLayout(op)
  {
  }

  lemma ConfigAgrees()
    ensures RecordReaders.CONFIG == CONFIG && RecordReaders.OBSERVATIONS == OBSERVATIONS
  {
  }

  // ----- when the image is the value itself

  /** No zero instant outside UTC, no source the constructors cannot build. */
  predicate Faithful(s: Schema, v: Value)
    requires Typed(s, v)
    decreases s, 0
  {
    match s
    case STime => v.at.IsZero() ==> v.at.utc
    case SSource => Constructible(v.src)
    case SOpt(item) => v.opt.Some? ==> Faithful(item, v.opt.value)
    case SList(item, _) => v.list.Some? ==> forall i :: 0 <= i < |v.list.value| ==> Faithful(item, v.list.value[i])
    case Field(_, first, rest) => Faithful(first, v.first) && Faithful(rest, v.rest)
    case _ => true
  }

  lemma {:induction false} ImageIsValue(s: Schema, v: Value)
    requires Typed(s, v)
    ensures Image(s, v) == v <==> Faithful(s, v)
    decreases s, 0
  {
    match s
    case SOpt(item) => if v.opt.Some? { ImageIsValue(item, v.opt.value); }
    case SList(item, _) => if v.list.Some? { ImageItemsAreValues(item, v.list.value); }
    case Field(_, first, rest) =>
      ImageIsValue(first, v.first);
      ImageIsValue(rest, v.rest);
    case _ =>
  }

  lemma {:induction false} ImageItemsAreValues(item: Schema, values: seq<Value>)
    requires forall i :: 0 <= i < |values| ==> Typed(item, values[i])
    ensures ImageItems(item, values) == values <==> forall i :: 0 <= i < |values| ==> Faithful(item, values[i])
    decreases item, 1, |values|
  {
    if values != [] {
      ImageIsValue(item, values[0]);
      ImageItemsAreValues(item, values[1..]);
      HeadAndTail(Image(item, values[0]), ImageItems(item, values[1..]), values);
      AllFaithful(item, values);
    }
  }

  lemma HeadAndTail(head: Value, tail: seq<Value>, values: seq<Value>)
    requires values != []
    ensures [head] + tail == values <==> head == values[0] && tail == values[1..]
  {
    var both := [head] + tail;
    assert both[0] == head && both[1..] == tail;
    assert values == [values[0]] + values[1..];
  }

  lemma AllFaithful(item: Schema, values: seq<Value>)
    requires values != [] && forall i :: 0 <= i < |values| ==> Typed(item, values[i])
    ensures (forall i :: 0 <= i < |values| ==> Faithful(item, values[i])) <==>
      Faithful(item, values[0]) && forall i :: 0 <= i < |values[1..]| ==> Faithful(item, values[1..][i])
  {
    var tail := values[1..];
    assert forall i :: 0 < i < |values| ==> values[i] == tail[i - 1];
    assert forall i :: 0 <= i < |tail| ==> tail[i] == values[i + 1];
  }

  /** Layouts without times and sources always come back as they were. */
  predicate NoReconstruction(s: Schema) {
    match s
    case STime => false
    case SSource => false
    case SOpt(item) => NoReconstruction(item)
    case SList(item, _) => NoReconstruction(item)
    case Field(_, first, rest) => NoReconstruction(first) && NoReconstruction(rest)
    case _ => true
  }

  lemma {:induction false} PlainFaithful(s: Schema, v: Value)
    requires Typed(s, v) && NoReconstruction(s)
    ensures Faithful(s, v)
    decreases s
  {
    match s
    case SOpt(item) => if v.opt.Some? { PlainFaithful(item, v.opt.value); }
    case SList(item, _) =>
      if v.list.Some? {
        forall i | 0 <= i < |v.list.value|
          ensures Faithful(item, v.list.value[i])
        {
          PlainFaithful(item, v.list.value[i]);
        }
      }
    case Field(_, first, rest) => PlainFaithful(first, v.first); PlainFaithful(rest, v.rest);
    case _ =>
  }

  // ----- payloads

  datatype Payload = Payload(metadata: Bytes, blocks: seq<Bytes>)

  function EncodePayload(s: Schema, v: Value, inputLimit: int): Option<Payload>
    requires Typed(s, v)
  {
    var e := Encode(NewEnc(inputLimit), s, v);
    if e.err.Some? then None else Some(Payload(e.data, e.blocks))
  }

  /**
   * Decodes and insists that no metadata is left over. Where nothing is expected at all, as for the results of void
   * operations and the request without arguments, no block may be there either.
   */
  function DecodePayload(s: Schema, p: Payload): Option<Value> {
    var (v, d) := Decode(Dec(p.metadata, p.blocks, None), s);
    if d.err.Some? || d.data != [] || (s.End? && p.blocks != []) then None else Some(v)
  }

  /**
   * For every layout with true minima, every value the encoder accepts and any blocks appended in transit, the
   * decoder succeeds without trailing metadata, unless it expects nothing and a block follows. It returns the value
   * itself exactly when the value is faithful.
   */
  lemma PayloadRoundTrip(s: Schema, v: Value, inputLimit: int, more: seq<Bytes>)
    requires Typed(s, v) && Sized(s) && EncodePayload(s, v, inputLimit).Some?
    ensures var p := EncodePayload(s, v, inputLimit).value;
      var arrived := DecodePayload(s, p.(blocks := p.blocks + more));
      && arrived == (if s.End? && more != [] then None else Some(Image(s, v)))
      && (arrived == Some(v) <==> Faithful(s, v) && (s.End? ==> more == []))
  {
    var e := NewEnc(inputLimit);
    var f := Encode(e, s, v);
    EncodeGrew(e, s, v);
    assert Delta(e, f) + [] == f.data;
    DecodeEncoded(e, s, v, f.blocks + more, []);
    ImageIsValue(s, v);
  }

  predicate IsVoid(op: Operation) { op.LoadKeyStore? || op.LoadTrustedCertificate? || op.SetProxy? }

  /** The result of a void operation and the request without arguments are the null payload, and nothing else is. */
  lemma NullPayload(op: Operation, p: Payload)
    ensures IsVoid(op) ==> (DecodePayload(RecordReaders.ResultLayout(op), p).Some? <==> p == Payload([], []))
    ensures op.ExportCertificate? ==>
      (DecodePayload(RecordReaders.RequestLayout(op), p).Some? <==> p == Payload([], []))
  {
  }

  /** Every request, every result and the configuration come back from their own readers as they were written. */
  lemma RequestRoundTrip(op: Operation, v: Value, inputLimit: int)
    requires Typed(RequestLayout(op), v) && EncodePayload(RequestLayout(op), v, inputLimit).Some?
    ensures var p := EncodePayload(RequestLayout(op), v, inputLimit).value;
      DecodePayload(RecordReaders.RequestLayout(op), p) == Some(v) <==> Faithful(RequestLayout(op), v)
  {
    LayoutsSized(op);
    RequestsAgree(op);
    WholeRoundTrip(RequestLayout(op), v, inputLimit);
  }

  lemma ResultRoundTrip(op: Operation, v: Value)
    requires Typed(ResultLayout(op), v) && EncodePayload(ResultLayout(op), v, 0).Some?
    ensures var p := EncodePayload(ResultLayout(op), v, 0).value;
      DecodePayload(RecordReaders.ResultLayout(op), p) == Some(v) <==> Faithful(ResultLayout(op), v)
  {
    LayoutsSized(op);
    ResultsAgree(op);
    WholeRoundTrip(ResultLayout(op), v, 0);
  }

  lemma ConfigRoundTrip(v: Value, inputLimit: int)
    requires Typed(CONFIG, v) && EncodePayload(CONFIG, v, inputLimit).Some?
    ensures var p := EncodePayload(CONFIG, v, inputLimit).value;
      DecodePayload(RecordReaders.CONFIG, p) == Some(v) <==> Faithful(CONFIG, v)
  {
    ConfigSized();
    ConfigAgrees();
    WholeRoundTrip(CONFIG, v, inputLimit);
  }

  lemma WholeRoundTrip(s: Schema, v: Value, inputLimit: int)
    requires Typed(s, v) && Sized(s) && EncodePayload(s, v, inputLimit).Some?
    ensures var arrived := DecodePayload(s, EncodePayload(s, v, inputLimit).value);
      arrived == Some(Image(s, v)) && (arrived == Some(v) <==> Faithful(s, v))
  {
    PayloadRoundTrip(s, v, inputLimit, []);
    var p := EncodePayload(s, v, inputLimit).value;
    assert p.blocks + [] == p.blocks;
  }

  // ----- records by field name

  /** What an encoder writes for a record given by its fields. */
  function Gather(s: Schema, record: Label -> Value): Value {
    match s
    case Field(name, _, rest) => VField(record(name), Gather(rest, record))
    case _ => VEnd
  }

  /** The field of a decoded record that its reader stores under a name. */
  function Lookup(s: Schema, v: Value, name: Label): Option<Value> {
    if !s.Field? || !v.VField? then None
    else if s.name == name then Some(v.first) else Lookup(s.rest, v.rest, name)
  }

  predicate Has(s: Schema, name: Label) { s.Field? && (s.name == name || Has(s.rest, name)) }

  /** The type of a field. */
  function TypeOf(s: Schema, name: Label): Schema
    requires Has(s, name)
  {
    if s.name == name then s.first else TypeOf(s.rest, name)
  }

  lemma {:induction false} FieldTyped(s: Schema, record: Label -> Value, name: Label)
    requires Has(s, name) && Typed(s, Gather(s, record))
    ensures Typed(TypeOf(s, name), record(name))
    decreases s
  {
    if s.name != name { FieldTyped(s.rest, record, name); }
  }

  /** A field arrives as its own image, and as itself exactly when that field is faithful. */
  ghost predicate Arrives(s: Schema, r: Schema, arrived: Value, name: Label, sent: Value)
    requires Has(s, name) && Typed(TypeOf(s, name), sent)
  {
    && Lookup(r, arrived, name) == Some(Image(TypeOf(s, name), sent))
    && (Lookup(r, arrived, name) == Some(sent) <==> Faithful(TypeOf(s, name), sent))
  }

  lemma {:induction false} FieldFound(s: Schema, record: Label -> Value, name: Label)
    requires Has(s, name) && Typed(s, Gather(s, record)) && Typed(TypeOf(s, name), record(name))
    ensures Arrives(s, s, Image(s, Gather(s, record)), name, record(name))
    decreases s
  {
    if s.name == name { ImageIsValue(s.first, record(name)); } else { FieldFound(s.rest, record, name); }
  }

  /**
   * Every field that a request's encoder writes is stored by its decoder under the same name, as the image of its
   * value, whatever the other fields are.
   */
  lemma RequestFieldArrives(op: Operation, record: Label -> Value, inputLimit: int, name: Label)
    requires var s := RequestLayout(op); var v := Gather(s, record);
      Has(s, name) && Typed(s, v) && EncodePayload(s, v, inputLimit).Some?
    ensures Typed(TypeOf(RequestLayout(op), name), record(name))
    ensures var s := RequestLayout(op); var r := RecordReaders.RequestLayout(op);
      var arrived := DecodePayload(r, EncodePayload(s, Gather(s, record), inputLimit).value);
      arrived.Some? && Arrives(s, r, arrived.value, name, record(name))
  {
    var s := RequestLayout(op);
    LayoutsSized(op);
    RequestsAgree(op);
    WholeRoundTrip(s, Gather(s, record), inputLimit);
    FieldTyped(s, record, name);
    FieldFound(s, record, name);
  }

  /** The same for the record inside a result, which is optional. */
  lemma ResultFieldArrives(op: Operation, record: Label -> Value, name: Label)
    requires ResultLayout(op).SOpt?
    requires var s := ResultLayout(op); var v := VOpt(Some(Gather(s.item, record)));
      Has(s.item, name) && Typed(s, v) && EncodePayload(s, v, 0).Some?
    ensures Typed(TypeOf(ResultLayout(op).item, name), record(name))
    ensures var s := ResultLayout(op); var r := RecordReaders.ResultLayout(op);
      var arrived := DecodePayload(r, EncodePayload(s, VOpt(Some(Gather(s.item, record))), 0).value);
      && r.SOpt? && arrived.Some? && arrived.value.VOpt? && arrived.value.opt.Some?
      && Arrives(s.item, r.item, arrived.value.opt.value, name, record(name))
  {
    var s := ResultLayout(op);
    LayoutsSized(op);
    ResultsAgree(op);
    WholeRoundTrip(s, VOpt(Some(Gather(s.item, record))), 0);
    FieldTyped(s.item, record, name);
    FieldFound(s.item, record, name);
  }

  /** The configuration holds no time and no source: every field of it arrives as itself. */
  lemma ConfigFieldArrives(record: Label -> Value, inputLimit: int, name: Label)
    requires var v := Gather(CONFIG, record);
      Has(CONFIG, name) && Typed(CONFIG, v) && EncodePayload(CONFIG, v, inputLimit).Some?
    ensures var p := EncodePayload(CONFIG, Gather(CONFIG, record), inputLimit).value;
      var arrived := DecodePayload(RecordReaders.CONFIG, p);
      arrived.Some? && Lookup(RecordReaders.CONFIG, arrived.value, name) == Some(record(name))
  {
    ConfigSized();
    ConfigAgrees();
    ConfigPlain();
    PlainRecordArrives(CONFIG, record, inputLimit, name);
  }

  lemma PlainRecordArrives(s: Schema, record: Label -> Value, inputLimit: int, name: Label)
    requires Has(s, name) && Typed(s, Gather(s, record)) && Sized(s) && NoReconstruction(s)
    requires EncodePayload(s, Gather(s, record), inputLimit).Some?
    ensures var arrived := DecodePayload(s, EncodePayload(s, Gather(s, record), inputLimit).value);
      arrived.Some? && Lookup(s, arrived.value, name) == Some(record(name))
  {
    WholeRoundTrip(s, Gather(s, record), inputLimit);
    FieldTyped(s, record, name);
    FieldFound(s, record, name);
    PlainField(s, name);
    PlainFaithful(TypeOf(s, name), record(name));
  }

  lemma {:induction false} PlainField(s: Schema, name: Label)
    requires Has(s, name) && NoReconstruction(s)
    ensures NoReconstruction(TypeOf(s, name))
    decreases s
  {
    if s.name != name { PlainField(s.rest, name); }
  }

  lemma ConfigPlain()
    ensures NoReconstruction(CONFIG)
  {
    NetworkPlain();
  }

  lemma NetworkPlain()
    ensures NoReconstruction(CONFIG_NETWORK)
  {
    LimitsPlain();
    assert NoReconstruction(PROXY);
    assert NoReconstruction(TRUSTED_CERTIFICATE);
  }

  lemma LimitsPlain()
    ensures NoReconstruction(CONFIG_LIMITS)
  {
    assert NoReconstruction(ENDPOINT_POLICY);
  }

  /** The zone of a zero instant does not survive: a concrete time whose offset is lost. */
  lemma ZeroInstantLosesItsZone()
    ensures var t := Time(ZERO_SECONDS, 0, [43], 3600, false);
      && t.Valid()
      && var p := EncodePayload(STime, VTime(t), 0);
         p.Some? && DecodePayload(STime, p.value) == Some(VTime(ZERO_TIME)) && ZERO_TIME != t
  {
    var t := Time(ZERO_SECONDS, 0, [43], 3600, false);
    assert EncodeTime(NewEnc(0), t) == Enc([0], [], 0, None) by { assert [] + [0] == [0]; }
    PayloadRoundTrip(STime, VTime(t), 0, []);
    var p := EncodePayload(STime, VTime(t), 0).value;
    assert p.blocks + [] == p.blocks;
  }
}
