/** The metadata writer/reader and the payload encoder/decoder built on them. */
module Codec {
  import opened Wire

  const MAX_METADATA_SIZE := 65536
  const MAX_BLOCKS := 1024

  datatype Fault = MetadataTooLarge | Protocol | InvalidInput

  function Total(blocks: seq<Bytes>): nat { if blocks == [] then 0 else |blocks[0]| + Total(blocks[1..]) }

  lemma {:induction false} TotalConcat(a: seq<Bytes>, b: seq<Bytes>)
    ensures Total(a + b) == Total(a) + Total(b)
  {
    if a == [] {
      assert a + b == b;
    } else {
      assert (a + b)[1..] == a[1..] + b;
      TotalConcat(a[1..], b);
    }
  }

  // ----- encoder state as a value; a block is its bytes

  datatype Enc = Enc(data: Bytes, blocks: seq<Bytes>, limit: int, err: Option<Fault>)

  function NewEnc(limit: int): Enc { Enc([], [], limit, None) }

  function Fail(e: Enc, f: Fault): Enc { e.(err := Some(f)) }

  /** Appends if the sticky error is clear and the bytes still fit. */
  function Put(e: Enc, bytes: Bytes): Enc {
    if e.err.Some? then e
    else if |bytes| > MAX_METADATA_SIZE - |e.data| then Fail(e, MetadataTooLarge)
    else e.(data := e.data + bytes)
  }

  function PutBool(e: Enc, b: bool): Enc { Put(e, [if b then 1 else 0]) }

  function PutRaw(e: Enc, value: Bytes): Enc {
    if |value| > MAX_METADATA_SIZE then Fail(e, MetadataTooLarge) else Put(e, U32(|value|) + value)
  }

  /** Zero for a nil collection, length plus one otherwise. */
  function PutLength(e: Enc, length: nat, present: bool): Enc {
    if !present then Put(e, U32(0))
    else if length > MAX_METADATA_SIZE then Fail(e, MetadataTooLarge)
    else Put(e, U32(length + 1))
  }

  /** A one-based reference to a new block; zero means nil. */
  function Add(e: Enc, block: Bytes): (Enc, nat) {
    if e.err.Some? then (e, 0)
    else if |e.blocks| >= MAX_BLOCKS then (Fail(e, MetadataTooLarge), 0)
    else if |block| > U64_LIMIT - 1 - Total(e.blocks) then (Fail(e, Protocol), 0)
    else (e.(blocks := e.blocks + [block]), |e.blocks| + 1)
  }

  function PutBytes(e: Enc, value: Option<Bytes>): Enc {
    match value
    case None => Put(e, U32(0))
    case Some(data) =>
      if e.limit > 0 && |data| > e.limit then Fail(e, InvalidInput)
      else var (f, ref) := Add(e, data); Put(f, U32(ref))
  }

  function PutText(e: Enc, text: Bytes): Enc {
    if text == [] then Put(e, U32(0)) else var (f, ref) := Add(e, text); Put(f, U32(ref))
  }

  // ----- decoder state as a value

  datatype Dec = Dec(data: Bytes, blocks: seq<Bytes>, err: Option<Fault>)

  function Take(d: Dec, n: nat): (Bytes, Dec) {
    if d.err.Some? then ([], d)
    else if n > |d.data| then ([], d.(err := Some(Protocol)))
    else (d.data[..n], d.(data := d.data[n..]))
  }

  function GetUint(d: Dec, n: nat): (nat, Dec) {
    var (value, f) := Take(d, n); (FromBigEndian(value), f)
  }

  function GetBool(d: Dec): (bool, Dec) {
    var (value, f) := Take(d, 1);
    if value == [] then (false, f)
    else (value[0] == 1, if value[0] > 1 then f.(err := Some(Protocol)) else f)
  }

  function GetRaw(d: Dec): (Bytes, Dec) {
    var (size, f) := GetUint(d, 4);
    if size > |f.data| then ([], f.(err := Some(Protocol)))
    else if size == 0 then ([], f) else Take(f, size)
  }

  /** A count, or -1 for a nil collection or an error; every item needs at least `minSize` bytes of what is left. */
  function GetLength(d: Dec, minSize: nat): (int, Dec) {
    var (encoded, f) := GetUint(d, 4);
    if f.err.Some? || encoded == 0 then (-1, f)
    else if minSize == 0 || encoded - 1 > MAX_METADATA_SIZE || encoded - 1 > |f.data| / minSize then
      (-1, f.(err := Some(Protocol)))
    else (encoded - 1, f)
  }

  function GetBytes(d: Dec): (Option<Bytes>, Dec) {
    var (ref, f) := GetUint(d, 4);
    if ref == 0 then (None, f)
    else if ref > |f.blocks| then (None, f.(err := Some(Protocol)))
    else (Some(f.blocks[ref - 1]), f)
  }

  function GetText(d: Dec): (Bytes, Dec) {
    var (value, f) := GetBytes(d);
    (if value.Some? then value.value else [], f)
  }

  // ----- what an error-free encoding step leaves behind

  /** `f` extends `e` by exactly the metadata `m`, both without error; blocks only grow. */
  ghost predicate Wrote(e: Enc, f: Enc, m: Bytes) {
    && e.err.None? && f.err.None? && f.data == e.data + m && e.blocks <= f.blocks && f.limit == e.limit
    && (|e.data| <= MAX_METADATA_SIZE ==> |f.data| <= MAX_METADATA_SIZE)
    && (|e.blocks| <= MAX_BLOCKS ==> |f.blocks| <= MAX_BLOCKS)
  }

  lemma WroteTwice(e: Enc, f: Enc, g: Enc, m: Bytes, n: Bytes)
    requires Wrote(e, f, m) && Wrote(f, g, n)
    ensures Wrote(e, g, m + n)
  {
    assert e.data + m + n == e.data + (m + n);
  }

  lemma Regroup(a: Bytes, b: Bytes, c: Bytes, d: Bytes, f: Bytes, rest: Bytes)
    ensures (a + (b + (c + (d + f)))) + rest == a + (b + (c + (d + (f + rest))))
  {
  }

  lemma TakeBack(m: Bytes, rest: Bytes, blocks: seq<Bytes>)
    ensures Take(Dec(m + rest, blocks, None), |m|) == (m, Dec(rest, blocks, None))
  {
    assert (m + rest)[..|m|] == m && (m + rest)[|m|..] == rest;
  }

  lemma UintBack(n: nat, v: nat, rest: Bytes, blocks: seq<Bytes>)
    requires (n == 4 && v < U32_LIMIT) || (n == 8 && v < U64_LIMIT)
    ensures GetUint(Dec(BigEndian(n, v) + rest, blocks, None), n) == (v, Dec(rest, blocks, None))
  {
    TakeBack(BigEndian(n, v), rest, blocks);
    if n == 4 { U32RoundTrip(v); } else { U64RoundTrip(v); }
  }

  lemma BoolBack(b: bool, rest: Bytes, blocks: seq<Bytes>)
    ensures GetBool(Dec([if b then 1 else 0] + rest, blocks, None)) == (b, Dec(rest, blocks, None))
  {
    TakeBack([if b then 1 else 0], rest, blocks);
  }

  /** Raw metadata reads back, and the reader stops exactly behind it. */
  lemma RawBack(value: Bytes, rest: Bytes, blocks: seq<Bytes>)
    requires |value| <= MAX_METADATA_SIZE
    ensures GetRaw(Dec(U32(|value|) + value + rest, blocks, None)) == (value, Dec(rest, blocks, None))
  {
    assert U32(|value|) + value + rest == U32(|value|) + (value + rest);
    UintBack(4, |value|, value + rest, blocks);
    TakeBack(value, rest, blocks);
  }

  lemma TimesMonotone(a: nat, b: nat, c: nat)
    requires a <= b
    ensures a * c <= b * c
  {
  }

  lemma QuotientBound(length: nat, minSize: nat, n: nat)
    requires minSize > 0 && length * minSize <= n
    ensures length <= n / minSize
  {
    var q := n / minSize;
    assert n == q * minSize + n % minSize;
    if length >= q + 1 {
      TimesMonotone(q + 1, length, minSize);
      assert false;
    }
  }

  /** A length reads back whenever what follows is long enough for that many minimal items. */
  lemma LengthBack(length: nat, minSize: nat, rest: Bytes, blocks: seq<Bytes>)
    requires length <= MAX_METADATA_SIZE && minSize > 0 && length * minSize <= |rest|
    ensures GetLength(Dec(U32(length + 1) + rest, blocks, None), minSize) == (length, Dec(rest, blocks, None))
  {
    UintBack(4, length + 1, rest, blocks);
    QuotientBound(length, minSize, |rest|);
  }

  lemma NilLengthBack(minSize: nat, rest: Bytes, blocks: seq<Bytes>)
    ensures GetLength(Dec(U32(0) + rest, blocks, None), minSize) == (-1, Dec(rest, blocks, None))
  {
    UintBack(4, 0, rest, blocks);
  }

  /** A byte field, nil and empty kept apart, reads back against any block list that extends the encoder's. */
  lemma BytesBack(e: Enc, value: Option<Bytes>, blocks: seq<Bytes>, rest: Bytes) returns (m: Bytes)
    requires e.err.None? && PutBytes(e, value).err.None?
    requires |e.blocks| <= MAX_BLOCKS && PutBytes(e, value).blocks <= blocks
    ensures |m| == 4 && Wrote(e, PutBytes(e, value), m)
    ensures GetBytes(Dec(m + rest, blocks, None)) == (value, Dec(rest, blocks, None))
  {
    var ref := if value.None? then 0 else |e.blocks| + 1;
    m := U32(ref);
    UintBack(4, ref, rest, blocks);
    if value.Some? { assert blocks[ref - 1] == PutBytes(e, value).blocks[ref - 1]; }
  }

  lemma TextBack(e: Enc, text: Bytes, blocks: seq<Bytes>, rest: Bytes) returns (m: Bytes)
    requires e.err.None? && PutText(e, text).err.None?
    requires |e.blocks| <= MAX_BLOCKS && PutText(e, text).blocks <= blocks
    ensures |m| == 4 && Wrote(e, PutText(e, text), m)
    ensures GetText(Dec(m + rest, blocks, None)) == (text, Dec(rest, blocks, None))
  {
    var ref := if text == [] then 0 else |e.blocks| + 1;
    m := U32(ref);
    UintBack(4, ref, rest, blocks);
    if text != [] { assert blocks[ref - 1] == PutText(e, text).blocks[ref - 1]; }
  }

  // ----- the mutable objects of the source

  class PayloadEncoder {
    var data: Bytes
    var blocks: seq<Bytes>
    var size: nat
    var inputLimit: int
    var err: Option<Fault>

    function View(): Enc reads this { Enc(data, blocks, inputLimit, err) }

    /** The running size is the sum of the block lengths. */
    ghost predicate Valid() reads this { size == Total(blocks) }

    constructor (inputLimit: int)
      ensures Valid() && View() == NewEnc(inputLimit)
    {
      data, blocks, size, this.inputLimit, err := [], [], 0, inputLimit, None;
    }

    method Reserve(n: nat) returns (ok: bool)
      modifies this`err
      ensures ok == (old(err).None? && n <= MAX_METADATA_SIZE - |data|)
      ensures err == if ok || old(err).Some? then old(err) else Some(MetadataTooLarge)
    {
      if err.Some? { return false; }
      if n > MAX_METADATA_SIZE - |data| {
        err := Some(MetadataTooLarge);
        return false;
      }
      return true;
    }

    method Uint32(value: nat)
      modifies this`data, this`err
      ensures View() == Put(old(View()), U32(value))
    {
      var ok := Reserve(4);
      if ok { data := data + U32(value); }
    }

    method Uint64(value: nat)
      modifies this`data, this`err
      ensures View() == Put(old(View()), U64(value))
    {
      var ok := Reserve(8);
      if ok { data := data + U64(value); }
    }

    method Boolean(value: bool)
      modifies this`data, this`err
      ensures View() == PutBool(old(View()), value)
    {
      var ok := Reserve(1);
      if ok { data := data + [if value then 1 else 0]; }
    }

    method Raw(value: Bytes)
      modifies this`data, this`err
      ensures View() == PutRaw(old(View()), value)
    {
      if |value| > MAX_METADATA_SIZE {
        err := Some(MetadataTooLarge);
        return;
      }
      var ok := Reserve(|value| + 4);
      if !ok { return; }
      Uint32(|value|);
      data := data + value;
      assert data == old(data) + (U32(|value|) + value);
    }

    method Length(length: nat, present: bool) returns (go: bool)
      modifies this`data, this`err
      ensures View() == PutLength(old(View()), length, present)
      ensures go == (present && err.None?)
    {
      if !present {
        Uint32(0);
        return false;
      }
      if length > MAX_METADATA_SIZE {
        err := Some(MetadataTooLarge);
        return false;
      }
      Uint32(length + 1);
      return err.None?;
    }

    method Append(block: Bytes) returns (ref: nat)
      requires Valid()
      modifies this`blocks, this`size, this`err
      ensures Valid() && (View(), ref) == Add(old(View()), block)
    {
      if err.Some? { return 0; }
      var index := |blocks|;
      if index >= MAX_BLOCKS {
        err := Some(MetadataTooLarge);
        return 0;
      }
      if |block| > U64_LIMIT - 1 - size {
        err := Some(Protocol);
        return 0;
      }
      TotalConcat(blocks, [block]);
      size := size + |block|;
      blocks := blocks + [block];
      return index + 1;
    }

    method ByteField(value: Option<Bytes>)
      requires Valid()
      modifies this`data, this`blocks, this`size, this`err
      ensures Valid() && View() == PutBytes(old(View()), value)
    {
      var ref := 0;
      if value.Some? {
        if inputLimit > 0 && |value.value| > inputLimit {
          err := Some(InvalidInput);
          return;
        }
        ref := Append(value.value);
      }
      Uint32(ref);
    }

    method TextField(value: Bytes)
      requires Valid()
      modifies this`data, this`blocks, this`size, this`err
      ensures Valid() && View() == PutText(old(View()), value)
    {
      var ref := 0;
      if value != [] { ref := Append(value); }
      Uint32(ref);
    }
  }

  class PayloadDecoder {
    var data: Bytes
    var blocks: seq<Bytes>
    var err: Option<Fault>

    function View(): Dec reads this { Dec(data, blocks, err) }

    constructor (data: Bytes, blocks: seq<Bytes>)
      ensures View() == Dec(data, blocks, None)
    {
      this.data, this.blocks, err := data, blocks, None;
    }

    method TakeBytes(n: nat) returns (value: Bytes)
      modifies this`data, this`err
      ensures (value, View()) == Take(old(View()), n)
    {
      if err.Some? { return []; }
      if n > |data| {
        err := Some(Protocol);
        return [];
      }
      value := data[..n];
      data := data[n..];
    }

    method Uint(n: nat) returns (value: nat)
      modifies this`data, this`err
      ensures (value, View()) == GetUint(old(View()), n)
    {
      var taken := TakeBytes(n);
      value := FromBigEndian(taken);
    }

    method Boolean() returns (value: bool)
      modifies this`data, this`err
      ensures (value, View()) == GetBool(old(View()))
    {
      var taken := TakeBytes(1);
      if taken == [] { return false; }
      if taken[0] > 1 { err := Some(Protocol); }
      return taken[0] == 1;
    }

    method Raw() returns (value: Bytes)
      modifies this`data, this`err
      ensures (value, View()) == GetRaw(old(View()))
    {
      var size := Uint(4);
      if size > |data| {
        err := Some(Protocol);
        return [];
      }
      if size == 0 { return []; }
      value := TakeBytes(size);
    }

    method Length(minSize: nat) returns (count: int)
      modifies this`data, this`err
      ensures (count, View()) == GetLength(old(View()), minSize)
    {
      var encoded := Uint(4);
      if err.Some? || encoded == 0 { return -1; }
      if minSize == 0 || encoded - 1 > MAX_METADATA_SIZE || encoded - 1 > |data| / minSize {
        err := Some(Protocol);
        return -1;
      }
      return encoded - 1;
    }

    method ByteField() returns (value: Option<Bytes>)
      modifies this`data, this`err
      ensures (value, View()) == GetBytes(old(View()))
    {
      var ref := Uint(4);
      if ref == 0 { return None; }
      if ref > |blocks| {
        err := Some(Protocol);
        return None;
      }
      return Some(blocks[ref - 1]);
    }

    method TextField() returns (value: Bytes)
      modifies this`data, this`err
      ensures (value, View()) == GetText(old(View()))
    {
      var taken := ByteField();
      value := if taken.Some? then taken.value else [];
    }
  }
}
