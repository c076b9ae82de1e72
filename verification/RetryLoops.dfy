/**
 * The retry loops around native calls. The native side is an arbitrary function of the number of the call and the
 * capacities offered to it; `offered` records the capacities of every call made.
 */
module RetryLoops {
  import opened Wire
  import opened OutputBuffers

  /** growReportedCapacity: at or above the limit nothing grows; a positive capacity below it always does. */
  method GrowReported(size: int, reported: int, hard: int) returns (next: int, grown: bool)
    ensures next == Grow(size, reported, hard) && (!grown <==> next == size)
    ensures size >= Limit(hard) ==> !grown
    ensures 1 <= size < Limit(hard) ==>
      && grown && size < next <= Limit(hard)
      && next >= Min(2 * size, Limit(hard)) && next >= Min(reported, Limit(hard))
      && Doublings(next, Limit(hard)) < Doublings(size, Limit(hard))
  {
    next := Grow(size, reported, hard);
    grown := next != size;
    if 1 <= size < Limit(hard) { GrowingSpendsADoubling(size, next, Limit(hard)); }
  }

  /** From one call to the next the capacity doubles or reaches the limit. */
  ghost predicate Doubles(offered: seq<int>, i: nat, limit: int)
    requires i + 1 < |offered|
  {
    offered[i] < offered[i + 1] && offered[i + 1] >= Min(2 * offered[i], limit)
  }

  ghost predicate Ascending(offered: seq<int>, limit: int) {
    && (forall i :: 0 <= i < |offered| ==> 1 <= offered[i] <= limit)
    && (forall i {:trigger Doubles(offered, i, limit)} :: 0 <= i < |offered| - 1 ==> Doubles(offered, i, limit))
  }

  lemma AscendingGrows(offered: seq<int>, next: int, limit: int)
    requires offered != [] && Ascending(offered, limit)
    requires offered[|offered| - 1] < next <= limit && next >= Min(2 * offered[|offered| - 1], limit)
    ensures Ascending(offered + [next], limit)
  {
    forall i: nat | i < |offered|
      ensures Doubles(offered + [next], i, limit)
    {
      if i < |offered| - 1 { assert Doubles(offered, i, limit); }
    }
  }

  // ----- list calls, which report no length

  datatype ListReply = ListReply(failed: bool, code: int, data: Bytes, count: int)
  datatype Listing = Listing(data: Bytes, count: int)

  predicate ListRetries(reply: ListReply, size: int) {
    !reply.failed && (reply.code == BUFFER_TOO_SMALL || (reply.code == ERROR_OK && |reply.data| == size))
  }

  /** Every call but the last asked for another. */
  ghost predicate ListRetried(native: (nat, int) -> ListReply, offered: seq<int>) {
    forall i :: 0 <= i < |offered| - 1 ==> ListRetries(native(i, offered[i]), offered[i])
  }

  /** What the last reply turned into. */
  ghost predicate ListConcluded(r: Outcome<Listing>, reply: ListReply, size: int, limit: int) {
    match r
    case Ok(listing) =>
      !reply.failed && reply.code == ERROR_OK && listing == Listing(reply.data, reply.count) && |listing.data| != size
    case NativeError => reply.failed
    case CodeError(code) => !reply.failed && code == reply.code && code !in {ERROR_OK, BUFFER_TOO_SMALL}
    case LimitExceeded(requested, l) => ListRetries(reply, size) && size == limit == l < requested
    case _ => false
  }

  /** callListLocked. */
  method CallList(native: (nat, int) -> ListReply, configured: int, hard: int)
    returns (r: Outcome<Listing>, ghost offered: seq<int>)
    ensures Ascending(offered, Limit(hard)) && ListRetried(native, offered)
    ensures |offered| <= 1 + Doublings(Normalized(configured, DEFAULT_LIST), Limit(hard))
    ensures offered == [] <==> Normalized(configured, DEFAULT_LIST) > Limit(hard)
    ensures offered != [] ==> FirstOffer(offered[0], 0, configured, 1024 * 1024, hard)
    ensures r.LimitExceeded? ==> r.requested > r.limit == Limit(hard)
    ensures offered == [] ==> r.LimitExceeded?
    ensures offered != [] ==>
      var size := offered[|offered| - 1];
      ListConcluded(r, native(|offered| - 1, size), size, Limit(hard))
  {
    var size := Normalized(configured, DEFAULT_LIST);
    if size > Limit(hard) { return LimitExceeded(size, Limit(hard)), []; }
    var calls := 0;
    ghost var limit, budget := Limit(hard), Doublings(size, Limit(hard));
    offered := [size];
    while true
      invariant |offered| == calls + 1 && offered[calls] == size && 1 <= size <= limit
      invariant Ascending(offered, limit) && ListRetried(native, offered)
      invariant FirstOffer(offered[0], 0, configured, 1024 * 1024, hard)
      invariant calls + Doublings(size, limit) <= budget
      decreases Doublings(size, limit)
    {
      var reply := native(calls, size);
      calls := calls + 1;
      if reply.failed { return NativeError, offered; }
      if reply.code == BUFFER_TOO_SMALL || (reply.code == ERROR_OK && |reply.data| == size) {
        var newSize, grown := GrowReported(size, 0, hard);
        if !grown { return LimitExceeded(MinimumGrowth(size, 0), Limit(hard)), offered; }
        AscendingGrows(offered, newSize, limit);
        offered := offered + [newSize];
        size := newSize;
        continue;
      }
      if reply.code != ERROR_OK { return CodeError(reply.code), offered; }
      return Ok(Listing(reply.data, reply.count)), offered;
    }
  }

  // ----- one length-aware output

  datatype BufferReply = BufferReply(failed: bool, code: int, length: int, data: Bytes)

  predicate BufferRetries(reply: BufferReply, size: int) {
    !reply.failed && ShouldRetry(reply.code, reply.length, size) && reply.length >= 0
  }

  /** Every call but the last asked for another, and got at least the length it reported. */
  ghost predicate BufferRetried(native: (nat, int) -> BufferReply, offered: seq<int>) {
    forall i {:trigger BufferStep(native, offered, i)} :: 0 <= i < |offered| - 1 ==> BufferStep(native, offered, i)
  }

  ghost predicate BufferStep(native: (nat, int) -> BufferReply, offered: seq<int>, i: nat)
    requires i + 1 < |offered|
  {
    BufferRetries(native(i, offered[i]), offered[i]) && native(i, offered[i]).length <= offered[i + 1]
  }

  lemma BufferGrows(native: (nat, int) -> BufferReply, offered: seq<int>, next: int)
    requires offered != [] && BufferRetried(native, offered)
    requires var n := |offered| - 1;
      BufferRetries(native(n, offered[n]), offered[n]) && native(n, offered[n]).length <= next
    ensures BufferRetried(native, offered + [next])
  {
    forall i: nat | i < |offered|
      ensures BufferStep(native, offered + [next], i)
    {
      if i < |offered| - 1 { assert BufferStep(native, offered, i); }
    }
  }

  ghost predicate BufferConcluded(r: Outcome<Bytes>, reply: BufferReply, size: int, limit: int) {
    match r
    case Ok(data) => !reply.failed && reply.code == ERROR_OK && data == reply.data && |data| == reply.length <= size
    case NativeError => reply.failed
    case NegativeLength(length) => !reply.failed && length == reply.length < 0
    case LimitExceeded(requested, l) =>
      BufferRetries(reply, size) && requested > l == limit && (reply.length > limit || size == limit)
    case CodeError(code) => !reply.failed && code == reply.code && code !in {ERROR_OK, BUFFER_TOO_SMALL}
    case LengthMismatch => !reply.failed && reply.code == ERROR_OK && |reply.data| != reply.length
  }

  /** callBufferWithCapacityLocked. */
  method CallBuffer(native: (nat, int) -> BufferReply, initial: int, hard: int)
    returns (r: Outcome<Bytes>, ghost offered: seq<int>)
    ensures offered != [] && Ascending(offered, Limit(hard)) && BufferRetried(native, offered)
    ensures |offered| <= 1 + Doublings(BoundedCapacity(initial, hard), Limit(hard))
    ensures FirstOffer(offered[0], initial, 0, CONSERVATIVE, hard)
    ensures r.LimitExceeded? ==> r.requested > r.limit == Limit(hard)
    ensures r.Ok? ==> |r.value| <= Limit(hard)
    ensures var size := offered[|offered| - 1];
      BufferConcluded(r, native(|offered| - 1, size), size, Limit(hard))
  {
    var size := BoundedCapacity(initial, hard);
    var calls := 0;
    ghost var limit, budget := Limit(hard), Doublings(size, Limit(hard));
    offered := [size];
    while true
      invariant |offered| == calls + 1 && offered[calls] == size && 1 <= size <= limit
      invariant Ascending(offered, limit) && BufferRetried(native, offered)
      invariant FirstOffer(offered[0], initial, 0, CONSERVATIVE, hard)
      invariant calls + Doublings(size, limit) <= budget
      decreases Doublings(size, limit)
    {
      var reply := native(calls, size);
      calls := calls + 1;
      var again, result := TryBuffer(reply, size, hard);
      if again.None? { return result, offered; }
      AscendingGrows(offered, again.value, limit);
      BufferGrows(native, offered, again.value);
      offered := offered + [again.value];
      size := again.value;
    }
  }

  /** The body of the loop after the native call: a larger size to try again with, or the result. */
  method TryBuffer(reply: BufferReply, size: int, hard: int) returns (again: Option<int>, r: Outcome<Bytes>)
    requires 1 <= size <= Limit(hard)
    ensures again.Some? ==>
      && BufferRetries(reply, size) && reply.length <= again.value
      && size < again.value <= Limit(hard) && again.value >= Min(2 * size, Limit(hard))
      && Doublings(again.value, Limit(hard)) < Doublings(size, Limit(hard))
    ensures again.None? ==> BufferConcluded(r, reply, size, Limit(hard))
  {
    if reply.failed { return None, NativeError; }
    if ShouldRetry(reply.code, reply.length, size) {
      if reply.length < 0 { return None, NegativeLength(reply.length); }
      if reply.length > Limit(hard) { return None, LimitExceeded(reply.length, Limit(hard)); }
      var newSize, grown := GrowReported(size, reply.length, hard);
      if !grown { return None, LimitExceeded(MinimumGrowth(size, reply.length), Limit(hard)); }
      return Some(newSize), NativeError;
    }
    if reply.length < 0 { return None, NegativeLength(reply.length); }
    if reply.code != ERROR_OK { return None, CodeError(reply.code); }
    if |reply.data| != reply.length { return None, LengthMismatch; }
    return None, Ok(reply.data);
  }
}
