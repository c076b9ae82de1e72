/** Output capacities for native calls: limits, growth, and the choice of outputs to grow. */
module OutputBuffers {
  import opened Wire

  const ERROR_OK := 0
  const BUFFER_TOO_SMALL := 0x08F0_0005
  const MAX_NATIVE := 0x7FFF_FFFF
  const DEFAULT_LIMIT := 0x400_0000
  const CONSERVATIVE := 0x1_0000
  const DEFAULT_LIST := 0x10_0000
  const INITIAL_INFO := 0x1000
  const INITIAL_CERT := 0x2000

  datatype Outcome<+T> =
    | Ok(value: T)
    | NativeError
    | NegativeLength(length: int)
    | LimitExceeded(requested: int, limit: int)
    | CodeError(code: int)
    | LengthMismatch

  function Max(a: int, b: int): int { if a >= b then a else b }
  function Min(a: int, b: int): int { if a <= b then a else b }

  function Limit(hard: int): (l: int)
    ensures 1 <= l <= MAX_NATIVE && (0 < hard <= MAX_NATIVE ==> l == hard)
    ensures (hard <= 0 ==> l == 64 * 1024 * 1024) && (hard > MAX_NATIVE ==> l == MAX_NATIVE)
  {
    if hard > 0 then Min(hard, MAX_NATIVE) else DEFAULT_LIMIT
  }

  function BoundedCapacity(value: int, hard: int): (size: int)
    ensures 1 <= size <= Limit(hard) && (1 <= value <= Limit(hard) ==> size == value)
    ensures (value > Limit(hard) ==> size == Limit(hard)) && (value <= 0 ==> size == Min(64 * 1024, Limit(hard)))
  {
    Min(if value <= 0 then CONSERVATIVE else value, Limit(hard))
  }

  function Normalized(value: int, fallback: int): (size: int)
    ensures size >= CONSERVATIVE && (value >= CONSERVATIVE ==> size == value)
    ensures (0 < value < CONSERVATIVE ==> size == CONSERVATIVE) && (value <= 0 ==> size == Max(fallback, CONSERVATIVE))
  {
    Max(if value > 0 then value else if fallback > 0 then fallback else CONSERVATIVE, CONSERVATIVE)
  }

  function InitialCapacity(configured: int, initial: int): (size: int)
    ensures size >= 1 && (configured > 0 ==> size == Max(configured, CONSERVATIVE))
    ensures configured <= 0 ==> size == if initial > 0 then initial else CONSERVATIVE
  {
    if configured > 0 then Normalized(configured, CONSERVATIVE) else if initial > 0 then initial else CONSERVATIVE
  }

  function RequestedCapacity(requested: int, configured: int, initial: int): (size: int)
    ensures size >= 1 && (requested > 0 ==> size == requested)
  {
    if requested > 0 then requested else InitialCapacity(configured, initial)
  }

  /** The first capacity offered: what the request asks for, else what the client is configured for, else `initial`. */
  ghost predicate FirstOffer(size: int, requested: int, configured: int, initial: int, hard: int) {
    size == Min(
      if requested > 0 then requested else if configured > 0 then Max(configured, CONSERVATIVE) else initial,
      Limit(hard))
  }

  /** growCapacity: below the limit the capacity at least doubles or reaches it, and covers the request. */
  function Grow(current: int, requested: int, hard: int): (next: int)
    ensures current >= Limit(hard) ==> next == current
    ensures 1 <= current < Limit(hard) ==> current < next <= Limit(hard) && next >= Min(2 * current, Limit(hard))
    ensures current < Limit(hard) ==> next >= Min(requested, Limit(hard))
  {
    var limit := Limit(hard);
    if current >= limit then current
    else
      var next := Max(if current <= limit / 2 then current * 2 else limit, requested);
      if next > limit then limit else next
  }

  /** minimumOutputGrowth: a size that the current capacity cannot hold. */
  function MinimumGrowth(current: int, reported: int): (size: int)
    ensures size > current && size >= 0 && (reported > current && reported >= 0 ==> size == reported)
  {
    if reported > current && reported >= 0 then reported
    else if current <= 0 then 1 else current + 1
  }

  // ----- how often a capacity can grow

  /** Doublings until the limit is reached. */
  ghost function Doublings(c: int, limit: int): nat
    decreases limit - c
  {
    if c <= 0 || c >= limit then 0 else 1 + Doublings(2 * c, limit)
  }

  lemma {:induction false} DoublingsAntitone(c: int, d: int, limit: int)
    requires 1 <= c <= d
    ensures Doublings(d, limit) <= Doublings(c, limit)
    decreases limit - c
  {
    if d < limit { DoublingsAntitone(2 * c, 2 * d, limit); }
  }

  lemma GrowingSpendsADoubling(c: int, d: int, limit: int)
    requires 1 <= c < limit && d >= Min(2 * c, limit)
    ensures Doublings(d, limit) < Doublings(c, limit)
  {
    if d < limit { DoublingsAntitone(2 * c, d, limit); }
  }

  /** The number of doublings is the base-two logarithm of limit over capacity, rounded up. */
  lemma {:induction false} DoublingsLogarithmic(c: int, limit: int)
    requires 1 <= c < limit
    ensures Doublings(c, limit) >= 1 && c * Pow2(Doublings(c, limit) - 1) < limit <= c * Pow2(Doublings(c, limit))
    decreases limit - c
  {
    var k := Doublings(2 * c, limit);
    if 2 * c < limit {
      DoublingsLogarithmic(2 * c, limit);
      assert 2 * c * Pow2(k - 1) == c * (2 * Pow2(k - 1)) && 2 * c * Pow2(k) == c * (2 * Pow2(k));
    } else {
      assert Pow2(1) == 2;
    }
  }

  lemma {:induction false} Pow2Monotone(a: nat, b: nat)
    requires a <= b
    ensures 1 <= Pow2(a) <= Pow2(b)
  {
    if a < b { Pow2Monotone(a, b - 1); } else if a > 0 { Pow2Monotone(a - 1, a - 1); }
  }

  /** Under the native limit a positive capacity grows at most 31 times. */
  lemma AtMost31(c: int, hard: int)
    requires c >= 1
    ensures Doublings(c, Limit(hard)) <= 31
  {
    var limit := Limit(hard);
    if c < limit {
      var k := Doublings(c, limit);
      DoublingsLogarithmic(c, limit);
      AtLeast(c, Pow2(k - 1));
      if k > 31 {
        Pow2Monotone(31, k - 1);
        TwoTo31();
        assert false;
      }
    }
  }

  lemma AtLeast(c: int, p: nat)
    requires c >= 1
    ensures c * p >= p
  {
  }

  lemma TwoTo31()
    ensures Pow2(31) == MAX_NATIVE + 1
  {
    assert Pow2(8) == 256;
    assert Pow2(16) == 65536;
    assert Pow2(24) == 16777216;
  }

  // ----- one length-aware output

  predicate ShouldRetry(code: int, reported: int, capacity: int) {
    code == BUFFER_TOO_SMALL || (code == ERROR_OK && reported > capacity)
  }

  predicate NeedsGrowth(code: int, reported: int, capacity: int, retrySaturated: bool) {
    || reported > capacity
    || (code == BUFFER_TOO_SMALL && reported >= capacity)
    || (code == ERROR_OK && retrySaturated && reported == capacity)
  }

  // ----- several outputs

  datatype Output = Output(current: int, reported: int, active: bool, retrySaturated: bool, growthHint: int)

  predicate Candidate(code: int, o: Output) { o.active && NeedsGrowth(code, o.reported, o.current, o.retrySaturated) }

  predicate SomeCandidate(code: int, outputs: seq<Output>) {
    exists i :: 0 <= i < |outputs| && Candidate(code, outputs[i])
  }

  /** An output grows if it asks for it, or if nobody asks although the call said that something is too small. */
  predicate Selected(code: int, outputs: seq<Output>, i: nat)
    requires i < |outputs|
  {
    || Candidate(code, outputs[i])
    || (code == BUFFER_TOO_SMALL && !SomeCandidate(code, outputs) && outputs[i].active)
  }

  function Required(o: Output): int { if o.reported >= o.current then Max(o.reported, o.growthHint) else o.reported }

  function NextCapacity(code: int, hard: int, outputs: seq<Output>, i: nat): int
    requires i < |outputs|
  {
    if Selected(code, outputs, i) then Grow(outputs[i].current, Required(outputs[i]), hard) else outputs[i].current
  }

  predicate NegativeReport(outputs: seq<Output>) {
    exists i :: 0 <= i < |outputs| && outputs[i].active && outputs[i].reported < 0
  }

  predicate ExcessiveReport(code: int, hard: int, outputs: seq<Output>) {
    exists i :: 0 <= i < |outputs| && Selected(code, outputs, i) && outputs[i].reported > Limit(hard)
  }

  predicate SomeGrows(code: int, hard: int, outputs: seq<Output>) {
    exists i :: 0 <= i < |outputs| && NextCapacity(code, hard, outputs, i) != outputs[i].current
  }

  predicate SomeSelected(code: int, outputs: seq<Output>) {
    exists i :: 0 <= i < |outputs| && Selected(code, outputs, i)
  }

  predicate InLimits(hard: int, outputs: seq<Output>) {
    forall i :: 0 <= i < |outputs| ==> 1 <= outputs[i].current <= Limit(hard)
  }

  /** An output in use that reports too much, or that it is full where full means too small. */
  ghost predicate Asks(code: int, o: Output) {
    && o.active
    && (o.reported > o.current ||
        (o.reported == o.current && (code == BUFFER_TOO_SMALL || (code == ERROR_OK && o.retrySaturated))))
  }

  ghost predicate NobodyAsks(code: int, outputs: seq<Output>) {
    forall j :: 0 <= j < |outputs| ==> !Asks(code, outputs[j])
  }

  /**
   * Which outputs grow and how far: those that ask, or all in use if a buffer is too small and none of them asks. They
   * double, or cover what is reported and, when they were full, the hint, but stay within the limit.
   */
  lemma GrowsExactly(code: int, hard: int, outputs: seq<Output>, i: nat)
    requires i < |outputs| && 1 <= outputs[i].current <= Limit(hard)
    ensures var o, limit := outputs[i], Limit(hard);
      var wanted := if o.reported >= o.current then Max(o.reported, o.growthHint) else o.reported;
      NextCapacity(code, hard, outputs, i) ==
        if Asks(code, o) || (code == BUFFER_TOO_SMALL && o.active && NobodyAsks(code, outputs))
        then Min(Max(2 * o.current, wanted), limit) else o.current
  {
    assert forall j :: 0 <= j < |outputs| ==> (Candidate(code, outputs[j]) <==> Asks(code, outputs[j]));
  }

  /** nextOutputBufferCapacities, for any number of outputs. */
  method NextOutputBufferCapacities(code: int, hard: int, outputs: seq<Output>) returns (r: Outcome<seq<int>>)
    ensures r.NegativeLength? <==> NegativeReport(outputs)
    ensures r.Ok? <==>
      !NegativeReport(outputs) && !ExcessiveReport(code, hard, outputs) && SomeGrows(code, hard, outputs)
    ensures r.Ok? ==>
      && |r.value| == |outputs|
      && forall i :: 0 <= i < |outputs| ==> r.value[i] == NextCapacity(code, hard, outputs, i)
    ensures !r.Ok? && !r.NegativeLength? ==> r.LimitExceeded? && r.limit == Limit(hard)
    ensures r.LimitExceeded? && SomeSelected(code, outputs) && InLimits(hard, outputs) ==> r.requested > r.limit
  {
    var grow := seq(|outputs|, _ => false);
    var hasCandidate := false;
    for index := 0 to |outputs|
      invariant |grow| == |outputs|
      invariant forall i :: 0 <= i < index ==> !(outputs[i].active && outputs[i].reported < 0)
      invariant forall i :: 0 <= i < index ==> grow[i] == Candidate(code, outputs[i])
      invariant hasCandidate <==> exists i :: 0 <= i < index && grow[i]
    {
      var output := outputs[index];
      if output.active && output.reported < 0 { return NegativeLength(output.reported); }
      grow := grow[index := output.active && NeedsGrowth(code, output.reported, output.current, output.retrySaturated)];
      hasCandidate := hasCandidate || grow[index];
    }
    assert hasCandidate <==> SomeCandidate(code, outputs);
    if code == BUFFER_TOO_SMALL && !hasCandidate {
      for index := 0 to |outputs|
        invariant |grow| == |outputs|
        invariant forall i :: 0 <= i < index ==> grow[i] == outputs[i].active
      {
        grow := grow[index := outputs[index].active];
      }
    }
    assert forall i :: 0 <= i < |outputs| ==> grow[i] == Selected(code, outputs, i);
    r := GrowSelected(code, hard, outputs, grow);
  }

  /** The second half: check the reports of the selected outputs, then grow them. */
  method GrowSelected(code: int, hard: int, outputs: seq<Output>, grow: seq<bool>) returns (r: Outcome<seq<int>>)
    requires |grow| == |outputs| && !NegativeReport(outputs)
    requires forall i :: 0 <= i < |outputs| ==> grow[i] == Selected(code, outputs, i)
    ensures r.Ok? <==> !ExcessiveReport(code, hard, outputs) && SomeGrows(code, hard, outputs)
    ensures r.Ok? ==>
      && |r.value| == |outputs|
      && forall i :: 0 <= i < |outputs| ==> r.value[i] == NextCapacity(code, hard, outputs, i)
    ensures !r.Ok? ==> r.LimitExceeded? && r.limit == Limit(hard)
    ensures !r.Ok? && SomeSelected(code, outputs) && InLimits(hard, outputs) ==> r.requested > r.limit
  {
    var reported := 0;
    for index := 0 to |outputs|
      invariant forall i :: 0 <= i < index && grow[i] ==> outputs[i].reported <= Limit(hard)
    {
      if grow[index] {
        var output := outputs[index];
        reported := Max(reported, output.reported);
        if output.reported > Limit(hard) {
          assert Selected(code, outputs, index);
          return LimitExceeded(reported, Limit(hard));
        }
      }
    }
    assert !ExcessiveReport(code, hard, outputs);
    var next: seq<int> := [];
    var grew := false;
    for index := 0 to |outputs|
      invariant |next| == index
      invariant forall i :: 0 <= i < index ==> next[i] == NextCapacity(code, hard, outputs, i)
      invariant grew <==> exists i :: 0 <= i < index && next[i] != outputs[i].current
    {
      var output := outputs[index];
      var capacity := output.current;
      if grow[index] {
        var required := output.reported;
        if required >= output.current { required := Max(required, output.growthHint); }
        capacity := Grow(output.current, required, hard);
      }
      next := next + [capacity];
      grew := grew || capacity != output.current;
    }
    if grew { return Ok(next); }
    r := Stuck(code, hard, outputs, grow, reported);
  }

  /** Nothing selected could grow: the smallest capacity that would help is above the limit. */
  method Stuck(code: int, hard: int, outputs: seq<Output>, grow: seq<bool>, reported: int)
    returns (r: Outcome<seq<int>>)
    requires |grow| == |outputs| && !SomeGrows(code, hard, outputs)
    requires forall i :: 0 <= i < |outputs| ==> grow[i] == Selected(code, outputs, i)
    ensures r.LimitExceeded? && r.limit == Limit(hard)
    ensures SomeSelected(code, outputs) && InLimits(hard, outputs) ==> r.requested > r.limit
  {
    var requested := reported;
    for index := 0 to |outputs|
      invariant forall i :: 0 <= i < index && grow[i] ==> requested > outputs[i].current
    {
      if grow[index] {
        requested := Max(requested, MinimumGrowth(outputs[index].current, outputs[index].reported));
      }
    }
    return LimitExceeded(requested, Limit(hard));
  }
}
