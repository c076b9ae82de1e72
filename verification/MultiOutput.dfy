/** The retry loops with several outputs: signature verification and certificate validation. */
module MultiOutput {
  import opened Wire
  import opened OutputBuffers

  /** Native text ends at its first zero byte. */
  function BeforeNUL(s: Bytes): (r: Bytes)
    ensures r <= s && 0 !in r && (r != s ==> s[|r|] == 0)
  {
    if s == [] || s[0] == 0 then [] else [s[0]] + BeforeNUL(s[1..])
  }

  // ----- one output of several

  /** A capacity stays, or doubles or reaches the limit; what was reported fits. */
  ghost predicate Advances(before: int, after: int, limit: int) {
    after == before || (before < after <= limit && after >= Min(2 * before, limit))
  }

  lemma NextAdvances(code: int, hard: int, outputs: seq<Output>, i: nat)
    requires i < |outputs| && 1 <= outputs[i].current <= Limit(hard)
    ensures Advances(outputs[i].current, NextCapacity(code, hard, outputs, i), Limit(hard))
    ensures !outputs[i].active ==> NextCapacity(code, hard, outputs, i) == outputs[i].current
    ensures Candidate(code, outputs[i]) ==>
      NextCapacity(code, hard, outputs, i) >= Min(outputs[i].reported, Limit(hard))
  {
  }

  lemma AdvancingSpends(before: int, after: int, limit: int)
    requires 1 <= before <= limit && Advances(before, after, limit)
    ensures 1 <= after <= limit && Doublings(after, limit) <= Doublings(before, limit)
    ensures after != before ==> Doublings(after, limit) < Doublings(before, limit)
  {
    if after != before { GrowingSpendsADoubling(before, after, limit); }
  }

  /** A retry always has something to grow: an output that asks, or else every active one. */
  lemma RetrySelects(code: int, outputs: seq<Output>, i: nat)
    requires i < |outputs| && outputs[i].active
    requires code == BUFFER_TOO_SMALL || Candidate(code, outputs[i])
    ensures SomeSelected(code, outputs)
  {
    if !Candidate(code, outputs[i]) && SomeCandidate(code, outputs) {
      var k: nat :| k < |outputs| && Candidate(code, outputs[k]);
      assert Selected(code, outputs, k);
    } else {
      assert Selected(code, outputs, i);
    }
  }

  // ----- VerifyData

  datatype Flags = Flags(signCMS: bool, detached: bool, inFile: bool)

  predicate ReturnsDecodedData(flags: Flags) { flags.signCMS && !flags.detached && !flags.inFile }

  /** `readsLastError`: the last-error slot is consulted after a successful call. */
  datatype Policy = Policy(dataActive: bool, returnData: bool, retrySaturated: bool, hint: int, readsLastError: bool)

  /**
   * The policies of the two platform files. Both return data only from an active buffer; only Linux retries a
   * saturated buffer, with the size of the signature as its hint, and only for a buffer that it returns.
   */
  function PlatformPolicy(linux: bool, flags: Flags, signature: nat): (p: Policy)
    ensures p.returnData ==> p.dataActive && ReturnsDecodedData(flags)
    ensures p.retrySaturated ==> linux && p.returnData && p.hint == signature
    ensures !linux ==> p.dataActive && p.hint == 0
    ensures (p.readsLastError <==> linux) && (p.returnData <==> ReturnsDecodedData(flags))
    ensures linux ==> (p.dataActive <==> p.returnData) && (p.retrySaturated <==> p.returnData)
  {
    var decoded := ReturnsDecodedData(flags);
    if linux then Policy(decoded, decoded, decoded, if decoded then signature else 0, true)
    else Policy(true, decoded, false, 0, false)
  }

  datatype VerifyCaps = VerifyCaps(data: int, info: int, cert: int)
  datatype VerifyReply = VerifyReply(
    failed: bool, code: int, lastError: int,
    dataLength: int, data: Bytes, infoLength: int, info: Bytes, certLength: int, cert: Bytes)
  datatype Verified = Verified(data: Bytes, info: Bytes, cert: Bytes)

  predicate VerifyRetries(code: int, reply: VerifyReply, c: VerifyCaps, policy: Policy) {
    if code == BUFFER_TOO_SMALL then true
    else if code != ERROR_OK then false
    else
      || (policy.dataActive &&
          (reply.dataLength > c.data || (policy.retrySaturated && reply.dataLength == c.data)))
      || reply.infoLength > c.info || reply.certLength > c.cert
  }

  predicate VerifyNegative(reply: VerifyReply, policy: Policy) {
    (policy.dataActive && reply.dataLength < 0) || reply.infoLength < 0 || reply.certLength < 0
  }

  ghost predicate VerifyInLimits(c: VerifyCaps, limit: int) {
    1 <= c.data <= limit && 1 <= c.info <= limit && 1 <= c.cert <= limit
  }

  /** No capacity shrinks, one grows, an inactive one stays. */
  ghost predicate VerifyWidens(policy: Policy, a: VerifyCaps, b: VerifyCaps, limit: int) {
    && Advances(a.data, b.data, limit) && Advances(a.info, b.info, limit) && Advances(a.cert, b.cert, limit)
    && (!policy.dataActive ==> a.data == b.data) && a != b
  }

  /** Every output that reported more than its capacity gets what it reported. */
  ghost predicate VerifyCovers(policy: Policy, reply: VerifyReply, a: VerifyCaps, b: VerifyCaps) {
    && (policy.dataActive && reply.dataLength > a.data ==> reply.dataLength <= b.data)
    && (reply.infoLength > a.info ==> reply.infoLength <= b.info)
    && (reply.certLength > a.cert ==> reply.certLength <= b.cert)
  }

  ghost function VerifyPotential(policy: Policy, c: VerifyCaps, limit: int): nat {
    (if policy.dataActive then Doublings(c.data, limit) else 0) + Doublings(c.info, limit) + Doublings(c.cert, limit)
  }

  function VerifyOutputs(reply: VerifyReply, c: VerifyCaps, policy: Policy): seq<Output> {
    [Output(c.data, reply.dataLength, policy.dataActive, policy.retrySaturated, policy.hint),
     Output(c.info, reply.infoLength, true, false, 0), Output(c.cert, reply.certLength, true, false, 0)]
  }

  /** A length, where the output is in use, that its capacity cannot hold. */
  predicate Overflows(active: bool, length: int, capacity: int) { active && length > capacity }

  /** Some report exceeds the limit, or whatever asks for room, failing that everything in use, is at the limit. */
  ghost predicate VerifyStuck(code: int, reply: VerifyReply, c: VerifyCaps, policy: Policy, limit: int) {
    || Overflows(policy.dataActive, reply.dataLength, limit) || reply.infoLength > limit || reply.certLength > limit
    || (var asks := VerifyAsking(code, reply, c, policy);
        var all := asks == {};
        && (0 in asks || (all && policy.dataActive) ==> c.data == limit)
        && (1 in asks || all ==> c.info == limit) && (2 in asks || all ==> c.cert == limit))
  }

  /** Which of data, info and certificate report that they are full. */
  ghost function VerifyAsking(code: int, reply: VerifyReply, c: VerifyCaps, policy: Policy): set<nat> {
    (if policy.dataActive && NeedsGrowth(code, reply.dataLength, c.data, policy.retrySaturated) then {0} else {}) +
    (if NeedsGrowth(code, reply.infoLength, c.info, false) then {1} else {}) +
    if NeedsGrowth(code, reply.certLength, c.cert, false) then {2} else {}
  }

  lemma StuckOutputs(code: int, hard: int, reply: VerifyReply, c: VerifyCaps, policy: Policy)
    requires VerifyInLimits(c, Limit(hard)) && VerifyRetries(code, reply, c, policy)
    requires var outputs := VerifyOutputs(reply, c, policy);
      ExcessiveReport(code, hard, outputs) || !SomeGrows(code, hard, outputs)
    ensures VerifyStuck(code, reply, c, policy, Limit(hard))
  {
    var outputs := VerifyOutputs(reply, c, policy);
    if !ExcessiveReport(code, hard, outputs) {
      assert NextCapacity(code, hard, outputs, 0) == c.data && NextCapacity(code, hard, outputs, 1) == c.info;
      assert NextCapacity(code, hard, outputs, 2) == c.cert;
      AskingIsCandidate(code, reply, c, policy);
    }
  }

  lemma AskingIsCandidate(code: int, reply: VerifyReply, c: VerifyCaps, policy: Policy)
    requires VerifyRetries(code, reply, c, policy)
    ensures var outputs, asks := VerifyOutputs(reply, c, policy), VerifyAsking(code, reply, c, policy);
      && (0 in asks <==> Candidate(code, outputs[0])) && (1 in asks <==> Candidate(code, outputs[1]))
      && (2 in asks <==> Candidate(code, outputs[2])) && (asks == {} <==> !SomeCandidate(code, outputs))
      && (asks == {} ==> code == BUFFER_TOO_SMALL)
  {
    var outputs, asks := VerifyOutputs(reply, c, policy), VerifyAsking(code, reply, c, policy);
    assert asks != {} ==> 0 in asks || 1 in asks || 2 in asks;
  }

  /** nextVerifyDataCapacities. */
  method NextVerifyDataCapacities(code: int, reply: VerifyReply, c: VerifyCaps, policy: Policy, hard: int)
    returns (r: Outcome<VerifyCaps>)
    ensures r.Ok? || r.LimitExceeded? || r.NegativeLength?
    ensures r.NegativeLength? <==> VerifyNegative(reply, policy)
    ensures r.LimitExceeded? ==> r.limit == Limit(hard)
    ensures r.LimitExceeded? && VerifyInLimits(c, Limit(hard)) && VerifyRetries(code, reply, c, policy) ==>
      r.requested > r.limit && VerifyStuck(code, reply, c, policy, Limit(hard))
    ensures r.Ok? && VerifyInLimits(c, Limit(hard)) ==>
      && VerifyInLimits(r.value, Limit(hard)) && VerifyWidens(policy, c, r.value, Limit(hard))
      && VerifyCovers(policy, reply, c, r.value)
      && VerifyPotential(policy, r.value, Limit(hard)) < VerifyPotential(policy, c, Limit(hard))
  {
    var outputs := VerifyOutputs(reply, c, policy);
    var next := NextOutputBufferCapacities(code, hard, outputs);
    NegativeOutputs(reply, c, policy);
    if VerifyRetries(code, reply, c, policy) { VerifySelects(code, reply, c, policy); }
    match next {
      case Ok(capacities) =>
        r := Ok(VerifyCaps(capacities[0], capacities[1], capacities[2]));
        if VerifyInLimits(c, Limit(hard)) { VerifyAdvances(code, hard, reply, c, policy, r.value); }
      case LimitExceeded(requested, limit) =>
        r := LimitExceeded(requested, limit);
        if VerifyInLimits(c, Limit(hard)) && VerifyRetries(code, reply, c, policy) {
          StuckOutputs(code, hard, reply, c, policy);
        }
      case NegativeLength(length) => r := NegativeLength(length);
      case _ => assert false;
    }
  }

  lemma NegativeOutputs(reply: VerifyReply, c: VerifyCaps, policy: Policy)
    ensures NegativeReport(VerifyOutputs(reply, c, policy)) <==> VerifyNegative(reply, policy)
  {
    var outputs := VerifyOutputs(reply, c, policy);
    assert outputs[0].reported == reply.dataLength && outputs[1].reported == reply.infoLength;
    assert outputs[2].reported == reply.certLength;
  }

  lemma VerifySelects(code: int, reply: VerifyReply, c: VerifyCaps, policy: Policy)
    requires VerifyRetries(code, reply, c, policy)
    ensures SomeSelected(code, VerifyOutputs(reply, c, policy))
  {
    var outputs := VerifyOutputs(reply, c, policy);
    var i :=
      if code == BUFFER_TOO_SMALL || reply.infoLength > c.info then 1 else if reply.certLength > c.cert then 2 else 0;
    RetrySelects(code, outputs, i);
  }

  lemma VerifyAdvances(code: int, hard: int, reply: VerifyReply, c: VerifyCaps, policy: Policy, next: VerifyCaps)
    requires VerifyInLimits(c, Limit(hard))
    requires var outputs := VerifyOutputs(reply, c, policy);
      && SomeGrows(code, hard, outputs) && !ExcessiveReport(code, hard, outputs)
      && next.data == NextCapacity(code, hard, outputs, 0) && next.info == NextCapacity(code, hard, outputs, 1)
      && next.cert == NextCapacity(code, hard, outputs, 2)
    ensures VerifyInLimits(next, Limit(hard)) && VerifyWidens(policy, c, next, Limit(hard))
    ensures VerifyCovers(policy, reply, c, next)
    ensures VerifyPotential(policy, next, Limit(hard)) < VerifyPotential(policy, c, Limit(hard))
  {
    var outputs := VerifyOutputs(reply, c, policy);
    NextAdvances(code, hard, outputs, 0);
    NextAdvances(code, hard, outputs, 1);
    NextAdvances(code, hard, outputs, 2);
    AdvancingSpends(c.data, next.data, Limit(hard));
    AdvancingSpends(c.info, next.info, Limit(hard));
    AdvancingSpends(c.cert, next.cert, Limit(hard));
    assert !Selected(code, outputs, 0) || reply.dataLength <= Limit(hard);
    assert !Selected(code, outputs, 1) || reply.infoLength <= Limit(hard);
    assert !Selected(code, outputs, 2) || reply.certLength <= Limit(hard);
  }

  /** The last-error slot overrides a successful code. */
  predicate VerifyRejected(reply: VerifyReply, policy: Policy) {
    policy.readsLastError && reply.code == ERROR_OK && reply.lastError != ERROR_OK
  }

  ghost predicate VerifyStep(native: (nat, VerifyCaps) -> VerifyReply, policy: Policy, offered: seq<VerifyCaps>,
                             i: nat, limit: int)
    requires i + 1 < |offered|
  {
    var reply := native(i, offered[i]);
    && !reply.failed && !VerifyRejected(reply, policy) && !VerifyNegative(reply, policy)
    && VerifyRetries(reply.code, reply, offered[i], policy)
    && VerifyWidens(policy, offered[i], offered[i + 1], limit)
    && VerifyCovers(policy, reply, offered[i], offered[i + 1])
  }

  ghost predicate VerifyHistory(native: (nat, VerifyCaps) -> VerifyReply, policy: Policy, offered: seq<VerifyCaps>,
                                limit: int) {
    && (forall i :: 0 <= i < |offered| ==> VerifyInLimits(offered[i], limit))
    && (forall i {:trigger VerifyStep(native, policy, offered, i, limit)} :: 0 <= i < |offered| - 1 ==>
          VerifyStep(native, policy, offered, i, limit))
  }

  lemma VerifyGrows(native: (nat, VerifyCaps) -> VerifyReply, policy: Policy, offered: seq<VerifyCaps>,
                    next: VerifyCaps, limit: int)
    requires offered != [] && VerifyHistory(native, policy, offered, limit) && VerifyInLimits(next, limit)
    requires var longer := offered + [next]; VerifyStep(native, policy, longer, |offered| - 1, limit)
    ensures VerifyHistory(native, policy, offered + [next], limit)
  {
    var longer := offered + [next];
    forall i: nat | i < |offered|
      ensures VerifyStep(native, policy, longer, i, limit)
    {
      if i < |offered| - 1 { assert VerifyStep(native, policy, offered, i, limit); }
    }
  }

  /** What the last reply turned into: data is returned only if its buffer was in use and its length is as reported. */
  ghost predicate VerifyConcluded(r: Outcome<Verified>, reply: VerifyReply, c: VerifyCaps, policy: Policy, limit: int) {
    match r
    case Ok(v) =>
      && !reply.failed && reply.code == ERROR_OK && (policy.readsLastError ==> reply.lastError == ERROR_OK)
      && v == Verified(if policy.returnData then reply.data else [], BeforeNUL(reply.info), reply.cert)
      && |reply.info| == reply.infoLength <= c.info && |v.cert| == reply.certLength <= c.cert
      && (policy.returnData ==> |v.data| == reply.dataLength <= c.data && (policy.retrySaturated ==> |v.data| < c.data))
    case NativeError => reply.failed
    case NegativeLength(_) => !reply.failed && !VerifyRejected(reply, policy) && VerifyNegative(reply, policy)
    case LimitExceeded(requested, l) =>
      && !reply.failed && !VerifyRejected(reply, policy) && requested > l == limit
      && VerifyRetries(reply.code, reply, c, policy) && VerifyStuck(reply.code, reply, c, policy, limit)
    case CodeError(code) =>
      && !reply.failed
      && if VerifyRejected(reply, policy) then code == reply.lastError
         else code == reply.code && code !in {ERROR_OK, BUFFER_TOO_SMALL}
    case LengthMismatch =>
      && !reply.failed && !VerifyRejected(reply, policy) && reply.code == ERROR_OK
      && ((policy.dataActive && |reply.data| != reply.dataLength) || |reply.info| != reply.infoLength ||
          |reply.cert| != reply.certLength)
  }

  /** What makes another call necessary, in words of the platform and the request. */
  ghost predicate VerifyAsks(linux: bool, flags: Flags, reply: VerifyReply, c: VerifyCaps) {
    var attached := flags.signCMS && !flags.detached && !flags.inFile;
    || reply.code == BUFFER_TOO_SMALL
    || (reply.code == ERROR_OK &&
        (reply.infoLength > c.info || reply.certLength > c.cert ||
         ((!linux || attached) && reply.dataLength > c.data) || (linux && attached && reply.dataLength == c.data)))
  }

  /** On Linux a success with something in the last-error slot ends the run with that error, on any call. */
  ghost predicate LastErrorEnds(native: (nat, VerifyCaps) -> VerifyReply, offered: seq<VerifyCaps>,
                                r: Outcome<Verified>, i: nat)
    requires i < |offered|
  {
    var reply := native(i, offered[i]);
    !reply.failed && reply.code == ERROR_OK && reply.lastError != ERROR_OK ==>
      i == |offered| - 1 && r == CodeError(reply.lastError)
  }

  function FirstVerifyCaps(policy: Policy, data: int, info: int, cert: int, configured: int, hard: int): (c: VerifyCaps)
    ensures VerifyInLimits(c, Limit(hard))
    ensures FirstOffer(c.info, info, configured, 4 * 1024, hard) && FirstOffer(c.cert, cert, configured, 8 * 1024, hard)
    ensures if policy.dataActive then FirstOffer(c.data, data, configured, 64 * 1024, hard) else c.data == 1
  {
    VerifyCaps(
      if policy.dataActive then BoundedCapacity(RequestedCapacity(data, configured, CONSERVATIVE), hard) else 1,
      BoundedCapacity(RequestedCapacity(info, configured, INITIAL_INFO), hard),
      BoundedCapacity(RequestedCapacity(cert, configured, INITIAL_CERT), hard))
  }

  /** VerifyData; `data`, `info` and `cert` are the capacities the request asks for. */
  method VerifyData(native: (nat, VerifyCaps) -> VerifyReply, linux: bool, flags: Flags, signature: nat,
                    data: int, info: int, cert: int, configured: int, hard: int)
    returns (r: Outcome<Verified>, ghost offered: seq<VerifyCaps>)
    ensures var policy := PlatformPolicy(linux, flags, signature);
      offered != [] && VerifyHistory(native, policy, offered, Limit(hard))
    ensures var policy := PlatformPolicy(linux, flags, signature);
      var first := FirstVerifyCaps(policy, data, info, cert, configured, hard);
      |offered| <= 1 + VerifyPotential(policy, first, Limit(hard))
    ensures r.LimitExceeded? ==> r.requested > r.limit == Limit(hard)
    ensures r.Ok? ==> |r.value.data| <= Limit(hard) && |r.value.info| <= Limit(hard) && |r.value.cert| <= Limit(hard)
    ensures r.Ok? && !ReturnsDecodedData(flags) ==> r.value.data == []
    ensures offered[0] == FirstVerifyCaps(PlatformPolicy(linux, flags, signature), data, info, cert, configured, hard)
    ensures linux ==> forall i :: 0 <= i < |offered| ==> LastErrorEnds(native, offered, r, i)
    ensures forall i :: 0 <= i < |offered| - 1 ==> VerifyAsks(linux, flags, native(i, offered[i]), offered[i])
    ensures var c := offered[|offered| - 1];
      VerifyConcluded(r, native(|offered| - 1, c), c, PlatformPolicy(linux, flags, signature), Limit(hard))
  {
    var policy := PlatformPolicy(linux, flags, signature);
    var c := FirstVerifyCaps(policy, data, info, cert, configured, hard);
    var calls := 0;
    ghost var limit, budget := Limit(hard), VerifyPotential(policy, c, Limit(hard));
    offered := [c];
    while true
      invariant |offered| == calls + 1 && offered[calls] == c && VerifyInLimits(c, limit)
      invariant VerifyHistory(native, policy, offered, limit)
      invariant offered[0] == FirstVerifyCaps(policy, data, info, cert, configured, hard)
      invariant calls + VerifyPotential(policy, c, limit) <= budget
      decreases VerifyPotential(policy, c, limit)
    {
      var reply := native(calls, c);
      var attempt := TryVerify(reply, c, policy, hard);
      if attempt.Ok? && attempt.value.Again? {
        var next := attempt.value.caps;
        VerifyGrows(native, policy, offered, next, limit);
        offered := offered + [next];
        c, calls := next, calls + 1;
        continue;
      }
      r := Finished(attempt);
      VerifyRunEnds(native, linux, flags, signature, offered, r, limit);
      return;
    }
  }

  /** What the history of the calls says about the reason of each of them. */
  lemma VerifyRunEnds(native: (nat, VerifyCaps) -> VerifyReply, linux: bool, flags: Flags, signature: nat,
                      offered: seq<VerifyCaps>, r: Outcome<Verified>, limit: int)
    requires var policy := PlatformPolicy(linux, flags, signature);
      && offered != [] && VerifyHistory(native, policy, offered, limit)
      && var c := offered[|offered| - 1]; VerifyConcluded(r, native(|offered| - 1, c), c, policy, limit)
    ensures linux ==> forall i :: 0 <= i < |offered| ==> LastErrorEnds(native, offered, r, i)
    ensures forall i :: 0 <= i < |offered| - 1 ==> VerifyAsks(linux, flags, native(i, offered[i]), offered[i])
  {
    var policy := PlatformPolicy(linux, flags, signature);
    forall i | 0 <= i < |offered| - 1
      ensures VerifyAsks(linux, flags, native(i, offered[i]), offered[i])
      ensures linux ==> LastErrorEnds(native, offered, r, i)
    {
      assert VerifyStep(native, policy, offered, i, limit);
    }
    assert linux ==> LastErrorEnds(native, offered, r, |offered| - 1);
  }

  datatype Attempt = Again(caps: VerifyCaps) | Finish(result: Verified)

  function Finished(a: Outcome<Attempt>): Outcome<Verified>
    requires a.Ok? ==> a.value.Finish?
  {
    match a
    case Ok(attempt) => Ok(attempt.result)
    case NativeError => NativeError
    case NegativeLength(length) => NegativeLength(length)
    case LimitExceeded(requested, limit) => LimitExceeded(requested, limit)
    case CodeError(code) => CodeError(code)
    case LengthMismatch => LengthMismatch
  }

  /** The body of VerifyData's loop after the native call. */
  method TryVerify(reply: VerifyReply, c: VerifyCaps, policy: Policy, hard: int) returns (a: Outcome<Attempt>)
    requires VerifyInLimits(c, Limit(hard)) && (policy.returnData ==> policy.dataActive)
    ensures a.Ok? && a.value.Again? ==>
      && !reply.failed && !VerifyRejected(reply, policy) && !VerifyNegative(reply, policy)
      && VerifyRetries(reply.code, reply, c, policy) && VerifyInLimits(a.value.caps, Limit(hard))
      && VerifyWidens(policy, c, a.value.caps, Limit(hard)) && VerifyCovers(policy, reply, c, a.value.caps)
      && VerifyPotential(policy, a.value.caps, Limit(hard)) < VerifyPotential(policy, c, Limit(hard))
    ensures !(a.Ok? && a.value.Again?) ==> VerifyConcluded(Finished(a), reply, c, policy, Limit(hard))
  {
    if reply.failed { return NativeError; }
    if VerifyRejected(reply, policy) { return CodeError(reply.lastError); }
    if policy.dataActive && reply.dataLength < 0 { return NegativeLength(reply.dataLength); }
    if reply.infoLength < 0 { return NegativeLength(reply.infoLength); }
    if reply.certLength < 0 { return NegativeLength(reply.certLength); }
    if VerifyRetries(reply.code, reply, c, policy) {
      var next := NextVerifyDataCapacities(reply.code, reply, c, policy, hard);
      if next.Ok? { return Ok(Again(next.value)); }
      return LimitExceeded(next.requested, next.limit);
    }
    if reply.code != ERROR_OK { return CodeError(reply.code); }
    if policy.dataActive && |reply.data| != reply.dataLength { return LengthMismatch; }
    if |reply.info| != reply.infoLength { return LengthMismatch; }
    if |reply.cert| != reply.certLength { return LengthMismatch; }
    return Ok(Finish(Verified(if policy.returnData then reply.data else [], BeforeNUL(reply.info), reply.cert)));
  }

  /** At most 31 doublings of each of three buffers, whatever the native side answers. */
  lemma VerifyCallBound(policy: Policy, c: VerifyCaps, hard: int)
    requires VerifyInLimits(c, Limit(hard))
    ensures VerifyPotential(policy, c, Limit(hard)) <= 93
  {
    AtMost31(c.data, hard);
    AtMost31(c.info, hard);
    AtMost31(c.cert, hard);
  }

  // ----- X509ValidateCertificate

  datatype ValidateCaps = ValidateCaps(info: int, ocsp: int)
  datatype ValidateReply = ValidateReply(
    failed: bool, code: int, infoLength: int, info: Bytes, ocspLength: int, ocsp: Bytes)
  datatype Validated = Validated(info: Bytes, ocsp: Option<Bytes>)

  predicate ValidateRetries(reply: ValidateReply, c: ValidateCaps, returnOCSP: bool) {
    || reply.code == BUFFER_TOO_SMALL
    || (reply.code == ERROR_OK && (reply.infoLength > c.info || (returnOCSP && reply.ocspLength > c.ocsp)))
  }

  predicate ValidateNegative(reply: ValidateReply, returnOCSP: bool) {
    reply.infoLength < 0 || (returnOCSP && reply.ocspLength < 0)
  }

  ghost predicate ValidateInLimits(c: ValidateCaps, limit: int) { 1 <= c.info <= limit && 1 <= c.ocsp <= limit }

  ghost predicate ValidateWidens(returnOCSP: bool, reply: ValidateReply, a: ValidateCaps, b: ValidateCaps, limit: int) {
    && Advances(a.info, b.info, limit) && Advances(a.ocsp, b.ocsp, limit)
    && (!returnOCSP ==> a.ocsp == b.ocsp) && a != b
    && (reply.infoLength > a.info ==> reply.infoLength <= b.info)
    && (returnOCSP && reply.ocspLength > a.ocsp ==> reply.ocspLength <= b.ocsp)
  }

  ghost function ValidatePotential(returnOCSP: bool, c: ValidateCaps, limit: int): nat {
    Doublings(c.info, limit) + (if returnOCSP then Doublings(c.ocsp, limit) else 0)
  }

  function ValidateOutputs(reply: ValidateReply, c: ValidateCaps, returnOCSP: bool): seq<Output> {
    [Output(c.info, reply.infoLength, true, false, 0), Output(c.ocsp, reply.ocspLength, returnOCSP, false, 0)]
  }

  method NextValidateCapacities(reply: ValidateReply, c: ValidateCaps, returnOCSP: bool, hard: int)
    returns (r: Outcome<ValidateCaps>)
    ensures r.Ok? || r.LimitExceeded? || r.NegativeLength?
    ensures r.NegativeLength? <==> ValidateNegative(reply, returnOCSP)
    ensures r.LimitExceeded? ==> r.limit == Limit(hard)
    ensures r.LimitExceeded? && ValidateInLimits(c, Limit(hard)) && ValidateRetries(reply, c, returnOCSP) ==>
      r.requested > r.limit
    ensures r.Ok? && ValidateInLimits(c, Limit(hard)) ==>
      && ValidateInLimits(r.value, Limit(hard)) && ValidateWidens(returnOCSP, reply, c, r.value, Limit(hard))
      && ValidatePotential(returnOCSP, r.value, Limit(hard)) < ValidatePotential(returnOCSP, c, Limit(hard))
  {
    var outputs := ValidateOutputs(reply, c, returnOCSP);
    var next := NextOutputBufferCapacities(reply.code, hard, outputs);
    assert outputs[0].reported == reply.infoLength && outputs[1].reported == reply.ocspLength;
    if ValidateRetries(reply, c, returnOCSP) {
      RetrySelects(reply.code, outputs, if reply.code == BUFFER_TOO_SMALL || reply.infoLength > c.info then 0 else 1);
    }
    match next {
      case Ok(capacities) =>
        r := Ok(ValidateCaps(capacities[0], capacities[1]));
        if ValidateInLimits(c, Limit(hard)) { ValidateAdvances(hard, reply, c, returnOCSP, r.value); }
      case LimitExceeded(requested, limit) => r := LimitExceeded(requested, limit);
      case NegativeLength(length) => r := NegativeLength(length);
      case _ => assert false;
    }
  }

  lemma ValidateAdvances(hard: int, reply: ValidateReply, c: ValidateCaps, returnOCSP: bool, next: ValidateCaps)
    requires ValidateInLimits(c, Limit(hard))
    requires var outputs := ValidateOutputs(reply, c, returnOCSP);
      && SomeGrows(reply.code, hard, outputs) && !ExcessiveReport(reply.code, hard, outputs)
      && next.info == NextCapacity(reply.code, hard, outputs, 0)
      && next.ocsp == NextCapacity(reply.code, hard, outputs, 1)
    ensures ValidateInLimits(next, Limit(hard)) && ValidateWidens(returnOCSP, reply, c, next, Limit(hard))
    ensures ValidatePotential(returnOCSP, next, Limit(hard)) < ValidatePotential(returnOCSP, c, Limit(hard))
  {
    var outputs := ValidateOutputs(reply, c, returnOCSP);
    NextAdvances(reply.code, hard, outputs, 0);
    NextAdvances(reply.code, hard, outputs, 1);
    AdvancingSpends(c.info, next.info, Limit(hard));
    AdvancingSpends(c.ocsp, next.ocsp, Limit(hard));
    assert !Selected(reply.code, outputs, 0) || reply.infoLength <= Limit(hard);
    assert !Selected(reply.code, outputs, 1) || reply.ocspLength <= Limit(hard);
  }

  ghost predicate ValidateStep(native: (nat, ValidateCaps) -> ValidateReply, returnOCSP: bool,
                               offered: seq<ValidateCaps>, i: nat, limit: int)
    requires i + 1 < |offered|
  {
    var reply := native(i, offered[i]);
    && !reply.failed && !ValidateNegative(reply, returnOCSP) && ValidateRetries(reply, offered[i], returnOCSP)
    && ValidateWidens(returnOCSP, reply, offered[i], offered[i + 1], limit)
  }

  ghost predicate ValidateHistory(native: (nat, ValidateCaps) -> ValidateReply, returnOCSP: bool,
                                  offered: seq<ValidateCaps>, limit: int) {
    && (forall i :: 0 <= i < |offered| ==> ValidateInLimits(offered[i], limit))
    && (forall i {:trigger ValidateStep(native, returnOCSP, offered, i, limit)} :: 0 <= i < |offered| - 1 ==>
          ValidateStep(native, returnOCSP, offered, i, limit))
  }

  lemma ValidateGrows(native: (nat, ValidateCaps) -> ValidateReply, returnOCSP: bool, offered: seq<ValidateCaps>,
                      next: ValidateCaps, limit: int)
    requires offered != [] && ValidateHistory(native, returnOCSP, offered, limit) && ValidateInLimits(next, limit)
    requires var longer := offered + [next]; ValidateStep(native, returnOCSP, longer, |offered| - 1, limit)
    ensures ValidateHistory(native, returnOCSP, offered + [next], limit)
  {
    var longer := offered + [next];
    forall i: nat | i < |offered|
      ensures ValidateStep(native, returnOCSP, longer, i, limit)
    {
      if i < |offered| - 1 { assert ValidateStep(native, returnOCSP, offered, i, limit); }
    }
  }

  ghost predicate ValidateConcluded(r: Outcome<Validated>, reply: ValidateReply, c: ValidateCaps, returnOCSP: bool,
                                    limit: int) {
    match r
    case Ok(v) =>
      && !reply.failed && reply.code == ERROR_OK
      && v == Validated(BeforeNUL(reply.info), if returnOCSP then Some(reply.ocsp) else None)
      && |reply.info| == reply.infoLength <= c.info
      && (returnOCSP ==> |reply.ocsp| == reply.ocspLength <= c.ocsp)
    case NativeError => reply.failed
    case NegativeLength(_) => !reply.failed && ValidateNegative(reply, returnOCSP)
    case LimitExceeded(requested, l) =>
      !reply.failed && requested > l == limit && ValidateRetries(reply, c, returnOCSP)
    case CodeError(code) => !reply.failed && code == reply.code && code !in {ERROR_OK, BUFFER_TOO_SMALL}
    case LengthMismatch =>
      && !reply.failed && reply.code == ERROR_OK
      && (|reply.info| != reply.infoLength || (returnOCSP && |reply.ocsp| != reply.ocspLength))
  }

  function FirstValidateCaps(info: int, ocsp: int, configured: int, hard: int): (c: ValidateCaps)
    ensures ValidateInLimits(c, Limit(hard))
    ensures FirstOffer(c.info, info, configured, 4 * 1024, hard) && FirstOffer(c.ocsp, ocsp, configured, 8 * 1024, hard)
  {
    ValidateCaps(BoundedCapacity(RequestedCapacity(info, configured, INITIAL_INFO), hard),
                 BoundedCapacity(RequestedCapacity(ocsp, configured, INITIAL_CERT), hard))
  }

  /** X509ValidateCertificate; an OCSP buffer is always offered but counts only when the response is requested. */
  method ValidateCertificate(native: (nat, ValidateCaps) -> ValidateReply, returnOCSP: bool, info: int, ocsp: int,
                             configured: int, hard: int)
    returns (r: Outcome<Validated>, ghost offered: seq<ValidateCaps>)
    ensures offered != [] && ValidateHistory(native, returnOCSP, offered, Limit(hard))
    ensures |offered| <= 1 + ValidatePotential(returnOCSP, FirstValidateCaps(info, ocsp, configured, hard), Limit(hard))
    ensures r.LimitExceeded? ==> r.requested > r.limit == Limit(hard)
    ensures r.Ok? ==> |r.value.info| <= Limit(hard) && (r.value.ocsp.Some? <==> returnOCSP)
    ensures offered[0] == FirstValidateCaps(info, ocsp, configured, hard)
    ensures var c := offered[|offered| - 1];
      ValidateConcluded(r, native(|offered| - 1, c), c, returnOCSP, Limit(hard))
  {
    var c := FirstValidateCaps(info, ocsp, configured, hard);
    var calls := 0;
    ghost var limit, budget := Limit(hard), ValidatePotential(returnOCSP, c, Limit(hard));
    offered := [c];
    while true
      invariant |offered| == calls + 1 && offered[calls] == c && ValidateInLimits(c, limit)
      invariant ValidateHistory(native, returnOCSP, offered, limit)
      invariant offered[0] == FirstValidateCaps(info, ocsp, configured, hard)
      invariant calls + ValidatePotential(returnOCSP, c, limit) <= budget
      decreases ValidatePotential(returnOCSP, c, limit)
    {
      var reply := native(calls, c);
      if reply.failed { return NativeError, offered; }
      if reply.infoLength < 0 { return NegativeLength(reply.infoLength), offered; }
      if returnOCSP && reply.ocspLength < 0 { return NegativeLength(reply.ocspLength), offered; }
      if ValidateRetries(reply, c, returnOCSP) {
        var next := NextValidateCapacities(reply, c, returnOCSP, hard);
        if !next.Ok? { return LimitExceeded(next.requested, next.limit), offered; }
        ValidateGrows(native, returnOCSP, offered, next.value, limit);
        offered := offered + [next.value];
        c, calls := next.value, calls + 1;
        continue;
      }
      if reply.code != ERROR_OK { return CodeError(reply.code), offered; }
      if |reply.info| != reply.infoLength { return LengthMismatch, offered; }
      if returnOCSP && |reply.ocsp| != reply.ocspLength { return LengthMismatch, offered; }
      return Ok(Validated(BeforeNUL(reply.info), if returnOCSP then Some(reply.ocsp) else None)), offered;
    }
  }

  lemma ValidateCallBound(returnOCSP: bool, c: ValidateCaps, hard: int)
    requires ValidateInLimits(c, Limit(hard))
    ensures ValidatePotential(returnOCSP, c, Limit(hard)) <= 62
  {
    AtMost31(c.info, hard);
    AtMost31(c.ocsp, hard);
  }
}
