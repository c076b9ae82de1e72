/** What the callers of the in-process client are told, and what closing and the PEM cache mean along every run. */
module RootOutcomes {
  import opened Wire
  import opened TrustedCertificates
  import opened RootClient
  import opened RootSafety

  // ----- each call and the answers of its native calls

  predicate AllTrue(results: seq<bool>) { forall k :: 0 <= k < |results| ==> results[k] }

  /** What the native calls of an operation have answered when it is in this phase. */
  predicate Fits(p: Phase, results: seq<bool>) {
    match p
    case Remembering => results == [true]
    case Restoring(_, i) => |results| == i + 1 && AllTrue(results)
    case Reloading(_, i) => |results| == i + 1 && AllTrue(results)
    case Leaving(ok) => ok <==> results != [] && AllTrue(results)
    case Done(ok) => ok <==> results != [] && AllTrue(results)
    case _ => results == []
  }

  predicate CallInv(threads: map<nat, Thread>, results: map<nat, seq<bool>>) {
    forall n :: n in threads ==> n in results && Fits(threads[n].phase, results[n])
  }

  lemma OneMoreAnswer(results: seq<bool>, ok: bool)
    ensures AllTrue(results + [ok]) <==> AllTrue(results) && ok
  {
    var r := results + [ok];
    assert r[|results|] == ok && r[..|results|] == results;
    assert forall k :: 0 <= k < |results| ==> results[k] == r[k];
  }

  lemma OneCallMoves(threads: map<nat, Thread>, results: map<nat, seq<bool>>, n: nat, t: Thread, answers: seq<bool>)
    requires CallInv(threads, results) && Fits(t.phase, answers)
    ensures CallInv(threads[n := t], results[n := answers])
  {
  }

  /** Steps of a caller change its own thread and its own answers. */
  ghost predicate CallStep(s: State, n: nat, u: State) {
    && n in u.threads && u.threads == s.threads[n := u.threads[n]]
    && n in u.results && u.results == s.results[n := u.results[n]]
  }

  lemma LoadEnds(encode: Bytes -> Bytes, s: State, n: nat, ok: bool, clears: bool)
    requires n in s.results && Enabled(s, NativeEnd(n, ok, clears)) && s.results[n] == []
    ensures var u := Do(encode, s, NativeEnd(n, ok, clears));
      CallStep(s, n, u) && !u.threads[n].phase.Missed? && Fits(u.threads[n].phase, u.results[n])
  {
    OneMoreAnswer([], ok);
  }

  lemma ReloadEnds(encode: Bytes -> Bytes, s: State, n: nat, ok: bool)
    requires n in s.results && Enabled(s, RestoreEnd(n, ok)) && Fits(s.threads[n].phase, s.results[n])
    ensures var u := Do(encode, s, RestoreEnd(n, ok));
      CallStep(s, n, u) && !u.threads[n].phase.Missed? && Fits(u.threads[n].phase, u.results[n])
  {
    OneMoreAnswer(s.results[n], ok);
  }

  lemma NativeMoves(encode: Bytes -> Bytes, s: State, a: Action)
    requires NativeStep(a) && a.n in s.results && Enabled(s, a) && Fits(s.threads[a.n].phase, s.results[a.n])
    ensures var u := Do(encode, s, a);
      CallStep(s, a.n, u) && !u.threads[a.n].phase.Missed? && Fits(u.threads[a.n].phase, u.results[a.n])
  {
    if a.NativeEnd? {
      LoadEnds(encode, s, a.n, a.ok, a.clears);
    } else if a.RestoreEnd? {
      ReloadEnds(encode, s, a.n, a.ok);
    }
  }

  lemma GateMoves(encode: Bytes -> Bytes, s: State, a: Action)
    requires Enabled(s, a) && !NativeStep(a) && !CloseStep(a)
    requires a.n in s.threads ==> a.n in s.results && Fits(s.threads[a.n].phase, s.results[a.n])
    ensures var u := Do(encode, s, a);
      && CallStep(s, a.n, u) && Fits(u.threads[a.n].phase, u.results[a.n])
      && (u.threads[a.n].phase.Missed? ==> a.Lookup?)
  {
    if a.Unsupported? { OneMoreAnswer(s.results[a.n], false); }
  }

  lemma CloseMoves(encode: Bytes -> Bytes, s: State, a: Action)
    requires Enabled(s, a) && CloseStep(a)
    ensures Do(encode, s, a).threads == s.threads && Do(encode, s, a).results == s.results
  {
  }

  lemma CallerMoves(encode: Bytes -> Bytes, s: State, a: Action) returns (u: State)
    requires CallInv(s.threads, s.results) && Enabled(s, a) && !CloseStep(a)
    ensures u == Do(encode, s, a) && CallStep(s, a.n, u) && Fits(u.threads[a.n].phase, u.results[a.n])
    ensures u.threads[a.n].phase.Missed? ==> a.Lookup?
  {
    u := Do(encode, s, a);
    assert a.n in s.threads ==> Fits(s.threads[a.n].phase, s.results[a.n]);
    if NativeStep(a) { NativeMoves(encode, s, a); } else { GateMoves(encode, s, a); }
  }

  lemma StepCalls(encode: Bytes -> Bytes, s: State, a: Action)
    requires CallInv(s.threads, s.results) && Enabled(s, a)
    ensures CallInv(Do(encode, s, a).threads, Do(encode, s, a).results)
  {
    if CloseStep(a) {
      CloseMoves(encode, s, a);
    } else {
      var u := CallerMoves(encode, s, a);
      OneCallMoves(s.threads, s.results, a.n, u.threads[a.n], u.results[a.n]);
    }
  }

  // ----- the PEM cache

  predicate NotLast(encoded: seq<Bytes>, der: Bytes) { encoded != [] ==> encoded[|encoded| - 1] != der }

  /** While there is a library the cache holds the certificate encoded last, and nothing is encoded twice in a row. */
  predicate CacheInv(encode: Bytes -> Bytes, c: Client, encoded: seq<Bytes>) {
    && (c.library ==>
          c.cache == if encoded == [] then None
                     else Some(Entry(encoded[|encoded| - 1], encode(encoded[|encoded| - 1]))))
    && (forall k :: 0 < k < |encoded| ==> encoded[k] != encoded[k - 1])
  }

  predicate MissInv(threads: map<nat, Thread>, encoded: seq<Bytes>) {
    forall n :: n in threads && threads[n].phase.Missed? && threads[n].job.Info? ==>
      NotLast(encoded, threads[n].job.der)
  }

  /** What the steps do to the cache: Encode replaces it, the end of the library drops it. */
  predicate CacheStep(encode: Bytes -> Bytes, s: State, a: Action, u: State) {
    if a.Encode? then
      && a.n in s.threads && s.threads[a.n].job.Info?
      && u.encoded == s.encoded + [s.threads[a.n].job.der]
      && u.client.cache == Some(Entry(s.threads[a.n].job.der, encode(s.threads[a.n].job.der)))
    else u.encoded == s.encoded && (u.client.library ==> s.client.library && u.client.cache == s.client.cache)
  }

  lemma NativeCache(encode: Bytes -> Bytes, s: State, a: Action)
    requires Enabled(s, a) && NativeStep(a)
    ensures CacheStep(encode, s, a, Do(encode, s, a))
  {
  }

  lemma CloseCache(encode: Bytes -> Bytes, s: State, a: Action)
    requires Enabled(s, a) && CloseStep(a)
    ensures CacheStep(encode, s, a, Do(encode, s, a))
  {
  }

  lemma GateCache(encode: Bytes -> Bytes, s: State, a: Action)
    requires Enabled(s, a) && !NativeStep(a) && !CloseStep(a)
    ensures CacheStep(encode, s, a, Do(encode, s, a))
  {
  }

  lemma StepCache(encode: Bytes -> Bytes, s: State, a: Action) returns (u: State)
    requires Enabled(s, a)
    ensures u == Do(encode, s, a) && CacheStep(encode, s, a, u)
  {
    u := Do(encode, s, a);
    if NativeStep(a) { NativeCache(encode, s, a); }
    else if CloseStep(a) { CloseCache(encode, s, a); }
    else { GateCache(encode, s, a); }
  }

  predicate CacheAt(encode: Bytes -> Bytes, s: State) {
    CacheInv(encode, s.client, s.encoded) && MissInv(s.threads, s.encoded)
  }

  lemma EncodeCaches(encode: Bytes -> Bytes, s: State, n: nat, u: State)
    requires GateInv(s) && CacheAt(encode, s) && Enabled(s, Encode(n)) && CacheStep(encode, s, Encode(n), u)
    requires n in u.threads && u.threads == s.threads[n := u.threads[n]] && !u.threads[n].phase.Missed?
    ensures CacheAt(encode, u)
  {
    assert s.owner == Held(Caller(n));
  }

  lemma LookupMisses(encode: Bytes -> Bytes, s: State, n: nat)
    requires CacheAt(encode, s) && Enabled(s, Lookup(n)) && s.client.library
    ensures MissInv(Do(encode, s, Lookup(n)).threads, s.encoded)
  {
  }

  lemma OthersCache(encode: Bytes -> Bytes, s: State, a: Action, u: State)
    requires CacheAt(encode, s) && !a.Encode? && CacheStep(encode, s, a, u) && MissInv(u.threads, s.encoded)
    ensures CacheAt(encode, u)
  {
  }

  lemma CacheKept(encode: Bytes -> Bytes, s: State, a: Action)
    requires Inv(encode, s) && CallInv(s.threads, s.results) && CacheAt(encode, s) && Enabled(s, a)
    ensures CacheAt(encode, Do(encode, s, a))
  {
    var u := StepCache(encode, s, a);
    if CloseStep(a) {
      CloseMoves(encode, s, a);
      OthersCache(encode, s, a, u);
    } else {
      var v := CallerMoves(encode, s, a);
      if a.Encode? {
        EncodeCaches(encode, s, a.n, u);
      } else {
        if a.Lookup? {
          assert s.owner == Held(Caller(a.n));
          LookupMisses(encode, s, a.n);
        }
        OthersCache(encode, s, a, u);
      }
    }
  }

  // ----- every run

  predicate FullInv(encode: Bytes -> Bytes, s: State) {
    Inv(encode, s) && CallInv(s.threads, s.results) && CacheAt(encode, s)
  }

  lemma {:induction false} RunAll(encode: Bytes -> Bytes, run: seq<State>, steps: seq<Action>, i: nat)
    requires IsRun(encode, run, steps) && i < |run|
    ensures FullInv(encode, run[i])
    decreases i
  {
    if i == 0 {
      InitInv(encode, run[0].client.library);
    } else {
      RunAll(encode, run, steps, i - 1);
      var s, a := run[i - 1], steps[i - 1];
      StepInv(encode, s, a);
      StepCalls(encode, s, a);
      CacheKept(encode, s, a);
    }
  }

  /** What callers are told and what was encoded, in words of the native library's answers. */
  ghost predicate Accounted(encode: Bytes -> Bytes, s: State) {
    var c := s.client;
    // an operation that is over succeeded exactly if it called the library and every one of its calls succeeded
    && (forall n :: n in s.threads && (s.threads[n].phase.Leaving? || s.threads[n].phase.Done?) ==>
          n in s.results && (s.threads[n].phase.ok <==> s.results[n] != [] && AllTrue(s.results[n])))
    // a key store that loaded for a caller who still holds the gate: every retained certificate was loaded again
    && (forall n :: n in s.threads && s.threads[n] == Thread(Store, Leaving(true)) ==>
          forall cert :: cert in s.loads ==> cert in s.native.trust)
    // the cache holds the PEM of the certificate encoded last, and no certificate is encoded twice in a row
    && (c.library ==>
          c.cache == if s.encoded == [] then None
                     else Some(Entry(s.encoded[|s.encoded| - 1], encode(s.encoded[|s.encoded| - 1]))))
    && (forall k :: 0 < k < |s.encoded| ==> s.encoded[k] != s.encoded[k - 1])
  }

  lemma AccountedState(encode: Bytes -> Bytes, s: State)
    requires FullInv(encode, s)
    ensures Accounted(encode, s)
  {
    InvIsSafe(encode, s);
    forall n | n in s.threads && (s.threads[n].phase.Leaving? || s.threads[n].phase.Done?)
      ensures n in s.results && (s.threads[n].phase.ok <==> s.results[n] != [] && AllTrue(s.results[n]))
    {
      assert Fits(s.threads[n].phase, s.results[n]);
    }
    forall n | n in s.threads && s.threads[n] == Thread(Store, Leaving(true))
      ensures forall cert :: cert in s.loads ==> cert in s.native.trust
    {
      assert s.owner == Held(Caller(n));
    }
  }

  lemma EveryCallAccounted(encode: Bytes -> Bytes, run: seq<State>, steps: seq<Action>, i: nat)
    requires IsRun(encode, run, steps) && i < |run|
    ensures Accounted(encode, run[i])
  {
    RunAll(encode, run, steps, i);
    AccountedState(encode, run[i]);
  }

  // ----- closing

  /** Waits for the gate or holds it. */
  predicate AtGate(s: State, n: nat) {
    n in s.threads && (s.threads[n].phase.Queued? || Holds(s.threads[n].phase))
  }

  /** Holds the gate and is past the second state check. */
  predicate InsideAt(s: State, n: nat) { n in s.threads && Admitted(s.threads[n].phase) }

  ghost predicate StaysOut(s: State, u: State, n: nat) {
    (!AtGate(s, n) ==> !AtGate(u, n)) && (!InsideAt(s, n) ==> !InsideAt(u, n))
  }

  lemma NoEntry(encode: Bytes -> Bytes, s: State, a: Action, n: nat)
    requires Enabled(s, a) && s.client.closing
    ensures StaysOut(s, Do(encode, s, a), n)
  {
    if CloseStep(a) { CloseMoves(encode, s, a); }
    else if NativeStep(a) { NoEntryByNative(encode, s, a, n); }
    else { NoEntryByGate(encode, s, a, n); }
  }

  lemma NoEntryByNative(encode: Bytes -> Bytes, s: State, a: Action, n: nat)
    requires Enabled(s, a) && NativeStep(a)
    ensures StaysOut(s, Do(encode, s, a), n)
  {
  }

  lemma NoEntryByGate(encode: Bytes -> Bytes, s: State, a: Action, n: nat)
    requires Enabled(s, a) && !NativeStep(a) && !CloseStep(a) && s.client.closing
    ensures StaysOut(s, Do(encode, s, a), n)
  {
  }

  /**
   * From the moment that closing begins, whoever is not at the gate never comes to it, and whoever is not yet past the
   * second check never gets past it.
   */
  lemma {:induction false} NoEntryWhileClosing(encode: Bytes -> Bytes, run: seq<State>, steps: seq<Action>, i: nat,
                                               j: nat, n: nat)
    requires IsRun(encode, run, steps) && i <= j < |run| && run[i].client.closing
    ensures StaysOut(run[i], run[j], n)
    decreases j
  {
    if i < j {
      NoEntryWhileClosing(encode, run, steps, i, j - 1, n);
      RunSettles(encode, run, steps, i, j - 1);
      assert Follows(encode, run[j - 1], steps[j - 1], run[j]);
      NoEntry(encode, run[j - 1], steps[j - 1], n);
    }
  }
}
