/** What every step of the in-process client keeps, and what follows for every run. */
module RootSafety {
  import opened Wire
  import opened TrustedCertificates
  import opened RootClient
  import Pem

  // ----- the invariant

  /** The gate: one token or one holder, never both; before it exists nobody waits for it. */
  predicate GateInv(s: State) {
    && (s.client.gate.Some? ==> s.client.gate.value == if s.owner.Free? then 1 else 0)
    && (s.client.gate.None? ==> s.owner.Free? && s.closer.Idle?)
    && (forall n :: n in s.threads ==> (Holds(s.threads[n].phase) <==> s.owner == Held(Caller(n))))
    && (s.owner.Held? && s.owner.who.Caller? ==> s.owner.who.n in s.threads)
    && (s.owner == Held(TheCloser) <==> CloserHolds(s.closer))
    && (s.client.gate.None? ==> forall n :: n in s.threads ==> !s.threads[n].phase.Queued?)
  }

  predicate CloserHolds(p: Closer) { p.Holding? || p.Closing? || p.Closed? || p.Saved? }

  /** The phase of the caller that holds the gate. */
  function Active(s: State): Phase {
    if s.owner.Held? && s.owner.who.Caller? && s.owner.who.n in s.threads then s.threads[s.owner.who.n].phase else New
  }

  function ActiveJob(s: State): Job {
    if s.owner.Held? && s.owner.who.Caller? && s.owner.who.n in s.threads then s.threads[s.owner.who.n].job else Plain
  }

  /** Passed the second state check, and has not failed since. */
  predicate Admitted(p: Phase) { Holds(p) && !p.Entered? && p != Leaving(false) }

  /** Closing runs through its stages once; a caller admitted under the gate finds the library open. */
  predicate LifeInv(c: Client, closer: Closer, a: Phase) {
    && (c.closing <==> !closer.Idle?)
    && (c.err.Some? <==> closer.Saved? || closer.Released? || closer.Finished?)
    && (c.done <==> closer.Finished?)
    && (Admitted(a) ==> c.library && (closer.Idle? || closer.Waiting?))
    && (c.err.Some? ==> !c.library && c.trusted == [] && c.cache.None?)
    && (c.closing && c.err.None? ==> c.library)
  }

  predicate WaitInv(waits: map<nat, Wait>, c: Client) {
    && (forall k :: k in waits && waits[k].Returned? ==> c.done && c.err == Some(waits[k].err))
    && (forall k :: k in waits && waits[k] == Pending(true) ==> c.done)
  }

  /** Cached and local PEM are the encoder's. */
  predicate PemInv(encode: Bytes -> Bytes, c: Client, threads: map<nat, Thread>) {
    && (c.cache.Some? ==> c.cache.value.pem == encode(c.cache.value.der))
    && (forall n :: n in threads ==> LocalPem(encode, threads[n].job))
  }

  predicate LocalPem(encode: Bytes -> Bytes, job: Job) {
    job.Info? && job.pem.Some? ==> job.pem.value == encode(job.der)
  }

  /** Native trust and the retained list. */
  predicate TrustInv(c: Client, trust: set<Cert>, loads: seq<Cert>, intact: bool, a: Phase, job: Job) {
    && (a.Remembering? ==> job.Trust? && job.cert in trust && loads != [] && loads[|loads| - 1] == job.cert)
    && (c.err.None? ==> c.trusted == Retained(if a.Remembering? then loads[..|loads| - 1] else loads))
    && (a.Restoring? ==>
          && job.Store? && a.list == c.trusted && a.i <= |a.list|
          && forall k :: 0 <= k < a.i ==> a.list[k] in trust)
    && (a.Reloading? ==>
          && job.Store? && a.list == c.trusted && a.i < |a.list|
          && forall k :: 0 <= k < a.i ==> a.list[k] in trust)
    && (intact ==> forall k :: 0 <= k < |c.trusted| ==> c.trusted[k] in trust)
    && (job.Store? && a == Leaving(true) ==> intact)
    && (job.Info? && a.Native? ==> job.pem.Some?)
  }

  /** Native calls begin and end in turn. */
  predicate Serial(log: seq<Event>) {
    && (forall i :: 0 <= i < |log| ==> (log[i].Begin? <==> i % 2 == 0))
    && (forall i :: 0 < i < |log| && log[i].End? ==> log[i].who == log[i - 1].who)
  }

  /** Whoever is inside a native call began the last logged one; only an active closer ever closed. */
  predicate LogInv(log: seq<Event>, owner: Owner, closer: Closer, a: Phase) {
    && Serial(log)
    && (|log| % 2 == 1 <==> InNative(a) || closer.Closing?)
    && (|log| % 2 == 1 ==> owner.Held? && log[|log| - 1] == Begin(owner.who))
    && (closer.Idle? || closer.Waiting? || closer.Holding? ==> forall i :: 0 <= i < |log| ==> log[i].who != TheCloser)
    && (closer.Closing? ==> forall i :: 0 <= i < |log| - 1 ==> log[i].who != TheCloser)
    && (closer.Closed? || closer.Saved? || closer.Released? || closer.Finished? ==>
          && |log| >= 2 && log[|log| - 2] == Begin(TheCloser)
          && forall i :: 0 <= i < |log| - 2 ==> log[i].who != TheCloser)
  }

  predicate Inv(encode: Bytes -> Bytes, s: State) {
    && GateInv(s) && LifeInv(s.client, s.closer, Active(s)) && WaitInv(s.waits, s.client)
    && PemInv(encode, s.client, s.threads)
    && TrustInv(s.client, s.native.trust, s.loads, s.intact, Active(s), ActiveJob(s))
    && LogInv(s.native.log, s.owner, s.closer, Active(s))
  }

  lemma InitInv(encode: Bytes -> Bytes, library: bool)
    ensures Inv(encode, Init(library))
  {
  }

  // ----- every step

  /** The holder of the gate moves on without giving it up. */
  lemma MoveHolder(s: State, n: nat, b: Phase)
    requires GateInv(s) && s.owner == Held(Caller(n)) && Holds(b)
    ensures GateInv(Move(s, n, b)) && Active(Move(s, n, b)) == b && ActiveJob(Move(s, n, b)) == s.threads[n].job
    ensures forall encode: Bytes -> Bytes {:trigger PemInv(encode, s.client, s.threads)} ::
      PemInv(encode, s.client, s.threads) ==> PemInv(encode, s.client, Move(s, n, b).threads)
  {
  }

  /** A caller outside the gate stays outside; waiting for the gate makes it. */
  lemma MoveOutside(s: State, n: nat, b: Phase)
    requires GateInv(s) && n in s.threads && !Holds(s.threads[n].phase) && !Holds(b)
    ensures var u := Move(s, n, b).(client := if b.Queued? then WithGate(s.client) else s.client);
      GateInv(u) && Active(u) == Active(s) && ActiveJob(u) == ActiveJob(s)
  {
  }

  lemma LogBegin(log: seq<Event>, who: Who, closer: Closer, a: Phase, b: Phase)
    requires LogInv(log, Held(who), closer, a) && !InNative(a) && InNative(b) && who.Caller?
    requires closer.Idle? || closer.Waiting?
    ensures LogInv(log + [Begin(who)], Held(who), closer, b)
  {
  }

  lemma LogEnd(log: seq<Event>, who: Who, closer: Closer, a: Phase, b: Phase)
    requires LogInv(log, Held(who), closer, a) && InNative(a) && !InNative(b) && who.Caller?
    requires closer.Idle? || closer.Waiting?
    ensures LogInv(log + [End(who)], Held(who), closer, b)
  {
  }

  /** A step of the gate's holder that leaves client and closing alone. */
  lemma HolderStep(encode: Bytes -> Bytes, s: State, u: State, n: nat, b: Phase)
    requires Inv(encode, s) && s.owner == Held(Caller(n)) && Holds(b) && (Admitted(b) ==> Admitted(Active(s)))
    requires u.client == s.client && u.closer == s.closer && u.waits == s.waits && u.owner == s.owner
    requires u.threads == s.threads[n := s.threads[n].(phase := b)]
    requires TrustInv(u.client, u.native.trust, u.loads, u.intact, b, s.threads[n].job)
    requires LogInv(u.native.log, u.owner, u.closer, b)
    ensures Inv(encode, u)
  {
    MoveHolder(s, n, b);
    assert Active(u) == b && ActiveJob(u) == s.threads[n].job;
    assert GateInv(u) && PemInv(encode, u.client, u.threads);
  }

  lemma StartCallKeeps(encode: Bytes -> Bytes, s: State, n: nat, job: Job)
    requires Inv(encode, s) && Enabled(s, StartCall(n, job))
    ensures Inv(encode, Do(encode, s, StartCall(n, job)))
  {
  }

  lemma PeekKeeps(encode: Bytes -> Bytes, s: State, n: nat)
    requires Inv(encode, s) && Enabled(s, Peek(n))
    ensures Inv(encode, Do(encode, s, Peek(n)))
  {
  }

  lemma EnqueueKeeps(encode: Bytes -> Bytes, s: State, n: nat)
    requires Inv(encode, s) && Enabled(s, Enqueue(n))
    ensures Inv(encode, Do(encode, s, Enqueue(n)))
  {
    MoveOutside(s, n, if Refuses(s.client) then Done(false) else Queued);
  }

  lemma GiveUpKeeps(encode: Bytes -> Bytes, s: State, n: nat)
    requires Inv(encode, s) && Enabled(s, GiveUp(n))
    ensures Inv(encode, Do(encode, s, GiveUp(n)))
  {
  }

  lemma TakeKeeps(encode: Bytes -> Bytes, s: State, n: nat)
    requires Inv(encode, s) && Enabled(s, Take(n))
    ensures Inv(encode, Do(encode, s, Take(n)))
  {
  }

  lemma RecheckKeeps(encode: Bytes -> Bytes, s: State, n: nat, cancelled: bool)
    requires Inv(encode, s) && Enabled(s, Recheck(n, cancelled))
    ensures Inv(encode, Do(encode, s, Recheck(n, cancelled)))
  {
  }

  lemma UnsupportedKeeps(encode: Bytes -> Bytes, s: State, n: nat)
    requires Inv(encode, s) && Enabled(s, Unsupported(n))
    ensures Inv(encode, Do(encode, s, Unsupported(n)))
  {
  }

  lemma LookupKeeps(encode: Bytes -> Bytes, s: State, n: nat)
    requires Inv(encode, s) && Enabled(s, Lookup(n))
    ensures Inv(encode, Do(encode, s, Lookup(n)))
  {
  }

  lemma EncodeKeeps(encode: Bytes -> Bytes, s: State, n: nat)
    requires Inv(encode, s) && Enabled(s, Encode(n))
    ensures Inv(encode, Do(encode, s, Encode(n)))
  {
  }

  lemma NativeBeginKeeps(encode: Bytes -> Bytes, s: State, n: nat)
    requires Inv(encode, s) && Enabled(s, NativeBegin(n))
    ensures Inv(encode, Do(encode, s, NativeBegin(n)))
  {
    LogBegin(s.native.log, Caller(n), s.closer, Active(s), Native);
  }

  /** A successful load is recorded before it is retained; a key-store load leaves the retained list as it was. */
  lemma TrustKept(c: Client, trust: set<Cert>, loads: seq<Cert>, intact: bool, job: Job, ok: bool, clears: bool)
    requires TrustInv(c, trust, loads, intact, Native, job)
    ensures TrustInv(c, TrustAfter(job, ok, clears, trust), if ok && job.Trust? then loads + [job.cert] else loads,
                     intact && !job.Store?, PhaseAfter(job, ok, c.trusted), job)
  {
    if job.Trust? { assert (loads + [job.cert])[..|loads|] == loads; }
  }

  lemma NativeEndShape(encode: Bytes -> Bytes, s: State, n: nat, ok: bool, clears: bool) returns (u: State, b: Phase)
    requires Enabled(s, NativeEnd(n, ok, clears))
    ensures u == Do(encode, s, NativeEnd(n, ok, clears)) && b == PhaseAfter(s.threads[n].job, ok, s.client.trusted)
    ensures u.client == s.client && u.closer == s.closer && u.waits == s.waits && u.owner == s.owner
    ensures u.threads == s.threads[n := s.threads[n].(phase := b)]
    ensures var job := s.threads[n].job;
      && u.native.trust == TrustAfter(job, ok, clears, s.native.trust) && u.intact == (s.intact && !job.Store?)
      && u.loads == (if ok && job.Trust? then s.loads + [job.cert] else s.loads)
    ensures u.native.log == s.native.log + [End(Caller(n))]
  {
    return Do(encode, s, NativeEnd(n, ok, clears)), PhaseAfter(s.threads[n].job, ok, s.client.trusted);
  }

  lemma NativeEnded(encode: Bytes -> Bytes, s: State, u: State, n: nat, b: Phase, ok: bool, clears: bool)
    requires Inv(encode, s) && s.owner == Held(Caller(n)) && Active(s).Native?
    requires u.client == s.client && u.closer == s.closer && u.waits == s.waits && u.owner == s.owner
    requires b == PhaseAfter(s.threads[n].job, ok, s.client.trusted)
    requires u.threads == s.threads[n := s.threads[n].(phase := b)]
    requires var job := s.threads[n].job;
      && u.native.trust == TrustAfter(job, ok, clears, s.native.trust) && u.intact == (s.intact && !job.Store?)
      && u.loads == (if ok && job.Trust? then s.loads + [job.cert] else s.loads)
    requires u.native.log == s.native.log + [End(Caller(n))]
    ensures Inv(encode, u)
  {
    TrustKept(s.client, s.native.trust, s.loads, s.intact, s.threads[n].job, ok, clears);
    LogEnd(s.native.log, Caller(n), s.closer, Native, b);
    HolderStep(encode, s, u, n, b);
  }

  lemma NativeEndKeeps(encode: Bytes -> Bytes, s: State, n: nat, ok: bool, clears: bool)
    requires Inv(encode, s) && Enabled(s, NativeEnd(n, ok, clears))
    ensures Inv(encode, Do(encode, s, NativeEnd(n, ok, clears)))
  {
    assert s.owner == Held(Caller(n));
    var u, b := NativeEndShape(encode, s, n, ok, clears);
    NativeEnded(encode, s, u, n, b, ok, clears);
  }

  lemma RememberKeeps(encode: Bytes -> Bytes, s: State, n: nat)
    requires Inv(encode, s) && Enabled(s, Remember(n))
    ensures Inv(encode, Do(encode, s, Remember(n)))
  {
    assert s.owner == Held(Caller(n));
    MoveHolder(s, n, Leaving(true));
  }

  lemma RestoreBeginKeeps(encode: Bytes -> Bytes, s: State, n: nat)
    requires Inv(encode, s) && Enabled(s, RestoreBegin(n))
    ensures Inv(encode, Do(encode, s, RestoreBegin(n)))
  {
    LogBegin(s.native.log, Caller(n), s.closer, Active(s), Active(Do(encode, s, RestoreBegin(n))));
  }

  lemma ReloadKept(c: Client, trust: set<Cert>, loads: seq<Cert>, intact: bool, a: Phase, ok: bool)
    requires TrustInv(c, trust, loads, intact, a, Store) && a.Reloading?
    ensures TrustInv(c, if ok then trust + {a.list[a.i]} else trust, loads, intact,
                     if ok then Restoring(a.list, a.i + 1) else Leaving(false), Store)
  {
  }

  lemma RestoreEndShape(encode: Bytes -> Bytes, s: State, n: nat, ok: bool) returns (u: State, b: Phase)
    requires Enabled(s, RestoreEnd(n, ok))
    ensures u == Do(encode, s, RestoreEnd(n, ok))
    ensures u.client == s.client && u.closer == s.closer && u.waits == s.waits && u.owner == s.owner
    ensures u.threads == s.threads[n := s.threads[n].(phase := b)] && u.intact == s.intact && u.loads == s.loads
    ensures var p := s.threads[n].phase;
      && b == (if ok then Restoring(p.list, p.i + 1) else Leaving(false))
      && u.native.trust == if ok then s.native.trust + {p.list[p.i]} else s.native.trust
    ensures u.native.log == s.native.log + [End(Caller(n))]
  {
    u := Do(encode, s, RestoreEnd(n, ok));
    b := u.threads[n].phase;
  }

  lemma RestoreEnded(encode: Bytes -> Bytes, s: State, u: State, n: nat, b: Phase, ok: bool)
    requires Inv(encode, s) && s.owner == Held(Caller(n)) && Active(s).Reloading?
    requires u.client == s.client && u.closer == s.closer && u.waits == s.waits && u.owner == s.owner
    requires u.threads == s.threads[n := s.threads[n].(phase := b)] && u.intact == s.intact && u.loads == s.loads
    requires var p := s.threads[n].phase;
      && b == (if ok then Restoring(p.list, p.i + 1) else Leaving(false))
      && u.native.trust == if ok then s.native.trust + {p.list[p.i]} else s.native.trust
    requires u.native.log == s.native.log + [End(Caller(n))]
    ensures Inv(encode, u)
  {
    ReloadKept(s.client, s.native.trust, s.loads, s.intact, s.threads[n].phase, ok);
    LogEnd(s.native.log, Caller(n), s.closer, s.threads[n].phase, b);
    HolderStep(encode, s, u, n, b);
  }

  lemma RestoreEndKeeps(encode: Bytes -> Bytes, s: State, n: nat, ok: bool)
    requires Inv(encode, s) && Enabled(s, RestoreEnd(n, ok))
    ensures Inv(encode, Do(encode, s, RestoreEnd(n, ok)))
  {
    assert s.owner == Held(Caller(n));
    var u, b := RestoreEndShape(encode, s, n, ok);
    RestoreEnded(encode, s, u, n, b, ok);
  }

  lemma RestoreDoneKeeps(encode: Bytes -> Bytes, s: State, n: nat)
    requires Inv(encode, s) && Enabled(s, RestoreDone(n))
    ensures Inv(encode, Do(encode, s, RestoreDone(n)))
  {
  }

  lemma ReleaseKeeps(encode: Bytes -> Bytes, s: State, n: nat)
    requires Inv(encode, s) && Enabled(s, Release(n))
    ensures Inv(encode, Do(encode, s, Release(n)))
  {
  }

  lemma NextFieldKeeps(encode: Bytes -> Bytes, s: State, n: nat)
    requires Inv(encode, s) && Enabled(s, NextField(n))
    ensures Inv(encode, Do(encode, s, NextField(n)))
  {
  }

  /** Only the CloseContext callers change. */
  lemma WaitsMoved(encode: Bytes -> Bytes, s: State, u: State)
    requires Inv(encode, s) && u == s.(waits := u.waits) && WaitInv(u.waits, s.client)
    ensures Inv(encode, u)
  {
  }

  /** Without a library there is nothing to close, and closing only drops the cache. */
  lemma NoLibraryKeeps(encode: Bytes -> Bytes, s: State, k: nat)
    requires Inv(encode, s) && k !in s.waits && !s.client.library && !s.client.closing
    ensures Inv(encode, Do(encode, s, CallClose(k)))
  {
  }

  lemma FirstCloseKeeps(encode: Bytes -> Bytes, s: State, k: nat)
    requires Inv(encode, s) && k !in s.waits && s.client.library && !s.client.closing
    ensures Inv(encode, Do(encode, s, CallClose(k)))
  {
  }

  lemma CallCloseKeeps(encode: Bytes -> Bytes, s: State, k: nat)
    requires Inv(encode, s) && Enabled(s, CallClose(k))
    ensures Inv(encode, Do(encode, s, CallClose(k)))
  {
    if s.client.closing {
      WaitsMoved(encode, s, Do(encode, s, CallClose(k)));
    } else if s.client.library {
      FirstCloseKeeps(encode, s, k);
    } else {
      NoLibraryKeeps(encode, s, k);
    }
  }

  lemma LeaveCloseKeeps(encode: Bytes -> Bytes, s: State, k: nat)
    requires Inv(encode, s) && Enabled(s, LeaveClose(k))
    ensures Inv(encode, Do(encode, s, LeaveClose(k)))
  {
  }

  lemma ReturnCloseKeeps(encode: Bytes -> Bytes, s: State, k: nat)
    requires Inv(encode, s) && Enabled(s, ReturnClose(k))
    ensures Inv(encode, Do(encode, s, ReturnClose(k)))
  {
  }

  lemma CloserTakesKeeps(encode: Bytes -> Bytes, s: State)
    requires Inv(encode, s) && Enabled(s, CloserTakes)
    ensures Inv(encode, Do(encode, s, CloserTakes))
  {
  }

  lemma CloseBeginKeeps(encode: Bytes -> Bytes, s: State)
    requires Inv(encode, s) && Enabled(s, CloseBegin)
    ensures Inv(encode, Do(encode, s, CloseBegin))
  {
  }

  lemma LogClosed(log: seq<Event>, err: int, a: Phase)
    requires LogInv(log, Held(TheCloser), Closing, a) && !InNative(a)
    ensures LogInv(log + [End(TheCloser)], Held(TheCloser), Closed(err), a)
  {
  }

  lemma CloseEndKeeps(encode: Bytes -> Bytes, s: State, err: int)
    requires Inv(encode, s) && Enabled(s, CloseEnd(err))
    ensures Inv(encode, Do(encode, s, CloseEnd(err)))
  {
    LogClosed(s.native.log, err, Active(s));
  }

  lemma ClearKeeps(encode: Bytes -> Bytes, s: State)
    requires Inv(encode, s) && Enabled(s, Clear)
    ensures Inv(encode, Do(encode, s, Clear))
  {
  }

  lemma CloserReleasesKeeps(encode: Bytes -> Bytes, s: State)
    requires Inv(encode, s) && Enabled(s, CloserReleases)
    ensures Inv(encode, Do(encode, s, CloserReleases))
  {
  }

  lemma AnnounceKeeps(encode: Bytes -> Bytes, s: State)
    requires Inv(encode, s) && Enabled(s, Announce)
    ensures Inv(encode, Do(encode, s, Announce))
  {
  }

  predicate NativeStep(a: Action) {
    a.NativeBegin? || a.NativeEnd? || a.Remember? || a.RestoreBegin? || a.RestoreEnd? || a.RestoreDone?
  }

  predicate CloseStep(a: Action) {
    || a.CallClose? || a.LeaveClose? || a.ReturnClose? || a.CloserTakes? || a.CloseBegin? || a.CloseEnd? || a.Clear?
    || a.CloserReleases? || a.Announce?
  }

  lemma NativeStepInv(encode: Bytes -> Bytes, s: State, a: Action)
    requires Inv(encode, s) && Enabled(s, a) && NativeStep(a)
    ensures Inv(encode, Do(encode, s, a))
  {
    match a
    case NativeBegin(n) => NativeBeginKeeps(encode, s, n);
    case NativeEnd(n, ok, clears) => NativeEndKeeps(encode, s, n, ok, clears);
    case Remember(n) => RememberKeeps(encode, s, n);
    case RestoreBegin(n) => RestoreBeginKeeps(encode, s, n);
    case RestoreEnd(n, ok) => RestoreEndKeeps(encode, s, n, ok);
    case RestoreDone(n) => RestoreDoneKeeps(encode, s, n);
  }

  lemma CloseStepInv(encode: Bytes -> Bytes, s: State, a: Action)
    requires Inv(encode, s) && Enabled(s, a) && CloseStep(a)
    ensures Inv(encode, Do(encode, s, a))
  {
    match a
    case CallClose(k) => CallCloseKeeps(encode, s, k);
    case LeaveClose(k) => LeaveCloseKeeps(encode, s, k);
    case ReturnClose(k) => ReturnCloseKeeps(encode, s, k);
    case CloserTakes => CloserTakesKeeps(encode, s);
    case CloseBegin => CloseBeginKeeps(encode, s);
    case CloseEnd(err) => CloseEndKeeps(encode, s, err);
    case Clear => ClearKeeps(encode, s);
    case CloserReleases => CloserReleasesKeeps(encode, s);
    case Announce => AnnounceKeeps(encode, s);
  }

  lemma GateStepInv(encode: Bytes -> Bytes, s: State, a: Action)
    requires Inv(encode, s) && Enabled(s, a) && !NativeStep(a) && !CloseStep(a)
    ensures Inv(encode, Do(encode, s, a))
  {
    match a
    case StartCall(n, job) => StartCallKeeps(encode, s, n, job);
    case Peek(n) => PeekKeeps(encode, s, n);
    case Enqueue(n) => EnqueueKeeps(encode, s, n);
    case GiveUp(n) => GiveUpKeeps(encode, s, n);
    case Take(n) => TakeKeeps(encode, s, n);
    case Recheck(n, cancelled) => RecheckKeeps(encode, s, n, cancelled);
    case Unsupported(n) => UnsupportedKeeps(encode, s, n);
    case Lookup(n) => LookupKeeps(encode, s, n);
    case Encode(n) => EncodeKeeps(encode, s, n);
    case Release(n) => ReleaseKeeps(encode, s, n);
    case NextField(n) => NextFieldKeeps(encode, s, n);
  }

  lemma StepInv(encode: Bytes -> Bytes, s: State, a: Action)
    requires Inv(encode, s) && Enabled(s, a)
    ensures Inv(encode, Do(encode, s, a))
  {
    if NativeStep(a) {
      NativeStepInv(encode, s, a);
    } else if CloseStep(a) {
      CloseStepInv(encode, s, a);
    } else {
      GateStepInv(encode, s, a);
    }
  }

  // ----- every run

  ghost predicate Follows(encode: Bytes -> Bytes, s: State, a: Action, u: State) {
    Enabled(s, a) && u == Do(encode, s, a)
  }

  ghost predicate IsRun(encode: Bytes -> Bytes, run: seq<State>, steps: seq<Action>) {
    && |run| == |steps| + 1 && (run[0] == Init(true) || run[0] == Init(false))
    && forall i {:trigger steps[i]} :: 0 <= i < |steps| ==> Follows(encode, run[i], steps[i], run[i + 1])
  }

  lemma {:induction false} RunInv(encode: Bytes -> Bytes, run: seq<State>, steps: seq<Action>, i: nat)
    requires IsRun(encode, run, steps) && i < |run|
    ensures Inv(encode, run[i])
    decreases i
  {
    if i == 0 {
      InitInv(encode, run[0].client.library);
    } else {
      RunInv(encode, run, steps, i - 1);
      StepInv(encode, run[i - 1], steps[i - 1]);
    }
  }

  function Holders(s: State): set<nat> { set n | n in s.threads && Holds(s.threads[n].phase) }

  /** What holds in every reachable state, stated without the proof's bookkeeping. */
  ghost predicate Safe(encode: Bytes -> Bytes, s: State) {
    var c, log := s.client, s.native.log;
    // the gate, once made: tokens plus holders make one
    && (c.gate.Some? ==> c.gate.value + |Holders(s)| + (if CloserHolds(s.closer) then 1 else 0) == 1)
    // native calls never overlap: each ends before the next begins
    && Serial(log)
    // native Close begins at most once, and no native call begins after it
    && (forall i, j :: 0 <= i < j < |log| && log[i] == Begin(TheCloser) ==> log[j] == End(TheCloser))
    // CloseContext returns only the saved result, after done
    && (forall k :: k in s.waits && s.waits[k].Returned? ==> c.done && c.err == Some(s.waits[k].err))
    // a finished close leaves nothing behind
    && (c.done ==> !c.library && c.trusted == [] && c.cache.None?)
    // cached and borrowed PEM is what the encoder gives
    && (c.cache.Some? ==> c.cache.value.pem == encode(c.cache.value.der))
    && (forall n :: n in s.threads && s.threads[n].job.Info? && s.threads[n].phase.Native? ==>
          s.threads[n].job.pem == Some(encode(s.threads[n].job.der)))
    // until the close, exactly the certificates that the library loaded are retained, whatever failed in between; one
    // that is not yet retained was loaded last, and its caller still holds the gate
    && (c.err.None? && !Active(s).Remembering? ==> InFirstLoadOrder(c.trusted, s.loads))
    && (c.err.None? && Active(s).Remembering? ==>
          s.loads != [] && InFirstLoadOrder(c.trusted, s.loads[..|s.loads| - 1]))
    // after a successful key-store load, and until the next, the native store trusts all of them
    && (s.intact && c.err.None? ==> forall cert :: cert in s.loads ==> cert in s.native.trust)
    && (forall n :: n in s.threads && s.threads[n] == Thread(Store, Leaving(true)) ==> s.intact)
  }

  lemma EveryStateSafe(encode: Bytes -> Bytes, run: seq<State>, steps: seq<Action>, i: nat)
    requires IsRun(encode, run, steps) && i < |run|
    ensures Safe(encode, run[i])
  {
    RunInv(encode, run, steps, i);
    InvIsSafe(encode, run[i]);
  }

  lemma InvIsSafe(encode: Bytes -> Bytes, s: State)
    requires Inv(encode, s)
    ensures Safe(encode, s)
  {
    OneHolder(s);
    CloseIsLast(s.native.log, s.owner, s.closer, Active(s));
    TrustIsComplete(s.client, s.native.trust, s.loads, s.intact, Active(s), ActiveJob(s));
  }

  lemma OneHolder(s: State)
    requires GateInv(s)
    ensures s.client.gate.Some? ==> s.client.gate.value + |Holders(s)| + (if CloserHolds(s.closer) then 1 else 0) == 1
  {
    if s.owner.Held? && s.owner.who.Caller? {
      assert Holders(s) == {s.owner.who.n};
    } else {
      assert Holders(s) == {};
    }
  }

  lemma CloseIsLast(log: seq<Event>, owner: Owner, closer: Closer, a: Phase)
    requires LogInv(log, owner, closer, a)
    ensures forall i, j :: 0 <= i < j < |log| && log[i] == Begin(TheCloser) ==> log[j] == End(TheCloser)
  {
    if closer.Closed? || closer.Saved? || closer.Released? || closer.Finished? {
      var m := |log| - 2;
      assert log[m].Begin?;
      assert log[m + 1] == End(log[m].who);
    }
  }

  lemma TrustIsComplete(c: Client, trust: set<Cert>, loads: seq<Cert>, intact: bool, a: Phase, job: Job)
    requires TrustInv(c, trust, loads, intact, a, job)
    ensures c.err.None? && !a.Remembering? ==> InFirstLoadOrder(c.trusted, loads)
    ensures c.err.None? && a.Remembering? ==> loads != [] && InFirstLoadOrder(c.trusted, loads[..|loads| - 1])
    ensures c.err.None? && intact ==> forall cert :: cert in loads ==> cert in trust
  {
    RetainedOrder(loads);
    if a.Remembering? {
      var before := loads[..|loads| - 1];
      RetainedOrder(before);
      assert loads == before + [job.cert];
    }
  }

  /** What can never be taken back. */
  ghost predicate Settled(s: State, u: State) {
    SettledClient(s.client, u.client) && SettledHistory(s, u) && SettledWaits(s.waits, u.waits)
  }

  ghost predicate SettledClient(c: Client, d: Client) {
    && (c.err.Some? ==> d.err == c.err) && (c.done ==> d.done) && (c.closing ==> d.closing)
    && (!c.library ==> !d.library)
  }

  ghost predicate SettledHistory(s: State, u: State) { s.native.log <= u.native.log && s.loads <= u.loads }

  ghost predicate SettledWaits(w: map<nat, Wait>, v: map<nat, Wait>) {
    && (forall k :: k in w && !w[k].Pending? ==> k in v && v[k] == w[k])
    && (forall k :: k in w && w[k] == Pending(true) ==> k in v && (v[k] == w[k] || v[k].Returned?))
  }

  lemma StepSettlesClient(encode: Bytes -> Bytes, s: State, a: Action)
    requires LifeInv(s.client, s.closer, Active(s)) && Enabled(s, a)
    ensures SettledClient(s.client, Do(encode, s, a).client)
  {
    if !CloseStep(a) { StatusUntouched(encode, s, a); }
  }

  lemma StatusUntouched(encode: Bytes -> Bytes, s: State, a: Action)
    requires Enabled(s, a) && !CloseStep(a)
    ensures SameStatus(s, Do(encode, s, a))
  {
    if NativeStep(a) { NativeLeavesStatus(encode, s, a); } else { GateLeavesStatus(encode, s, a); }
  }

  ghost predicate SameStatus(s: State, u: State) {
    && u.client.err == s.client.err && u.client.done == s.client.done && u.client.closing == s.client.closing
    && u.client.library == s.client.library && u.waits == s.waits
  }

  lemma NativeLeavesStatus(encode: Bytes -> Bytes, s: State, a: Action)
    requires Enabled(s, a) && NativeStep(a)
    ensures SameStatus(s, Do(encode, s, a))
  {
  }

  lemma GateLeavesStatus(encode: Bytes -> Bytes, s: State, a: Action)
    requires Enabled(s, a) && !NativeStep(a) && !CloseStep(a)
    ensures SameStatus(s, Do(encode, s, a))
  {
  }

  lemma StepSettlesHistory(encode: Bytes -> Bytes, s: State, a: Action)
    requires Enabled(s, a)
    ensures SettledHistory(s, Do(encode, s, a))
  {
    if NativeStep(a) { NativeSettlesHistory(encode, s, a); }
  }

  lemma NativeSettlesHistory(encode: Bytes -> Bytes, s: State, a: Action)
    requires Enabled(s, a) && NativeStep(a)
    ensures SettledHistory(s, Do(encode, s, a))
  {
  }

  lemma StepSettlesWaits(encode: Bytes -> Bytes, s: State, a: Action)
    requires Enabled(s, a)
    ensures SettledWaits(s.waits, Do(encode, s, a).waits)
  {
    if !CloseStep(a) { StatusUntouched(encode, s, a); }
  }

  lemma StepSettles(encode: Bytes -> Bytes, s: State, a: Action, u: State)
    requires Inv(encode, s) && Follows(encode, s, a, u)
    ensures Settled(s, u)
  {
    StepSettlesClient(encode, s, a);
    StepSettlesHistory(encode, s, a);
    StepSettlesWaits(encode, s, a);
  }

  lemma NextSettles(encode: Bytes -> Bytes, run: seq<State>, steps: seq<Action>, i: nat)
    requires IsRun(encode, run, steps) && i < |steps|
    ensures Settled(run[i], run[i + 1])
  {
    RunInv(encode, run, steps, i);
    StepSettles(encode, run[i], steps[i], run[i + 1]);
  }

  lemma SettledTransitive(s: State, u: State, v: State)
    requires Settled(s, u) && Settled(u, v)
    ensures Settled(s, v)
  {
  }

  /** Along every run: the close result is written once, done stays closed, histories only grow. */
  lemma {:induction false} RunSettles(encode: Bytes -> Bytes, run: seq<State>, steps: seq<Action>, i: nat, j: nat)
    requires IsRun(encode, run, steps) && i <= j < |run|
    ensures Settled(run[i], run[j])
    decreases j - i
  {
    if i < j {
      RunSettles(encode, run, steps, i, j - 1);
      NextSettles(encode, run, steps, j - 1);
      SettledTransitive(run[i], run[j - 1], run[j]);
    }
  }

  /** Once done is closed, cache and retained list are empty forever and no native call happens any more. */
  lemma NothingAfterDone(encode: Bytes -> Bytes, run: seq<State>, steps: seq<Action>, i: nat, j: nat)
    requires IsRun(encode, run, steps) && i <= j < |run| && run[i].client.done
    ensures run[j].client.trusted == [] && run[j].client.cache.None? && run[j].native.log == run[i].native.log
  {
    RunSettles(encode, run, steps, i, j);
    EveryStateSafe(encode, run, steps, j);
    RunInv(encode, run, steps, i);
    RunInv(encode, run, steps, j);
    SameLog(run[i].native.log, run[j].native.log, run[i], run[j]);
  }

  /**
   * Whoever calls CloseContext after done can only get the saved result: in every later state its call has returned
   * it, or is still about to and can do nothing else.
   */
  lemma LateCloseReturns(encode: Bytes -> Bytes, run: seq<State>, steps: seq<Action>, i: nat, j: nat, k: nat)
    requires IsRun(encode, run, steps) && i < j < |run| && steps[i] == CallClose(k) && run[i].client.done
    ensures k in run[j].waits && run[j].client.err.Some? && run[j].client.err == run[i].client.err
    ensures || run[j].waits[k] == Returned(run[j].client.err.value)
            || (run[j].waits[k] == Pending(true) && Enabled(run[j], ReturnClose(k)) && !Enabled(run[j], LeaveClose(k)))
  {
    RunInv(encode, run, steps, i);
    LateEntry(encode, run[i], k, steps[i], run[i + 1]);
    RunSettles(encode, run, steps, i + 1, j);
    RunSettles(encode, run, steps, i, j);
    RunInv(encode, run, steps, j);
    LateState(encode, run[j], k);
  }

  lemma LateState(encode: Bytes -> Bytes, s: State, k: nat)
    requires Inv(encode, s) && k in s.waits && (s.waits[k] == Pending(true) || s.waits[k].Returned?)
    ensures s.client.err.Some?
    ensures || s.waits[k] == Returned(s.client.err.value)
            || (s.waits[k] == Pending(true) && Enabled(s, ReturnClose(k)) && !Enabled(s, LeaveClose(k)))
  {
  }

  lemma LateEntry(encode: Bytes -> Bytes, s: State, k: nat, a: Action, u: State)
    requires Inv(encode, s) && s.client.done && a == CallClose(k) && Follows(encode, s, a, u)
    ensures k in u.waits && u.waits[k] == Pending(true)
  {
  }

  lemma SameLog(log: seq<Event>, after: seq<Event>, s: State, u: State)
    requires LogInv(log, s.owner, s.closer, Active(s)) && s.closer.Finished?
    requires LogInv(after, u.owner, u.closer, Active(u)) && u.closer.Finished? && log <= after
    ensures log == after
  {
    assert after[|log| - 2] == Begin(TheCloser);
    assert |log| == |after|;
  }

  /** With the client's own encoder, every cached entry in every run is a PEM document of its certificate. */
  lemma CacheHoldsPem(run: seq<State>, steps: seq<Action>, i: nat)
    requires IsRun(Pem.Document, run, steps) && i < |run| && run[i].client.cache.Some?
    ensures var entry := run[i].client.cache.value;
      entry.pem == Pem.Document(entry.der) && Pem.ParseDocument(entry.pem) == Some(entry.der)
  {
    RunInv(Pem.Document, run, steps, i);
    Pem.DocumentRoundTrip(run[i].client.cache.value.der);
  }
}
