/**
 * The in-process client as a state machine: any number of callers, CloseContext callers and the close goroutine
 * take steps in any order. Each native call may take any time and give any result.
 */
module RootClient {
  import opened Wire
  import opened TrustedCertificates

  datatype Entry = Entry(der: Bytes, pem: Bytes)

  /** What a caller wants under the gate; Info carries its local copy of the PEM. */
  datatype Job = Plain | Trust(cert: Cert) | Store | Info(der: Bytes, pem: Option<Bytes>)

  datatype Phase =
    | New                                     // before the first state check
    | Queued                                  // passed the first state check, waits for the gate
    | Entered                                 // took the gate, has not rechecked the state
    | Checked                                 // rechecked under the gate
    | Missed                                  // found no cached PEM under the gate
    | Native                                  // inside its native call
    | Remembering                             // loaded a certificate, has not retained it yet
    | Restoring(list: seq<Cert>, i: nat)      // loaded a key store, will load list[i] again
    | Reloading(list: seq<Cert>, i: nat)      // inside the native load of list[i]
    | Leaving(ok: bool)                       // finished, still holds the gate
    | Done(ok: bool)

  datatype Thread = Thread(job: Job, phase: Phase)

  /** The goroutine that closes the library. */
  datatype Closer =
    | Idle | Waiting | Holding | Closing | Closed(err: int) | Saved | Released | Finished

  /**
   * A CloseContext caller. `late`: it entered after done was closed, so that its first look at done succeeds whatever
   * its context says; NoLibrary: there was nothing to close.
   */
  datatype Wait = Pending(late: bool) | GaveUp | NoLibrary | Returned(err: int)

  datatype Who = Caller(n: nat) | TheCloser
  datatype Owner = Free | Held(who: Who)
  datatype Event = Begin(who: Who) | End(who: Who)

  datatype Client = Client(
    gate: Option<nat>,                        // tokens in the gate channel, once it exists
    library: bool, closing: bool, err: Option<int>, done: bool,
    trusted: seq<Cert>, cache: Option<Entry>)

  /** `trust`: what the native store trusts; `log`: where native calls began and ended. */
  datatype Library = Library(trust: set<Cert>, log: seq<Event>)

  /**
   * The rest is history. `owner`: who holds the gate; `loads`: the certificates that the native library loaded for
   * callers, in order; `intact`: whether the latest key-store load, if any, and its restoration succeeded; `results`:
   * what the native calls of each caller's present operation answered, a missing capability being a failure;
   * `encoded`: the certificates that were encoded as PEM.
   */
  datatype State = State(
    client: Client, native: Library, threads: map<nat, Thread>, closer: Closer, waits: map<nat, Wait>,
    owner: Owner, loads: seq<Cert>, intact: bool, results: map<nat, seq<bool>>, encoded: seq<Bytes>)

  /** A freshly built client, which Open then sets up by ordinary calls, or one whose library is nil. */
  function Init(library: bool): State {
    State(Client(None, library, false, None, false, [], None), Library({}, []), map[], Idle, map[], Free, [], true,
          map[], [])
  }

  predicate Refuses(c: Client) { !c.library || c.closing }

  predicate Holds(p: Phase) { !p.New? && !p.Queued? && !p.Done? }

  predicate InNative(p: Phase) { p.Native? || p.Reloading? }

  datatype Action =
    | StartCall(n: nat, job: Job) | Peek(n: nat) | Enqueue(n: nat) | GiveUp(n: nat)
    | Take(n: nat) | Recheck(n: nat, cancelled: bool) | Unsupported(n: nat)
    | Lookup(n: nat) | Encode(n: nat)
    | NativeBegin(n: nat) | NativeEnd(n: nat, ok: bool, clears: bool) | Remember(n: nat)
    | RestoreBegin(n: nat) | RestoreEnd(n: nat, ok: bool) | RestoreDone(n: nat)
    | Release(n: nat) | NextField(n: nat)
    | CallClose(k: nat) | LeaveClose(k: nat) | ReturnClose(k: nat)
    | CloserTakes | CloseBegin | CloseEnd(err: int) | Clear | CloserReleases | Announce

  predicate Enabled(s: State, a: Action) {
    var c := s.client;
    match a
    case StartCall(n, job) => n !in s.threads && (job.Info? ==> job.pem.None?)
    case Peek(n) => n in s.threads && s.threads[n].phase.New? && s.threads[n].job.Info?
    case Enqueue(n) => n in s.threads && s.threads[n].phase.New?
    case GiveUp(n) => n in s.threads && (s.threads[n].phase.New? || s.threads[n].phase.Queued?)
    case Take(n) => n in s.threads && s.threads[n].phase.Queued? && c.gate.Some? && c.gate.value > 0
    case Recheck(n, _) => n in s.threads && s.threads[n].phase.Entered?
    case Unsupported(n) =>
      && n in s.threads
      && var p := s.threads[n].phase;
         p.Checked? || (p.Restoring? && p.list != [] && p.i == 0)
    case Lookup(n) =>
      && n in s.threads && s.threads[n].phase.Checked? && s.threads[n].job.Info? && s.threads[n].job.pem.None?
    case Encode(n) => n in s.threads && s.threads[n].phase.Missed? && s.threads[n].job.Info?
    case NativeBegin(n) =>
      && n in s.threads && s.threads[n].phase.Checked?
      && (s.threads[n].job.Info? ==> s.threads[n].job.pem.Some?)
    case NativeEnd(n, _, _) => n in s.threads && s.threads[n].phase.Native?
    case Remember(n) => n in s.threads && s.threads[n].phase.Remembering? && s.threads[n].job.Trust?
    case RestoreBegin(n) =>
      && n in s.threads && s.threads[n].phase.Restoring?
      && s.threads[n].phase.i < |s.threads[n].phase.list|
    case RestoreEnd(n, _) =>
      && n in s.threads && s.threads[n].phase.Reloading?
      && s.threads[n].phase.i < |s.threads[n].phase.list|
    case RestoreDone(n) =>
      && n in s.threads && s.threads[n].phase.Restoring?
      && s.threads[n].phase.i == |s.threads[n].phase.list|
    case Release(n) => n in s.threads && s.threads[n].phase.Leaving?
    case NextField(n) => n in s.threads && s.threads[n].phase.Done? && s.threads[n].job.Info? && !Refuses(c)
    case CallClose(k) => k !in s.waits
    case LeaveClose(k) => k in s.waits && s.waits[k].Pending? && !s.waits[k].late
    case ReturnClose(k) => k in s.waits && s.waits[k].Pending? && c.done && c.err.Some?
    case CloserTakes => s.closer.Waiting? && c.gate.Some? && c.gate.value > 0
    case CloseBegin => s.closer.Holding?
    case CloseEnd(_) => s.closer.Closing?
    case Clear => s.closer.Closed?
    case CloserReleases => s.closer.Saved? && c.gate.Some?
    case Announce => s.closer.Released?
  }

  function Move(s: State, n: nat, phase: Phase): State
    requires n in s.threads
  {
    s.(threads := s.threads[n := s.threads[n].(phase := phase)])
  }

  /** libraryGateLocked: the first use makes the gate, with one token. */
  function WithGate(c: Client): Client { if c.gate.None? then c.(gate := Some(1)) else c }

  /** cachedPEMForCertificate. */
  function Cached(cache: Option<Entry>, der: Bytes): Option<Bytes> {
    if cache.Some? && cache.value.der == der then Some(cache.value.pem) else None
  }

  function Log(s: State, e: Event): State { s.(native := s.native.(log := s.native.log + [e])) }

  function Answered(s: State, n: nat, ok: bool): State {
    s.(results := s.results[n := (if n in s.results then s.results[n] else []) + [ok]])
  }

  function TakeToken(c: Client): Client {
    if c.gate.Some? && c.gate.value > 0 then c.(gate := Some(c.gate.value - 1)) else c
  }

  function PutToken(c: Client): Client { if c.gate.Some? then c.(gate := Some(c.gate.value + 1)) else c }

  /** `encode` is the PEM encoder. */
  function Do(encode: Bytes -> Bytes, s: State, a: Action): State
    requires Enabled(s, a)
  {
    var c := s.client;
    match a
    case StartCall(n, job) => s.(threads := s.threads[n := Thread(job, New)], results := s.results[n := []])
    case Peek(n) =>
      var job := s.threads[n].job;
      s.(threads := s.threads[n := Thread(Info(job.der, Cached(c.cache, job.der)), New)])
    case Enqueue(n) => if Refuses(c) then Move(s, n, Done(false)) else Move(s, n, Queued).(client := WithGate(c))
    case GiveUp(n) => Move(s, n, Done(false))
    case Take(n) => Move(s, n, Entered).(client := TakeToken(c), owner := Held(Caller(n)))
    case Recheck(n, cancelled) => Move(s, n, if cancelled || Refuses(c) then Leaving(false) else Checked)
    case Unsupported(n) => Answered(Move(s, n, Leaving(false)), n, false)
    case Lookup(n) =>
      var job := s.threads[n].job;
      var found := Cached(c.cache, job.der);
      s.(threads := s.threads[n := Thread(Info(job.der, found), if found.Some? then Checked else Missed)])
    case Encode(n) =>
      var der := s.threads[n].job.der;
      var pem := encode(der);
      s.(threads := s.threads[n := Thread(Info(der, Some(pem)), Checked)], client := c.(cache := Some(Entry(der, pem))),
         encoded := s.encoded + [der])
    case NativeBegin(n) => Log(Move(s, n, Native), Begin(Caller(n)))
    case NativeEnd(n, ok, clears) =>
      var job := s.threads[n].job;
      var u := s.(native := s.native.(trust := TrustAfter(job, ok, clears, s.native.trust)));
      var v := Move(u, n, PhaseAfter(job, ok, c.trusted)).(intact := s.intact && !job.Store?);
      Log(Answered(v.(loads := if ok && job.Trust? then s.loads + [job.cert] else s.loads), n, ok), End(Caller(n)))
    case Remember(n) =>
      var cert := s.threads[n].job.cert;
      Move(s, n, Leaving(true)).(client := c.(trusted := Retain(c.trusted, cert)))
    case RestoreBegin(n) =>
      var p := s.threads[n].phase;
      Log(Move(s, n, Reloading(p.list, p.i)), Begin(Caller(n)))
    case RestoreEnd(n, ok) =>
      var p := s.threads[n].phase;
      var moved := Move(s, n, if ok then Restoring(p.list, p.i + 1) else Leaving(false));
      var u := Log(Answered(moved, n, ok), End(Caller(n)));
      if ok then u.(native := u.native.(trust := u.native.trust + {p.list[p.i]})) else u
    case RestoreDone(n) => Move(s, n, Leaving(true)).(intact := true)
    case Release(n) => Move(s, n, Done(s.threads[n].phase.ok)).(client := PutToken(c), owner := Free)
    case NextField(n) => Move(s, n, Queued).(client := WithGate(c), results := s.results[n := []])
    case CallClose(k) =>
      if c.closing then s.(waits := s.waits[k := Pending(c.done)])
      else if !c.library then s.(client := c.(cache := None), waits := s.waits[k := NoLibrary])
      else s.(client := WithGate(c).(closing := true), closer := Waiting, waits := s.waits[k := Pending(false)])
    case LeaveClose(k) => s.(waits := s.waits[k := GaveUp])
    case ReturnClose(k) => s.(waits := s.waits[k := Returned(c.err.value)])
    case CloserTakes => s.(client := TakeToken(c), closer := Holding, owner := Held(TheCloser))
    case CloseBegin => Log(s.(closer := Closing), Begin(TheCloser))
    case CloseEnd(err) => Log(s.(closer := Closed(err)), End(TheCloser))
    case Clear =>
      s.(client := c.(library := false, trusted := [], cache := None, err := Some(s.closer.err)), closer := Saved)
    case CloserReleases => s.(client := PutToken(c), closer := Released, owner := Free)
    case Announce => s.(client := c.(done := true), closer := Finished)
  }

  /** Where a caller goes when its native call returns. */
  function PhaseAfter(job: Job, ok: bool, trusted: seq<Cert>): Phase {
    if ok && job.Trust? then Remembering else if ok && job.Store? then Restoring(trusted, 0) else Leaving(ok)
  }

  /** A successful key-store load clears native trust; a failed one may. */
  function TrustAfter(job: Job, ok: bool, clears: bool, trust: set<Cert>): set<Cert> {
    match job
    case Trust(cert) => if ok then trust + {cert} else trust
    case Store => if ok || clears then {} else trust
    case _ => trust
  }
}
