/** What executions come to, how their answers carry it, and what each call makes of its answer, in every run. */
module IsolatedOutcomes {
  import opened Wire
  import opened IsolatedProtocol
  import opened IsolatedSafety

  // ----- verdicts and answers

  /** An answer carries the verdict of its execution, or the failure to write it. */
  predicate Carries(a: Response, v: Verdict, fallback: bool) {
    if fallback then a.failed && !a.protocol else a.failed == v.failed && a.protocol == v.protocol
  }

  /** The worker ends after Close, after a failed Open and after a protocol error. */
  predicate MustQuit(op: Op, v: Verdict) { op.Close? || (op.Open? && v.failed) || v.protocol }

  predicate AnswerInv(l: Link) {
    var w := l.worker;
    && |l.outcomes| + (if w.pending.Some? then 1 else 0) == |l.executed| <= |l.sent|
    && |l.fallbacks| == |l.answered| <= |l.outcomes|
    && (forall i :: 0 <= i < |l.outcomes| && l.outcomes[i].protocol ==> l.outcomes[i].failed)
    && (forall i :: 0 <= i < |l.answered| ==> Carries(l.answered[i], l.outcomes[i], l.fallbacks[i]))
    && (w.writing.Some? ==>
          l.outcomes != [] && w.pending.None? && Carries(w.writing.value, l.outcomes[|l.outcomes| - 1], false))
  }

  predicate SessionInv(sent: seq<Request>, outcomes: seq<Verdict>, quitAfter: Option<nat>, session: bool) {
    && |outcomes| <= |sent|
    && (forall i :: 0 <= i < |sent| ==> (sent[i].op.Open? <==> i == 0))
    && (forall i :: 0 <= i < |outcomes| ==> (MustQuit(sent[i].op, outcomes[i]) <==> quitAfter == Some(i + 1)))
    && (quitAfter.Some? ==> 1 <= quitAfter.value <= |outcomes|)
    && (session <==> outcomes != [] && !outcomes[0].failed)
  }

  predicate VerdictInv(l: Link) { AnswerInv(l) && SessionInv(l.sent, l.outcomes, l.quitAfter, l.worker.session) }

  lemma SentVerdicts(l: Link, r: Request)
    requires VerdictInv(l) && (r.op.Open? <==> l.sent == [])
    ensures VerdictInv(l.(requests := l.requests + [r], sent := l.sent + [r]))
  {
  }

  /** Only what was sent, executed, found and answered matters. */
  lemma SameVerdicts(l: Link, m: Link)
    requires VerdictInv(l)
    requires m == l.(requests := m.requests, responses := m.responses, received := m.received,
                     worker := l.worker.(inbox := m.worker.inbox, next := m.worker.next, expected := m.worker.expected,
                                         outcome := m.worker.outcome))
    ensures VerdictInv(m)
  {
  }

  lemma ExecuteVerdicts(l: Link, r: Request)
    requires VerdictInv(l) && l.worker.pending.None? && l.worker.writing.None? && |l.executed| < |l.sent|
    ensures VerdictInv(Execute(l, r))
  {
  }

  lemma DeliverVerdicts(l: Link)
    requires VerdictInv(l) && l.worker.inbox.Some? && |l.executed| < |l.sent|
    ensures VerdictInv(DoDeliver(l))
  {
    var w := l.worker;
    if w.pending.None? && w.next.None? && w.inbox.value.id == w.expected && w.writing.None? {
      var m := l.(worker := w.(inbox := None, expected := w.expected + 1));
      SameVerdicts(l, m);
      ExecuteVerdicts(m, w.inbox.value);
    } else {
      SameVerdicts(l, DoDeliver(l));
    }
  }

  /** While a request is being executed, no execution has asked to quit. */
  lemma WhileExecuting(l: Link)
    requires LinkInv(l) && AnswerInv(l) && l.worker.pending.Some?
    ensures |l.executed| == |l.outcomes| + 1 <= |l.sent| && l.worker.pending.value == l.sent[|l.outcomes|]
    ensures l.worker.outcome.Serving? ==> l.quitAfter.None?
    ensures l.quitAfter.Some? ==> l.quitAfter.value == |l.executed|
  {
  }

  lemma ExecutedAnswers(l: Link, failed: bool, protocol: bool)
    requires AnswerInv(l) && l.worker.pending.Some? && (protocol ==> failed)
    ensures AnswerInv(DoExecuted(l, failed, protocol))
  {
  }

  lemma VerdictGrows(sent: seq<Request>, outcomes: seq<Verdict>, session: bool, v: Verdict, session': bool)
    requires SessionInv(sent, outcomes, None, session) && |outcomes| < |sent| && (v.protocol ==> v.failed)
    requires session' == if sent[|outcomes|].op.Open? && !v.protocol then !v.failed else session
    ensures SessionInv(sent, outcomes + [v],
                       if MustQuit(sent[|outcomes|].op, v) then Some(|outcomes| + 1) else None, session')
  {
  }

  lemma ExecutedVerdicts(l: Link, failed: bool, protocol: bool)
    requires LinkInv(l) && VerdictInv(l) && l.worker.outcome.Serving? && l.worker.pending.Some?
    requires protocol ==> failed
    ensures VerdictInv(DoExecuted(l, failed, protocol))
  {
    WhileExecuting(l);
    ExecutedAnswers(l, failed, protocol);
    VerdictGrows(l.sent, l.outcomes, l.worker.session, Verdict(failed, protocol),
                 DoExecuted(l, failed, protocol).worker.session);
  }

  lemma WriteVerdicts(l: Link, fallback: bool)
    requires LinkInv(l) && VerdictInv(l) && l.worker.outcome.Serving? && l.worker.writing.Some? && !l.worker.written
    ensures VerdictInv(DoWrite(l, fallback))
  {
  }

  lemma WriteSeenVerdicts(l: Link)
    requires LinkInv(l) && VerdictInv(l) && l.worker.writing.Some?
    ensures VerdictInv(DoWriteSeen(l))
  {
  }

  lemma WorkerVerdicts(s: State, a: Action)
    requires LinkInv(s.link) && VerdictInv(s.link) && Enabled(s, a) && WorkerStep(a)
    ensures VerdictInv(Do(s, a).link)
  {
    match a
    case Reads => SameVerdicts(s.link, Do(s, a).link);
    case Deliver =>
      assert |s.link.executed| < |s.link.sent|;
      DeliverVerdicts(s.link);
    case ExecuteDone(failed, protocol) => ExecutedVerdicts(s.link, failed, protocol);
    case Writes(fallback) => WriteVerdicts(s.link, fallback);
    case WriteSeen => WriteSeenVerdicts(s.link);
    case Dies => SameVerdicts(s.link, Do(s, a).link);
  }

  /** Before the loop executes a request it has a session, unless the request is the first one. */
  lemma NeverOutOfOrder(l: Link)
    requires LinkInv(l) && VerdictInv(l) && l.worker.pending.Some?
    ensures !OutOfOrder(l.worker)
  {
    WhileExecuting(l);
    assert l.outcomes != [] ==> (MustQuit(l.sent[0].op, l.outcomes[0]) <==> l.quitAfter == Some(1));
  }

  // ----- what each call makes of its answer

  /** The exchange was not given up, the answer is no error, and its payload decodes. */
  predicate Succeeded(a: Response, r: Reading) { !r.cancelled && !a.failed && !a.protocol && !r.decodeFails }

  /** What ends the client: an abandoned exchange, a protocol error, an unreadable payload, a failed Open or Close. */
  predicate Fatal(a: Response, r: Reading) {
    r.cancelled || a.protocol || if a.failed then !r.reader.Caller? else r.decodeFails
  }

  predicate Fresh(p: Phase) { p.Queued? || p.Entered? || p.Ready? || p.Sending? }

  predicate Over(p: Phase) { p.Leaving? || p.Done? }

  predicate ReadBy(readings: seq<Reading>, t: Tid) { exists k :: 0 <= k < |readings| && readings[k].reader == t }

  /** Every request has its sender, and every response is read by the sender of its request. */
  predicate SenderInv(users: map<Tid, Phase>, sent: seq<Request>, senders: seq<Tid>, readings: seq<Reading>) {
    && |readings| <= |senders| == |sent|
    && (forall k :: 0 <= k < |senders| ==> senders[k] in users && sent[k].op == OpOf(senders[k]))
    && (forall k, m :: 0 <= k < m < |senders| ==> senders[k] != senders[m])
    && (forall k :: 0 <= k < |readings| ==> readings[k].reader == senders[k])
    && (forall t :: t in users && Fresh(users[t]) ==> t !in senders)
    && (forall t :: t in users && users[t].Awaiting? ==> |readings| < |senders| && senders[|readings|] == t)
  }

  predicate ResultInv(users: map<Tid, Phase>, stopped: bool, readings: seq<Reading>, answered: seq<Response>) {
    && |readings| <= |answered|
    && (forall k :: 0 <= k < |readings| ==>
          && readings[k].reader in users && Over(users[readings[k].reader])
          && users[readings[k].reader].ok == Succeeded(answered[k], readings[k]))
    && (forall t :: t in users && Over(users[t]) && users[t].ok ==> ReadBy(readings, t))
    && (forall k :: 0 <= k < |readings| && Fatal(answered[k], readings[k]) ==> stopped)
  }

  predicate CallInv(s: State) {
    && |s.readings| == s.link.received
    && SenderInv(s.parent.users, s.link.sent, s.senders, s.readings)
    && ResultInv(s.parent.users, s.parent.terminal.Some?, s.readings, s.link.answered)
  }

  /** A step that neither sends nor reads: before the request, to a failure, or out of the gate with the same result. */
  predicate Regular(users: map<Tid, Phase>, t: Tid, phase: Phase) {
    || (Fresh(phase) && (t in users ==> Fresh(users[t])))
    || (t in users && (Fresh(users[t]) || users[t].Awaiting?) && Over(phase) && !phase.ok)
    || (t in users && users[t].Leaving? && phase == Done(users[t].ok))
    || (t in users && users[t].Awaiting? && phase.Awaiting?)
  }

  lemma RegularSenders(users: map<Tid, Phase>, sent: seq<Request>, senders: seq<Tid>, readings: seq<Reading>, t: Tid,
                       phase: Phase)
    requires SenderInv(users, sent, senders, readings) && Regular(users, t, phase)
    ensures SenderInv(users[t := phase], sent, senders, readings)
  {
  }

  lemma RegularResults(users: map<Tid, Phase>, stopped: bool, readings: seq<Reading>, answered: seq<Response>, t: Tid,
                       phase: Phase, stops: bool)
    requires ResultInv(users, stopped, readings, answered) && Regular(users, t, phase) && (stopped ==> stops)
    ensures ResultInv(users[t := phase], stops, readings, answered)
  {
  }

  predicate FailsExchange(a: Action) { a.TooLarge? || a.SendBroken? || a.Cancel? || a.ReceiveBroken? }

  lemma FailureMoves(s: State, a: Action) returns (t: Tid, phase: Phase)
    requires Enabled(s, a) && FailsExchange(a)
    ensures var u := Do(s, a);
      && u == s.(parent := u.parent) && (s.parent.terminal.Some? ==> u.parent.terminal.Some?)
      && u.parent.users == s.parent.users[t := phase] && Regular(s.parent.users, t, phase)
  {
    return a.t, Do(s, a).parent.users[a.t];
  }

  /** What the steps of the parent other than sending and reading do to the calls. */
  lemma ParentMoves(s: State, a: Action) returns (moved: bool, t: Tid, phase: Phase)
    requires Opener in s.parent.users && (Shutdown in s.parent.users ==> !s.parent.closing.NotClosing?)
    requires Enabled(s, a) && !WorkerStep(a) && !a.Sent? && !a.Receive? && !FailsExchange(a)
    ensures var u := Do(s, a);
      && u.senders == s.senders && u.readings == s.readings && u.link == s.link
      && (s.parent.terminal.Some? ==> u.parent.terminal.Some?)
      && u.parent.users == (if moved then s.parent.users[t := phase] else s.parent.users)
      && (moved ==> Regular(s.parent.users, t, phase))
  {
    moved, t := true, Opener;
    match a {
      case StartCall(n) => t := Caller(n);
      case GiveUp(x) => t := x;
      case Acquire(x) => t := x;
      case Recheck(x, _) => t := x;
      case SkipExchange(x) => t := x;
      case Begin(x) => t := x;
      case Release(x) => t := x;
      case CallClose(_) =>
        moved := s.parent.closing.NotClosing?;
        t := if moved then Shutdown else Opener;
      case _ => moved := false;
    }
    phase := Do(s, a).parent.users[t];
  }

  lemma ParentCalls(s: State, a: Action)
    requires AtParent(s) && CallInv(s) && Enabled(s, a) && !WorkerStep(a) && !a.Sent? && !a.Receive?
    ensures CallInv(Do(s, a))
  {
    var u := Do(s, a);
    var moved, t, phase := true, Opener, Queued;
    if FailsExchange(a) {
      t, phase := FailureMoves(s, a);
    } else {
      moved, t, phase := ParentMoves(s, a);
    }
    if moved {
      RegularSenders(s.parent.users, s.link.sent, s.senders, s.readings, t, phase);
      RegularResults(s.parent.users, s.parent.terminal.Some?, s.readings, s.link.answered, t, phase,
                     u.parent.terminal.Some?);
    }
  }

  lemma SentSenders(users: map<Tid, Phase>, sent: seq<Request>, senders: seq<Tid>, readings: seq<Reading>, t: Tid,
                    phase: Phase, r: Request)
    requires SenderInv(users, sent, senders, readings) && |readings| == |sent|
    requires t in users && Fresh(users[t]) && phase.Awaiting? && r.op == OpOf(t)
    ensures SenderInv(users[t := phase], sent + [r], senders + [t], readings)
  {
  }

  lemma SentResults(users: map<Tid, Phase>, stopped: bool, readings: seq<Reading>, answered: seq<Response>, t: Tid,
                    phase: Phase)
    requires ResultInv(users, stopped, readings, answered)
    requires t in users && Fresh(users[t]) && phase.Awaiting?
    ensures ResultInv(users[t := phase], stopped, readings, answered)
  {
  }

  lemma SentCalls(s: State, t: Tid)
    requires CallInv(s) && Enabled(s, Sent(t)) && s.link.received == |s.link.sent|
    ensures CallInv(Do(s, Sent(t)))
  {
    var p, l := s.parent, s.link;
    var phase := Awaiting(p.users[t].id, p.users[t].cancelled);
    SentSenders(p.users, l.sent, s.senders, s.readings, t, phase, Request(p.users[t].id, OpOf(t)));
    SentResults(p.users, p.terminal.Some?, s.readings, l.answered, t, phase);
  }

  lemma ReadSenders(users: map<Tid, Phase>, sent: seq<Request>, senders: seq<Tid>, readings: seq<Reading>, t: Tid,
                    r: Reading, ok: bool)
    requires SenderInv(users, sent, senders, readings) && t in users && users[t].Awaiting? && r.reader == t
    ensures SenderInv(users[t := Leaving(ok)], sent, senders, readings + [r])
  {
  }

  lemma ReadResults(users: map<Tid, Phase>, stopped: bool, readings: seq<Reading>, answered: seq<Response>, t: Tid,
                    r: Reading, stops: bool)
    requires ResultInv(users, stopped, readings, answered) && |readings| < |answered|
    requires t in users && users[t].Awaiting? && r.reader == t
    requires (stopped ==> stops) && (Fatal(answered[|readings|], r) ==> stops)
    ensures ResultInv(users[t := Leaving(Succeeded(answered[|readings|], r))], stops, readings + [r], answered)
  {
    var ok := Succeeded(answered[|readings|], r);
    var grown, moved := readings + [r], users[t := Leaving(ok)];
    assert grown[|readings|] == r;
    forall x | x in moved && Over(moved[x]) && moved[x].ok ensures ReadBy(grown, x) {
      if x != t {
        assert ReadBy(readings, x);
        var k :| 0 <= k < |readings| && readings[k].reader == x;
        assert grown[k].reader == x;
      }
    }
  }

  /** The reader of a matching response reports success exactly if it succeeded, and stops the client if it is fatal. */
  lemma ReadOutcome(s: State, t: Tid, decodeFails: bool, cause: int) returns (r: Reading)
    requires Enabled(s, Receive(t, decodeFails, cause))
    requires s.link.responses[0].id == s.parent.users[t].id && s.link.responses[0].op == OpOf(t)
    requires s.parent.users[t].cancelled ==> s.parent.terminal.Some?
    ensures var u, a := DoReceive(s, t, decodeFails, cause), s.link.responses[0];
      && r.reader == t && u.readings == s.readings + [r] && u.senders == s.senders
      && u.link == s.link.(responses := s.link.responses[1..], received := s.link.received + 1)
      && u.parent.users == s.parent.users[t := Leaving(Succeeded(a, r))]
      && (s.parent.terminal.Some? || Fatal(a, r) ==> u.parent.terminal.Some?)
  {
    return Reading(t, s.parent.users[t].cancelled, decodeFails);
  }

  lemma ReceiveCalls(s: State, t: Tid, decodeFails: bool, cause: int)
    requires Inv(s) && CallInv(s) && Enabled(s, Receive(t, decodeFails, cause))
    ensures CallInv(Do(s, Receive(t, decodeFails, cause)))
  {
    var p, l := s.parent, s.link;
    assert s.owner == ByUser(t);
    ResponseMatches(s, t);
    assert l.responses[0] == l.answered[l.received];
    var r := ReadOutcome(s, t, decodeFails, cause);
    var u := DoReceive(s, t, decodeFails, cause);
    ReadSenders(p.users, l.sent, s.senders, s.readings, t, r, Succeeded(l.responses[0], r));
    ReadResults(p.users, p.terminal.Some?, s.readings, l.answered, t, r, u.parent.terminal.Some?);
  }

  lemma WorkerCalls(s: State, u: State)
    requires CallInv(s) && ParentKept(s, u) && s.link.answered <= u.link.answered
    ensures CallInv(u)
  {
  }

  // ----- the end of the worker and of the client

  predicate EndInv(p: Parent, serving: bool) {
    && (p.exited ==> !serving)
    && (p.exited <==> !p.waiter.Watching?)
    && (p.waiter.Finished? ==> p.terminal.Some? || !p.closing.NotClosing?)
    && (p.closing == Closed(NIL) ==> Shutdown in p.users && p.users[Shutdown] == Done(true) && p.exited)
  }

  lemma EndKept(p: Parent, q: Parent, serving: bool)
    requires EndInv(p, serving) && q.exited == p.exited && q.waiter == p.waiter && q.closing == p.closing
    requires p.terminal.Some? ==> q.terminal.Some?
    requires Shutdown in p.users && p.users[Shutdown].Done? ==>
      Shutdown in q.users && q.users[Shutdown] == p.users[Shutdown]
    ensures EndInv(q, serving)
  {
  }

  /** Reading a response touches the reader and the terminal error, and takes the response off the pipe. */
  lemma ReceiveTouches(s: State, t: Tid, decodeFails: bool, cause: int) returns (p: Parent, l: Link)
    requires t in s.parent.users && s.parent.users[t].Awaiting? && s.link.responses != []
    ensures DoReceive(s, t, decodeFails, cause).parent == p && DoReceive(s, t, decodeFails, cause).link == l
    ensures l == s.link.(responses := s.link.responses[1..], received := s.link.received + 1)
    ensures p == s.parent.(users := p.users, terminal := p.terminal) && (s.parent.terminal.Some? ==> p.terminal.Some?)
    ensures t in p.users && p.users[t].Leaving? && p.users == s.parent.users[t := p.users[t]]
  {
    p, l := DoReceive(s, t, decodeFails, cause).parent, DoReceive(s, t, decodeFails, cause).link;
  }

  predicate Exchanges(a: Action) { FailsExchange(a) || a.Sent? || a.Receive? }

  lemma ExchangeEnds(s: State, a: Action)
    requires EndInv(s.parent, s.link.worker.outcome.Serving?) && Enabled(s, a) && Exchanges(a)
    ensures EndInv(Do(s, a).parent, s.link.worker.outcome.Serving?)
  {
    if a.Receive? {
      var p, _ := ReceiveTouches(s, a.t, a.decodeFails, a.cause);
      EndKept(s.parent, p, s.link.worker.outcome.Serving?);
    } else {
      EndKept(s.parent, Do(s, a).parent, s.link.worker.outcome.Serving?);
    }
  }

  lemma ParentEnds(s: State, a: Action)
    requires EndInv(s.parent, s.link.worker.outcome.Serving?) && Enabled(s, a) && !WorkerStep(a)
    requires s.parent.closing.Closed? ==> Shutdown in s.parent.users
    ensures EndInv(Do(s, a).parent, s.link.worker.outcome.Serving?)
  {
    if Exchanges(a) { ExchangeEnds(s, a); }
  }

  // ----- every run

  predicate FullInv(s: State) {
    Inv(s) && VerdictInv(s.link) && CallInv(s) && EndInv(s.parent, s.link.worker.outcome.Serving?)
  }

  lemma SentKeepsAll(s: State, t: Tid)
    requires FullInv(s) && Enabled(s, Sent(t))
    ensures VerdictInv(Do(s, Sent(t)).link) && CallInv(Do(s, Sent(t)))
  {
    assert s.owner == ByUser(t);
    var r := Request(s.parent.users[t].id, OpOf(t));
    SentParent(s.parent, s.owner, s.link.sent, s.link.received, t);
    assert (s.link.sent + [r])[|s.link.sent|] == r;
    SentVerdicts(s.link, r);
    SentCalls(s, t);
  }

  lemma ReceiveKeepsAll(s: State, t: Tid, decodeFails: bool, cause: int)
    requires FullInv(s) && Enabled(s, Receive(t, decodeFails, cause))
    ensures var u := Do(s, Receive(t, decodeFails, cause)); VerdictInv(u.link) && CallInv(u)
  {
    ReceiveCalls(s, t, decodeFails, cause);
    ReceiveLink(s, t, decodeFails, cause);
  }

  lemma ReceiveLink(s: State, t: Tid, decodeFails: bool, cause: int)
    requires VerdictInv(s.link) && Enabled(s, Receive(t, decodeFails, cause))
    ensures VerdictInv(DoReceive(s, t, decodeFails, cause).link)
  {
    var _, l := ReceiveTouches(s, t, decodeFails, cause);
    SameVerdicts(s.link, l);
  }

  lemma WorkerKeepsAll(s: State, a: Action)
    requires FullInv(s) && Enabled(s, a) && WorkerStep(a)
    ensures var u := Do(s, a);
      VerdictInv(u.link) && CallInv(u) && EndInv(u.parent, u.link.worker.outcome.Serving?)
  {
    WorkerVerdicts(s, a);
    WorkerStepKeeps(s, a);
    StepSettlesLink(s, a);
    WorkerCalls(s, Do(s, a));
  }

  lemma ParentLeavesLink(s: State, a: Action)
    requires Enabled(s, a) && !WorkerStep(a)
    ensures Do(s, a).link.worker == s.link.worker
    ensures !a.Sent? && !a.Receive? ==> Do(s, a).link == s.link
  {
  }

  lemma StepKeepsAll(s: State, a: Action)
    requires FullInv(s) && Enabled(s, a)
    ensures FullInv(Do(s, a))
  {
    StepInv(s, a);
    if WorkerStep(a) {
      WorkerKeepsAll(s, a);
    } else {
      ParentEnds(s, a);
      ParentLeavesLink(s, a);
      if a.Sent? {
        SentKeepsAll(s, a.t);
      } else if a.Receive? {
        ReceiveKeepsAll(s, a.t, a.decodeFails, a.cause);
      } else {
        ParentCalls(s, a);
      }
    }
  }

  lemma InitAll()
    ensures FullInv(Init())
  {
    InitInv();
    var s := Init();
    assert VerdictInv(s.link);
    assert SenderInv(s.parent.users, [], [], []);
  }

  lemma {:induction false} RunAll(run: seq<State>, steps: seq<Action>, i: nat)
    requires IsRun(run, steps) && i < |run|
    ensures FullInv(run[i])
    decreases i
  {
    if i == 0 {
      InitAll();
    } else {
      RunAll(run, steps, i - 1);
      StepKeepsAll(run[i - 1], steps[i - 1]);
    }
  }

  /** The execution succeeded, its answer went out as it was, and the reader kept waiting and could decode it. */
  predicate EndedWell(v: Verdict, fallback: bool, r: Reading) {
    !v.failed && !fallback && !r.cancelled && !r.decodeFails
  }

  /** What every call, the worker and the client's state owe to what was executed, in words of the histories. */
  ghost predicate Accounted(s: State) {
    var p, l := s.parent, s.link;
    // every request has its own sender, and every response is read by the sender of its request
    && |s.senders| == |l.sent| && |s.readings| == l.received <= |l.answered| <= |l.outcomes| <= |l.sent|
    && |l.fallbacks| == |l.answered|
    && (forall k :: 0 <= k < |l.sent| ==> l.sent[k].op == OpOf(s.senders[k]))
    && (forall k, m :: 0 <= k < m < |s.senders| ==> s.senders[k] != s.senders[m])
    && (forall k :: 0 <= k < |s.readings| ==> s.readings[k].reader == s.senders[k])
    // each answer carries what its execution came to, or the failure to write that down
    && (forall k :: 0 <= k < |l.answered| ==> Carries(l.answered[k], l.outcomes[k], l.fallbacks[k]))
    // a call that is over succeeded exactly if it read an answer and that ended well
    && (forall k :: 0 <= k < |s.readings| ==>
          && s.readings[k].reader in p.users && Over(p.users[s.readings[k].reader])
          && (p.users[s.readings[k].reader].ok <==> EndedWell(l.outcomes[k], l.fallbacks[k], s.readings[k])))
    && (forall t :: t in p.users && Over(p.users[t]) && p.users[t].ok ==> ReadBy(s.readings, t))
    // the client is handed out exactly if the worker's Open succeeded and its answer arrived
    && Opener in p.users
    && (p.published <==>
          p.users[Opener].Done? && s.readings != [] && EndedWell(l.outcomes[0], l.fallbacks[0], s.readings[0]))
    // an answer that cannot be used ends the client
    && (forall k :: 0 <= k < |s.readings| && Fatal(l.answered[k], s.readings[k]) ==> p.terminal.Some?)
    // the worker quits after Close, after a failed Open and after a protocol error, and nothing runs after those
    && (forall k :: 0 <= k < |l.outcomes| ==> (MustQuit(l.sent[k].op, l.outcomes[k]) <==> l.quitAfter == Some(k + 1)))
    && (l.quitAfter.Some? ==> |l.executed| == l.quitAfter.value)
    // only Open runs without a session, and it never runs with one
    && (l.worker.pending.Some? ==> !OutOfOrder(l.worker))
    // CloseContext reports no error only after a Close that ended well and after the worker's end
    && (p.closing == Closed(NIL) ==>
          && !l.worker.outcome.Serving? && s.readings != [] && l.sent[|s.readings| - 1].op.Close?
          && EndedWell(l.outcomes[|s.readings| - 1], l.fallbacks[|s.readings| - 1], s.readings[|s.readings| - 1]))
    // the end of the worker is noticed
    && (p.waiter.Finished? ==> p.terminal.Some? || !p.closing.NotClosing?)
  }

  lemma EndedWellIsSuccess(s: State, k: nat)
    requires AnswerInv(s.link) && |s.readings| <= |s.link.answered| && k < |s.readings|
    ensures EndedWell(s.link.outcomes[k], s.link.fallbacks[k], s.readings[k]) <==>
      Succeeded(s.link.answered[k], s.readings[k])
  {
    assert Carries(s.link.answered[k], s.link.outcomes[k], s.link.fallbacks[k]);
  }

  /** The opener's request is the first one. */
  lemma OpenerFirst(s: State)
    requires FullInv(s)
    ensures s.parent.published <==> s.parent.users[Opener].Done? && s.readings != [] &&
                                    Succeeded(s.link.answered[0], s.readings[0])
  {
    if ReadBy(s.readings, Opener) {
      var k :| 0 <= k < |s.readings| && s.readings[k].reader == Opener;
      assert s.senders[k] == Opener && s.link.sent[k].op.Open?;
    }
    if s.readings != [] {
      assert s.link.sent[0].op.Open? && s.readings[0].reader == s.senders[0];
      assert s.senders[0].Opener?;
    }
  }

  /** The shutdown goroutine's request is the last one. */
  lemma CloserLast(s: State)
    requires FullInv(s) && s.parent.closing == Closed(NIL)
    ensures var k := |s.readings| - 1;
      k >= 0 && s.link.sent[k].op.Close? && Succeeded(s.link.answered[k], s.readings[k])
  {
    assert ReadBy(s.readings, Shutdown);
    var k :| 0 <= k < |s.readings| && s.readings[k].reader == Shutdown;
    assert s.senders[k] == Shutdown && s.link.sent[k].op.Close?;
    assert k == |s.link.sent| - 1;
  }

  lemma AccountedState(s: State)
    requires FullInv(s)
    ensures Accounted(s)
  {
    forall k | 0 <= k < |s.readings|
      ensures EndedWell(s.link.outcomes[k], s.link.fallbacks[k], s.readings[k]) <==>
              Succeeded(s.link.answered[k], s.readings[k])
    {
      EndedWellIsSuccess(s, k);
    }
    OpenerFirst(s);
    if s.parent.closing == Closed(NIL) { CloserLast(s); }
    if s.link.worker.pending.Some? { NeverOutOfOrder(s.link); }
  }

  lemma EveryCallAccounted(run: seq<State>, steps: seq<Action>, i: nat)
    requires IsRun(run, steps) && i < |run|
    ensures Accounted(run[i])
  {
    RunAll(run, steps, i);
    AccountedState(run[i]);
  }

  // ----- what stops the client, and what a stopped client still does

  /** The steps that end the client, and with which cause. */
  predicate Stops(s: State, a: Action)
    requires Enabled(s, a)
  {
    match a
    case TooLarge(t, _) => !t.Caller?
    case SendBroken(_, _) => true
    case Cancel(_, _) => true
    case Receive(t, decodeFails, _) =>
      !s.parent.users[t].cancelled && Fatal(s.link.responses[0], Reading(t, false, decodeFails))
    case ReceiveBroken(_, _) => true
    case StopAfterExit(_) => true
    case FinishClose(_, stop) => stop
    case WaiterLeaves(_) => s.parent.closing.NotClosing?
    case _ => false
  }

  function Cause(a: Action): int {
    match a
    case FinishClose(err, _) => err
    case TooLarge(_, c) => c
    case SendBroken(_, c) => c
    case Cancel(_, c) => c
    case Receive(_, _, c) => c
    case ReceiveBroken(_, c) => c
    case StopAfterExit(c) => c
    case WaiterLeaves(c) => c
    case _ => NIL
  }

  lemma StepStops(s: State, a: Action)
    requires Inv(s) && Enabled(s, a)
    ensures Do(s, a).parent.terminal ==
            if s.parent.terminal.None? && Stops(s, a) then Some(Cause(a)) else s.parent.terminal
  {
    if a.Receive? {
      assert s.owner == ByUser(a.t);
      ResponseMatches(s, a.t);
      ReceiveStops(s, a.t, a.decodeFails, a.cause);
    } else if WorkerStep(a) {
      WorkerLeavesParent(s, a);
    } else if FailsExchange(a) {
      FailureStops(s, a);
    } else {
      OtherStops(s, a);
    }
  }

  lemma ReceiveStops(s: State, t: Tid, decodeFails: bool, cause: int)
    requires Enabled(s, Receive(t, decodeFails, cause))
    requires s.link.responses[0].id == s.parent.users[t].id && s.link.responses[0].op == OpOf(t)
    ensures DoReceive(s, t, decodeFails, cause).parent.terminal ==
            if s.parent.terminal.None? && Stops(s, Receive(t, decodeFails, cause)) then Some(cause)
            else s.parent.terminal
  {
  }

  lemma FailureStops(s: State, a: Action)
    requires Enabled(s, a) && FailsExchange(a)
    ensures Do(s, a).parent.terminal ==
            if s.parent.terminal.None? && Stops(s, a) then Some(Cause(a)) else s.parent.terminal
  {
  }

  lemma OtherStops(s: State, a: Action)
    requires Enabled(s, a) && !WorkerStep(a) && !a.Receive? && !FailsExchange(a)
    ensures Do(s, a).parent.terminal ==
            if s.parent.terminal.None? && Stops(s, a) then Some(Cause(a)) else s.parent.terminal
  {
  }

  /** Step `j` of the run ends the client. */
  ghost predicate StoppedAt(run: seq<State>, steps: seq<Action>, j: nat) {
    j < |steps| && j < |run| && Enabled(run[j], steps[j]) && Stops(run[j], steps[j])
  }

  /** The first of the numbers below `i` with a property. */
  ghost function FirstOf(p: nat -> bool, i: nat): (r: Option<nat>)
    ensures r.Some? ==> r.value < i && p(r.value) && forall m: nat :: m < r.value ==> !p(m)
    ensures r.None? ==> forall m: nat :: m < i ==> !p(m)
  {
    if i == 0 then None
    else
      var before := FirstOf(p, i - 1);
      if before.Some? then before else if p(i - 1) then Some(i - 1) else None
  }

  lemma TerminalStep(run: seq<State>, steps: seq<Action>, j: nat)
    requires IsRun(run, steps) && j < |steps|
    ensures run[j + 1].parent.terminal ==
            if run[j].parent.terminal.None? && StoppedAt(run, steps, j) then Some(Cause(steps[j]))
            else run[j].parent.terminal
  {
    RunInv(run, steps, j);
    assert Follows(run[j], steps[j], run[j + 1]);
    StepStops(run[j], steps[j]);
  }

  /** The terminal error in every state of every run: the cause of the first step that ends the client, if any did. */
  lemma {:induction false} TerminalExactly(run: seq<State>, steps: seq<Action>, i: nat)
    requires IsRun(run, steps) && i < |run|
    ensures var first := FirstOf((j: nat) => StoppedAt(run, steps, j), i);
      && (first.Some? ==> first.value < |steps|)
      && run[i].parent.terminal == if first.None? then None else Some(Cause(steps[first.value]))
    decreases i
  {
    if i > 0 {
      TerminalExactly(run, steps, i - 1);
      TerminalStep(run, steps, i - 1);
    }
  }

  /** No call or Open is between its last check and its request. */
  predicate Quiet(p: Parent) { forall t :: t in p.users && (p.users[t].Ready? || p.users[t].Sending?) ==> t.Shutdown? }

  lemma StepStaysQuiet(s: State, a: Action)
    requires AtParent(s) && Refuses(s.parent) && Quiet(s.parent) && Enabled(s, a)
    ensures Refuses(Do(s, a).parent) && Quiet(Do(s, a).parent)
  {
    if WorkerStep(a) {
      WorkerLeavesParent(s, a);
    } else if Exchanges(a) {
      ExchangeStaysQuiet(s, a);
    } else {
      OtherStaysQuiet(s, a);
    }
  }

  lemma ExchangeStaysQuiet(s: State, a: Action)
    requires Refuses(s.parent) && Quiet(s.parent) && Enabled(s, a) && Exchanges(a)
    ensures Refuses(Do(s, a).parent) && Quiet(Do(s, a).parent)
  {
    if a.Receive? { var _, _ := ReceiveTouches(s, a.t, a.decodeFails, a.cause); }
  }

  lemma OtherStaysQuiet(s: State, a: Action)
    requires Refuses(s.parent) && Quiet(s.parent) && Enabled(s, a) && !Exchanges(a) && !WorkerStep(a)
    requires Opener in s.parent.users && !s.parent.users[Opener].Entered?
    ensures Refuses(Do(s, a).parent) && Quiet(Do(s, a).parent)
  {
  }

  lemma QuietSends(s: State, a: Action)
    requires Quiet(s.parent) && Enabled(s, a)
    ensures Do(s, a).link.sent == s.link.sent ||
            (Do(s, a).link.sent == s.link.sent + [Do(s, a).link.sent[|s.link.sent|]] &&
             Do(s, a).link.sent[|s.link.sent|].op.Close?)
  {
  }

  lemma NextQuiet(run: seq<State>, steps: seq<Action>, j: nat)
    requires IsRun(run, steps) && j < |steps| && Refuses(run[j].parent) && Quiet(run[j].parent)
    ensures Refuses(run[j + 1].parent) && Quiet(run[j + 1].parent)
    ensures var a, b := run[j].link.sent, run[j + 1].link.sent;
      b == a || (|b| == |a| + 1 && a <= b && b[|a|].op.Close?)
  {
    RunInv(run, steps, j);
    assert Follows(run[j], steps[j], run[j + 1]);
    StepStaysQuiet(run[j], steps[j]);
    QuietSends(run[j], steps[j]);
  }

  /** Once the client refuses and no exchange is under way, nothing but Close is ever sent. */
  lemma {:induction false} OnlyCloseFollows(run: seq<State>, steps: seq<Action>, i: nat, j: nat)
    requires IsRun(run, steps) && i <= j < |run|
    requires Refuses(run[i].parent) && Quiet(run[i].parent)
    ensures Refuses(run[j].parent) && Quiet(run[j].parent)
    ensures run[i].link.sent <= run[j].link.sent
    ensures forall k :: |run[i].link.sent| <= k < |run[j].link.sent| ==> run[j].link.sent[k].op.Close?
    decreases j
  {
    if i < j {
      OnlyCloseFollows(run, steps, i, j - 1);
      NextQuiet(run, steps, j - 1);
    }
  }

  /** No caller is there that was not there before. */
  ghost predicate NoNewCaller(p: Parent, q: Parent) { forall n :: Caller(n) in q.users ==> Caller(n) in p.users }

  lemma StepAdmitsNobody(s: State, a: Action)
    requires Refuses(s.parent) && Enabled(s, a)
    ensures Refuses(Do(s, a).parent) && NoNewCaller(s.parent, Do(s, a).parent)
  {
    if WorkerStep(a) {
      WorkerLeavesParent(s, a);
    } else if a.Receive? {
      var _, _ := ReceiveTouches(s, a.t, a.decodeFails, a.cause);
    } else if Exchanges(a) {
      ExchangeAdmitsNobody(s, a);
    } else {
      OtherAdmitsNobody(s, a);
    }
  }

  lemma ExchangeAdmitsNobody(s: State, a: Action)
    requires Refuses(s.parent) && Enabled(s, a) && Exchanges(a) && !a.Receive?
    ensures Refuses(Do(s, a).parent) && NoNewCaller(s.parent, Do(s, a).parent)
  {
  }

  lemma OtherAdmitsNobody(s: State, a: Action)
    requires Refuses(s.parent) && Enabled(s, a) && !Exchanges(a) && !WorkerStep(a)
    ensures Refuses(Do(s, a).parent) && NoNewCaller(s.parent, Do(s, a).parent)
  {
  }

  /** A client that refuses goes on refusing, and no call begins any more. */
  lemma {:induction false} NobodyBegins(run: seq<State>, steps: seq<Action>, i: nat, j: nat)
    requires IsRun(run, steps) && i <= j < |run| && Refuses(run[i].parent)
    ensures Refuses(run[j].parent) && NoNewCaller(run[i].parent, run[j].parent)
    decreases j
  {
    if i < j {
      NobodyBegins(run, steps, i, j - 1);
      assert Follows(run[j - 1], steps[j - 1], run[j]);
      StepAdmitsNobody(run[j - 1], steps[j - 1]);
    }
  }
}
