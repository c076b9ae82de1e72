/** What every step of the parent/worker protocol keeps, and what follows for every run. */
module IsolatedSafety {
  import opened Wire
  import opened IsolatedProtocol

  // ----- the parent's invariant, in terms of the parent, the gate's owner and what was sent and received

  /** The gate: one token or one holder, never both. */
  predicate GateInv(p: Parent, owner: Owner) {
    && (p.tokens == if owner.Free? then 1 else 0)
    && (forall t :: t in p.users ==> (Holds(p.users[t]) <==> owner == ByUser(t)))
    && (owner.ByUser? ==> owner.t in p.users)
    && (p.waiter.Holding? <==> owner.ByWaiter?)
  }

  /** Who exists: callers only after Open returned the client, the shutdown goroutine only once closing began. */
  predicate RolesInv(p: Parent, sent: seq<Request>) {
    && Opener in p.users && !p.users[Opener].Queued? && !p.users[Opener].Entered?
    && (p.published <==> p.users[Opener] == Done(true)) && (p.published ==> sent != [])
    && (p.users[Opener] == Leaving(true) ==> sent != [])
    && (!p.published ==> (forall t :: t in p.users ==> t.Opener?) && p.closing.NotClosing? && p.closers == map[])
    && (Shutdown in p.users <==> !p.closing.NotClosing?)
    && (p.closing.Closed? ==> p.users[Shutdown].Done?)
    && (forall n :: n in p.closers && p.closers[n].Returned? ==> p.closing == Closed(p.closers[n].err))
  }

  /** The phase of whoever may be talking to the worker. */
  function Active(p: Parent, owner: Owner): Phase {
    if owner.ByUser? && owner.t in p.users then p.users[owner.t] else Done(false)
  }

  /** Request numbering, and one outstanding request at most. */
  predicate NumberInv(p: Parent, owner: Owner, sent: seq<Request>, received: nat) {
    var a := Active(p, owner);
    && (forall i :: 0 <= i < |sent| ==> sent[i].id == i + 1)
    && received <= |sent| <= received + 1
    && (a.Ready? ==> p.nextID == |sent| == received)
    && (a.Sending? ==> a.id == p.nextID == |sent| + 1 && received == |sent|)
    && (a.Awaiting? ==> a.id == p.nextID == |sent| == received + 1 && sent[a.id - 1].op == OpOf(owner.t))
    && (a.Sending? && a.cancelled ==> p.terminal.Some?)
    && (a.Awaiting? && a.cancelled ==> p.terminal.Some?)
    && (p.terminal.None? && !a.Sending? && !a.Awaiting? ==> p.nextID == |sent| == received)
  }

  /** Open is the first request and Close, sent at most once, the last. */
  predicate OrderInv(p: Parent, owner: Owner, sent: seq<Request>) {
    var a := Active(p, owner);
    && (forall i :: 0 <= i < |sent| ==> (sent[i].op.Open? <==> i == 0))
    && (owner == ByUser(Opener) && (a.Ready? || a.Sending?) ==> sent == [])
    && (forall i :: 0 <= i < |sent| - 1 ==> !sent[i].op.Close?)
    && (sent != [] && sent[|sent| - 1].op.Close? ==>
          && Shutdown in p.users
          && (owner.ByUser? && (a.Ready? || a.Sending? || a.Awaiting?) ==> owner.t.Shutdown? && a.Awaiting?)
          && (p.users[Shutdown].Awaiting? || p.users[Shutdown].Leaving? || p.users[Shutdown].Done?))
  }

  predicate ParentInv(p: Parent, owner: Owner, sent: seq<Request>, received: nat) {
    GateInv(p, owner) && RolesInv(p, sent) && NumberInv(p, owner, sent, received) && OrderInv(p, owner, sent)
  }

  // ----- the invariant of the worker and the pipes

  /** Requests travel from the parent's pipe through the reader's hand to the loop. */
  predicate RequestPathInv(l: Link) {
    var w := l.worker;
    && 1 <= w.expected
    && w.expected - 1 + (if w.inbox.Some? then 1 else 0) + |l.requests| == |l.sent|
    && (w.inbox.Some? ==> w.inbox.value == l.sent[w.expected - 1])
    && l.requests == l.sent[|l.sent| - |l.requests|..]
    && |l.executed| + (if w.next.Some? then 1 else 0) == w.expected - 1
    && l.executed == l.sent[..|l.executed|]
    && (w.next.Some? ==> w.next.value == l.sent[|l.executed|])
  }

  /** Responses travel back in the order of execution, each for its own request. */
  predicate ResponsePathInv(l: Link) {
    var w := l.worker;
    && |l.answered| <= |l.executed| <= |l.sent|
    && (forall i :: 0 <= i < |l.answered| ==> l.answered[i].id == i + 1 && l.answered[i].op == l.sent[i].op)
    && |l.answered| - |l.responses| == l.received
    && l.responses == l.answered[l.received..]
    && (w.outcome.Serving? ==>
          |l.executed| == |l.answered| + (if w.pending.Some? || (w.writing.Some? && !w.written) then 1 else 0))
    && !(w.pending.Some? && w.writing.Some?)
    && (w.outcome.Serving? && w.next.Some? ==> w.writing.Some? && w.written)
    && (w.pending.Some? ==> l.executed != [] && w.pending.value == l.executed[|l.executed| - 1])
    && (w.writing.Some? ==> l.executed != [])
    && (w.writing.Some? ==>
          w.writing.value.id == |l.executed| && w.writing.value.op == l.executed[|l.executed| - 1].op)
    && !w.outcome.Unexpected?
  }

  /** Once an execution asked to quit, nothing else is executed. */
  predicate QuitInv(l: Link) {
    var w := l.worker;
    && (w.outcome.Serving? && w.quit ==> w.pending.None? && w.writing.Some?)
    && (l.quitAfter.Some? ==> |l.executed| == l.quitAfter.value && (w.outcome.Serving? ==> w.quit))
    && (w.quit ==> l.quitAfter.Some?)
  }

  predicate LinkInv(l: Link) {
    && (forall i :: 0 <= i < |l.sent| ==> l.sent[i].id == i + 1)
    && l.received <= |l.sent| <= l.received + 1
    && RequestPathInv(l) && ResponsePathInv(l) && QuitInv(l)
  }

  predicate Inv(s: State) {
    ParentInv(s.parent, s.owner, s.link.sent, s.link.received) && LinkInv(s.link) && !s.mismatched
  }

  /** The parent's half of the invariant, and steps that leave the other half alone. */
  predicate AtParent(s: State) { ParentInv(s.parent, s.owner, s.link.sent, s.link.received) }

  predicate LinkKept(s: State, u: State) { u.link == s.link && u.mismatched == s.mismatched }

  predicate ParentKept(s: State, u: State) {
    u == s.(link := u.link) && u.link.sent == s.link.sent && u.link.received == s.link.received
  }

  lemma InitInv()
    ensures Inv(Init())
  {
  }

  lemma StartCallKeeps(s: State, n: nat)
    requires AtParent(s) && Enabled(s, StartCall(n))
    ensures AtParent(Do(s, StartCall(n))) && LinkKept(s, Do(s, StartCall(n)))
  {
  }

  lemma GiveUpKeeps(s: State, t: Tid)
    requires AtParent(s) && Enabled(s, GiveUp(t))
    ensures AtParent(Do(s, GiveUp(t))) && LinkKept(s, Do(s, GiveUp(t)))
  {
  }

  lemma AcquireKeeps(s: State, t: Tid)
    requires AtParent(s) && Enabled(s, Acquire(t))
    ensures AtParent(Do(s, Acquire(t))) && LinkKept(s, Do(s, Acquire(t)))
  {
  }

  lemma RecheckKeeps(s: State, t: Tid, refused: bool)
    requires AtParent(s) && Enabled(s, Recheck(t, refused))
    ensures AtParent(Do(s, Recheck(t, refused))) && LinkKept(s, Do(s, Recheck(t, refused)))
  {
  }

  lemma SkipExchangeKeeps(s: State, t: Tid)
    requires AtParent(s) && Enabled(s, SkipExchange(t))
    ensures AtParent(Do(s, SkipExchange(t))) && LinkKept(s, Do(s, SkipExchange(t)))
  {
  }

  lemma BeginKeeps(s: State, t: Tid)
    requires AtParent(s) && Enabled(s, Begin(t))
    ensures AtParent(Do(s, Begin(t))) && LinkKept(s, Do(s, Begin(t)))
  {
  }

  /** A holder that goes on holding disturbs neither the gate nor the roles. */
  lemma MoveHolder(p: Parent, owner: Owner, sent: seq<Request>, t: Tid, phase: Phase)
    requires GateInv(p, owner) && RolesInv(p, sent) && owner == ByUser(t) && Holds(phase) && !phase.Entered?
    requires t.Opener? && phase == Leaving(true) ==> sent != []
    ensures GateInv(Move(p, t, phase), owner) && RolesInv(Move(p, t, phase), sent)
  {
  }

  /** A request that was never written gives its number back, or ends the client. */
  lemma TooLargeParent(p: Parent, owner: Owner, sent: seq<Request>, received: nat, t: Tid, q: Parent)
    requires ParentInv(p, owner, sent, received) && owner == ByUser(t) && p.users[t].Sending?
    requires q == Move(p, t, Leaving(false)).(nextID := q.nextID, terminal := q.terminal)
    requires p.terminal.Some? ==> q.terminal.Some?
    requires q.terminal.None? ==> q.nextID == p.nextID - 1
    ensures ParentInv(q, owner, sent, received)
  {
    MoveHolder(p, owner, sent, t, Leaving(false));
    assert NumberInv(q, owner, sent, received);
  }

  lemma TooLargeKeeps(s: State, t: Tid, cause: int)
    requires AtParent(s) && Enabled(s, TooLarge(t, cause))
    ensures AtParent(Do(s, TooLarge(t, cause))) && LinkKept(s, Do(s, TooLarge(t, cause)))
  {
    TooLargeParent(s.parent, s.owner, s.link.sent, s.link.received, t, Do(s, TooLarge(t, cause)).parent);
  }

  lemma SentOnLink(l: Link, r: Request)
    requires LinkInv(l) && r.id == |l.sent| + 1 && l.received == |l.sent|
    ensures LinkInv(l.(requests := l.requests + [r], sent := l.sent + [r]))
  {
  }

  lemma SentOrder(p: Parent, owner: Owner, sent: seq<Request>, t: Tid)
    requires GateInv(p, owner) && RolesInv(p, sent) && OrderInv(p, owner, sent)
    requires owner == ByUser(t) && p.users[t].Sending?
    ensures OrderInv(Move(p, t, Awaiting(p.users[t].id, p.users[t].cancelled)), owner,
                     sent + [Request(p.users[t].id, OpOf(t))])
  {
  }

  lemma SentParent(p: Parent, owner: Owner, sent: seq<Request>, received: nat, t: Tid)
    requires ParentInv(p, owner, sent, received)
    requires owner == ByUser(t) && p.users[t].Sending?
    ensures ParentInv(Move(p, t, Awaiting(p.users[t].id, p.users[t].cancelled)), owner,
                      sent + [Request(p.users[t].id, OpOf(t))], received)
  {
    var q := Move(p, t, Awaiting(p.users[t].id, p.users[t].cancelled));
    MoveHolder(p, owner, sent, t, q.users[t]);
    SentOrder(p, owner, sent, t);
    assert NumberInv(q, owner, sent + [Request(p.users[t].id, OpOf(t))], received);
  }

  lemma SentKeeps(s: State, t: Tid)
    requires Inv(s) && Enabled(s, Sent(t))
    ensures Inv(Do(s, Sent(t)))
  {
    var p, l := s.parent, s.link;
    assert s.owner == ByUser(t);
    SentOnLink(l, Request(p.users[t].id, OpOf(t)));
    SentParent(p, s.owner, l.sent, l.received, t);
  }

  lemma SendBrokenKeeps(s: State, t: Tid, cause: int)
    requires AtParent(s) && Enabled(s, SendBroken(t, cause))
    ensures AtParent(Do(s, SendBroken(t, cause))) && LinkKept(s, Do(s, SendBroken(t, cause)))
  {
  }

  lemma CancelParent(p: Parent, owner: Owner, sent: seq<Request>, received: nat, t: Tid, cause: int)
    requires ParentInv(p, owner, sent, received) && t in p.users && (p.users[t].Sending? || p.users[t].Awaiting?)
    ensures var c := if p.users[t].Sending? then Sending(p.users[t].id, true) else Awaiting(p.users[t].id, true);
      ParentInv(Stop(Move(p, t, c), cause), owner, sent, received)
  {
    assert owner == ByUser(t);
    var c := if p.users[t].Sending? then Sending(p.users[t].id, true) else Awaiting(p.users[t].id, true);
    MoveHolder(p, owner, sent, t, c);
  }

  lemma CancelKeeps(s: State, t: Tid, cause: int)
    requires AtParent(s) && Enabled(s, Cancel(t, cause))
    ensures AtParent(Do(s, Cancel(t, cause))) && LinkKept(s, Do(s, Cancel(t, cause)))
  {
    CancelParent(s.parent, s.owner, s.link.sent, s.link.received, t, cause);
  }

  lemma ReceivedOnLink(l: Link)
    requires LinkInv(l) && l.responses != [] && |l.sent| == l.received + 1
    ensures LinkInv(l.(responses := l.responses[1..], received := l.received + 1))
  {
  }

  lemma ReceivedParent(p: Parent, owner: Owner, sent: seq<Request>, received: nat, t: Tid, ok: bool, end: Option<int>)
    requires ParentInv(p, owner, sent, received) && owner == ByUser(t) && p.users[t].Awaiting?
    requires p.terminal.Some? ==> end.Some?
    ensures ParentInv(Move(p, t, Leaving(ok)).(terminal := end), owner, sent, received + 1)
  {
    var m := Move(p, t, Leaving(ok));
    MoveHolder(p, owner, sent, t, Leaving(ok));
    var q := m.(terminal := end);
    assert GateInv(q, owner) && RolesInv(q, sent);
    assert NumberInv(q, owner, sent, received + 1);
  }

  /** The first response on the pipe answers the request its reader sent. */
  lemma ResponseMatches(s: State, t: Tid)
    requires Inv(s) && s.owner == ByUser(t) && s.parent.users[t].Awaiting? && s.link.responses != []
    ensures s.link.responses[0].id == s.parent.users[t].id && s.link.responses[0].op == OpOf(t)
  {
    assert s.link.responses[0] == s.link.answered[s.link.received];
  }

  /** Reading a matching response moves its reader on and may end the client, and nothing else. */
  lemma ReceiveShape(s: State, t: Tid, decodeFails: bool, cause: int) returns (ok: bool, end: Option<int>)
    requires Enabled(s, Receive(t, decodeFails, cause))
    requires s.link.responses[0].id == s.parent.users[t].id && s.link.responses[0].op == OpOf(t)
    ensures s.parent.terminal.Some? ==> end.Some?
    ensures var u := DoReceive(s, t, decodeFails, cause);
      u == s.(parent := Move(s.parent, t, Leaving(ok)).(terminal := end), readings := u.readings,
              link := s.link.(responses := s.link.responses[1..], received := s.link.received + 1))
  {
    var q := DoReceive(s, t, decodeFails, cause).parent;
    return q.users[t].ok, q.terminal;
  }

  lemma ReceiveKeeps(s: State, t: Tid, decodeFails: bool, cause: int)
    requires Inv(s) && Enabled(s, Receive(t, decodeFails, cause))
    ensures Inv(Do(s, Receive(t, decodeFails, cause)))
  {
    assert s.owner == ByUser(t);
    ResponseMatches(s, t);
    var ok, end := ReceiveShape(s, t, decodeFails, cause);
    ReceivedOnLink(s.link);
    ReceivedParent(s.parent, s.owner, s.link.sent, s.link.received, t, ok, end);
  }

  lemma ReceiveBrokenKeeps(s: State, t: Tid, cause: int)
    requires AtParent(s) && Enabled(s, ReceiveBroken(t, cause))
    ensures AtParent(Do(s, ReceiveBroken(t, cause))) && LinkKept(s, Do(s, ReceiveBroken(t, cause)))
  {
  }

  lemma StopAfterExitKeeps(s: State, cause: int)
    requires AtParent(s) && Enabled(s, StopAfterExit(cause))
    ensures AtParent(Do(s, StopAfterExit(cause))) && LinkKept(s, Do(s, StopAfterExit(cause)))
  {
  }

  lemma ReleaseKeeps(s: State, t: Tid)
    requires AtParent(s) && Enabled(s, Release(t))
    ensures AtParent(Do(s, Release(t))) && LinkKept(s, Do(s, Release(t)))
  {
  }

  lemma CallCloseKeeps(s: State, n: nat)
    requires AtParent(s) && Enabled(s, CallClose(n))
    ensures AtParent(Do(s, CallClose(n))) && LinkKept(s, Do(s, CallClose(n)))
  {
  }

  lemma FinishCloseKeeps(s: State, err: int, stop: bool)
    requires AtParent(s) && Enabled(s, FinishClose(err, stop))
    ensures AtParent(Do(s, FinishClose(err, stop))) && LinkKept(s, Do(s, FinishClose(err, stop)))
  {
  }

  lemma ReturnCloseKeeps(s: State, n: nat)
    requires AtParent(s) && Enabled(s, ReturnClose(n))
    ensures AtParent(Do(s, ReturnClose(n))) && LinkKept(s, Do(s, ReturnClose(n)))
  {
  }

  lemma PublishExitKeeps(s: State)
    requires AtParent(s) && Enabled(s, PublishExit)
    ensures AtParent(Do(s, PublishExit)) && LinkKept(s, Do(s, PublishExit))
  {
  }

  lemma WaiterTakesKeeps(s: State)
    requires AtParent(s) && Enabled(s, WaiterTakes)
    ensures AtParent(Do(s, WaiterTakes)) && LinkKept(s, Do(s, WaiterTakes))
  {
  }

  lemma WaiterLeavesKeeps(s: State, cause: int)
    requires AtParent(s) && Enabled(s, WaiterLeaves(cause))
    ensures AtParent(Do(s, WaiterLeaves(cause))) && LinkKept(s, Do(s, WaiterLeaves(cause)))
  {
  }

  lemma ReadsKeeps(s: State)
    requires LinkInv(s.link) && Enabled(s, Reads)
    ensures LinkInv(Do(s, Reads).link) && ParentKept(s, Do(s, Reads))
  {
  }

  lemma DeliverKeeps(s: State)
    requires LinkInv(s.link) && Enabled(s, Deliver)
    ensures LinkInv(Do(s, Deliver).link) && ParentKept(s, Do(s, Deliver))
  {
  }

  lemma ExecuteDoneKeeps(s: State, failed: bool, protocol: bool)
    requires LinkInv(s.link) && Enabled(s, ExecuteDone(failed, protocol))
    ensures LinkInv(Do(s, ExecuteDone(failed, protocol)).link) && ParentKept(s, Do(s, ExecuteDone(failed, protocol)))
  {
  }

  lemma SuffixGrows<T>(a: seq<T>, k: nat, x: T)
    requires k <= |a|
    ensures (a + [x])[k..] == a[k..] + [x]
  {
  }

  function Written(l: Link, out: Response, fallback: bool): Link {
    l.(worker := l.worker.(written := true), responses := l.responses + [out], answered := l.answered + [out],
       fallbacks := l.fallbacks + [fallback])
  }

  lemma WritesOnLink(l: Link, out: Response, fallback: bool)
    requires LinkInv(l) && l.worker.outcome.Serving? && l.worker.writing.Some? && !l.worker.written
    requires out.id == l.worker.writing.value.id && out.op == l.worker.writing.value.op
    ensures LinkInv(Written(l, out, fallback))
  {
    var m := Written(l, out, fallback);
    SuffixGrows(l.answered, l.received, out);
    assert RequestPathInv(m) && QuitInv(m);
    assert ResponsePathInv(m);
  }

  lemma WritesKeeps(s: State, fallback: bool)
    requires LinkInv(s.link) && Enabled(s, Writes(fallback))
    ensures LinkInv(Do(s, Writes(fallback)).link) && ParentKept(s, Do(s, Writes(fallback)))
  {
    var r := s.link.worker.writing.value;
    WritesOnLink(s.link, if fallback then r.(failed := true, protocol := false) else r, fallback);
  }

  /** The loop takes up the request that waited for the response to be written. */
  lemma NextOnLink(l: Link)
    requires LinkInv(l) && l.worker.outcome.Serving? && l.worker.writing.Some? && l.worker.written
    requires !l.worker.quit && l.worker.next.Some?
    ensures LinkInv(DoWriteSeen(l))
  {
    var m := DoWriteSeen(l);
    assert m.executed == l.executed + [l.sent[|l.executed|]] == l.sent[..|m.executed|];
    assert RequestPathInv(m) && QuitInv(m);
    assert ResponsePathInv(m);
  }

  lemma WriteSeenOnLink(l: Link)
    requires LinkInv(l) && l.worker.outcome.Serving? && l.worker.writing.Some? && l.worker.written
    ensures LinkInv(DoWriteSeen(l))
  {
    if !l.worker.quit && l.worker.next.Some? { NextOnLink(l); }
  }

  lemma WriteSeenKeeps(s: State)
    requires LinkInv(s.link) && Enabled(s, WriteSeen)
    ensures LinkInv(Do(s, WriteSeen).link) && ParentKept(s, Do(s, WriteSeen))
  {
    WriteSeenOnLink(s.link);
  }

  lemma DiesKeeps(s: State)
    requires LinkInv(s.link) && Enabled(s, Dies)
    ensures LinkInv(Do(s, Dies).link) && ParentKept(s, Do(s, Dies))
  {
  }

  // ----- every run

  predicate WorkerStep(a: Action) { a.Reads? || a.Deliver? || a.ExecuteDone? || a.Writes? || a.WriteSeen? || a.Dies? }

  lemma WorkerStepKeeps(s: State, a: Action)
    requires LinkInv(s.link) && Enabled(s, a) && WorkerStep(a)
    ensures LinkInv(Do(s, a).link) && ParentKept(s, Do(s, a))
  {
    match a
    case Reads => ReadsKeeps(s);
    case Deliver => DeliverKeeps(s);
    case ExecuteDone(failed, protocol) => ExecuteDoneKeeps(s, failed, protocol);
    case Writes(fallback) => WritesKeeps(s, fallback);
    case WriteSeen => WriteSeenKeeps(s);
    case Dies => DiesKeeps(s);
  }

  lemma ParentStepKeeps(s: State, a: Action)
    requires AtParent(s) && Enabled(s, a) && !WorkerStep(a) && !a.Sent? && !a.Receive?
    ensures AtParent(Do(s, a)) && LinkKept(s, Do(s, a))
  {
    match a
    case StartCall(n) => StartCallKeeps(s, n);
    case GiveUp(t) => GiveUpKeeps(s, t);
    case Acquire(t) => AcquireKeeps(s, t);
    case Recheck(t, refused) => RecheckKeeps(s, t, refused);
    case SkipExchange(t) => SkipExchangeKeeps(s, t);
    case Begin(t) => BeginKeeps(s, t);
    case TooLarge(t, cause) => TooLargeKeeps(s, t, cause);
    case SendBroken(t, cause) => SendBrokenKeeps(s, t, cause);
    case Cancel(t, cause) => CancelKeeps(s, t, cause);
    case ReceiveBroken(t, cause) => ReceiveBrokenKeeps(s, t, cause);
    case StopAfterExit(cause) => StopAfterExitKeeps(s, cause);
    case Release(t) => ReleaseKeeps(s, t);
    case CallClose(n) => CallCloseKeeps(s, n);
    case FinishClose(err, stop) => FinishCloseKeeps(s, err, stop);
    case ReturnClose(n) => ReturnCloseKeeps(s, n);
    case PublishExit => PublishExitKeeps(s);
    case WaiterTakes => WaiterTakesKeeps(s);
    case WaiterLeaves(cause) => WaiterLeavesKeeps(s, cause);
  }

  lemma StepInv(s: State, a: Action)
    requires Inv(s) && Enabled(s, a)
    ensures Inv(Do(s, a))
  {
    if a.Sent? {
      SentKeeps(s, a.t);
    } else if a.Receive? {
      ReceiveKeeps(s, a.t, a.decodeFails, a.cause);
    } else if WorkerStep(a) {
      WorkerStepKeeps(s, a);
      WorkerMoved(s, Do(s, a));
    } else {
      ParentStepKeeps(s, a);
      ParentMoved(s, Do(s, a));
    }
  }

  lemma WorkerMoved(s: State, u: State)
    requires Inv(s) && LinkInv(u.link) && ParentKept(s, u)
    ensures Inv(u)
  {
  }

  lemma ParentMoved(s: State, u: State)
    requires Inv(s) && AtParent(u) && LinkKept(s, u)
    ensures Inv(u)
  {
  }

  ghost predicate Follows(s: State, a: Action, u: State) { Enabled(s, a) && u == Do(s, a) }

  ghost predicate IsRun(run: seq<State>, steps: seq<Action>) {
    && |run| == |steps| + 1 && run[0] == Init()
    && forall i {:trigger steps[i]} :: 0 <= i < |steps| ==> Follows(run[i], steps[i], run[i + 1])
  }

  lemma {:induction false} RunInv(run: seq<State>, steps: seq<Action>, i: nat)
    requires IsRun(run, steps) && i < |run|
    ensures Inv(run[i])
    decreases i
  {
    if i == 0 {
      InitInv();
    } else {
      RunInv(run, steps, i - 1);
      StepInv(run[i - 1], steps[i - 1]);
    }
  }

  function Holders(p: Parent): set<Tid> { set t | t in p.users && Holds(p.users[t]) }

  /** What holds in every reachable state, stated without the proof's bookkeeping. */
  ghost predicate Safe(s: State) {
    var p, l := s.parent, s.link;
    // the gate: tokens plus holders make one
    && p.tokens + |Holders(p)| + (if p.waiter.Holding? then 1 else 0) == 1
    // request IDs are 1, 2, 3, ... without gaps; Open first, Close at most once and last
    && (forall i :: 0 <= i < |l.sent| ==> l.sent[i].id == i + 1 && (l.sent[i].op.Open? <==> i == 0))
    && (forall i :: 0 <= i < |l.sent| && l.sent[i].op.Close? ==> i == |l.sent| - 1)
    // executed at most once each and in order, answered in that order by matching responses
    && l.executed <= l.sent && |l.answered| <= |l.executed|
    && (forall i :: 0 <= i < |l.answered| ==> l.answered[i].id == i + 1 && l.answered[i].op == l.sent[i].op)
    // the parent never sees a response to another request, the worker never an unexpected request
    && !s.mismatched && !l.worker.outcome.Unexpected?
    // nothing runs after an execution that asked to quit
    && (l.quitAfter.Some? ==> |l.executed| == l.quitAfter.value)
    // whoever returned from CloseContext returned the one saved result
    && (forall n :: n in p.closers && p.closers[n].Returned? ==> p.closing == Closed(p.closers[n].err))
  }

  lemma EveryStateSafe(run: seq<State>, steps: seq<Action>, i: nat)
    requires IsRun(run, steps) && i < |run|
    ensures Safe(run[i])
  {
    RunInv(run, steps, i);
    var s := run[i];
    if s.owner.ByUser? {
      assert Holders(s.parent) == {s.owner.t};
    } else {
      assert Holders(s.parent) == {};
    }
  }

  /** What can never be taken back. */
  ghost predicate Settled(s: State, u: State) {
    SettledParent(s.parent, u.parent) && SettledLink(s.link, u.link)
  }

  ghost predicate SettledParent(p: Parent, q: Parent) {
    && (p.terminal.Some? ==> q.terminal == p.terminal)
    && (p.closing.Closed? ==> q.closing == p.closing)
    && (!p.closing.NotClosing? ==> !q.closing.NotClosing?)
    && SettledClosers(p.closers, q.closers)
  }

  ghost predicate SettledClosers(c: map<nat, Closer>, d: map<nat, Closer>) {
    forall n :: n in c && c[n].Returned? ==> n in d && d[n] == c[n]
  }

  lemma StepSettlesClosers(s: State, a: Action)
    requires Enabled(s, a)
    ensures SettledClosers(s.parent.closers, Do(s, a).parent.closers)
  {
    if !a.CallClose? && !a.ReturnClose? { ClosersUntouched(s, a); }
  }

  lemma ClosersUntouched(s: State, a: Action)
    requires Enabled(s, a) && !a.CallClose? && !a.ReturnClose?
    ensures Do(s, a).parent.closers == s.parent.closers
  {
    if WorkerStep(a) { WorkerLeavesParent(s, a); } else { ExchangeLeavesClosers(s, a); }
  }

  lemma WorkerLeavesParent(s: State, a: Action)
    requires Enabled(s, a) && WorkerStep(a)
    ensures Do(s, a).parent == s.parent
  {
  }

  lemma ExchangeLeavesClosers(s: State, a: Action)
    requires Enabled(s, a) && !WorkerStep(a) && !a.CallClose? && !a.ReturnClose?
    ensures Do(s, a).parent.closers == s.parent.closers
  {
    if a.Receive? { assert Do(s, a) == DoReceive(s, a.t, a.decodeFails, a.cause); }
  }

  ghost predicate SettledLink(l: Link, m: Link) {
    && l.sent <= m.sent && l.executed <= m.executed && l.answered <= m.answered
    && (l.quitAfter.Some? ==> m.quitAfter == l.quitAfter && m.executed == l.executed)
  }

  lemma StepSettlesParent(s: State, a: Action)
    requires Enabled(s, a)
    ensures SettledParent(s.parent, Do(s, a).parent)
  {
    StepSettlesClosers(s, a);
  }

  lemma StepSettlesLink(s: State, a: Action)
    requires LinkInv(s.link) && Enabled(s, a)
    ensures SettledLink(s.link, Do(s, a).link)
  {
    match a
    case Deliver => DeliverSettles(s.link);
    case WriteSeen =>
    case _ =>
  }

  lemma DeliverSettles(l: Link)
    requires LinkInv(l) && l.worker.outcome.Serving? && l.worker.inbox.Some?
    ensures SettledLink(l, DoDeliver(l))
  {
  }

  /** Along every run: terminal error and close result are write-once, histories only grow, quitting is final. */
  lemma {:induction false} RunSettles(run: seq<State>, steps: seq<Action>, i: nat, j: nat)
    requires IsRun(run, steps) && i <= j < |run|
    ensures Settled(run[i], run[j])
    decreases j - i
  {
    if i < j {
      RunSettles(run, steps, i, j - 1);
      NextSettles(run, steps, j - 1);
      SettledTransitive(run[i], run[j - 1], run[j]);
    }
  }

  lemma NextSettles(run: seq<State>, steps: seq<Action>, i: nat)
    requires IsRun(run, steps) && i < |steps|
    ensures Settled(run[i], run[i + 1])
  {
    RunInv(run, steps, i);
    StepSettles(run[i], steps[i], run[i + 1]);
  }

  lemma StepSettles(s: State, a: Action, u: State)
    requires Inv(s) && Follows(s, a, u)
    ensures Settled(s, u)
  {
    StepSettlesParent(s, a);
    StepSettlesLink(s, a);
  }

  lemma SettledTransitive(s: State, u: State, v: State)
    requires Settled(s, u) && Settled(u, v)
    ensures Settled(s, v)
  {
  }

  /** Once the Close request is on the pipe no request ever follows it. */
  lemma NothingAfterClose(run: seq<State>, steps: seq<Action>, i: nat, j: nat, k: nat)
    requires IsRun(run, steps) && i <= j < |run|
    requires k < |run[i].link.sent| && run[i].link.sent[k].op.Close?
    ensures run[j].link.sent == run[i].link.sent
  {
    RunSettles(run, steps, i, j);
    EveryStateSafe(run, steps, i);
    EveryStateSafe(run, steps, j);
    assert run[j].link.sent[k] == run[i].link.sent[k];
  }
}
