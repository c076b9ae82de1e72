/**
 * The parent client and the worker process as one state machine over their steps. Every interleaving of any
 * number of callers, the opener, the shutdown goroutine, the process waiter and the worker loop is a run.
 * Pipes lose nothing but may break at any time, and the worker may die at any time.
 */
module IsolatedProtocol {
  import opened Wire

  // ----- messages

  datatype Op = Open | Call | Close
  datatype Request = Request(id: nat, op: Op)
  /** `failed`: the response carries an error; `protocol`: that error is a protocol error. */
  datatype Response = Response(id: nat, op: Op, failed: bool, protocol: bool)

  // ----- the parent

  /** The goroutines that take the call gate to exchange a message. */
  datatype Tid = Opener | Caller(n: nat) | Shutdown

  datatype Phase =
    | Queued                                  // passed the first state check, waits for the gate
    | Entered                                 // took the gate, has not rechecked the state
    | Ready                                   // rechecked under the gate, will exchange
    | Sending(id: nat, cancelled: bool)       // the request is being written
    | Awaiting(id: nat, cancelled: bool)      // the request is written, the response is being read
    | Leaving(ok: bool)                       // the exchange is over, the gate is still held
    | Done(ok: bool)                          // returned, without an error or with one

  /** The result of CloseContext that stands for no error; the source returns it only after a clean exit. */
  const NIL := 0

  datatype Closing = NotClosing | Closing | Closed(err: int)
  datatype Waiter = Watching | Wanting | Holding | Finished
  datatype Closer = Waiting | Returned(err: int)
  datatype Owner = Free | ByUser(t: Tid) | ByWaiter

  datatype Parent = Parent(
    tokens: nat,                              // contents of the gate channel
    terminal: Option<int>, closing: Closing, exited: bool, nextID: nat,
    published: bool,                          // Open returned the client to its caller
    users: map<Tid, Phase>, waiter: Waiter, closers: map<nat, Closer>)

  // ----- the worker

  datatype Outcome = Serving | Stopped | Unexpected

  datatype Worker = Worker(
    outcome: Outcome,
    inbox: Option<Request>,                   // in the reader goroutine's hand
    pending: Option<Request>, next: Option<Request>, expected: nat,
    writing: Option<Response>, written: bool, // a response being written; fully on the pipe
    session: bool, quit: bool)                // Open created a session; the loop ends after this response

  // ----- pipes and history

  /** How an execution ended: with an error, and whether that is a protocol error. */
  datatype Verdict = Verdict(failed: bool, protocol: bool)

  /** The worker, both pipes, and what went over them so far; `fallbacks` says which answers were replaced. */
  datatype Link = Link(
    worker: Worker, requests: seq<Request>, responses: seq<Response>,
    sent: seq<Request>, executed: seq<Request>, outcomes: seq<Verdict>,
    answered: seq<Response>, fallbacks: seq<bool>, received: nat, quitAfter: Option<nat>)

  /** Who read a response, whether that exchange was given up before, and whether the payload did not decode. */
  datatype Reading = Reading(reader: Tid, cancelled: bool, decodeFails: bool)

  /**
   * All but parent and link is history: who holds the gate, whether a response ever failed to match, who sent each
   * request, and who read each response.
   */
  datatype State = State(
    parent: Parent, owner: Owner, mismatched: bool, link: Link, senders: seq<Tid>, readings: seq<Reading>)

  function OpOf(t: Tid): Op {
    match t case Opener => Open case Caller(_) => Call case Shutdown => Close
  }

  predicate Holds(p: Phase) { !p.Queued? && !p.Done? }

  /** startProcess returns with the gate taken by the opener. */
  function Init(): State {
    State(
      Parent(0, None, NotClosing, false, 0, false, map[Opener := Ready], Watching, map[]), ByUser(Opener), false,
      Link(Worker(Serving, None, None, None, 1, None, false, false, false), [], [], [], [], [], [], [], 0, None),
      [], [])
  }

  // ----- steps

  datatype Action =
    | StartCall(n: nat) | GiveUp(t: Tid) | Acquire(t: Tid) | Recheck(t: Tid, refused: bool)
    | SkipExchange(t: Tid) | Begin(t: Tid) | TooLarge(t: Tid, cause: int) | Sent(t: Tid)
    | SendBroken(t: Tid, cause: int)
    | Cancel(t: Tid, cause: int) | Receive(t: Tid, decodeFails: bool, cause: int) | ReceiveBroken(t: Tid, cause: int)
    | StopAfterExit(cause: int) | Release(t: Tid)
    | CallClose(n: nat) | FinishClose(err: int, stop: bool) | ReturnClose(n: nat)
    | PublishExit | WaiterTakes | WaiterLeaves(cause: int)
    | Reads | Deliver | ExecuteDone(failed: bool, protocol: bool) | Writes(fallback: bool) | WriteSeen | Dies

  /** stop(): the first cause wins. */
  function Stop(p: Parent, cause: int): Parent {
    if p.terminal.None? then p.(terminal := Some(cause)) else p
  }

  predicate Refuses(p: Parent) { !p.closing.NotClosing? || p.terminal.Some? || p.exited }

  predicate Enabled(s: State, a: Action) {
    var p, l, w := s.parent, s.link, s.link.worker;
    match a
    case StartCall(n) => p.published && Caller(n) !in p.users && !Refuses(p)
    case GiveUp(t) => t in p.users && p.users[t].Queued?
    case Acquire(t) => t in p.users && p.users[t].Queued? && p.tokens > 0
    case Recheck(t, refused) =>
      && t in p.users && p.users[t].Entered?
      && (t.Caller? && Refuses(p) ==> refused) && (t.Shutdown? && p.terminal.Some? ==> refused)
    case SkipExchange(t) => t in p.users && p.users[t].Ready? && t.Caller?
    case Begin(t) => t in p.users && p.users[t].Ready?
    case TooLarge(t, _) => t in p.users && p.users[t].Sending?
    case Sent(t) => t in p.users && p.users[t].Sending?
    case SendBroken(t, _) => t in p.users && p.users[t].Sending?
    case Cancel(t, _) =>
      t in p.users && (p.users[t].Sending? || p.users[t].Awaiting?) && !p.users[t].cancelled
    case Receive(t, _, _) => t in p.users && p.users[t].Awaiting? && l.responses != []
    case ReceiveBroken(t, _) => t in p.users && p.users[t].Awaiting?
    case StopAfterExit(_) => Shutdown in p.users && p.users[Shutdown].Leaving? && p.exited
    case Release(t) => t in p.users && p.users[t].Leaving?
    case CallClose(n) => p.published && n !in p.closers
    case FinishClose(err, _) =>
      && Shutdown in p.users && p.users[Shutdown].Done? && p.closing.Closing?
      && (err == NIL ==> p.users[Shutdown].ok && p.exited)
    case ReturnClose(n) => n in p.closers && p.closers[n].Waiting? && p.closing.Closed?
    case PublishExit => p.waiter.Watching? && !w.outcome.Serving?
    case WaiterTakes => p.waiter.Wanting? && p.tokens > 0
    case WaiterLeaves(_) => p.waiter.Holding?
    case Reads => w.outcome.Serving? && w.inbox.None? && l.requests != []
    case Deliver => w.outcome.Serving? && w.inbox.Some?
    case ExecuteDone(failed, protocol) =>
      w.outcome.Serving? && w.pending.Some? && (protocol ==> failed) && (OutOfOrder(w) ==> protocol)
    case Writes(_) => w.outcome.Serving? && w.writing.Some? && !w.written
    case WriteSeen => w.outcome.Serving? && w.writing.Some? && w.written
    case Dies => w.outcome.Serving?
  }

  /** Open with a session, or anything else without one, is a protocol error. */
  predicate OutOfOrder(w: Worker)
    requires w.pending.Some?
  {
    w.pending.value.op.Open? == w.session
  }

  function Move(p: Parent, t: Tid, phase: Phase): Parent { p.(users := p.users[t := phase]) }

  function Do(s: State, a: Action): State
    requires Enabled(s, a)
  {
    var p, l := s.parent, s.link;
    match a
    case StartCall(n) => s.(parent := Move(p, Caller(n), Queued))
    case GiveUp(t) => s.(parent := Move(p, t, Done(false)))
    case Acquire(t) => s.(parent := Move(p, t, Entered).(tokens := p.tokens - 1), owner := ByUser(t))
    case Recheck(t, refused) => s.(parent := Move(p, t, if refused then Leaving(false) else Ready))
    case SkipExchange(t) => s.(parent := Move(p, t, Leaving(false)))
    case Begin(t) => s.(parent := Move(p, t, Sending(p.nextID + 1, false)).(nextID := p.nextID + 1))
    case TooLarge(t, cause) =>
      // nothing was written: an uncancelled exchange takes its ID back, and only a call survives it
      var q := Move(p, t, Leaving(false));
      var rolled := if p.users[t].cancelled || p.nextID == 0 then q else q.(nextID := p.nextID - 1);
      s.(parent := if t.Caller? then rolled else Stop(rolled, cause))
    case Sent(t) =>
      var r := Request(p.users[t].id, OpOf(t));
      s.(parent := Move(p, t, Awaiting(r.id, p.users[t].cancelled)),
         link := l.(requests := l.requests + [r], sent := l.sent + [r]), senders := s.senders + [t])
    case SendBroken(t, cause) => s.(parent := Stop(Move(p, t, Leaving(false)), cause))
    case Cancel(t, cause) =>
      var c := if p.users[t].Sending? then Sending(p.users[t].id, true) else Awaiting(p.users[t].id, true);
      s.(parent := Stop(Move(p, t, c), cause))
    case Receive(t, decodeFails, cause) => DoReceive(s, t, decodeFails, cause)
    case ReceiveBroken(t, cause) => s.(parent := Stop(Move(p, t, Leaving(false)), cause))
    case StopAfterExit(cause) => s.(parent := Stop(p, cause))
    case Release(t) =>
      var q := Move(p, t, Done(p.users[t].ok)).(tokens := p.tokens + 1);
      s.(parent := q.(published := p.published || (t.Opener? && p.users[t].ok)), owner := Free)
    case CallClose(n) =>
      var q := p.(closers := p.closers[n := Waiting]);
      s.(parent := if p.closing.NotClosing? then Move(q, Shutdown, Queued).(closing := Closing) else q)
    case FinishClose(err, stop) =>
      var q := p.(closing := Closed(err));
      s.(parent := if stop then Stop(q, err) else q)
    case ReturnClose(n) => s.(parent := p.(closers := p.closers[n := Returned(p.closing.err)]))
    case PublishExit => s.(parent := p.(exited := true, waiter := Wanting))
    case WaiterTakes => s.(parent := p.(waiter := Holding, tokens := p.tokens - 1), owner := ByWaiter)
    case WaiterLeaves(cause) =>
      var q := p.(waiter := Finished, tokens := p.tokens + 1);
      s.(parent := if p.closing.NotClosing? then Stop(q, cause) else q, owner := Free)
    case Reads => s.(link := l.(worker := l.worker.(inbox := Some(l.requests[0])), requests := l.requests[1..]))
    case Deliver => s.(link := DoDeliver(l))
    case ExecuteDone(failed, protocol) => s.(link := DoExecuted(l, failed, protocol))
    case Writes(fallback) => s.(link := DoWrite(l, fallback))
    case WriteSeen => s.(link := DoWriteSeen(l))
    case Dies => s.(link := l.(worker := l.worker.(outcome := Stopped)))
  }

  function DoReceive(s: State, t: Tid, decodeFails: bool, cause: int): State
    requires t in s.parent.users && s.parent.users[t].Awaiting? && s.link.responses != []
  {
    var p, r := s.parent, s.link.responses[0];
    var cancelled := p.users[t].cancelled;
    var matches := r.id == p.users[t].id && r.op == OpOf(t);
    var unusable := !matches || r.protocol || if r.failed then !t.Caller? else decodeFails;
    var q := Move(p, t, Leaving(!cancelled && !unusable && !r.failed));
    s.(parent := if !cancelled && unusable then Stop(q, cause) else q,
       mismatched := s.mismatched || (!cancelled && !matches),
       link := s.link.(responses := s.link.responses[1..], received := s.link.received + 1),
       readings := s.readings + [Reading(t, cancelled, decodeFails)])
  }

  // ----- the worker loop

  function Execute(l: Link, r: Request): Link {
    l.(worker := l.worker.(pending := Some(r)), executed := l.executed + [r])
  }

  function DoDeliver(l: Link): Link
    requires l.worker.inbox.Some?
  {
    var w, r := l.worker, l.worker.inbox.value;
    if w.pending.Some? || w.next.Some? || r.id != w.expected then l.(worker := w.(outcome := Unexpected))
    else
      var v := w.(inbox := None, expected := w.expected + 1);
      if w.writing.Some? then l.(worker := v.(next := Some(r))) else Execute(l.(worker := v), r)
  }

  function DoExecuted(l: Link, failed: bool, protocol: bool): Link
    requires l.worker.pending.Some?
  {
    var w, r := l.worker, l.worker.pending.value;
    var quit := protocol || r.op.Close? || (r.op.Open? && failed);
    var response := Response(r.id, r.op, failed, protocol);
    var session := if r.op.Open? && !protocol then !failed else w.session;
    l.(worker := w.(pending := None, session := session, quit := quit, writing := Some(response), written := false),
       outcomes := l.outcomes + [Verdict(failed, protocol)],
       quitAfter := if quit then Some(|l.executed|) else l.quitAfter)
  }

  /** A response whose metadata is too large is replaced by a small error response to the same request. */
  function DoWrite(l: Link, fallback: bool): Link
    requires l.worker.writing.Some?
  {
    var r := l.worker.writing.value;
    var out := if fallback then r.(failed := true, protocol := false) else r;
    l.(worker := l.worker.(written := true), responses := l.responses + [out], answered := l.answered + [out],
       fallbacks := l.fallbacks + [fallback])
  }

  function DoWriteSeen(l: Link): Link {
    var w := l.worker;
    var v := w.(writing := None, written := false);
    if w.quit then l.(worker := v.(outcome := Stopped))
    else if w.next.Some? then Execute(l.(worker := v.(next := None)), w.next.value)
    else l.(worker := v)
  }
}
