/** The process-wide client slot: at most one open client, and none after a failed native close. */
module ProcessSlot {
  datatype Process = Process(active: bool, poisoned: bool)

  /** `open`: the native context is present. */
  datatype Handle = Handle(open: bool, closed: bool, ownsSlot: bool)

  datatype NewResult = Opened | InvalidConfig | Poisoned | AlreadyOpen | LoadFailed
  datatype CloseResult = Closed | Unsupported | CloseFailed

  // ----- the operations on values

  /** New: `valid` says whether the options pass, `loads` whether the library loads. */
  function NewOutcome(p: Process, valid: bool, loads: bool): NewResult {
    if !valid then InvalidConfig else if p.poisoned then Poisoned else if p.active then AlreadyOpen
    else if loads then Opened else LoadFailed
  }

  function AfterNew(p: Process, valid: bool, loads: bool): Process {
    if NewOutcome(p, valid, loads).Opened? then p.(active := true) else p
  }

  /** Close with a native close that succeeds or not. */
  function AfterClose(p: Process, h: Handle, succeeds: bool): (Process, Handle) {
    if h.closed || !h.open then
      if h.ownsSlot && !p.poisoned then (p.(active := false), h.(closed := true, ownsSlot := false))
      else (p, h.(closed := true))
    else if !succeeds then (p.(poisoned := true), h.(open := false, closed := true))
    else if h.ownsSlot then (p.(active := false), Handle(false, true, false))
    else (p, h.(open := false, closed := true))
  }

  // ----- the operations in place

  class Slot {
    var active: bool
    var poisoned: bool

    constructor ()
      ensures View() == Process(false, false)
    {
      active, poisoned := false, false;
    }

    function View(): Process
      reads this
    {
      Process(active, poisoned)
    }

    method New(valid: bool, loads: bool) returns (result: NewResult, client: Client?)
      modifies this
      ensures result == NewOutcome(old(View()), valid, loads) && View() == AfterNew(old(View()), valid, loads)
      ensures result.Opened? <==> client != null
      ensures client != null ==> fresh(client) && client.View() == Handle(true, false, true)
    {
      client := null;
      if !valid { return InvalidConfig, null; }
      if poisoned { return Poisoned, null; }
      if active { return AlreadyOpen, null; }
      active := true;
      if loads {
        client := new Client();
        return Opened, client;
      }
      active := false;
      return LoadFailed, null;
    }
  }

  class Client {
    var open: bool
    var closed: bool
    var ownsSlot: bool

    constructor ()
      ensures View() == Handle(true, false, true)
    {
      open, closed, ownsSlot := true, false, true;
    }

    function View(): Handle
      reads this
    {
      Handle(open, closed, ownsSlot)
    }

    /** Close: `supported` says whether the context can finalize, `succeeds` whether it closes. */
    method Close(process: Slot, supported: bool, succeeds: bool) returns (r: CloseResult)
      modifies this, process
      ensures (process.View(), View()) == AfterClose(old(process.View()), old(View()), succeeds)
      ensures old(closed || !open) ==> r == CloseResult.Closed
      ensures old(!closed && open) ==>
        r == if !succeeds then CloseFailed else if supported then CloseResult.Closed else Unsupported
    {
      if closed || !open {
        closed := true;
        if ownsSlot && !process.poisoned {
          process.active := false;
          ownsSlot := false;
        }
        return CloseResult.Closed;
      }
      r := if supported then CloseResult.Closed else Unsupported;
      if !succeeds {
        process.poisoned := true;
        open := false;
        closed := true;
        return CloseFailed;
      }
      open := false;
      closed := true;
      if ownsSlot {
        process.active := false;
        ownsSlot := false;
      }
    }
  }

  // ----- every run over any number of clients

  datatype State = State(process: Process, clients: map<nat, Handle>)

  datatype Action = New(id: nat, valid: bool, loads: bool) | Close(id: nat, succeeds: bool)

  predicate Enabled(s: State, a: Action) {
    match a case New(id, _, _) => id !in s.clients case Close(id, _) => id in s.clients
  }

  predicate Opens(s: State, a: Action) { a.New? && NewOutcome(s.process, a.valid, a.loads).Opened? }

  function Do(s: State, a: Action): State
    requires Enabled(s, a)
  {
    match a
    case New(id, valid, loads) =>
      State(AfterNew(s.process, valid, loads),
            if Opens(s, a) then s.clients[id := Handle(true, false, true)] else s.clients)
    case Close(id, succeeds) =>
      var (p, h) := AfterClose(s.process, s.clients[id], succeeds);
      State(p, s.clients[id := h])
  }

  function Owners(s: State): set<nat> { set id | id in s.clients && s.clients[id].ownsSlot }

  /** The slot is taken exactly while one client owns it; an open client owns it; poison is left by its owner. */
  ghost predicate Inv(s: State) {
    && (s.process.active <==> Owners(s) != {})
    && (forall i, j :: i in Owners(s) && j in Owners(s) ==> i == j)
    && (s.process.poisoned ==> s.process.active)
    && (forall id :: id in s.clients ==> s.clients[id].closed == !s.clients[id].open)
    && (forall id :: id in s.clients && s.clients[id].open ==> s.clients[id].ownsSlot && !s.process.poisoned)
    && (forall id :: id in s.clients && s.clients[id].ownsSlot && s.clients[id].closed ==> s.process.poisoned)
  }

  lemma NewKeeps(s: State, a: Action)
    requires Inv(s) && Enabled(s, a) && a.New?
    ensures Inv(Do(s, a))
  {
    if Opens(s, a) {
      assert a.id in Owners(Do(s, a));
      assert forall i :: i in Owners(Do(s, a)) ==> i == a.id || i in Owners(s);
    } else {
      assert Owners(Do(s, a)) == Owners(s);
    }
  }

  lemma CloseKeeps(s: State, a: Action)
    requires Inv(s) && Enabled(s, a) && a.Close?
    ensures Inv(Do(s, a))
  {
    var h := s.clients[a.id];
    assert forall id :: id in s.clients && s.clients[id].open ==> id in Owners(s);
    if h.open && a.succeeds {
      assert a.id in Owners(s);
      assert Owners(Do(s, a)) == Owners(s) - {a.id};
    } else {
      assert Owners(Do(s, a)) == Owners(s);
    }
  }

  ghost predicate IsRun(run: seq<State>, steps: seq<Action>) {
    && |run| == |steps| + 1 && run[0] == State(Process(false, false), map[])
    && forall i {:trigger steps[i]} :: 0 <= i < |steps| ==>
      Enabled(run[i], steps[i]) && run[i + 1] == Do(run[i], steps[i])
  }

  lemma {:induction false} RunInv(run: seq<State>, steps: seq<Action>, i: nat)
    requires IsRun(run, steps) && i < |run|
    ensures Inv(run[i])
    decreases i
  {
    if i > 0 {
      RunInv(run, steps, i - 1);
      if steps[i - 1].New? { NewKeeps(run[i - 1], steps[i - 1]); } else { CloseKeeps(run[i - 1], steps[i - 1]); }
    }
  }

  /** In every reachable state at most one client owns the slot, and at most one is open. */
  lemma OneOwner(run: seq<State>, steps: seq<Action>, i: nat, a: nat, b: nat)
    requires IsRun(run, steps) && i < |run| && a in run[i].clients && b in run[i].clients
    ensures run[i].clients[a].ownsSlot && run[i].clients[b].ownsSlot ==> a == b
    ensures run[i].clients[a].open && run[i].clients[b].open ==> a == b
  {
    RunInv(run, steps, i);
    assert run[i].clients[a].ownsSlot ==> a in Owners(run[i]);
    assert run[i].clients[b].ownsSlot ==> b in Owners(run[i]);
  }

  /** While a client is open no New succeeds: between two successful News lies the Close of the first. */
  lemma NoNewWhileOpen(run: seq<State>, steps: seq<Action>, i: nat, j: nat)
    requires IsRun(run, steps) && i < j < |steps| && Opens(run[i], steps[i]) && Opens(run[j], steps[j])
    ensures exists k :: i < k < j && steps[k].Close? && steps[k].id == steps[i].id && steps[k].succeeds
  {
    if forall k :: i < k < j ==> !(steps[k].Close? && steps[k].id == steps[i].id && steps[k].succeeds) {
      StaysActive(run, steps, i, j);
      assert false;
    }
  }

  lemma {:induction false} StaysActive(run: seq<State>, steps: seq<Action>, i: nat, j: nat)
    requires IsRun(run, steps) && i < j < |run| && Opens(run[i], steps[i])
    requires forall k :: i < k < j ==> !(steps[k].Close? && steps[k].id == steps[i].id && steps[k].succeeds)
    ensures steps[i].id in run[j].clients && run[j].clients[steps[i].id].ownsSlot && run[j].process.active
    decreases j
  {
    if j > i + 1 {
      StaysActive(run, steps, i, j - 1);
      KeepsOwner(run[j - 1], steps[j - 1], steps[i].id, run, steps, j - 1);
    }
  }

  lemma KeepsOwner(s: State, a: Action, id: nat, run: seq<State>, steps: seq<Action>, i: nat)
    requires IsRun(run, steps) && i < |steps| && s == run[i] && a == steps[i]
    requires id in s.clients && s.clients[id].ownsSlot && !(a.Close? && a.id == id && a.succeeds)
    ensures var u := Do(s, a); id in u.clients && u.clients[id].ownsSlot && u.process.active
  {
    RunInv(run, steps, i);
    RunInv(run, steps, i + 1);
    assert id in Owners(s);
    if a.Close? && a.id != id {
      assert a.id in Owners(s) ==> a.id == id;
    }
    assert id in Owners(run[i + 1]);
  }

  /** A native close that failed poisons the process. */
  predicate Fails(s: State, a: Action)
    requires Enabled(s, a)
  {
    a.Close? && s.clients[a.id].open && !s.clients[a.id].closed && !a.succeeds
  }

  lemma {:induction false} StaysPoisoned(run: seq<State>, steps: seq<Action>, i: nat, j: nat)
    requires IsRun(run, steps) && i < j < |run| && Fails(run[i], steps[i])
    ensures run[j].process.poisoned
    decreases j
  {
    if j > i + 1 {
      StaysPoisoned(run, steps, i, j - 1);
      var s, a := run[j - 1], steps[j - 1];
      assert run[j] == Do(s, a);
    }
  }

  /** After a failed native close no New ever succeeds again. */
  lemma NoNewAfterFailure(run: seq<State>, steps: seq<Action>, i: nat, j: nat)
    requires IsRun(run, steps) && i < j < |steps| && Fails(run[i], steps[i])
    ensures !Opens(run[j], steps[j])
  {
    StaysPoisoned(run, steps, i, j);
  }
}
