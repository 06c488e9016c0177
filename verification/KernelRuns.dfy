/** Runs of the kernel: any sequence of calls, interrupts, system-task operations and calls of schedule by the clock,
    from any consistent state. */
module KernelRuns {
  import opened Lists
  import opened KernelState
  import opened KernelInvariants
  import opened KernelSteps
  import opened KernelLinks

  datatype Event =
    | Call(kind: CallKind, src: Source, m: Message)
    | Interrupted(t: nat, busy: bool)
    | Unheld
    | ExecReleased(p: nat)
    | Mapped(p: nat)
    | Forked(parent: nat, child: nat)
    | Exited(child: nat)
    | Scheduled

  /** What the source demands of whoever causes the event. Those from ExecReleased to Exited are requests the running
      system task serves: exec for a process that waits for the memory manager's reply, fork into a vacant slot of a
      process whose request has been received and on which nobody is queued, exit of a process on which nobody is
      queued. */
  ghost predicate Allowed(s: Sys, e: Event)
  {
    match e
    case Call(kind, src, m) => CallAllowed(s, kind, src)
    case Interrupted(t, busy) => t < |s.procs| && s.procs[t].priority == Task
    case Unheld => s.held != []
    case ExecReleased(p) =>
      s.curr == s.SysTask() && p < |s.procs| && s.procs[p].priority == User && s.procs[p].receiving
    case Mapped(p) => s.curr == s.SysTask() && p < |s.procs|
    case Forked(parent, child) =>
      && s.curr == s.SysTask() && parent < |s.procs| && child < |s.procs|
      && s.procs[child].priority == Vacant && s.procs[parent].priority == User
      && !s.procs[parent].sending && s.queues[parent] == []
    case Exited(child) =>
      && s.curr == s.SysTask() && child < |s.procs|
      && s.procs[child].priority == User && s.queues[child] == []
    case Scheduled => true
  }

  ghost function Step(s: Sys, e: Event): (r: Sys)
    requires Allowed(s, e)
    ensures r.SameTable(s)
  {
    match e
    case Call(kind, src, m) => SysCall(s, kind, src, m).0
    case Interrupted(t, busy) => Interrupt(s, t, busy)
    case Unheld => Unhold(s)
    case ExecReleased(p) => ExecRelease(s, p)
    case Mapped(p) => NewMap(s, p)
    case Forked(parent, child) => Fork(s, parent, child)
    case Exited(child) => Exit(s, child)
    case Scheduled => Schedule(s)
  }

  /** Each event is allowed in the state the earlier ones lead to. */
  ghost predicate Legal(s: Sys, run: seq<Event>)
    decreases |run|
  {
    run == [] || (Allowed(s, run[0]) && Legal(Step(s, run[0]), run[1..]))
  }

  ghost function After(s: Sys, run: seq<Event>): (r: Sys)
    requires Legal(s, run)
    ensures r.SameTable(s)
    decreases |run|
  {
    if run == [] then s else After(Step(s, run[0]), run[1..])
  }

  // ---------------------------------------------------------------- invariance

  lemma StepKeepsInv(s: Sys, e: Event)
    requires Inv(s) && Allowed(s, e)
    ensures Inv(Step(s, e))
  {
    assert RoleOf(s.nrTasks, s.procs[s.curr], s.queues[s.curr], s.curr);
    match e
    case Call(kind, src, m) => SysCallKeepsInv(s, kind, src, m);
    case Interrupted(t, busy) => InterruptKeepsInv(s, t, busy);
    case Unheld => UnholdKeepsInv(s);
    case ExecReleased(p) => ReleaseKeepsInv(s, p, s.procs[p].(receiving := false));
    case Mapped(p) => NewMapKeepsInv(s, p);
    case Forked(parent, child) => ForkKeepsInv(s, parent, child);
    case Exited(child) => ExitKeepsInv(s, child);
    case Scheduled => ScheduleKeepsInv(s);
  }

  /** Every state of every run satisfies all the invariants. */
  lemma {:induction false} RunKeepsInv(s: Sys, run: seq<Event>)
    requires Inv(s) && Legal(s, run)
    ensures Inv(After(s, run))
    decreases |run|
  {
    if run != [] {
      StepKeepsInv(s, run[0]);
      RunKeepsInv(Step(s, run[0]), run[1..]);
    }
  }

  // ---------------------------------------------------------------- the boot state

  function BootPriority(nrTasks: nat, p: nat): Priority {
    if p == nrTasks - 3 then Idle
    else if p < nrTasks then Task
    else if p < nrTasks + NR_SERVERS then Server
    else if p == nrTasks + NR_SERVERS then User
    else Vacant
  }

  function BootProc(nrTasks: nat, p: nat): Proc {
    Proc(BootPriority(nrTasks, p), false, false, false, false, false, Any, 0, Message(0, 0, 0))
  }

  /** The slots from a up to but excluding b that are scheduled. */
  ghost function BootList(nrTasks: nat, a: nat, b: nat): (r: seq<nat>)
    requires a <= b
    ensures Distinct(r) && Slots(r, b) && forall p :: p in r <==> a <= p < b && p != nrTasks - 3 && p != nrTasks - 1
    decreases b - a
  {
    if a == b then [] else
      var rest := BootList(nrTasks, a, b - 1);
      if b - 1 == nrTasks - 3 || b - 1 == nrTasks - 1 then rest
      else
        assert forall i :: 0 <= i < |rest| ==> rest[i] in rest;
        rest + [b - 1]
  }

  /** The ready lists once slots 0 .. t-1 have been looked at. */
  ghost function BootReady(nrTasks: nat, t: nat): (r: seq<seq<nat>>)
    ensures |r| == 3
  {
    [BootList(nrTasks, 0, if t < nrTasks then t else nrTasks),
     BootList(nrTasks, nrTasks,
              if t < nrTasks then nrTasks else if t < nrTasks + NR_SERVERS then t else nrTasks + NR_SERVERS),
     if t <= nrTasks + NR_SERVERS then [] else [nrTasks + NR_SERVERS]]
  }

  /** The state the kernel hands to the first process: nobody blocked, every task and server and ORIGIN ready. */
  ghost function Boot(nrTasks: nat, nrProcs: nat): Sys
    requires 3 <= nrTasks && NR_SERVERS < nrProcs <= ANY
  {
    var ready := BootReady(nrTasks, nrTasks + NR_SERVERS + 1);
    assert nrTasks + NR_SERVERS in ready[2];
    BootTable(nrTasks, nrProcs, nrTasks + NR_SERVERS + 1, Hunter(nrTasks, ready))
  }

  ghost function BootTable(nrTasks: nat, nrProcs: nat, t: nat, curr: nat): Sys
    requires 3 <= nrTasks && NR_SERVERS < nrProcs <= ANY && curr < nrTasks + nrProcs
  {
    var n := nrTasks + nrProcs;
    Table(nrTasks, seq(n, p requires 0 <= p < n => BootProc(nrTasks, p)), seq(n, p => []), BootReady(nrTasks, t),
          curr, [], {}, map[], map[], seq(n, p => 0))
  }

  lemma EmptyRepresents(nrTasks: nat, nrProcs: nat, procs: seq<Process>, head: seq<Link>, tail: seq<Link>)
    requires 3 <= nrTasks && NR_SERVERS < nrProcs <= ANY && |procs| == nrTasks + nrProcs
    requires head == tail == [NIL, NIL, NIL]
    requires forall p :: 0 <= p < |procs| ==> procs[p] == Process(BootProc(nrTasks, p), NIL, NIL, NIL, NIL)
    ensures Represents(procs, head, tail, NIL, NIL, BootTable(nrTasks, nrProcs, 0, nrTasks - 3))
  {
  }

  lemma BootListsApart(nrTasks: nat, t: nat)
    requires 3 <= nrTasks && t <= nrTasks + NR_SERVERS
    ensures Apart(BootReady(nrTasks, t)) && Outside(BootReady(nrTasks, t), t)
  {
  }

  lemma BootReadyTurn(nrTasks: nat, t: nat, c: nat)
    requires 3 <= nrTasks && t <= nrTasks + NR_SERVERS && c == ListOf(BootPriority(nrTasks, t))
    ensures var ready := BootReady(nrTasks, t);
            BootReady(nrTasks, t + 1)
            == if t == nrTasks - 3 || t == nrTasks - 1 then ready else ready[c := ready[c] + [t]]
  {
    var ready := BootReady(nrTasks, t);
    var ready1 := if t == nrTasks - 3 || t == nrTasks - 1 then ready else ready[c := ready[c] + [t]];
    forall k | 0 <= k < 3
      ensures BootReady(nrTasks, t + 1)[k] == ready1[k]
    {
    }
  }

  /** Each slot but IDLE and HARDWARE is made ready in turn. */
  lemma BootTurn(nrTasks: nat, nrProcs: nat, t: nat, curr: nat)
    requires 3 <= nrTasks && NR_SERVERS < nrProcs <= ANY && t <= nrTasks + NR_SERVERS && curr < nrTasks + nrProcs
    ensures var s := BootTable(nrTasks, nrProcs, t, curr);
            && Apart(s.ready) && Outside(s.ready, t)
            && (if t == nrTasks - 3 || t == nrTasks - 1 then s == BootTable(nrTasks, nrProcs, t + 1, curr)
                else Ready(s, t) == BootTable(nrTasks, nrProcs, t + 1, Ready(s, t).curr))
  {
    var c := ListOf(BootPriority(nrTasks, t));
    BootListsApart(nrTasks, t);
    BootReadyTurn(nrTasks, t, c);
    var s := BootTable(nrTasks, nrProcs, t, curr);
    assert s.procs[t] == BootProc(nrTasks, t);
    if c == 2 {
      assert s.ready[2] == [] && [t] + s.ready[2] == s.ready[2] + [t];
    }
  }

  lemma BootIsConsistent(nrTasks: nat, nrProcs: nat)
    requires 3 <= nrTasks && NR_SERVERS < nrProcs <= ANY
    ensures Inv(Boot(nrTasks, nrProcs))
  {
    var s := Boot(nrTasks, nrProcs);
    assert Ranks(s.procs, seq(|s.procs|, p => 0));
    forall p: nat, c: nat | p < |s.procs| && c < 3
      ensures p in s.ready[c] <==> Belongs(nrTasks, s.procs[p], p, c)
    {
    }
    forall c | 0 <= c < 3
      ensures Slots(s.ready[c], |s.procs|)
    {
      forall i | 0 <= i < |s.ready[c]|
        ensures s.ready[c][i] < |s.procs|
      {
        assert s.ready[c][i] in s.ready[c];
      }
    }
    HunterFindsHead(nrTasks, s.procs, s.queues, s.ready, {}, |s.procs|);
    forall p: nat, d: nat
      ensures HistoryAt(s.procs, s.sent, s.got, p, d)
    {
    }
  }

  // ---------------------------------------------------------------- deadlock

  lemma ChainToFirst(procs: seq<Proc>, path: seq<nat>, p: nat) returns (short: seq<nat>)
    requires Chain(procs, path) && path[|path| - 1] == p
    ensures Chain(procs, short) && short[0] == path[0] && short[|short| - 1] == p
    ensures forall i :: 0 <= i < |short| - 1 ==> short[i] != p
  {
    if path[0] == p {
      short := [p];
    } else {
      short := ChainToFirst(procs, path[1..], p);
      short := [path[0]] + short;
    }
  }

  /** A send is refused as a deadlock exactly when blocking the sender would close a cycle of blocked senders. */
  lemma LockedExactlyOnCycle(s: Sys, d: nat)
    requires Inv(s) && s.curr != s.IdleTask() && d < |s.procs| && d != s.curr
    requires s.procs[d].priority != Vacant && (s.procs[s.curr].priority == User ==> IsServer(s.nrTasks, d))
    ensures SendMessage(s, s.curr, d).1 == Locked
            <==> !Acyclic(s.procs[s.curr := s.procs[s.curr].(sending := true, sendTo := d)])
  {
    var p := s.curr;
    var q := s.procs[p].(sending := true, sendTo := d);
    var procs := s.procs[p := q];
    CurrIsActive(s);
    if Reaches(s.procs, d, p) {
      var path :| Chain(s.procs, path) && path[0] == d && path[|path| - 1] == p;
      var short := ChainToFirst(s.procs, path, p);
      assert Chain(procs, [p] + short);
      if Acyclic(procs) {
        AcyclicHasNoCycle(procs, [p] + short);
      }
    } else {
      BlockingKeepsAcyclic(s.procs, p, d, q);
    }
  }

  // ---------------------------------------------------------------- messages over a run

  /** The messages from p to d that event e, in state s, makes the kernel accept. */
  ghost function Accepted(s: Sys, e: Event, p: nat, d: nat): seq<Message>
    requires Allowed(s, e)
  {
    if e.Call? && s.curr == p && e.kind != Receive && e.src == From(d) && SysCall(s, e.kind, e.src, e.m).1 == Ok
    then [e.m.(source := p)] else []
  }

  ghost function AcceptedOver(s: Sys, run: seq<Event>, p: nat, d: nat): seq<Message>
    requires Legal(s, run)
    decreases |run|
  {
    if run == [] then [] else Accepted(s, run[0], p, d) + AcceptedOver(Step(s, run[0]), run[1..], p, d)
  }

  lemma ReceiveKeepsSent(s: Sys, p: nat, src: Source)
    requires p < |s.procs|
    ensures ReceiveMessage(s, p, src).sent == s.sent
  {
  }

  lemma SendRecordsSent(s: Sys, p: nat, d: nat, x: nat, y: nat)
    requires p < |s.procs| && d < |s.procs|
    ensures var (r, status) := SendMessage(s, p, d);
            Log(r.sent, x, y) == Log(s.sent, x, y) + (if status == Ok && x == p && y == d then [s.procs[p].buf] else [])
  {
  }

  /** A send or SEND_REC to d0 by the running process, with the message in its buffer. */
  lemma TransmitRecordsSent(s: Sys, kind: CallKind, d0: nat, p: nat, d: nat)
    requires d0 < |s.procs|
    ensures var (s1, status) := SendMessage(s, s.curr, d0);
            var r := if kind == Send || status != Ok then s1 else ReceiveMessage(s1, s.curr, From(d0));
            Log(r.sent, p, d)
            == Log(s.sent, p, d) + (if status == Ok && p == s.curr && d == d0 then [s.procs[s.curr].buf] else [])
  {
    SendRecordsSent(s, s.curr, d0, p, d);
    ReceiveKeepsSent(SendMessage(s, s.curr, d0).0, s.curr, From(d0));
  }

  lemma NothingAdded(a: seq<Message>)
    ensures a + [] == a
  {
  }

  lemma CallRecordsSent(s: Sys, kind: CallKind, src: Source, m: Message, p: nat, d: nat)
    requires CallAllowed(s, kind, src)
    ensures Log(SysCall(s, kind, src, m).0.sent, p, d)
            == Log(s.sent, p, d) + Accepted(s, Call(kind, src, m), p, d)
  {
    var s0 := FillBuffer(s, kind, m);
    NothingAdded(Log(s.sent, p, d));
    if s.procs[s.curr].priority == User && kind != SendRec {
    } else if kind == Receive {
      ReceiveKeepsSent(s0, s.curr, src);
    } else if src != Any {
      TransmitRecordsSent(s0, kind, src.p, p, d);
    }
  }

  lemma {:induction false} UnholdKeepsMessages(s: Sys)
    ensures Unhold(s).sent == s.sent && Unhold(s).got == s.got
    decreases |s.held|
  {
    if s.held != [] {
      UnholdKeepsMessages(Interrupt(PopHeld(s), s.held[0], false));
    }
  }

  lemma ExitRecordsNothing(s: Sys, child: nat, p: nat, d: nat)
    requires child < |s.procs| && child != p
    ensures Log(Exit(s, child).sent, p, d) == Log(s.sent, p, d)
  {
  }

  lemma StepRecordsSent(s: Sys, e: Event, p: nat, d: nat)
    requires Allowed(s, e) && e != Exited(p)
    ensures Log(Step(s, e).sent, p, d) == Log(s.sent, p, d) + Accepted(s, e, p, d)
  {
    NothingAdded(Log(s.sent, p, d));
    match e
    case Call(kind, src, m) => CallRecordsSent(s, kind, src, m, p, d);
    case Unheld => UnholdKeepsMessages(s);
    case Exited(child) => ExitRecordsNothing(s, child, p, d);
    case _ =>
  }

  lemma AppendIsAssociative(a: seq<Message>, b: seq<Message>, c: seq<Message>)
    ensures a + b + c == a + (b + c)
  {
  }

  lemma {:induction false} RunRecordsSent(s: Sys, run: seq<Event>, p: nat, d: nat)
    requires Inv(s) && Legal(s, run) && Exited(p) !in run
    ensures Log(After(s, run).sent, p, d) == Log(s.sent, p, d) + AcceptedOver(s, run, p, d)
    decreases |run|
  {
    if run != [] {
      var s1 := Step(s, run[0]);
      var now := Accepted(s, run[0], p, d);
      StepRecordsSent(s, run[0], p, d);
      StepKeepsInv(s, run[0]);
      RunRecordsSent(s1, run[1..], p, d);
      AppendIsAssociative(Log(s.sent, p, d), now, AcceptedOver(s1, run[1..], p, d));
    }
  }

  /** Over any run from boot in which p does not exit, what d has received from p is what p sent to d, in order and
      unaltered, except for at most one message, which p is still blocked on and still holds intact. */
  lemma {:induction false} ReceivedIsPrefixOfSent(nrTasks: nat, nrProcs: nat, run: seq<Event>, p: nat, d: nat)
    requires 3 <= nrTasks && NR_SERVERS < nrProcs <= ANY
    requires Legal(Boot(nrTasks, nrProcs), run) && Exited(p) !in run
    ensures var s := After(Boot(nrTasks, nrProcs), run);
            AcceptedOver(Boot(nrTasks, nrProcs), run, p, d) == Log(s.got, p, d) + Pending(s.procs, p, d)
  {
    var s0 := Boot(nrTasks, nrProcs);
    var s := After(s0, run);
    BootIsConsistent(nrTasks, nrProcs);
    RunKeepsInv(s0, run);
    RunRecordsSent(s0, run, p, d);
    assert HistoryAt(s.procs, s.sent, s.got, p, d);
  }

  /** A message counts as received only when it lies in the receiver's buffer. */
  ghost predicate Arrived(s: Sys, r: Sys, p: nat, d: nat)
    requires r.SameTable(s)
  {
    || Log(r.got, p, d) == Log(s.got, p, d)
    || (d < |r.procs| && Log(r.got, p, d) == Log(s.got, p, d) + [r.procs[d].buf])
  }

  lemma SendArrives(s: Sys, p: nat, d: nat, x: nat, y: nat)
    requires p < |s.procs| && d < |s.procs|
    ensures Arrived(s, SendMessage(s, p, d).0, x, y)
  {
  }

  lemma ReceiveArrives(s: Sys, p: nat, src: Source, x: nat, y: nat)
    requires Inv(s) && p < |s.procs|
    ensures Arrived(s, ReceiveMessage(s, p, src), x, y)
  {
    if !s.procs[p].sending {
      var k := FirstMatch(s.queues[p], src);
      if k < |s.queues[p]| {
        assert Slots(s.queues[p], |s.procs|);
        assert s.queues[p][k] in s.queues[p];
      }
    }
  }

  /** Nobody who accepted a message from p can be queued on p. */
  lemma DeliveryFindsNothing(s: Sys, p: nat, d: nat)
    requires IpcOk(s) && p < |s.procs| && d < |s.procs| && d != p && !s.procs[p].sending && s.procs[d].Accepts(p)
    ensures var r := Deliver(s, p, d); ReceiveMessage(r, p, From(d)) == BlockReceiver(r, p, From(d))
  {
    var r := Deliver(s, p, d);
    assert r.queues == s.queues && d !in s.queues[p] && !r.procs[p].sending;
    assert FirstMatch(r.queues[p], From(d)) == |r.queues[p]|;
    assert RoleOf(s.nrTasks, s.procs[d], s.queues[d], d);
  }

  /** After a successful send to src.p the same call finds nothing to receive from src.p: it can only block. */
  lemma SendRecBlocks(s: Sys, d: nat)
    requires Inv(s) && s.curr != s.IdleTask() && d < |s.procs| && d != s.curr
    requires SendMessage(s, s.curr, d).1 == Ok
    ensures var r := SendMessage(s, s.curr, d).0;
            ReceiveMessage(r, s.curr, From(d)) == BlockReceiver(r, s.curr, From(d))
  {
    CurrIsActive(s);
    if s.procs[d].Accepts(s.curr) {
      DeliveryFindsNothing(s, s.curr, d);
    }
  }

  lemma SendRecArrives(s: Sys, e: nat, p: nat, d: nat)
    requires Inv(s) && s.curr != s.IdleTask() && e < |s.procs| && e != s.curr && SendMessage(s, s.curr, e).1 == Ok
    ensures Arrived(s, ReceiveMessage(SendMessage(s, s.curr, e).0, s.curr, From(e)), p, d)
  {
    SendArrives(s, s.curr, e, p, d);
    SendRecBlocks(s, e);
  }

  lemma CallArrives(s: Sys, kind: CallKind, src: Source, m: Message, p: nat, d: nat)
    requires Inv(s) && CallAllowed(s, kind, src)
    ensures Arrived(s, SysCall(s, kind, src, m).0, p, d)
  {
    var c := s.curr;
    var s0 := FillBuffer(s, kind, m);
    FillBufferKeepsInv(s, kind, m);
    if s.procs[c].priority == User && kind != SendRec {
    } else if kind == Receive {
      ReceiveArrives(s0, c, src, p, d);
    } else if src != Any {
      if kind == SendRec && SendMessage(s0, c, src.p).1 == Ok {
        SendRecArrives(s0, src.p, p, d);
      } else {
        SendArrives(s0, c, src.p, p, d);
      }
    }
  }

  lemma StepArrives(s: Sys, e: Event, p: nat, d: nat)
    requires Inv(s) && Allowed(s, e)
    ensures Arrived(s, Step(s, e), p, d)
  {
    match e
    case Call(kind, src, m) => CallArrives(s, kind, src, m, p, d);
    case Unheld => UnholdKeepsMessages(s);
    case _ =>
  }

  // ---------------------------------------------------------------- interrupts over a run

  /** A hardware interrupt for t has been raised and its message not yet received. */
  ghost predicate Owed(s: Sys, t: nat)
  {
    t < |s.procs| && (t in s.held || s.procs[t].intBlocked)
  }

  /** Between s and r no interrupt owed to t was dropped: it is still owed, or t got a hardware message. */
  ghost predicate NotDropped(s: Sys, r: Sys, t: nat)
    requires r.SameTable(s)
  {
    && (t < |s.procs| ==> s.hardInts[t] <= r.hardInts[t])
    && (Owed(s, t) ==> Owed(r, t) || s.hardInts[t] < r.hardInts[t])
  }

  lemma InterruptIsOwed(s: Sys, t: nat, busy: bool)
    requires Inv(s) && t < |s.procs|
    ensures var r := Interrupt(s, t, busy); Owed(r, t) || r.hardInts[t] == s.hardInts[t] + 1
  {
  }

  lemma InterruptDropsNone(s: Sys, u: nat, busy: bool, t: nat)
    requires u < |s.procs|
    ensures NotDropped(s, Interrupt(s, u, busy), t)
  {
  }

  /** Taking the head off the held list drops nothing once the interrupt itself is repeated. */
  lemma UnholdOneDropsNone(s: Sys, t: nat)
    requires Inv(s) && s.held != []
    ensures s.held[0] < |s.procs| && NotDropped(s, Interrupt(PopHeld(s), s.held[0], false), t)
  {
    UnholdTurn(s);
    var u := s.held[0];
    InterruptIsOwed(PopHeld(s), u, false);
    if t != u && t in s.held {
      assert t in s.held[1..];
    }
  }

  lemma {:induction false} UnholdDropsNone(s: Sys, t: nat)
    requires Inv(s)
    ensures NotDropped(s, Unhold(s), t)
    decreases |s.held|
  {
    if s.held != [] {
      UnholdTurn(s);
      UnholdOneDropsNone(s, t);
      UnholdDropsNone(Interrupt(PopHeld(s), s.held[0], false), t);
    }
  }

  lemma ReceiveDropsNone(s: Sys, p: nat, src: Source, t: nat)
    requires p < |s.procs|
    ensures NotDropped(s, ReceiveMessage(s, p, src), t)
  {
  }

  lemma SendDropsNone(s: Sys, p: nat, d: nat, t: nat)
    requires p < |s.procs| && d < |s.procs|
    ensures NotDropped(s, SendMessage(s, p, d).0, t)
  {
  }

  lemma CallDropsNone(s: Sys, kind: CallKind, src: Source, m: Message, t: nat)
    requires CallAllowed(s, kind, src)
    ensures NotDropped(s, SysCall(s, kind, src, m).0, t)
  {
    var c := s.curr;
    var s0 := FillBuffer(s, kind, m);
    if kind == Receive {
      ReceiveDropsNone(s0, c, src, t);
    } else if src != Any {
      SendDropsNone(s0, c, src.p, t);
      ReceiveDropsNone(SendMessage(s0, c, src.p).0, c, src, t);
    }
  }

  lemma StepDropsNone(s: Sys, e: Event, t: nat)
    requires Inv(s) && Allowed(s, e)
    ensures NotDropped(s, Step(s, e), t)
  {
    match e
    case Call(kind, src, m) => CallDropsNone(s, kind, src, m, t);
    case Interrupted(u, busy) => InterruptDropsNone(s, u, busy, t);
    case Unheld => UnholdDropsNone(s, t);
    case Forked(parent, child) => assert RoleOf(s.nrTasks, s.procs[child], s.queues[child], child);
    case _ =>
  }

  lemma {:induction false} RunDropsNone(s: Sys, run: seq<Event>, t: nat)
    requires Inv(s) && Legal(s, run)
    ensures NotDropped(s, After(s, run), t)
    decreases |run|
  {
    if run != [] {
      StepDropsNone(s, run[0], t);
      StepKeepsInv(s, run[0]);
      RunDropsNone(Step(s, run[0]), run[1..], t);
    }
  }

  /** Whatever happens after a hardware interrupt for t, it is still owed at the end or t has got its message. */
  lemma {:induction false} NoInterruptIsLost(s: Sys, t: nat, busy: bool, run: seq<Event>)
    requires Inv(s) && Legal(s, [Interrupted(t, busy)] + run)
    ensures var r := After(s, [Interrupted(t, busy)] + run); Owed(r, t) || s.hardInts[t] < r.hardInts[t]
  {
    var all := [Interrupted(t, busy)] + run;
    assert all[1..] == run;
    var s1 := Step(s, all[0]);
    InterruptIsOwed(s, t, busy);
    StepKeepsInv(s, all[0]);
    StepDropsNone(s, all[0], t);
    RunDropsNone(s1, run, t);
  }
}
