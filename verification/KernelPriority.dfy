/** When strict priority is lost, step by step. */
module KernelPriority {
  import opened Lists
  import opened KernelState
  import opened KernelInvariants
  import opened KernelSteps
  import opened KernelRuns
  import opened KernelLinks
  import opened KernelTheorems

  /** A server runs although a task is ready. */
  ghost predicate Overtaken(s: Sys) {
    ListOf(s.procs[s.curr].priority) == 1 && s.ready[0] != []
  }

  /** The lists hold processes of their own class only, and IDLE is of no class with a list of its own. */
  ghost predicate Classed(s: Sys) {
    && ListOf(s.procs[s.nrTasks - 3].priority) == 2
    && forall c, i :: 0 <= c < 3 && 0 <= i < |s.ready[c]| ==>
         s.ready[c][i] < |s.procs| && ListOf(s.procs[s.ready[c][i]].priority) == c
  }

  /** From s to r a server comes onto the empty server list while a task is, and stays, ready. */
  ghost predicate FirstServerComes(s: Sys, r: Sys) {
    s.ready[1] == [] && r.ready[1] != [] && r.ready[0] != []
  }

  lemma ConsistentIsClassed(s: Sys)
    requires Inv(s)
    ensures Classed(s) && (StrictPriority(s) <==> !Overtaken(s))
  {
    IdleHasItsRole(s);
    RunQueuesByClass(s.nrTasks, s.procs, s.ready, s.lost);
    forall c, i | 0 <= c < 3 && 0 <= i < |s.ready[c]|
      ensures s.ready[c][i] < |s.procs| && ListOf(s.procs[s.ready[c][i]].priority) == c
    {
      assert s.ready[c][i] in s.ready[c];
    }
    assert RoleOf(s.nrTasks, s.procs[s.curr], s.queues[s.curr], s.curr);
  }

  lemma ReadyOvertakes(s: Sys, p: nat)
    requires StrictPriority(s) && Classed(s) && p < |s.procs|
    ensures Overtaken(Ready(s, p)) <==> FirstServerComes(s, Ready(s, p))
  {
  }

  /** The current process leaves its list, perhaps after it has made d ready. */
  lemma UnreadyOvertakes(s: Sys, s1: Sys, d: nat)
    requires StrictPriority(s) && Classed(s) && d < |s.procs| && d != s.curr
    requires var c := ListOf(s.procs[s.curr].priority); s.ready[c] != [] && s.ready[c][0] == s.curr
    requires s1 == s || s1 == Ready(s, d)
    ensures Overtaken(Unready(s1, s.curr)) <==> FirstServerComes(s, Unready(s1, s.curr))
  {
  }

  lemma UnreadyUserOvertakes(s: Sys, p: nat)
    requires StrictPriority(s) && Classed(s) && p < |s.procs| && ListOf(s.procs[p].priority) == 2
    ensures Overtaken(Unready(s, p)) <==> FirstServerComes(s, Unready(s, p))
  {
  }

  // ---------------------------------------------------------------- calls

  lemma DeliverOvertakes(s: Sys, p: nat, d: nat)
    requires StrictPriority(s) && Classed(s) && p < |s.procs| && d < |s.procs|
    ensures Overtaken(Deliver(s, p, d)) <==> FirstServerComes(s, Deliver(s, p, d))
  {
    var m := s.procs[p].buf;
    var s1 := s.(procs := s.procs[d := s.procs[d].(buf := m, receiving := false)],
                 sent := Append(s.sent, p, d, m), got := Append(s.got, p, d, m));
    ReadyOvertakes(s1, d);
  }

  lemma TakeOvertakes(s: Sys, p: nat, k: nat)
    requires StrictPriority(s) && Classed(s) && p < |s.procs| && k < |s.queues[p]| && s.queues[p][k] < |s.procs|
    ensures Overtaken(TakeMessage(s, p, k)) <==> FirstServerComes(s, TakeMessage(s, p, k))
  {
    var q := s.queues[p][k];
    var m := s.procs[q].buf;
    var procs := s.procs[p := s.procs[p].(buf := m)];
    var s1 := s.(procs := procs[q := procs[q].(sending := false)], queues := s.queues[p := RemoveAt(s.queues[p], k)],
                 got := Append(s.got, q, p, m));
    assert Classed(s1);
    ReadyOvertakes(s1, q);
  }

  /** The current process is listed, as the head of its list. */
  ghost predicate Current(s: Sys) {
    var c := ListOf(s.procs[s.curr].priority); s.ready[c] != [] && s.ready[c][0] == s.curr
  }

  lemma BlockSenderOvertakes(s: Sys, d: nat)
    requires StrictPriority(s) && Classed(s) && Current(s) && d < |s.procs| && d != s.curr
    ensures Overtaken(BlockSender(s, s.curr, d)) <==> FirstServerComes(s, BlockSender(s, s.curr, d))
  {
    UnreadyOvertakes(s, s, d);
  }

  lemma BlockReceiverOvertakes(s: Sys, src: Source, d: nat)
    requires StrictPriority(s) && Classed(s) && Current(s) && d < |s.procs| && d != s.curr
    ensures Overtaken(BlockReceiver(s, s.curr, src)) <==> FirstServerComes(s, BlockReceiver(s, s.curr, src))
  {
    UnreadyOvertakes(s, s, d);
  }

  /** The same after d has received the message of the current process. */
  lemma BlockAfterDelivery(s: Sys, src: Source, d: nat)
    requires StrictPriority(s) && Classed(s) && Current(s) && d < |s.procs| && d != s.curr
    ensures var r := BlockReceiver(Deliver(s, s.curr, d), s.curr, src); Overtaken(r) <==> FirstServerComes(s, r)
  {
    var m := s.procs[s.curr].buf;
    var s1 := s.(procs := s.procs[d := s.procs[d].(buf := m, receiving := false)],
                 sent := Append(s.sent, s.curr, d, m), got := Append(s.got, s.curr, d, m));
    assert Classed(s1) && Current(s1);
    DeliverOvertakes(s, s.curr, d);
    UnreadyOvertakes(s1, Deliver(s, s.curr, d), d);
  }

  lemma SendOvertakes(s: Sys, d: nat)
    requires StrictPriority(s) && Classed(s) && Current(s) && d < |s.procs| && d != s.curr
    ensures var r := SendMessage(s, s.curr, d).0; Overtaken(r) <==> FirstServerComes(s, r)
  {
    DeliverOvertakes(s, s.curr, d);
    BlockSenderOvertakes(s, d);
  }

  lemma ReceiveOvertakes(s: Sys, src: Source, d: nat)
    requires StrictPriority(s) && Classed(s) && Current(s) && d < |s.procs| && d != s.curr
    ensures var r := ReceiveMessage(s, s.curr, src); Overtaken(r) <==> FirstServerComes(s, r)
  {
    var k := FirstMatch(s.queues[s.curr], src);
    if k < |s.queues[s.curr]| {
      assert Slots(s.queues[s.curr], |s.procs|);
      TakeOvertakes(s, s.curr, k);
    }
    BlockReceiverOvertakes(s, src, d);
  }

  /** SEND_REC blocks: after a delivery, or because the sending half has blocked already. */
  lemma SendRecOvertakes(s: Sys, d: nat)
    requires Inv(s) && StrictPriority(s) && Classed(s) && Current(s) && s.curr != s.IdleTask()
    requires d < |s.procs| && d != s.curr && SendMessage(s, s.curr, d).1 == Ok
    ensures var r := ReceiveMessage(SendMessage(s, s.curr, d).0, s.curr, From(d));
            Overtaken(r) <==> FirstServerComes(s, r)
  {
    SendRecBlocks(s, d);
    if s.procs[d].Accepts(s.curr) {
      BlockAfterDelivery(s, From(d), d);
    } else {
      BlockSenderOvertakes(s, d);
      BlockedTwice(s, d);
    }
  }

  /** A process that is already blocked is on no list. */
  lemma BlockedTwice(s: Sys, d: nat)
    requires d < |s.procs| && d != s.curr
    ensures var b := BlockSender(s, s.curr, d);
            var r := BlockReceiver(b, s.curr, From(d));
            r.ready == b.ready && r.curr == b.curr && |r.procs| == |b.procs|
            && forall p :: 0 <= p < |r.procs| ==> r.procs[p].priority == b.procs[p].priority
  {
  }

  lemma FilledIsCurrent(s: Sys, kind: CallKind, m: Message)
    requires Inv(s) && StrictPriority(s) && s.curr != s.IdleTask()
    ensures var s0 := FillBuffer(s, kind, m);
            Inv(s0) && StrictPriority(s0) && Classed(s0) && Current(s0) && !Overtaken(s) && !FirstServerComes(s, s)
  {
    FillBufferKeepsInv(s, kind, m);
    ConsistentIsClassed(s);
    ConsistentIsClassed(FillBuffer(s, kind, m));
  }

  lemma TransmitOvertakes(s: Sys, kind: CallKind, d: nat)
    requires Inv(s) && StrictPriority(s) && Classed(s) && Current(s) && s.curr != s.IdleTask()
    requires d < |s.procs| && d != s.curr
    ensures var (s1, status) := SendMessage(s, s.curr, d);
            var r := if kind == Send || status != Ok then s1 else ReceiveMessage(s1, s.curr, From(d));
            Overtaken(r) <==> FirstServerComes(s, r)
  {
    SendOvertakes(s, d);
    if SendMessage(s, s.curr, d).1 == Ok {
      SendRecOvertakes(s, d);
    }
  }

  lemma CallOvertakes(s: Sys, kind: CallKind, src: Source, m: Message)
    requires Inv(s) && StrictPriority(s) && CallAllowed(s, kind, src)
    ensures var r := SysCall(s, kind, src, m).0; Overtaken(r) <==> FirstServerComes(s, r)
  {
    var s0 := FillBuffer(s, kind, m);
    FilledIsCurrent(s, kind, m);
    if s.procs[s.curr].priority == User && kind != SendRec {
    } else if kind == Receive {
      ReceiveOvertakes(s0, src, s.nrTasks - 3);
    } else if src != Any {
      TransmitOvertakes(s0, kind, src.p);
    }
  }

  // ---------------------------------------------------------------- interrupts

  lemma InterruptKeepsPriority(s: Sys, t: nat, busy: bool)
    requires StrictPriority(s) && Classed(s) && t < |s.procs| && s.procs[t].priority == Task
    ensures StrictPriority(Interrupt(s, t, busy)) && Interrupt(s, t, busy).ready[1] == s.ready[1]
  {
  }

  lemma {:induction false} UnholdKeepsPriority(s: Sys)
    requires Inv(s) && StrictPriority(s)
    ensures StrictPriority(Unhold(s)) && Unhold(s).ready[1] == s.ready[1]
    decreases |s.held|
  {
    if s.held != [] {
      UnholdTurn(s);
      ConsistentIsClassed(PopHeld(s));
      InterruptKeepsPriority(PopHeld(s), s.held[0], false);
      UnholdKeepsPriority(Interrupt(PopHeld(s), s.held[0], false));
    }
  }

  // ---------------------------------------------------------------- every step

  lemma WakeOvertakes(s: Sys, p: nat, q: Proc)
    requires StrictPriority(s) && Classed(s) && p < |s.procs| && q.sendTo < |s.procs|
    requires q.priority == s.procs[p].priority
    ensures var r := ReadyIfRunnable(s.(procs := s.procs[p := q]), p); Overtaken(r) <==> FirstServerComes(s, r)
  {
    var s1 := s.(procs := s.procs[p := q]);
    assert Classed(s1);
    ReadyOvertakes(s1, p);
  }

  lemma MapOvertakes(s: Sys, p: nat)
    requires StrictPriority(s) && Classed(s) && p < |s.procs|
    ensures Overtaken(NewMap(s, p)) <==> FirstServerComes(s, NewMap(s, p))
  {
    WakeOvertakes(s, p, s.procs[p].(noMap := false));
  }

  lemma ExitOvertakes(s: Sys, child: nat)
    requires StrictPriority(s) && Classed(s) && child < |s.procs| && s.procs[child].priority == User
    ensures Overtaken(Exit(s, child)) <==> FirstServerComes(s, Exit(s, child))
  {
    UnreadyUserOvertakes(s, child);
  }

  lemma ForkOvertakes(s: Sys, parent: nat, child: nat)
    requires StrictPriority(s) && Classed(s) && parent < |s.procs| && child < |s.procs|
    requires s.procs[parent].priority == User
    requires s.procs[child].priority == Vacant
    ensures Overtaken(Fork(s, parent, child)) <==> FirstServerComes(s, Fork(s, parent, child))
  {
  }

  lemma StepOvertakes(s: Sys, e: Event)
    requires Inv(s) && StrictPriority(s) && Allowed(s, e)
    ensures Overtaken(Step(s, e)) <==> FirstServerComes(s, Step(s, e))
  {
    ConsistentIsClassed(s);
    match e
    case Call(kind, src, m) => CallOvertakes(s, kind, src, m);
    case Interrupted(t, busy) => HeldBack(s, Interrupted(t, busy));
    case Unheld => HeldBack(s, Unheld);
    case ExecReleased(p) => WakeOvertakes(s, p, s.procs[p].(receiving := false));
    case Mapped(p) => MapOvertakes(s, p);
    case Forked(parent, child) => ForkOvertakes(s, parent, child);
    case Exited(child) => ExitOvertakes(s, child);
    case Scheduled => HeldBack(s, Scheduled);
  }

  /** Interrupts and schedule never let a server overtake. */
  lemma HeldBack(s: Sys, e: Event)
    requires Inv(s) && StrictPriority(s) && Allowed(s, e) && (e.Interrupted? || e.Unheld? || e.Scheduled?)
    ensures !Overtaken(Step(s, e)) && !FirstServerComes(s, Step(s, e))
  {
    ConsistentIsClassed(s);
    StepKeepsInv(s, e);
    ConsistentIsClassed(Step(s, e));
    if e.Interrupted? {
      InterruptKeepsPriority(s, e.t, e.busy);
    } else if e.Unheld? {
      UnholdKeepsPriority(s);
    }
  }

  /** In every reachable state with strict priority, an event ends that exactly if it lets a server come onto the empty
      server list while a task is, and stays, ready. */
  lemma PriorityIsLostExactly(s: Sys, e: Event)
    requires Reachable(s) && StrictPriority(s) && Allowed(s, e)
    ensures StrictPriority(Step(s, e)) <==> !FirstServerComes(s, Step(s, e))
  {
    ReachableIsConsistent(s);
    StepOvertakes(s, e);
    StepKeepsInv(s, e);
    ConsistentIsClassed(Step(s, e));
  }
}
