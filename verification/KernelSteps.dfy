/** Interrupts and the system task's operations keep the kernel's invariants. */
module KernelSteps {
  import opened Lists
  import opened KernelState
  import opened KernelInvariants

  // ---------------------------------------------------------------- interrupts

  lemma HoldKeepsHeld(procs: seq<Proc>, held: seq<nat>, t: nat, q: Proc)
    requires t < |procs| && HeldOk(procs, held) && !procs[t].intHeld && q.intHeld
    ensures HeldOk(procs[t := q], held + [t])
  {
    assert t !in held;
    forall x | 0 <= x < |procs|
      ensures x in held + [t] <==> procs[t := q][x].intHeld
    {
      assert x in held + [t] <==> x in held || x == t;
    }
  }

  lemma PopKeepsHeld(procs: seq<Proc>, held: seq<nat>, q: Proc)
    requires held != [] && held[0] < |procs| && HeldOk(procs, held) && !q.intHeld
    ensures HeldOk(procs[held[0] := q], held[1..])
  {
    assert held[1..] == RemoveAt(held, 0);
    RemoveAtKeepsRest(held, 0);
  }

  /** Changes to a process that only concern held interrupts. */
  lemma HeldChangeKeepsInv(s: Sys, t: nat, intHeld: bool, held: seq<nat>)
    requires Inv(s) && t < |s.procs| && s.procs[t].priority == Task && Slots(held, |s.procs|)
    requires HeldOk(s.procs[t := s.procs[t].(intHeld := intHeld)], held)
    ensures Inv(s.(procs := s.procs[t := s.procs[t].(intHeld := intHeld)], held := held))
  {
    var q := s.procs[t].(intHeld := intHeld);
    assert RoleOf(s.nrTasks, s.procs[t], s.queues[t], t);
    UnblockingKeepsAcyclic(s.procs, t, q);
    ChangeKeepsLocal(s.nrTasks, s.procs, s.queues, t, q, s.queues[t]);
    ChangeKeepsQueues(s.procs, s.queues, t, q);
    ChangeKeepsHistory(s.procs, s.sent, s.got, t, q);
    ChangeSameFlags(s.nrTasks, s.procs, s.ready, s.lost, s.curr, t, q);
    assert s.queues[t := s.queues[t]] == s.queues;
  }

  lemma WakeByInterruptKeepsInv(s: Sys, t: nat)
    requires Inv(s) && t < |s.procs| && s.procs[t].priority == Task
    requires s.procs[t].receiving && !s.procs[t].sending && AdmitsHardware(s.nrTasks, s.procs[t].getFrom)
    ensures Inv(Interrupt(s, t, false))
  {
    var q := s.procs[t].(buf := s.procs[t].buf.(source := s.Hardware(), kind := HARD_INT),
                         receiving := false, intBlocked := false);
    var s1 := s.(procs := s.procs[t := q], hardInts := s.hardInts[t := s.hardInts[t] + 1]);
    assert RoleOf(s.nrTasks, s.procs[t], s.queues[t], t);
    IdleHasItsRole(s);
    ChangeKeepsIpc(s, t, q);
    WakeKeepsSched(s, s1, t, q);
    assert ReadyIfRunnable(s1, t) == Ready(s1, t);
  }

  lemma InterruptKeepsInv(s: Sys, t: nat, busy: bool)
    requires Inv(s) && t < |s.procs| && s.procs[t].priority == Task
    ensures Inv(Interrupt(s, t, busy))
  {
    var q := s.procs[t];
    if busy {
      if !q.intHeld {
        HoldKeepsHeld(s.procs, s.held, t, q.(intHeld := true));
        HeldChangeKeepsInv(s, t, true, s.held + [t]);
      }
    } else if !(q.receiving && !q.sending && AdmitsHardware(s.nrTasks, q.getFrom)) {
      assert RoleOf(s.nrTasks, q, s.queues[t], t);
      assert NotMissing(s.nrTasks, q, s.queues[t]);
      ChangeKeepsIpc(s, t, q.(intBlocked := true));
      ChangeSameFlags(s.nrTasks, s.procs, s.ready, s.lost, s.curr, t, q.(intBlocked := true));
    } else {
      WakeByInterruptKeepsInv(s, t);
    }
  }

  lemma HeldAreTasks(s: Sys)
    requires Inv(s) && s.held != []
    ensures s.held[0] < |s.procs| && s.procs[s.held[0]].priority == Task
  {
    var t := s.held[0];
    assert t in s.held;
    assert RoleOf(s.nrTasks, s.procs[t], s.queues[t], t);
  }

  lemma PopHeldKeepsInv(s: Sys)
    requires Inv(s) && s.held != []
    ensures Inv(PopHeld(s))
  {
    HeldAreTasks(s);
    var t := s.held[0];
    PopKeepsHeld(s.procs, s.held, s.procs[t].(intHeld := false));
    HeldChangeKeepsInv(s, t, false, s.held[1..]);
  }

  /** One turn of unhold: the oldest held interrupt is repeated, and the rest remains to be done. */
  lemma {:induction false} UnholdTurn(s: Sys)
    requires Inv(s) && s.held != []
    ensures s.held[0] < |s.procs| && PopHeld(s).procs[s.held[0]].priority == Task && Inv(PopHeld(s))
    ensures var r := Interrupt(PopHeld(s), s.held[0], false);
            Inv(r) && Unhold(s) == Unhold(r) && |r.held| == |s.held| - 1
  {
    HeldAreTasks(s);
    PopHeldKeepsInv(s);
    InterruptKeepsInv(PopHeld(s), s.held[0], false);
  }

  lemma {:induction false} UnholdKeepsInv(s: Sys)
    requires Inv(s)
    ensures Inv(Unhold(s))
    decreases |s.held|
  {
    if s.held != [] {
      UnholdTurn(s);
      UnholdKeepsInv(Interrupt(PopHeld(s), s.held[0], false));
    }
  }

  // ---------------------------------------------------------------- the system task's operations

  lemma ReleaseKeepsInv(s: Sys, p: nat, q: Proc)
    requires Inv(s) && p < |s.procs| && s.procs[p].priority == User && !s.procs[p].Runnable()
    requires s.procs[s.curr].priority == Task
    requires q == s.procs[p].(receiving := false) || q == s.procs[p].(noMap := false)
    ensures s.(procs := s.procs[p := q]).Shape() && Inv(ReadyIfRunnable(s.(procs := s.procs[p := q]), p))
  {
    assert RoleOf(s.nrTasks, s.procs[p], s.queues[p], p);
    assert NotMissing(s.nrTasks, s.procs[p], s.queues[p]);
    IdleHasItsRole(s);
    ChangeKeepsIpc(s, p, q);
    WakeKeepsSched(s, s.(procs := s.procs[p := q]), p, q);
  }

  lemma NewMapKeepsInv(s: Sys, p: nat)
    requires Inv(s) && p < |s.procs| && s.procs[s.curr].priority == Task
    ensures Inv(NewMap(s, p))
  {
    assert RoleOf(s.nrTasks, s.procs[p], s.queues[p], p);
    if s.procs[p].noMap {
      ReleaseKeepsInv(s, p, s.procs[p].(noMap := false));
    } else {
      assert s.procs[p := s.procs[p].(noMap := false)] == s.procs;
    }
  }

  lemma ForkKeepsIpc(s: Sys, parent: nat, child: nat)
    requires IpcOk(s) && parent < |s.procs| && child < |s.procs|
    requires s.procs[child].priority == Vacant && s.procs[parent].priority == User
    requires !s.procs[parent].sending && s.queues[parent] == []
    ensures IpcOk(Fork(s, parent, child)) && Fork(s, parent, child).queues == s.queues
  {
    var q := s.procs[parent].(noMap := true);
    assert RoleOf(s.nrTasks, s.procs[child], s.queues[child], child);
    assert RoleOf(s.nrTasks, s.procs[parent], s.queues[parent], parent);
    UnblockingKeepsAcyclic(s.procs, child, q);
    ChangeKeepsLocal(s.nrTasks, s.procs, s.queues, child, q, s.queues[child]);
    ChangeKeepsHeld(s.procs, s.held, child, q);
    ChangeKeepsHistory(s.procs, s.sent, s.got, child, q);
    IdleChangeKeepsQueues(s.procs, s.queues, child, q);
    assert s.queues[child := s.queues[child]] == s.queues;
  }

  lemma IdleChangeKeepsQueues(procs: seq<Proc>, queues: seq<seq<nat>>, p: nat, q: Proc)
    requires p < |procs| && QueuesOk(procs, queues) && !q.sending && !procs[p].sending
    ensures QueuesOk(procs[p := q], queues)
  {
  }

  lemma ForkKeepsInv(s: Sys, parent: nat, child: nat)
    requires Inv(s) && parent < |s.procs| && child < |s.procs| && s.procs[s.curr].priority == Task
    requires s.procs[child].priority == Vacant && s.procs[parent].priority == User
    requires !s.procs[parent].sending && s.queues[parent] == []
    ensures Inv(Fork(s, parent, child))
  {
    ForkKeepsIpc(s, parent, child);
    ForkKeepsRunQueues(s.nrTasks, s.procs, s.ready, s.lost, child, s.procs[parent].(noMap := true));
  }

  /** Fork keeps the invariants exactly if the parent is not blocked sending and nobody is queued on it: the copy would
      be queued nowhere, or share its parent's queue. */
  lemma ForkKeepsInvExactly(s: Sys, parent: nat, child: nat)
    requires Inv(s) && parent < |s.procs| && child < |s.procs| && s.procs[s.curr].priority == Task
    requires s.procs[child].priority == Vacant && s.procs[parent].priority == User
    ensures Inv(Fork(s, parent, child)) <==> !s.procs[parent].sending && s.queues[parent] == []
  {
    var r := Fork(s, parent, child);
    if !s.procs[parent].sending && s.queues[parent] == [] {
      ForkKeepsInv(s, parent, child);
    } else if s.queues[parent] != [] {
      var x := s.queues[parent][0];
      assert Slots(s.queues[parent], |s.procs|) && x < |r.procs|;
      assert x in r.queues[parent] && x in r.queues[child];
      if QueuesOk(r.procs, r.queues) {
        QueuedOnce(r.procs, r.queues, x, parent, child);
      }
    } else {
      var d := s.procs[parent].sendTo;
      assert RoleOf(s.nrTasks, s.procs[child], s.queues[child], child);
      assert child !in s.queues[d] && child !in s.queues[parent];
      assert r.procs[child].sending && r.procs[child].sendTo == d && child !in r.queues[d];
    }
  }

  lemma QueuedOnce(procs: seq<Proc>, queues: seq<seq<nat>>, x: nat, d: nat, e: nat)
    requires QueuesOk(procs, queues) && x < |procs| && d < |queues| && e < |queues| && x in queues[d] && x in queues[e]
    ensures d == e
  {
    assert procs[x].sendTo == d;
  }

  lemma ForkKeepsRunQueues(nrTasks: nat, procs: seq<Proc>, ready: seq<seq<nat>>, lost: set<nat>, p: nat, q: Proc)
    requires p < |procs| && |ready| == 3 && RunQueues(nrTasks, procs, ready, lost) && p !in lost
    requires !Belongs(nrTasks, procs[p], p, ListOf(procs[p].priority)) && !q.Runnable()
    ensures RunQueues(nrTasks, procs[p := q], ready, lost)
  {
  }

  // ---------------------------------------------------------------- exit

  lemma WithdrawKeepsHistory(procs: seq<Proc>, sent: History, got: History, p: nat, q: Proc)
    requires p < |procs| && !q.sending && HistoryOk(procs, sent, got)
    ensures HistoryOk(procs[p := q],
                      if procs[p].sending then sent[(p, procs[p].sendTo) := Log(got, p, procs[p].sendTo)] else sent,
                      got)
  {
    var procs1 := procs[p := q];
    var sent1 := if procs[p].sending then sent[(p, procs[p].sendTo) := Log(got, p, procs[p].sendTo)] else sent;
    forall x: nat, y: nat
      ensures HistoryAt(procs1, sent1, got, x, y)
    {
      assert HistoryAt(procs, sent, got, x, y);
    }
  }

  lemma WithdrawKeepsQueues(procs: seq<Proc>, queues: seq<seq<nat>>, p: nat, d: nat, q: Proc)
    requires p < |procs| == |queues| && d < |queues| && QueuesOk(procs, queues)
    requires procs[p].sending && procs[p].sendTo == d && !q.sending
    ensures QueuesOk(procs[p := q], queues[d := Remove(queues[d], p)])
    ensures forall x :: x in Remove(queues[d], p) ==> x in queues[d]
  {
    RemoveKeepsRest(queues[d], p);
    var queues1 := queues[d := Remove(queues[d], p)];
    forall x, y | 0 <= x < |procs| && 0 <= y < |queues|
      ensures x in queues1[y] <==> procs[p := q][x].sending && procs[p := q][x].sendTo == y
    {
      assert x in queues1[y] <==> x in queues[y] && !(x == p && y == d);
      assert p in queues[y] <==> y == d;
    }
  }

  lemma ShorterQueueKeepsLocal(nrTasks: nat, procs: seq<Proc>, queues: seq<seq<nat>>, d: nat, queue: seq<nat>)
    requires |queues| == |procs| && d < |procs| && LocalOk(nrTasks, procs, queues)
    requires forall x :: x in queue ==> x in queues[d]
    ensures LocalOk(nrTasks, procs, queues[d := queue])
  {
    assert RoleOf(nrTasks, procs[d], queues[d], d) && NotMissing(nrTasks, procs[d], queues[d]);
    assert RoleOf(nrTasks, procs[d], queue, d) by {
      if queue != [] {
        assert queue[0] in queues[d];
      }
    }
    assert NotMissing(nrTasks, procs[d], queue) by {
      forall i | 0 <= i < |queue|
        ensures queue[i] in queues[d]
      {
      }
    }
    ChangeKeepsLocal(nrTasks, procs, queues, d, procs[d], queue);
    assert procs[d := procs[d]] == procs;
  }

  lemma ExitKeepsIpc(s: Sys, child: nat)
    requires IpcOk(s) && child < |s.procs|
    requires s.procs[child].priority == User && s.queues[child] == []
    ensures IpcOk(Exit(s, child))
  {
    var p := s.procs[child];
    var q := p.(priority := Vacant, noMap := false, sending := false, receiving := false);
    var procs := s.procs[child := q];
    var r := Exit(s, child);
    assert RoleOf(s.nrTasks, p, s.queues[child], child);
    UnblockingKeepsAcyclic(s.procs, child, q);
    ChangeKeepsLocal(s.nrTasks, s.procs, s.queues, child, q, s.queues[child]);
    assert s.queues[child := s.queues[child]] == s.queues;
    ChangeKeepsHeld(s.procs, s.held, child, q);
    WithdrawKeepsHistory(s.procs, s.sent, s.got, child, q);
    if p.sending {
      WithdrawKeepsQueues(s.procs, s.queues, child, p.sendTo, q);
      ShorterQueueKeepsLocal(s.nrTasks, procs, s.queues, p.sendTo, Remove(s.queues[p.sendTo], child));
    } else {
      IdleChangeKeepsQueues(s.procs, s.queues, child, q);
    }
  }

  lemma VacateKeepsRunQueues(nrTasks: nat, procs: seq<Proc>, ready: seq<seq<nat>>, lost: set<nat>, curr: nat, p: nat,
                             q: Proc)
    requires p < |procs| && |ready| == 3 && curr < |procs| && curr != p && q.priority == Vacant
    requires RunQueuesBut(nrTasks, procs, ready, lost, p) && CurrOk(nrTasks, procs, ready, curr)
    ensures RunQueues(nrTasks, procs[p := q], ready, lost) && CurrOk(nrTasks, procs[p := q], ready, curr)
  {
  }

  lemma CurrIsListed(s: Sys, lost: set<nat>, e: nat)
    requires RunQueuesBut(s.nrTasks, s.procs, s.ready, lost, e) && CurrOk(s.nrTasks, s.procs, s.ready, s.curr)
    requires e < |s.procs| && e != s.IdleTask()
    ensures s.curr != e
  {
    if s.curr != s.IdleTask() {
      assert s.curr in s.ready[ListOf(s.procs[s.curr].priority)];
    }
  }

  /** A user that is on no list is not taken off one. */
  lemma UnreadyLost(s: Sys, p: nat)
    requires SchedOk(s) && p in s.lost && p < |s.procs|
    ensures Unready(s, p) == s && RunQueuesBut(s.nrTasks, s.procs, s.ready, s.lost - {p}, p)
  {
    var c := ListOf(s.procs[p].priority);
    assert p !in s.ready[c];
    assert s.ready[c := s.ready[c]] == s.ready;
  }

  /** The lists once the child is off them. */
  lemma ExitTakesOff(s: Sys, child: nat)
    requires Inv(s) && child < |s.procs| && s.procs[child].priority == User
    ensures var s1 := UnreadyIfRunnable(s, child);
            RunQueuesBut(s.nrTasks, s.procs, s1.ready, s.lost - {child}, child)
              && CurrOk(s.nrTasks, s.procs, s1.ready, s1.curr)
  {
    assert RoleOf(s.nrTasks, s.procs[child], s.queues[child], child);
    if child in s.lost {
      UnreadyLost(s, child);
    } else {
      assert s.lost - {child} == s.lost;
      if s.procs[child].Runnable() {
        UnreadyKeepsRunQueues(s, child);
      } else {
        BlockedIsUnlisted(s.nrTasks, s.procs, s.ready, s.lost, child);
      }
    }
  }

  lemma ExitKeepsInv(s: Sys, child: nat)
    requires Inv(s) && child < |s.procs| && s.procs[child].priority == User && s.queues[child] == []
    ensures Inv(Exit(s, child))
  {
    var q := s.procs[child].(priority := Vacant, noMap := false, sending := false, receiving := false);
    var s1 := UnreadyIfRunnable(s, child);
    var lost := s.lost - {child};
    assert RoleOf(s.nrTasks, s.procs[child], s.queues[child], child);
    ExitTakesOff(s, child);
    CurrIsListed(s1, lost, child);
    VacateKeepsRunQueues(s.nrTasks, s.procs, s1.ready, lost, s1.curr, child, q);
    ExitKeepsIpc(s, child);
  }

  /** Exit keeps the invariants exactly if nobody is queued on the dying process: its queue would outlive it. */
  lemma ExitKeepsInvExactly(s: Sys, child: nat)
    requires Inv(s) && child < |s.procs| && s.procs[child].priority == User
    ensures Inv(Exit(s, child)) <==> s.queues[child] == []
  {
    if s.queues[child] == [] {
      ExitKeepsInv(s, child);
    } else {
      NotQueuedOnItself(s.procs, child);
      var r := Exit(s, child);
      assert r.queues[child] == s.queues[child] && r.procs[child].priority == Vacant;
      assert !RoleOf(r.nrTasks, r.procs[child], r.queues[child], child);
    }
  }

  lemma NotQueuedOnItself(procs: seq<Proc>, p: nat)
    requires Acyclic(procs) && p < |procs|
    ensures procs[p].sending ==> procs[p].sendTo != p
  {
    var rank :| Ranks(procs, rank);
  }

  // ---------------------------------------------------------------- schedule

  lemma ScheduleDropsHead(nrTasks: nat, procs: seq<Proc>, ready: seq<seq<nat>>, lost: set<nat>)
    requires |ready| == 3 && ready[2] != [] && RunQueues(nrTasks, procs, ready, lost) && Slots(ready[2], |procs|)
    ensures IsLost(procs, ready[2][0])
    ensures RunQueues(nrTasks, procs, ready[2 := ready[2][1..]], lost + {ready[2][0]})
  {
    var p := ready[2][0];
    assert p in ready[2] && Belongs(nrTasks, procs[p], p, 2);
    assert ready[2][1..] == RemoveAt(ready[2], 0);
    RemoveAtKeepsRest(ready[2], 0);
  }

  lemma ScheduleKeepsInv(s: Sys)
    requires Inv(s)
    ensures Inv(Schedule(s))
  {
    if s.ready[2] != [] {
      var r := Schedule(s);
      ScheduleDropsHead(s.nrTasks, s.procs, s.ready, s.lost);
      HunterFindsHead(s.nrTasks, s.procs, s.queues, r.ready, r.lost, |s.procs|);
    }
  }
}
