/** What the kernel's invariants mean for every state that can be reached from boot. */
module KernelTheorems {
  import opened Lists
  import opened KernelState
  import opened KernelInvariants
  import opened KernelSteps
  import opened KernelRuns

  /** s can be reached from boot. */
  ghost predicate Reachable(s: Sys) {
    exists nrTasks, nrProcs, run :: ReachedBy(s, nrTasks, nrProcs, run)
  }

  ghost predicate ReachedBy(s: Sys, nrTasks: nat, nrProcs: nat, run: seq<Event>) {
    && 3 <= nrTasks && NR_SERVERS < nrProcs <= ANY
    && Legal(Boot(nrTasks, nrProcs), run) && s == After(Boot(nrTasks, nrProcs), run)
  }

  lemma ReachableIsConsistent(s: Sys)
    requires Reachable(s)
    ensures Inv(s)
  {
    var nrTasks, nrProcs, run :| ReachedBy(s, nrTasks, nrProcs, run);
    BootIsConsistent(nrTasks, nrProcs);
    RunKeepsInv(Boot(nrTasks, nrProcs), run);
  }

  /** Blocked senders never wait for each other in a circle. */
  lemma NoDeadlock(s: Sys, path: seq<nat>)
    requires Reachable(s) && Chain(s.procs, path) && |path| > 1
    ensures path[0] != path[|path| - 1]
  {
    ReachableIsConsistent(s);
    AcyclicHasNoCycle(s.procs, path);
  }

  /** A process that waits for a message, and has none of its own pending, has nobody it waits for in its queue and no
      blocked interrupt it would take. */
  lemma NobodySleepsBesideAMessage(s: Sys, p: nat)
    requires Reachable(s) && p < |s.procs| && s.procs[p].receiving && !s.procs[p].sending
    ensures forall q :: 0 <= q < |s.procs| && s.procs[q].sending && s.procs[q].sendTo == p ==>
              s.procs[p].getFrom != Any && s.procs[p].getFrom != From(q)
    ensures s.procs[p].intBlocked ==> s.procs[p].getFrom != Any && s.procs[p].getFrom != From(s.Hardware())
  {
    ReachableIsConsistent(s);
    assert NotMissing(s.nrTasks, s.procs[p], s.queues[p]);
    forall q | 0 <= q < |s.procs| && s.procs[q].sending && s.procs[q].sendTo == p
      ensures s.procs[p].getFrom != Any && s.procs[p].getFrom != From(q)
    {
      assert q in s.queues[p];
    }
  }

  /** Every occupied entry but IDLE and HARDWARE is on the list of its priority exactly when no flag blocks it and
      schedule has not taken it off, and on no other list. */
  lemma RunnableExactlyWhenListed(s: Sys, p: nat, c: nat)
    requires Reachable(s) && p < |s.procs| && c < 3 && p != s.IdleTask() && p != s.Hardware()
    ensures multiset(s.ready[c])[p]
            == if s.procs[p].priority != Vacant && s.procs[p].Runnable() && p !in s.lost
               && ListOf(s.procs[p].priority) == c
               then 1 else 0
  {
    ReachableIsConsistent(s);
    ListedExactly(s, p, c);
    DistinctOccursOnce(s.ready[c], p);
  }

  lemma ListedExactly(s: Sys, p: nat, c: nat)
    requires Inv(s) && p < |s.procs| && c < 3 && p != s.IdleTask() && p != s.Hardware()
    ensures Distinct(s.ready[c])
    ensures p in s.ready[c] <==>
            s.procs[p].priority != Vacant && s.procs[p].Runnable() && p !in s.lost && ListOf(s.procs[p].priority) == c
  {
    assert RoleOf(s.nrTasks, s.procs[p], s.queues[p], p);
    assert p in s.ready[c] <==> p !in s.lost && Belongs(s.nrTasks, s.procs[p], p, c);
  }

  lemma {:induction false} DistinctOccursOnce(list: seq<nat>, p: nat)
    requires Distinct(list)
    ensures multiset(list)[p] == if p in list then 1 else 0
  {
    if list != [] {
      assert list == [list[0]] + list[1..];
      DistinctOccursOnce(list[1..], p);
    }
  }

  /** A user process never runs while a task or a server could; IDLE never runs while anybody could. */
  lemma UsersYield(s: Sys, p: nat)
    requires Reachable(s) && p < |s.procs| && p != s.Hardware()
    requires s.procs[p].priority in {Task, Server} && s.procs[p].Runnable()
    ensures s.procs[s.curr].priority in {Task, Server}
  {
    ReachableIsConsistent(s);
    var c := ListOf(s.procs[p].priority);
    assert p in s.ready[c] by {
      assert Belongs(s.nrTasks, s.procs[p], p, c);
    }
    CurrIsActive(s);
  }

  /** The process the source's scheduler comment promises to run: the head of the first non-empty list. */
  ghost predicate StrictPriority(s: Sys) {
    s.curr == Hunter(s.nrTasks, s.ready)
  }

  /** Strict priority fails in exactly one situation: a server runs although a task is ready. */
  lemma StrictPriorityExactly(s: Sys)
    requires Reachable(s)
    ensures StrictPriority(s) <==> !(s.procs[s.curr].priority == Server && s.ready[0] != [])
  {
    ReachableIsConsistent(s);
    assert RoleOf(s.nrTasks, s.procs[s.curr], s.queues[s.curr], s.curr);
    if s.ready[0] != [] {
      HeadIsListed(s, 0);
    }
  }

  lemma HeadIsListed(s: Sys, c: nat)
    requires Inv(s) && c < 3 && s.ready[c] != []
    ensures s.ready[c][0] < |s.procs| && ListOf(s.procs[s.ready[c][0]].priority) == c
  {
    assert Slots(s.ready[c], |s.procs|);
    assert s.ready[c][0] in s.ready[c];
    assert Belongs(s.nrTasks, s.procs[s.ready[c][0]], s.ready[c][0], c);
  }

  /** That situation arises when the first server becomes ready while tasks are. */
  lemma FirstServerOvertakes(s: Sys, p: nat)
    requires p < |s.procs| && s.procs[p].priority == Server && s.ready[1] == []
    requires s.ready[0] != [] && s.ready[0][0] != p
    ensures !StrictPriority(Ready(s, p))
  {
  }

  // ---------------------------------------------------------------- queues

  /** list without p, the others in their order. */
  ghost function Without(list: seq<nat>, p: nat): seq<nat> {
    if list == [] then [] else (if list[0] == p then [] else [list[0]]) + Without(list[1..], p)
  }

  lemma {:induction false} AbsentLeavesAll(list: seq<nat>, p: nat)
    requires p !in list
    ensures Without(list, p) == list
  {
    if list != [] {
      AbsentLeavesAll(list[1..], p);
    }
  }

  lemma {:induction false} RemovalKeepsOrder(list: seq<nat>, k: nat)
    requires Distinct(list) && k < |list|
    ensures RemoveAt(list, k) == Without(list, list[k])
  {
    var p := list[k];
    if k == 0 {
      AbsentLeavesAll(list[1..], p);
    } else {
      RemovalKeepsOrder(list[1..], k - 1);
      assert RemoveAt(list, k) == [list[0]] + RemoveAt(list[1..], k - 1);
    }
  }

  lemma {:induction false} RemoveKeepsOrder(list: seq<nat>, p: nat)
    requires Distinct(list)
    ensures Remove(list, p) == Without(list, p)
  {
    if p in list {
      RemovalKeepsOrder(list, IndexOf(list, p));
    } else {
      AbsentLeavesAll(list, p);
    }
  }

  /** A receiver takes the message of the sender that came first among those it admits; that sender alone leaves the
      queue, and the others keep their order. */
  lemma {:induction false} FirstComeFirstServed(s: Sys, p: nat, src: Source, k: nat)
    requires Reachable(s) && p < |s.procs| && !s.procs[p].sending
    requires k < |s.queues[p]| && (src == Any || src == From(s.queues[p][k]))
    requires forall j :: 0 <= j < k ==> src != Any && src != From(s.queues[p][j])
    ensures var r, q := ReceiveMessage(s, p, src), s.queues[p][k];
            && q < |s.procs| && r.procs[p].buf == s.procs[q].buf && !r.procs[q].sending
            && r.queues == s.queues[p := Without(s.queues[p], q)]
  {
    ReachableIsConsistent(s);
    assert k == FirstMatch(s.queues[p], src);
    RemovalKeepsOrder(s.queues[p], k);
    assert Slots(s.queues[p], |s.procs|);
    assert s.queues[p][k] in s.queues[p];
  }

  /** A process that exits disappears from every queue and ready list, wherever it stands, and nobody else moves. */
  lemma {:induction false} ExitRemovesOnlyTheDead(s: Sys, child: nat)
    requires Reachable(s) && Allowed(s, Exited(child))
    ensures var r := Exit(s, child);
            && (forall d :: 0 <= d < |s.procs| ==> r.queues[d] == Without(s.queues[d], child))
            && (forall c :: 0 <= c < 3 ==> r.ready[c] == Without(s.ready[c], child))
            && (forall p :: 0 <= p < |s.procs| && p != child ==> r.procs[p] == s.procs[p])
  {
    ReachableIsConsistent(s);
    forall d | 0 <= d < |s.procs|
      ensures Exit(s, child).queues[d] == Without(s.queues[d], child)
    {
      assert child in s.queues[d] <==> s.procs[child].sending && s.procs[child].sendTo == d;
      RemoveKeepsOrder(s.queues[d], child);
    }
    forall c | 0 <= c < 3
      ensures Exit(s, child).ready[c] == Without(s.ready[c], child)
    {
      DelistsOnly(s, child, c);
    }
  }

  lemma {:induction false} DelistsOnly(s: Sys, p: nat, c: nat)
    requires Inv(s) && p < |s.procs| && c < 3 && s.procs[p].priority == User
    ensures UnreadyIfRunnable(s, p).ready[c] == Without(s.ready[c], p)
  {
    assert p in s.ready[c] <==> p !in s.lost && Belongs(s.nrTasks, s.procs[p], p, c);
    RemoveKeepsOrder(s.ready[c], p);
    if s.ready[c] != [] && s.ready[c][0] == p {
      RemovalKeepsOrder(s.ready[c], 0);
      assert RemoveAt(s.ready[c], 0) == s.ready[c][1..];
    }
  }

  // ---------------------------------------------------------------- held interrupts

  /** t would take a hardware message at once. */
  ghost predicate AwaitsHardware(nrTasks: nat, q: Proc) {
    q.receiving && !q.sending && (q.getFrom == Any || (q.getFrom.From? && q.getFrom.p == nrTasks - 1))
  }

  /** Those of the held tasks that a repeated interrupt wakes, in the order they are held. */
  ghost function Woken(nrTasks: nat, procs: seq<Proc>, held: seq<nat>): seq<nat>
    requires Slots(held, |procs|)
  {
    if held == [] then []
    else (if AwaitsHardware(nrTasks, procs[held[0]]) then [held[0]] else []) + Woken(nrTasks, procs, held[1..])
  }

  lemma {:induction false} WokenFrame(nrTasks: nat, procs: seq<Proc>, procs1: seq<Proc>, held: seq<nat>)
    requires |procs1| == |procs| && Slots(held, |procs|)
    requires forall i :: 0 <= i < |held| ==> procs1[held[i]] == procs[held[i]]
    ensures Woken(nrTasks, procs1, held) == Woken(nrTasks, procs, held)
  {
    if held != [] {
      WokenFrame(nrTasks, procs, procs1, held[1..]);
    }
  }

  /** One turn takes the oldest task off the held list; if it is to be woken, it joins the end of the task list. */
  lemma TurnReadies(s: Sys)
    requires Inv(s) && s.held != [] && s.held[0] < |s.procs| && PopHeld(s).procs[s.held[0]].priority == Task
    ensures var t, r := s.held[0], Interrupt(PopHeld(s), s.held[0], false);
            && r.nrTasks == s.nrTasks && r.held == s.held[1..] && |r.procs| == |s.procs|
            && (forall i :: 0 <= i < |s.procs| && i != t ==> r.procs[i] == s.procs[i])
            && r.ready[0] == s.ready[0] + if AwaitsHardware(s.nrTasks, s.procs[t]) then [t] else []
  {
  }

  lemma TurnWakes(s: Sys)
    requires Inv(s) && s.held != [] && s.held[0] < |s.procs| && PopHeld(s).procs[s.held[0]].priority == Task
    ensures var r := Interrupt(PopHeld(s), s.held[0], false);
            r.ready[0] + Woken(r.nrTasks, r.procs, r.held) == s.ready[0] + Woken(s.nrTasks, s.procs, s.held)
  {
    var t := s.held[0];
    var r := Interrupt(PopHeld(s), t, false);
    TurnReadies(s);
    WokenFrame(s.nrTasks, s.procs, r.procs, s.held[1..]);
    Regroup(s.ready[0], if AwaitsHardware(s.nrTasks, s.procs[t]) then [t] else [],
            Woken(s.nrTasks, s.procs, s.held[1..]));
  }

  lemma Regroup(a: seq<nat>, b: seq<nat>, c: seq<nat>)
    ensures a + b + c == a + (b + c)
  {
  }

  /** Releasing the held interrupts empties the held list and hangs exactly the tasks that were waiting for one at the
      end of the task list, in the order the interrupts came. */
  lemma {:induction false} UnholdIsInOrder(s: Sys)
    requires Inv(s)
    ensures Unhold(s).held == []
    ensures Unhold(s).ready[0] == s.ready[0] + Woken(s.nrTasks, s.procs, s.held)
    decreases |s.held|
  {
    if s.held != [] {
      UnholdTurn(s);
      TurnWakes(s);
      UnholdIsInOrder(Interrupt(PopHeld(s), s.held[0], false));
    }
  }
}
