/** Who joins and who leaves the ready lists, and where, in every call. */
module KernelLists {
  import opened Lists
  import opened KernelState
  import opened KernelInvariants
  import opened KernelRuns
  import opened KernelTheorems
  import opened KernelEffects

  /** The lists once x, which nothing blocks any more, has joined: behind all tasks, behind all servers, in front of all
      users. */
  ghost function Joined(ready: seq<seq<nat>>, pri: Priority, x: nat): seq<seq<nat>>
    requires |ready| == 3
  {
    match pri
    case Task => [ready[0] + [x], ready[1], ready[2]]
    case Server => [ready[0], ready[1] + [x], ready[2]]
    case _ => [ready[0], ready[1], [x] + ready[2]]
  }

  /** The lists once x has left. */
  ghost function Left(ready: seq<seq<nat>>, x: nat): seq<seq<nat>>
    requires |ready| == 3
  {
    [Without(ready[0], x), Without(ready[1], x), Without(ready[2], x)]
  }

  /** The lists once x, which has become q, has joined if nothing blocks it. */
  ghost function WithWoken(ready: seq<seq<nat>>, q: Proc, x: nat): seq<seq<nat>>
    requires |ready| == 3
  {
    if q.noMap || q.sending || q.receiving then ready else Joined(ready, q.priority, x)
  }

  lemma ReadyJoins(s: Sys, x: nat)
    requires x < |s.procs|
    ensures ReadyIfRunnable(s, x).ready == WithWoken(s.ready, s.procs[x], x)
  {
  }

  /** The head of list c is on no other list. */
  ghost predicate HeadsOnly(ready: seq<seq<nat>>, c: nat, p: nat) {
    && |ready| == 3 && c < 3 && ready[c] != [] && ready[c][0] == p && Distinct(ready[c])
    && forall k :: 0 <= k < 3 && k != c ==> p !in ready[k]
  }

  lemma UnreadyLeaves(s: Sys, p: nat)
    requires p < |s.procs| && HeadsOnly(s.ready, ListOf(s.procs[p].priority), p)
    ensures Unready(s, p).ready == Left(s.ready, p)
  {
    var c := ListOf(s.procs[p].priority);
    forall k | 0 <= k < 3
      ensures Unready(s, p).ready[k] == Without(s.ready[k], p)
    {
      if k == c {
        RemovalKeepsOrder(s.ready[c], 0);
        assert RemoveAt(s.ready[c], 0) == s.ready[c][1..];
      } else {
        AbsentLeavesAll(s.ready[k], p);
      }
    }
  }

  lemma CurrHeadsOnly(s: Sys)
    requires Inv(s) && s.curr != s.IdleTask()
    ensures HeadsOnly(s.ready, ListOf(s.procs[s.curr].priority), s.curr)
  {
    CurrIsActive(s);
    var c := ListOf(s.procs[s.curr].priority);
    forall k | 0 <= k < 3 && k != c
      ensures s.curr !in s.ready[k]
    {
      assert !Belongs(s.nrTasks, s.procs[s.curr], s.curr, k);
    }
  }

  /** What a call of p does to the lists. A process whose last block goes joins its list, the caller leaves its own if
      it is blocked, and nobody else moves. */
  ghost predicate CallLists(s: Sys, r: Sys, status: Status, kind: CallKind, p: nat, src: Source)
    requires p < |s.procs| && (src.From? ==> src.p < |s.procs|)
  {
    if status != Ok then r.ready == s.ready
    else if kind == Receive then
      && (forall k: nat :: IsFirst(s.queues[p], src, k) && s.queues[p][k] < |s.procs| ==>
            var q := s.queues[p][k]; r.ready == WithWoken(s.ready, s.procs[q].(sending := false), q))
      && ((forall k :: 0 <= k < |s.queues[p]| ==> !Admits(src, s.queues[p][k])) ==>
            r.ready == if s.procs[p].intBlocked && (src == Any || src == From(s.nrTasks - 1)) then s.ready
                       else Left(s.ready, p))
    else if src == Any then false
    else if WaitsForMessageOf(s.procs[src.p], p) then
      var ready := WithWoken(s.ready, s.procs[src.p].(receiving := false), src.p);
      r.ready == if kind == SendRec then Left(ready, p) else ready
    else r.ready == Left(s.ready, p)
  }

  lemma DeliverLists(s: Sys, p: nat, d: nat)
    requires p < |s.procs| && d < |s.procs|
    ensures Deliver(s, p, d).ready == WithWoken(s.ready, s.procs[d].(receiving := false), d)
  {
    var m := s.procs[p].buf;
    ReadyJoins(s.(procs := s.procs[d := s.procs[d].(buf := m, receiving := false)],
                  sent := Append(s.sent, p, d, m), got := Append(s.got, p, d, m)), d);
  }

  /** Whoever joins stands neither in front of the head nor on its list a second time. */
  lemma HeadStays(ready: seq<seq<nat>>, c: nat, p: nat, q: Proc, d: nat)
    requires HeadsOnly(ready, c, p) && d != p && (q.priority in {Task, Server} || c < 2)
    requires forall k :: 0 <= k < 3 ==> d !in ready[k]
    ensures HeadsOnly(WithWoken(ready, q, d), c, p)
  {
  }

  lemma TakeLists(s: Sys, p: nat, k: nat)
    requires p < |s.procs| && k < |s.queues[p]| && s.queues[p][k] < |s.procs| && s.queues[p][k] != p
    ensures var q := s.queues[p][k];
            TakeMessage(s, p, k).ready == WithWoken(s.ready, s.procs[q].(sending := false), q)
  {
    var q := s.queues[p][k];
    var m := s.procs[q].buf;
    var procs := s.procs[p := s.procs[p].(buf := m)];
    ReadyJoins(s.(procs := procs[q := procs[q].(sending := false)], queues := s.queues[p := RemoveAt(s.queues[p], k)],
                  got := Append(s.got, q, p, m)), q);
  }

  lemma OnlyFirst(queue: seq<nat>, src: Source, j: nat, k: nat)
    requires IsFirst(queue, src, j) && IsFirst(queue, src, k)
    ensures j == k
  {
  }

  lemma ReceiveLists(s: Sys, src: Source)
    requires Inv(s) && s.curr != s.IdleTask() && (src.From? ==> src.p < |s.procs|)
    ensures CallLists(s, ReceiveMessage(s, s.curr, src), Ok, Receive, s.curr, src)
  {
    var p := s.curr;
    var k := FirstMatch(s.queues[p], src);
    CurrIsActive(s);
    CurrHeadsOnly(s);
    FirstIsFirst(s.queues[p], src);
    if k < |s.queues[p]| {
      assert Slots(s.queues[p], |s.procs|) && s.queues[p][k] in s.queues[p];
      TakeLists(s, p, k);
      forall j: nat | IsFirst(s.queues[p], src, j)
        ensures j == k
      {
        OnlyFirst(s.queues[p], src, j, k);
      }
    } else {
      assert forall j: nat :: !IsFirst(s.queues[p], src, j);
      UnreadyLeaves(s, p);
    }
  }

  lemma SendRecLists(s: Sys, d: nat)
    requires Inv(s) && s.curr != s.IdleTask() && d < |s.procs| && d != s.curr
    requires SendMessage(s, s.curr, d).1 == Ok && s.procs[d].Accepts(s.curr)
    ensures ReceiveMessage(SendMessage(s, s.curr, d).0, s.curr, From(d)).ready
            == Left(WithWoken(s.ready, s.procs[d].(receiving := false), d), s.curr)
  {
    var p := s.curr;
    var s1 := Deliver(s, p, d);
    SendRecBlocks(s, d);
    CurrIsActive(s);
    CurrHeadsOnly(s);
    DeliverLists(s, p, d);
    UnlistedIfBlocked(s, d);
    HeadStays(s.ready, ListOf(s.procs[p].priority), p, s.procs[d].(receiving := false), d);
    UnreadyLeaves(s1, p);
  }

  lemma UnlistedIfBlocked(s: Sys, d: nat)
    requires Inv(s) && d < |s.procs| && s.procs[d].receiving
    ensures forall k :: 0 <= k < 3 ==> d !in s.ready[k]
    ensures IsServer(s.nrTasks, d) ==> s.procs[d].priority == Server
  {
    assert RoleOf(s.nrTasks, s.procs[d], s.queues[d], d);
    forall k | 0 <= k < 3
      ensures d !in s.ready[k]
    {
      assert !Belongs(s.nrTasks, s.procs[d], d, k);
    }
  }

  lemma TransmitLists(s: Sys, kind: CallKind, d: nat)
    requires Inv(s) && s.curr != s.IdleTask() && d < |s.procs| && d != s.curr && kind != Receive
    ensures var (s1, status) := SendMessage(s, s.curr, d);
            var r := if kind == Send || status != Ok then s1 else ReceiveMessage(s1, s.curr, From(d));
            CallLists(s, r, status, kind, s.curr, From(d))
  {
    var (s1, status) := SendMessage(s, s.curr, d);
    SendEffect(s, s.curr, d);
    if status == Ok {
      if s.procs[d].Accepts(s.curr) {
        DeliverLists(s, s.curr, d);
        if kind == SendRec {
          SendRecLists(s, d);
        }
      } else {
        CurrIsActive(s);
        CurrHeadsOnly(s);
        UnreadyLeaves(s, s.curr);
      }
    }
  }

  /** What the buffer holds is of no concern. */
  lemma BufferIsOfNoConcern(s: Sys, s0: Sys, r: Sys, status: Status, kind: CallKind, p: nat, src: Source, m: Message)
    requires p < |s.procs| && (src.From? ==> src.p < |s.procs|)
    requires s0 == s.(procs := s.procs[p := s.procs[p].(buf := m)]) && CallLists(s0, r, status, kind, p, src)
    ensures CallLists(s, r, status, kind, p, src)
  {
  }

  lemma CallListsOfFilled(s: Sys, kind: CallKind, src: Source)
    requires Inv(s) && CallAllowed(s, kind, src) && !(s.procs[s.curr].priority == User && kind != SendRec)
    requires kind == Receive || src.From?
    ensures var (s1, status) := if kind == Receive then (ReceiveMessage(s, s.curr, src), Ok)
                                else SendMessage(s, s.curr, src.p);
            var r := if kind == SendRec && status == Ok then ReceiveMessage(s1, s.curr, src) else s1;
            CallLists(s, r, status, kind, s.curr, src)
  {
    if kind == Receive {
      ReceiveLists(s, src);
    } else {
      TransmitLists(s, kind, src.p);
    }
  }

  /** In every reachable state every call does that to the lists. */
  lemma ListsExactly(s: Sys, kind: CallKind, src: Source, m: Message)
    requires Reachable(s) && CallAllowed(s, kind, src)
    ensures var (r, status) := SysCall(s, kind, src, m); CallLists(s, r, status, kind, s.curr, src)
  {
    ReachableIsConsistent(s);
    ConsistentLists(s, kind, src, m);
  }

  lemma ConsistentLists(s: Sys, kind: CallKind, src: Source, m: Message)
    requires Inv(s) && CallAllowed(s, kind, src)
    ensures var (r, status) := SysCall(s, kind, src, m); CallLists(s, r, status, kind, s.curr, src)
  {
    var s0 := FillBuffer(s, kind, m);
    var (r, status) := SysCall(s, kind, src, m);
    if !(s.procs[s.curr].priority == User && kind != SendRec) && (kind == Receive || src.From?) {
      FillBufferKeepsInv(s, kind, m);
      CallListsOfFilled(s0, kind, src);
      BufferIsOfNoConcern(s, s0, r, status, kind, s.curr, src, s0.procs[s.curr].buf);
    }
  }
}
