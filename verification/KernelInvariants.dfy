/** What every kernel operation keeps: queue membership, the wait-for graph, rendezvous, the run queues, the held
    interrupts and the message histories. */
module KernelInvariants {
  import opened Lists
  import opened KernelState

  // ---------------------------------------------------------------- the invariants

  /** What kind of process slot p can hold. */
  ghost predicate RoleOf(nrTasks: nat, q: Proc, queue: seq<nat>, p: nat) {
    && (q.priority == Task <==> p < nrTasks && p != nrTasks - 3)
    && (q.priority == Idle <==> p == nrTasks - 3)
    && (q.priority == Server <==> IsServer(nrTasks, p))
    && (q.priority == Vacant ==> q.Runnable() && queue == [])
    && (q.noMap ==> q.priority == User)
    && (q.intBlocked || q.intHeld ==> q.priority == Task)
    && (p == nrTasks - 1 || p == nrTasks - 3 ==> q.Runnable())
  }

  ghost predicate Roles(nrTasks: nat, procs: seq<Proc>, queues: seq<seq<nat>>)
    requires |queues| == |procs|
  {
    forall p :: 0 <= p < |procs| ==> RoleOf(nrTasks, procs[p], queues[p], p)
  }

  /** p is queued on d exactly when it is blocked sending to d, and then once. */
  ghost predicate QueuesOk(procs: seq<Proc>, queues: seq<seq<nat>>)
  {
    && (forall d :: 0 <= d < |queues| ==> Distinct(queues[d]))
    && (forall p, d :: 0 <= p < |procs| && 0 <= d < |queues| ==>
          (p in queues[d] <==> procs[p].sending && procs[p].sendTo == d))
  }

  /** rank strictly decreases from every blocked sender to its destination. */
  ghost predicate Ranks(procs: seq<Proc>, rank: seq<nat>) {
    && |rank| == |procs|
    && (forall p :: 0 <= p < |procs| && procs[p].sending ==>
          procs[p].sendTo < |procs| && rank[procs[p].sendTo] < rank[p])
  }

  ghost predicate Acyclic(procs: seq<Proc>) {
    exists rank :: Ranks(procs, rank)
  }

  /** A process that both sends and receives is inside SEND_REC: it waits for its own destination. */
  ghost predicate SendRecOk(procs: seq<Proc>) {
    forall p :: 0 <= p < |procs| && procs[p].sending && procs[p].receiving ==> procs[p].getFrom == From(procs[p].sendTo)
  }

  /** A process with these fields does not sleep beside a message it is waiting for. */
  ghost predicate NotMissing(nrTasks: nat, q: Proc, queue: seq<nat>) {
    q.receiving && !q.sending ==>
      && (forall i :: 0 <= i < |queue| ==> !Matches(q.getFrom, queue[i]))
      && (AdmitsHardware(nrTasks, q.getFrom) ==> !q.intBlocked)
  }

  ghost predicate NoLostRendezvous(nrTasks: nat, procs: seq<Proc>, queues: seq<seq<nat>>)
    requires |queues| == |procs|
  {
    forall p :: 0 <= p < |procs| ==> NotMissing(nrTasks, procs[p], queues[p])
  }

  ghost predicate HeldOk(procs: seq<Proc>, held: seq<nat>) {
    Distinct(held) && forall t :: 0 <= t < |procs| ==> (t in held <==> procs[t].intHeld)
  }

  /** The message p still has to hand over to d, if any. */
  ghost function Pending(procs: seq<Proc>, p: nat, d: nat): seq<Message> {
    if p < |procs| && procs[p].sending && procs[p].sendTo == d then [procs[p].buf] else []
  }

  /** Everything p sent to d has arrived, in order and unaltered, except the at most one message still pending. */
  ghost predicate HistoryAt(procs: seq<Proc>, sent: History, got: History, p: nat, d: nat) {
    Log(sent, p, d) == Log(got, p, d) + Pending(procs, p, d)
  }

  ghost predicate HistoryOk(procs: seq<Proc>, sent: History, got: History) {
    forall p: nat, d: nat :: HistoryAt(procs, sent, got, p, d)
  }

  /** The run queues, with process e left out of consideration (e == |procs|: nobody). Those in `lost` are users that
      could run but are on no list. */
  ghost predicate RunQueuesBut(nrTasks: nat, procs: seq<Proc>, ready: seq<seq<nat>>, lost: set<nat>, e: nat)
    requires |ready| == 3
  {
    && e !in lost && (forall p :: p in lost ==> IsLost(procs, p))
    && (forall c :: 0 <= c < 3 ==> Distinct(ready[c]))
    && (forall p, c :: 0 <= p < |procs| && 0 <= c < 3 ==>
          (p in ready[c] <==> p != e && p !in lost && Belongs(nrTasks, procs[p], p, c)))
  }

  ghost predicate IsLost(procs: seq<Proc>, p: nat) {
    p < |procs| && procs[p].priority == User && procs[p].Runnable()
  }

  /** A process with these fields has to be on ready list c. */
  ghost predicate Belongs(nrTasks: nat, q: Proc, p: nat, c: nat) {
    Schedulable(nrTasks, q, p) && q.Runnable() && ListOf(q.priority) == c
  }

  ghost predicate RunQueues(nrTasks: nat, procs: seq<Proc>, ready: seq<seq<nat>>, lost: set<nat>)
    requires |ready| == 3
  {
    RunQueuesBut(nrTasks, procs, ready, lost, |procs|)
  }

  /** The current process heads its own list, and is a user only when no task or server is ready; or it is IDLE and
      nothing is ready. */
  ghost predicate CurrOk(nrTasks: nat, procs: seq<Proc>, ready: seq<seq<nat>>, curr: nat)
    requires |ready| == 3 && curr < |procs|
  {
    if curr == nrTasks - 3 then ready[0] == [] && ready[1] == [] && ready[2] == []
    else
      var c := ListOf(procs[curr].priority);
      && ready[c] != [] && ready[c][0] == curr
      && (c == 2 ==> ready[0] == [] && ready[1] == [])
  }

  ghost predicate SchedOkBut(s: Sys, e: nat)
  {
    && RunQueuesBut(s.nrTasks, s.procs, s.ready, s.lost, e)
    && CurrOk(s.nrTasks, s.procs, s.ready, s.curr)
  }

  ghost predicate SchedOk(s: Sys)
  {
    SchedOkBut(s, |s.procs|)
  }

  /** Everything that does not concern scheduling. */
  ghost predicate IpcOk(s: Sys)
  {
    && Roles(s.nrTasks, s.procs, s.queues)
    && QueuesOk(s.procs, s.queues)
    && Acyclic(s.procs)
    && SendRecOk(s.procs)
    && NoLostRendezvous(s.nrTasks, s.procs, s.queues)
    && HeldOk(s.procs, s.held)
    && HistoryOk(s.procs, s.sent, s.got)
  }

  ghost predicate Inv(s: Sys) {
    IpcOk(s) && SchedOk(s)
  }

  // ---------------------------------------------------------------- scheduling steps

  lemma HunterFindsHead(nrTasks: nat, procs: seq<Proc>, queues: seq<seq<nat>>, ready: seq<seq<nat>>, lost: set<nat>,
                        e: nat)
    requires 3 <= nrTasks <= |procs| == |queues| && |ready| == 3 && AllSlots(ready, |procs|)
    requires Roles(nrTasks, procs, queues) && RunQueuesBut(nrTasks, procs, ready, lost, e)
    ensures Hunter(nrTasks, ready) < |procs|
    ensures CurrOk(nrTasks, procs, ready, Hunter(nrTasks, ready))
  {
    var c := if ready[0] != [] then 0 else if ready[1] != [] then 1 else 2;
    if ready[c] != [] {
      var p := ready[c][0];
      assert Slots(ready[c], |procs|);
      assert p in ready[c] && Belongs(nrTasks, procs[p], p, c);
      assert RoleOf(nrTasks, procs[p], queues[p], p);
    }
  }

  /** Putting p on its list, at either end. */
  lemma EnlistKeepsRunQueues(nrTasks: nat, procs: seq<Proc>, ready: seq<seq<nat>>, lost: set<nat>, p: nat, c: nat,
                             list: seq<nat>)
    requires p < |procs| && |ready| == 3 && c < 3 && Belongs(nrTasks, procs[p], p, c)
    requires RunQueuesBut(nrTasks, procs, ready, lost, p)
    requires list == [p] + ready[c] || list == ready[c] + [p]
    ensures RunQueues(nrTasks, procs, ready[c := list], lost)
  {
    assert p !in ready[c];
    forall x, k | 0 <= x < |procs| && 0 <= k < 3
      ensures x in ready[c := list][k] <==> x !in lost && Belongs(nrTasks, procs[x], x, k)
    {
      assert x in ready[c := list][k] <==> x in ready[k] || (x == p && k == c);
    }
  }

  lemma ReadyKeepsRunQueues(s: Sys, p: nat)
    requires p < |s.procs| && SchedOkBut(s, p)
    requires Schedulable(s.nrTasks, s.procs[p], p) && s.procs[p].Runnable() && s.procs[s.nrTasks - 3].priority == Idle
    requires s.procs[p].priority == User ==> s.procs[s.curr].priority in {Task, Server}
    ensures SchedOk(Ready(s, p))
    ensures var r := Ready(s, p); r.curr == s.curr || s.procs[r.curr].priority in {Task, Server}
  {
    var c := ListOf(s.procs[p].priority);
    EnlistKeepsRunQueues(s.nrTasks, s.procs, s.ready, s.lost, p, c, Ready(s, p).ready[c]);
    assert s.ready[c := Ready(s, p).ready[c]] == Ready(s, p).ready;
  }

  /** Taking p, and nobody else, off its list. */
  lemma DelistKeepsRunQueues(nrTasks: nat, procs: seq<Proc>, ready: seq<seq<nat>>, lost: set<nat>, p: nat, c: nat,
                             list: seq<nat>)
    requires p < |procs| && |ready| == 3 && c == ListOf(procs[p].priority) && p !in lost
    requires RunQueues(nrTasks, procs, ready, lost)
    requires Distinct(list) && forall x :: x in list <==> x in ready[c] && x != p
    ensures RunQueuesBut(nrTasks, procs, ready[c := list], lost, p)
  {
  }

  lemma UnreadyHead(s: Sys, p: nat)
    requires Roles(s.nrTasks, s.procs, s.queues) && p < |s.procs| && SchedOk(s)
    requires s.procs[p].priority in {Task, Server, User} && p !in s.lost
    requires s.ready[ListOf(s.procs[p].priority)] != [] && s.ready[ListOf(s.procs[p].priority)][0] == p
    ensures SchedOkBut(Unready(s, p), p)
  {
    var c := ListOf(s.procs[p].priority);
    var list := s.ready[c];
    assert list[1..] == RemoveAt(list, 0);
    RemoveAtKeepsRest(list, 0);
    DelistKeepsRunQueues(s.nrTasks, s.procs, s.ready, s.lost, p, c, list[1..]);
    var r := Unready(s, p);
    if c == 0 && p != s.curr {
      assert RoleOf(s.nrTasks, s.procs[s.curr], s.queues[s.curr], s.curr);
    } else {
      HunterFindsHead(s.nrTasks, s.procs, s.queues, r.ready, s.lost, p);
    }
  }

  lemma UnreadyInner(s: Sys, p: nat)
    requires p < |s.procs| && SchedOk(s) && p !in s.lost
    requires s.ready[ListOf(s.procs[p].priority)] != [] && s.ready[ListOf(s.procs[p].priority)][0] != p
    ensures SchedOkBut(Unready(s, p), p)
  {
    var c := ListOf(s.procs[p].priority);
    var list := s.ready[c];
    RemoveKeepsRest(list, p);
    DelistKeepsRunQueues(s.nrTasks, s.procs, s.ready, s.lost, p, c, Remove(list, p));
    assert Remove(list, p)[0] == list[0];
  }

  lemma UnreadyKeepsRunQueues(s: Sys, p: nat)
    requires Roles(s.nrTasks, s.procs, s.queues) && p < |s.procs| && SchedOk(s)
    requires Schedulable(s.nrTasks, s.procs[p], p) && s.procs[p].Runnable() && p !in s.lost
    ensures SchedOkBut(Unready(s, p), p)
  {
    var c := ListOf(s.procs[p].priority);
    assert p in s.ready[c];
    if s.ready[c][0] == p {
      UnreadyHead(s, p);
    } else {
      UnreadyInner(s, p);
    }
  }

  /** A process left out of consideration may change its flags, and counts again once it is blocked. */
  lemma ChangeUnlisted(nrTasks: nat, procs: seq<Proc>, ready: seq<seq<nat>>, lost: set<nat>, curr: nat, p: nat, q: Proc)
    requires p < |procs| && |ready| == 3 && curr < |procs| && q.priority == procs[p].priority
    requires RunQueuesBut(nrTasks, procs, ready, lost, p) && CurrOk(nrTasks, procs, ready, curr)
    ensures RunQueuesBut(nrTasks, procs[p := q], ready, lost, p) && CurrOk(nrTasks, procs[p := q], ready, curr)
    ensures !q.Runnable() ==> RunQueues(nrTasks, procs[p := q], ready, lost)
  {
  }

  lemma BlockedIsUnlisted(nrTasks: nat, procs: seq<Proc>, ready: seq<seq<nat>>, lost: set<nat>, p: nat)
    requires p < |procs| && |ready| == 3 && RunQueues(nrTasks, procs, ready, lost) && !procs[p].Runnable()
    ensures RunQueuesBut(nrTasks, procs, ready, lost, p)
  {
  }

  lemma ChangeSameFlags(nrTasks: nat, procs: seq<Proc>, ready: seq<seq<nat>>, lost: set<nat>, curr: nat, p: nat,
                        q: Proc)
    requires p < |procs| && |ready| == 3 && curr < |procs|
    requires q.priority == procs[p].priority && q.Runnable() == procs[p].Runnable()
    requires RunQueues(nrTasks, procs, ready, lost) && CurrOk(nrTasks, procs, ready, curr)
    ensures RunQueues(nrTasks, procs[p := q], ready, lost) && CurrOk(nrTasks, procs[p := q], ready, curr)
  {
  }

  /** s1 is s after p, which was on no list, has become q: p is woken if its new flags allow it to run. */
  lemma WakeKeepsSched(s: Sys, s1: Sys, p: nat, q: Proc)
    requires p < |s.procs| && SchedOk(s) && !s.procs[p].Runnable()
    requires s1.procs == s.procs[p := q]
    requires s1.nrTasks == s.nrTasks && s1.ready == s.ready && s1.curr == s.curr && s1.lost == s.lost
    requires q.priority == s.procs[p].priority && Schedulable(s.nrTasks, q, p)
    requires s.procs[s.nrTasks - 3].priority == Idle
    requires q.priority == User && q.Runnable() ==> s.procs[s.curr].priority in {Task, Server}
    ensures var r := ReadyIfRunnable(s1, p);
            SchedOk(r) && (r.curr == s.curr || s.procs[r.curr].priority in {Task, Server})
  {
    BlockedIsUnlisted(s.nrTasks, s.procs, s.ready, s.lost, p);
    ChangeUnlisted(s.nrTasks, s.procs, s.ready, s.lost, s.curr, p, q);
    if q.Runnable() {
      ReadyKeepsRunQueues(s1, p);
    }
  }

  /** Blocks p, which becomes q. */
  lemma SleepKeepsSched(s: Sys, p: nat, q: Proc)
    requires Roles(s.nrTasks, s.procs, s.queues) && p < |s.procs| && SchedOk(s)
    requires Schedulable(s.nrTasks, s.procs[p], p) && p !in s.lost
    requires q.priority == s.procs[p].priority && !q.Runnable() && q.sendTo < |s.procs|
    ensures var r := UnreadyIfRunnable(s, p).(procs := s.procs[p := q]); r.Shape() && SchedOk(r)
  {
    var s1 := UnreadyIfRunnable(s, p);
    if s.procs[p].Runnable() {
      UnreadyKeepsRunQueues(s, p);
    } else {
      BlockedIsUnlisted(s.nrTasks, s.procs, s.ready, s.lost, p);
    }
    ChangeUnlisted(s.nrTasks, s.procs, s1.ready, s.lost, s1.curr, p, q);
  }

  // ---------------------------------------------------------------- the wait-for graph

  lemma ReachesStep(procs: seq<Proc>, x: nat, p: nat)
    requires x < |procs| && p < |procs| && procs[x].sending && procs[x].sendTo < |procs| && !procs[p].sending
    ensures Reaches(procs, x, p) <==> Reaches(procs, procs[x].sendTo, p)
  {
    var y := procs[x].sendTo;
    if Reaches(procs, x, p) {
      var path :| Chain(procs, path) && path[0] == x && path[|path| - 1] == p;
      assert Chain(procs, path[1..]);
    }
    if Reaches(procs, y, p) {
      var path :| Chain(procs, path) && path[0] == y && path[|path| - 1] == p;
      assert Chain(procs, [x] + path);
    }
  }

  /** Blocking p on d closes no cycle when d does not already lead to p. */
  lemma BlockingKeepsAcyclic(procs: seq<Proc>, p: nat, d: nat, q: Proc)
    requires p < |procs| && d < |procs| && !procs[p].sending && Acyclic(procs) && !Reaches(procs, d, p)
    requires q.sending && q.sendTo == d
    ensures Acyclic(procs[p := q])
  {
    var rank :| Ranks(procs, rank);
    var rank1 := seq(|procs|, i requires 0 <= i < |procs| =>
      if Reaches(procs, i, p) then rank[i] + rank[d] + 1 else rank[i]);
    assert Reaches(procs, p, p) by {
      assert Chain(procs, [p]);
    }
    forall x | 0 <= x < |procs| && x != p && procs[x].sending
      ensures rank1[procs[x].sendTo] < rank1[x]
    {
      ReachesStep(procs, x, p);
    }
    assert Ranks(procs[p := q], rank1);
  }

  lemma UnblockingKeepsAcyclic(procs: seq<Proc>, p: nat, q: Proc)
    requires p < |procs| && Acyclic(procs)
    requires !q.sending || (procs[p].sending && q.sendTo == procs[p].sendTo)
    ensures Acyclic(procs[p := q])
  {
    var rank :| Ranks(procs, rank);
    assert Ranks(procs[p := q], rank);
  }

  lemma ChainDescends(procs: seq<Proc>, rank: seq<nat>, path: seq<nat>)
    requires Ranks(procs, rank) && Chain(procs, path)
    ensures rank[path[|path| - 1]] + |path| <= rank[path[0]] + 1
  {
    if |path| > 1 {
      ChainDescends(procs, rank, path[1..]);
    }
  }

  /** No process waits for itself, directly or through others. */
  lemma AcyclicHasNoCycle(procs: seq<Proc>, path: seq<nat>)
    requires Acyclic(procs) && Chain(procs, path) && |path| > 1
    ensures path[0] != path[|path| - 1]
  {
    var rank :| Ranks(procs, rank);
    ChainDescends(procs, rank, path);
  }

  // ---------------------------------------------------------------- rendezvous steps

  /** p can be the process a call is executed for: a scheduled process whose memory is in place. */
  ghost predicate Active(s: Sys, p: nat)
  {
    p < |s.procs| && Schedulable(s.nrTasks, s.procs[p], p) && !s.procs[p].noMap && p !in s.lost
  }

  /** The invariants that look at one process and its own queue. */
  ghost predicate LocalOk(nrTasks: nat, procs: seq<Proc>, queues: seq<seq<nat>>)
    requires |queues| == |procs|
  {
    Roles(nrTasks, procs, queues) && NoLostRendezvous(nrTasks, procs, queues) && SendRecOk(procs)
  }

  lemma ChangeKeepsLocal(nrTasks: nat, procs: seq<Proc>, queues: seq<seq<nat>>, p: nat, q: Proc, queue: seq<nat>)
    requires |queues| == |procs| && p < |procs| && LocalOk(nrTasks, procs, queues)
    requires RoleOf(nrTasks, q, queue, p) && NotMissing(nrTasks, q, queue)
    requires q.sending && q.receiving ==> q.getFrom == From(q.sendTo)
    ensures LocalOk(nrTasks, procs[p := q], queues[p := queue])
  {
  }

  lemma ChangeKeepsHeld(procs: seq<Proc>, held: seq<nat>, p: nat, q: Proc)
    requires p < |procs| && HeldOk(procs, held) && q.intHeld == procs[p].intHeld
    ensures HeldOk(procs[p := q], held)
  {
  }

  /** What a process with nothing pending has in its buffer is of no concern. */
  lemma ChangeKeepsHistory(procs: seq<Proc>, sent: History, got: History,
                           p: nat, q: Proc)
    requires p < |procs| && HistoryOk(procs, sent, got)
    requires q.sending == procs[p].sending
    requires q.sending ==> q.sendTo == procs[p].sendTo && q.buf == procs[p].buf
    ensures HistoryOk(procs[p := q], sent, got)
  {
    var procs1 := procs[p := q];
    forall x: nat, y: nat
      ensures HistoryAt(procs1, sent, got, x, y)
    {
      assert HistoryAt(procs, sent, got, x, y);
    }
  }

  lemma DeliveryKeepsHistory(procs: seq<Proc>, sent: History, got: History,
                             p: nat, d: nat, m: Message)
    requires p < |procs| && !procs[p].sending && HistoryOk(procs, sent, got)
    ensures HistoryOk(procs, Append(sent, p, d, m), Append(got, p, d, m))
  {
    var sent1 := Append(sent, p, d, m);
    var got1 := Append(got, p, d, m);
    forall x: nat, y: nat
      ensures HistoryAt(procs, sent1, got1, x, y)
    {
      assert HistoryAt(procs, sent, got, x, y);
    }
  }

  lemma DeliverKeepsIpc(s: Sys, p: nat, d: nat)
    requires IpcOk(s) && p < |s.procs| && d < |s.procs|
    requires !s.procs[p].sending && s.procs[d].receiving && !s.procs[d].sending
    ensures IpcOk(Deliver(s, p, d))
  {
    var m := s.procs[p].buf;
    var q := s.procs[d].(buf := m, receiving := false);
    assert RoleOf(s.nrTasks, s.procs[d], s.queues[d], d);
    UnblockingKeepsAcyclic(s.procs, d, q);
    ChangeKeepsLocal(s.nrTasks, s.procs, s.queues, d, q, s.queues[d]);
    ChangeKeepsQueues(s.procs, s.queues, d, q);
    ChangeKeepsHeld(s.procs, s.held, d, q);
    ChangeKeepsHistory(s.procs, s.sent, s.got, d, q);
    DeliveryKeepsHistory(s.procs[d := q], s.sent, s.got, p, d, m);
    assert s.queues[d := s.queues[d]] == s.queues;
  }

  lemma ChangeKeepsQueues(procs: seq<Proc>, queues: seq<seq<nat>>, p: nat, q: Proc)
    requires p < |procs| && QueuesOk(procs, queues)
    requires q.sending == procs[p].sending && q.sendTo == procs[p].sendTo
    ensures QueuesOk(procs[p := q], queues)
  {
  }

  lemma BlockSenderKeepsQueues(procs: seq<Proc>, queues: seq<seq<nat>>, p: nat, d: nat, q: Proc)
    requires |queues| == |procs| && p < |procs| && d < |procs| && !procs[p].sending && QueuesOk(procs, queues)
    requires q.sending && q.sendTo == d
    ensures QueuesOk(procs[p := q], queues[d := queues[d] + [p]])
  {
    assert p !in queues[d];
    var queues1 := queues[d := queues[d] + [p]];
    forall x, y | 0 <= x < |procs| && 0 <= y < |queues|
      ensures x in queues1[y] <==> procs[p := q][x].sending && procs[p := q][x].sendTo == y
    {
      assert x in queues1[y] <==> x in queues[y] || (x == p && y == d);
    }
  }

  lemma BlockSenderKeepsHistory(procs: seq<Proc>, sent: History,
                                got: History, p: nat, q: Proc)
    requires p < |procs| && !procs[p].sending && q.sending && HistoryOk(procs, sent, got)
    ensures HistoryOk(procs[p := q], Append(sent, p, q.sendTo, q.buf), got)
  {
    var procs1 := procs[p := q];
    var sent1 := Append(sent, p, q.sendTo, q.buf);
    forall x: nat, y: nat
      ensures HistoryAt(procs1, sent1, got, x, y)
    {
      assert HistoryAt(procs, sent, got, x, y);
    }
  }

  lemma BlockSenderKeepsIpc(s: Sys, p: nat, d: nat)
    requires IpcOk(s) && Active(s, p) && d < |s.procs| && p != d
    requires !s.procs[p].sending && !s.procs[p].receiving && s.procs[d].priority != Vacant
    requires !Reaches(s.procs, d, p) && !s.procs[d].Accepts(p)
    ensures IpcOk(BlockSender(s, p, d))
  {
    var q := s.procs[p].(sending := true, sendTo := d);
    var procs := s.procs[p := q];
    var queue := s.queues[d] + [p];
    assert RoleOf(s.nrTasks, s.procs[p], s.queues[p], p) && RoleOf(s.nrTasks, s.procs[d], s.queues[d], d);
    assert NotMissing(s.nrTasks, s.procs[d], s.queues[d]);
    BlockingKeepsAcyclic(s.procs, p, d, q);
    BlockSenderKeepsQueues(s.procs, s.queues, p, d, q);
    ChangeKeepsLocal(s.nrTasks, s.procs, s.queues, p, q, s.queues[p]);
    assert s.queues[p := s.queues[p]] == s.queues;
    ChangeKeepsLocal(s.nrTasks, procs, s.queues, d, procs[d], queue);
    assert procs[d := procs[d]] == procs;
    ChangeKeepsHeld(s.procs, s.held, p, q);
    BlockSenderKeepsHistory(s.procs, s.sent, s.got, p, q);
  }

  lemma TakeKeepsQueues(procs: seq<Proc>, queues: seq<seq<nat>>, p: nat, k: nat, q: Proc)
    requires |queues| == |procs| && p < |procs| && k < |queues[p]| && queues[p][k] < |procs|
    requires QueuesOk(procs, queues) && !q.sending
    ensures QueuesOk(procs[queues[p][k] := q], queues[p := RemoveAt(queues[p], k)])
  {
    var x0 := queues[p][k];
    RemoveAtKeepsRest(queues[p], k);
    assert x0 in queues[p] && procs[x0].sendTo == p;
    var queues1 := queues[p := RemoveAt(queues[p], k)];
    forall x, y | 0 <= x < |procs| && 0 <= y < |queues|
      ensures x in queues1[y] <==> procs[x0 := q][x].sending && procs[x0 := q][x].sendTo == y
    {
      assert x in queues1[y] <==> x in queues[y] && !(x == x0 && y == p);
      assert x0 in queues[y] ==> y == p;
    }
  }

  lemma TakeKeepsHistory(procs: seq<Proc>, sent: History, got: History,
                         p: nat, q: Proc)
    requires p < |procs| && procs[p].sending && !q.sending && HistoryOk(procs, sent, got)
    ensures HistoryOk(procs[p := q], sent, Append(got, p, procs[p].sendTo, procs[p].buf))
  {
    var got1 := Append(got, p, procs[p].sendTo, procs[p].buf);
    var procs1 := procs[p := q];
    forall x: nat, y: nat
      ensures HistoryAt(procs1, sent, got1, x, y)
    {
      assert HistoryAt(procs, sent, got, x, y);
    }
  }

  lemma TakeMessageKeepsIpc(s: Sys, p: nat, k: nat)
    requires IpcOk(s) && Active(s, p) && k < |s.queues[p]|
    requires !s.procs[p].sending && !s.procs[p].receiving
    ensures IpcOk(TakeMessage(s, p, k))
  {
    var x := s.queues[p][k];
    assert x in s.queues[p] && Slots(s.queues[p], |s.procs|);
    var q := s.procs[p].(buf := s.procs[x].buf);
    var procs1 := s.procs[p := q];
    var x1 := s.procs[x].(sending := false);
    var queue := RemoveAt(s.queues[p], k);
    assert RoleOf(s.nrTasks, s.procs[p], s.queues[p], p) && RoleOf(s.nrTasks, s.procs[x], s.queues[x], x);
    UnblockingKeepsAcyclic(s.procs, p, q);
    UnblockingKeepsAcyclic(procs1, x, x1);
    ChangeKeepsLocal(s.nrTasks, s.procs, s.queues, p, q, queue);
    assert p !in s.queues[x];
    ChangeKeepsLocal(s.nrTasks, procs1, s.queues[p := queue], x, x1, s.queues[x]);
    assert s.queues[p := queue][x := s.queues[x]] == s.queues[p := queue];
    ChangeKeepsHeld(s.procs, s.held, p, q);
    ChangeKeepsHeld(procs1, s.held, x, x1);
    ChangeKeepsHistory(s.procs, s.sent, s.got, p, q);
    TakeKeepsHistory(procs1, s.sent, s.got, x, x1);
    ChangeKeepsQueues(s.procs, s.queues, p, q);
    TakeKeepsQueues(procs1, s.queues, p, k, x1);
  }

  /** A change to one process that sends nothing before and after, or keeps sending what it was sending. */
  lemma ChangeKeepsIpc(s: Sys, p: nat, q: Proc)
    requires IpcOk(s) && p < |s.procs| && q.sendTo < |s.procs|
    requires RoleOf(s.nrTasks, q, s.queues[p], p) && NotMissing(s.nrTasks, q, s.queues[p])
    requires q.sending && q.receiving ==> q.getFrom == From(q.sendTo)
    requires q.sending == s.procs[p].sending && q.sendTo == s.procs[p].sendTo && q.intHeld == s.procs[p].intHeld
    requires q.sending ==> q.buf == s.procs[p].buf
    ensures s.(procs := s.procs[p := q]).Shape() && IpcOk(s.(procs := s.procs[p := q]))
  {
    UnblockingKeepsAcyclic(s.procs, p, q);
    ChangeKeepsLocal(s.nrTasks, s.procs, s.queues, p, q, s.queues[p]);
    ChangeKeepsQueues(s.procs, s.queues, p, q);
    ChangeKeepsHeld(s.procs, s.held, p, q);
    ChangeKeepsHistory(s.procs, s.sent, s.got, p, q);
    assert s.queues[p := s.queues[p]] == s.queues;
  }

  // ---------------------------------------------------------------- calls

  /** Why the current process can make calls. */
  lemma CurrIsActive(s: Sys)
    requires Inv(s) && s.curr != s.IdleTask()
    ensures Active(s, s.curr) && s.procs[s.curr].Runnable()
  {
    var c := ListOf(s.procs[s.curr].priority);
    assert s.curr in s.ready[c];
    assert Belongs(s.nrTasks, s.procs[s.curr], s.curr, c);
  }

  lemma IdleHasItsRole(s: Sys)
    requires Roles(s.nrTasks, s.procs, s.queues)
    ensures s.procs[s.nrTasks - 3].priority == Idle
  {
    assert RoleOf(s.nrTasks, s.procs[s.nrTasks - 3], s.queues[s.nrTasks - 3], s.nrTasks - 3);
  }

  /** Where a sender stands after its call succeeded: running on, or blocked on d. */
  ghost predicate AfterSend(s: Sys, r: Sys, p: nat, d: nat)
    requires r.SameTable(s) && p < |s.procs|
  {
    && r.lost == s.lost
    && if r.procs[p].sending then
         r.procs[p] == s.procs[p].(sending := true, sendTo := d)
       else
         r.procs[p] == s.procs[p] && (r.curr == s.curr || r.procs[r.curr].priority in {Task, Server})
  }

  lemma DeliverLeavesSender(s: Sys, p: nat, d: nat)
    requires p < |s.procs| && d < |s.procs| && p != d
    ensures Deliver(s, p, d).procs[p] == s.procs[p]
  {
  }

  lemma DeliverKeepsInv(s: Sys, p: nat, d: nat)
    requires Inv(s) && p < |s.procs| && d < |s.procs| && !s.procs[p].sending && s.procs[d].Accepts(p)
    requires s.procs[d].priority == User ==> s.procs[s.curr].priority in {Task, Server}
    ensures var r := Deliver(s, p, d);
            Inv(r) && (r.curr == s.curr || s.procs[r.curr].priority in {Task, Server})
  {
    var m := s.procs[p].buf;
    var q := s.procs[d].(buf := m, receiving := false);
    IdleHasItsRole(s);
    assert RoleOf(s.nrTasks, s.procs[d], s.queues[d], d);
    WakeKeepsSched(s, s.(procs := s.procs[d := q], sent := Append(s.sent, p, d, m), got := Append(s.got, p, d, m)),
                   d, q);
    DeliverKeepsIpc(s, p, d);
  }

  lemma BlockSenderKeepsInv(s: Sys, p: nat, d: nat)
    requires Inv(s) && Active(s, p) && d < |s.procs| && p != d
    requires s.procs[p].Runnable() && s.procs[d].priority != Vacant
    requires !Reaches(s.procs, d, p) && !s.procs[d].Accepts(p)
    ensures Inv(BlockSender(s, p, d)) && AfterSend(s, BlockSender(s, p, d), p, d)
  {
    BlockSenderKeepsIpc(s, p, d);
    SleepKeepsSched(s, p, s.procs[p].(sending := true, sendTo := d));
  }

  lemma SendKeepsInv(s: Sys, d: nat)
    requires Inv(s) && s.curr != s.IdleTask() && d < |s.procs| && s.curr != d
    ensures var r := SendMessage(s, s.curr, d); Inv(r.0) && (r.1 == Ok ==> AfterSend(s, r.0, s.curr, d))
  {
    var p := s.curr;
    CurrIsActive(s);
    if s.procs[p].priority == User && !IsServer(s.nrTasks, d) {
    } else if s.procs[d].priority == Vacant || Reaches(s.procs, d, p) {
    } else if s.procs[d].Accepts(p) {
      assert RoleOf(s.nrTasks, s.procs[d], s.queues[d], d);
      DeliverKeepsInv(s, p, d);
      DeliverLeavesSender(s, p, d);
    } else {
      BlockSenderKeepsInv(s, p, d);
    }
  }

  lemma TakeMessageKeepsInv(s: Sys, p: nat, k: nat)
    requires Inv(s) && Active(s, p) && k < |s.queues[p]| && s.queues[p][k] < |s.procs|
    requires !s.procs[p].sending && !s.procs[p].receiving
    requires s.procs[s.queues[p][k]].priority == User ==> s.procs[s.curr].priority in {Task, Server}
    ensures Inv(TakeMessage(s, p, k))
  {
    var x := s.queues[p][k];
    assert x in s.queues[p];
    var q := s.procs[p].(buf := s.procs[x].buf);
    var x1 := s.procs[x].(sending := false);
    var s1 := s.(procs := s.procs[p := q]);
    var s2 := s1.(procs := s1.procs[x := x1], queues := s.queues[p := RemoveAt(s.queues[p], k)],
                  got := Append(s.got, x, p, s.procs[x].buf));
    IdleHasItsRole(s);
    assert RoleOf(s.nrTasks, s.procs[x], s.queues[x], x);
    ChangeSameFlags(s.nrTasks, s.procs, s.ready, s.lost, s.curr, p, q);
    WakeKeepsSched(s1, s2, x, x1);
    TakeMessageKeepsIpc(s, p, k);
  }

  lemma TakeInterruptKeepsInv(s: Sys, p: nat)
    requires Inv(s) && Active(s, p) && !s.procs[p].sending && !s.procs[p].receiving
    ensures Inv(TakeInterrupt(s, p))
  {
    var q := s.procs[p].(buf := Message(s.Hardware(), HARD_INT, 0), intBlocked := false);
    assert RoleOf(s.nrTasks, s.procs[p], s.queues[p], p);
    ChangeKeepsIpc(s, p, q);
    ChangeSameFlags(s.nrTasks, s.procs, s.ready, s.lost, s.curr, p, q);
  }

  lemma BlockReceiverKeepsInv(s: Sys, p: nat, src: Source)
    requires Inv(s) && Active(s, p)
    requires s.procs[p].sending ==> src == From(s.procs[p].sendTo)
    requires NotMissing(s.nrTasks, s.procs[p].(receiving := true, getFrom := src), s.queues[p])
    ensures Inv(BlockReceiver(s, p, src))
  {
    var q := s.procs[p].(receiving := true, getFrom := src);
    assert RoleOf(s.nrTasks, s.procs[p], s.queues[p], p);
    ChangeKeepsIpc(s, p, q);
    SleepKeepsSched(s, p, q);
  }

  lemma ReceiveKeepsInv(s: Sys, p: nat, src: Source)
    requires Inv(s) && Active(s, p) && !s.procs[p].receiving
    requires s.procs[p].sending ==> src == From(s.procs[p].sendTo)
    requires !s.procs[p].sending && s.procs[p].priority != User ==> s.procs[s.curr].priority in {Task, Server}
    requires s.procs[p].priority == User ==> src.From? && IsServer(s.nrTasks, src.p)
    ensures Inv(ReceiveMessage(s, p, src))
  {
    var k := FirstMatch(s.queues[p], src);
    if s.procs[p].sending {
      BlockReceiverKeepsInv(s, p, src);
    } else if k < |s.queues[p]| {
      assert Slots(s.queues[p], |s.procs|);
      var x := s.queues[p][k];
      assert RoleOf(s.nrTasks, s.procs[x], s.queues[x], x);
      TakeMessageKeepsInv(s, p, k);
    } else if s.procs[p].intBlocked && AdmitsHardware(s.nrTasks, src) {
      TakeInterruptKeepsInv(s, p);
    } else {
      BlockReceiverKeepsInv(s, p, src);
    }
  }

  /** What the kernel asks of a caller: it exists, does not send to itself, and, unless it is a user process, names a
      definite destination. */
  ghost predicate CallAllowed(s: Sys, kind: CallKind, src: Source)
  {
    && s.curr != s.IdleTask()
    && (src.From? ==> src.p < |s.procs|)
    && (kind != Receive ==> src != From(s.curr))
    && (kind != Receive && s.procs[s.curr].priority != User ==> src.From?)
  }

  lemma FillBufferKeepsInv(s: Sys, kind: CallKind, m: Message)
    requires Inv(s) && s.curr != s.IdleTask()
    ensures Inv(FillBuffer(s, kind, m)) && FillBuffer(s, kind, m).procs[s.curr].Runnable()
  {
    var q := FillBuffer(s, kind, m).procs[s.curr];
    CurrIsActive(s);
    assert RoleOf(s.nrTasks, s.procs[s.curr], s.queues[s.curr], s.curr);
    ChangeKeepsIpc(s, s.curr, q);
    ChangeSameFlags(s.nrTasks, s.procs, s.ready, s.lost, s.curr, s.curr, q);
  }

  /** The receiving half of SEND_REC, whether or not the sending half blocked the caller. */
  lemma ReplyWaitKeepsInv(s: Sys, r: Sys, d: nat)
    requires Inv(r) && r.SameTable(s) && Active(s, s.curr) && s.procs[s.curr].Runnable()
    requires AfterSend(s, r, s.curr, d)
    requires s.procs[s.curr].priority == User ==> IsServer(s.nrTasks, d)
    ensures Inv(ReceiveMessage(r, s.curr, From(d)))
  {
    ReceiveKeepsInv(r, s.curr, From(d));
  }

  lemma SendRecKeepsInv(s: Sys, d: nat)
    requires Inv(s) && s.curr != s.IdleTask() && d < |s.procs| && s.curr != d
    requires SendMessage(s, s.curr, d).1 == Ok
    ensures Inv(ReceiveMessage(SendMessage(s, s.curr, d).0, s.curr, From(d)))
  {
    SendKeepsInv(s, d);
    CurrIsActive(s);
    ReplyWaitKeepsInv(s, SendMessage(s, s.curr, d).0, d);
  }

  lemma SysCallKeepsInv(s: Sys, kind: CallKind, src: Source, m: Message)
    requires Inv(s) && CallAllowed(s, kind, src)
    ensures Inv(SysCall(s, kind, src, m).0)
  {
    var s0 := FillBuffer(s, kind, m);
    FillBufferKeepsInv(s, kind, m);
    CurrIsActive(s0);
    if s.procs[s.curr].priority == User && kind != SendRec {
    } else if kind == Receive {
      ReceiveKeepsInv(s0, s.curr, src);
    } else if src != Any {
      SendKeepsInv(s0, src.p);
      if kind == SendRec && SendMessage(s0, s.curr, src.p).1 == Ok {
        SendRecKeepsInv(s0, src.p);
      }
    }
  }
}
