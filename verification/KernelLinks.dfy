/** The kernel's linked lists: entries of the process table joined by slot numbers, NIL ending a list. */
module KernelLinks {
  import opened Lists
  import opened KernelState
  import opened KernelInvariants

  type Link = int
  const NIL: Link := -1

  /** One entry of the process table: the plain fields and the four links. */
  datatype Process = Process(core: Proc, callerHead: Link, callerLink: Link, nextReady: Link, nextHeld: Link)

  /** Which link of an entry a list runs through. */
  datatype Field = CallerLink | NextReady | NextHeld

  function Next(p: Process, f: Field): Link {
    match f
    case CallerLink => p.callerLink
    case NextReady => p.nextReady
    case NextHeld => p.nextHeld
  }

  function WithNext(p: Process, f: Field, l: Link): (r: Process)
    ensures Next(r, f) == l && r.core == p.core && r.callerHead == p.callerHead
    ensures forall g :: g != f ==> Next(r, g) == Next(p, g)
  {
    match f
    case CallerLink => p.(callerLink := l)
    case NextReady => p.(nextReady := l)
    case NextHeld => p.(nextHeld := l)
  }

  ghost function SetNext(procs: seq<Process>, f: Field, p: nat, l: Link): (r: seq<Process>)
    requires p < |procs|
    ensures |r| == |procs|
  {
    procs[p := WithNext(procs[p], f, l)]
  }

  ghost function First(list: seq<nat>): Link {
    if list == [] then NIL else list[0]
  }

  ghost function Last(list: seq<nat>): Link
    requires list != []
  {
    list[|list| - 1]
  }

  /** Following f from head visits exactly the entries of list, in order, and ends. */
  ghost predicate Linked(procs: seq<Process>, f: Field, head: Link, list: seq<nat>) {
    && head == First(list)
    && Slots(list, |procs|)
    && (forall i :: 0 <= i < |list| ==> LinkAt(procs, f, list, i))
  }

  /** Entry i of list points to the next one, or ends the list. */
  ghost predicate LinkAt(procs: seq<Process>, f: Field, list: seq<nat>, i: nat)
    requires Slots(list, |procs|) && i < |list|
  {
    Next(procs[list[i]], f) == if i + 1 < |list| then list[i + 1] else NIL
  }

  lemma LinkedRest(procs: seq<Process>, f: Field, head: Link, list: seq<nat>)
    requires Linked(procs, f, head, list) && list != []
    ensures Linked(procs, f, Next(procs[list[0]], f), list[1..])
  {
    assert LinkAt(procs, f, list, 0);
    forall i: nat | i < |list| - 1
      ensures LinkAt(procs, f, list[1..], i)
    {
      assert LinkAt(procs, f, list, i + 1);
    }
  }

  lemma LinkedPush(procs: seq<Process>, f: Field, head: Link, list: seq<nat>, p: nat)
    requires Linked(procs, f, head, list) && p < |procs| && p !in list
    ensures Linked(SetNext(procs, f, p, head), f, p, [p] + list)
  {
    var procs1 := SetNext(procs, f, p, head);
    forall i: nat | 0 < i <= |list|
      ensures LinkAt(procs1, f, [p] + list, i)
    {
      assert LinkAt(procs, f, list, i - 1);
    }
  }

  /** The entry appended last ends the list, and the former last entry points to it. */
  ghost function Appended(procs: seq<Process>, f: Field, list: seq<nat>, p: nat): (r: seq<Process>)
    requires p < |procs| && Slots(list, |procs|)
    ensures |r| == |procs|
  {
    SetNext(if list == [] then procs else SetNext(procs, f, list[|list| - 1], p), f, p, NIL)
  }

  lemma LinkedAppend(procs: seq<Process>, f: Field, head: Link, list: seq<nat>, p: nat)
    requires Linked(procs, f, head, list) && p < |procs| && p !in list && Distinct(list)
    ensures Linked(Appended(procs, f, list, p), f, if list == [] then p else head, list + [p])
  {
    var procs1 := Appended(procs, f, list, p);
    forall i: nat | i <= |list|
      ensures LinkAt(procs1, f, list + [p], i)
    {
      if i < |list| {
        assert LinkAt(procs, f, list, i);
      }
    }
  }

  lemma LinkedRemoveInner(procs: seq<Process>, f: Field, head: Link, list: seq<nat>, k: nat)
    requires Linked(procs, f, head, list) && Distinct(list) && 0 < k < |list|
    ensures Linked(SetNext(procs, f, list[k - 1], Next(procs[list[k]], f)), f, head, RemoveAt(list, k))
  {
    var procs1 := SetNext(procs, f, list[k - 1], Next(procs[list[k]], f));
    var list1 := RemoveAt(list, k);
    forall i: nat | i < |list1|
      ensures LinkAt(procs1, f, list1, i)
    {
      assert LinkAt(procs, f, list, if i < k then i else i + 1);
      if i == k - 1 {
        assert LinkAt(procs, f, list, k);
      }
    }
  }

  /** Every entry outside `but` keeps its f link. */
  ghost predicate SameLinks(procs: seq<Process>, procs1: seq<Process>, f: Field, but: set<nat>) {
    |procs1| == |procs| && forall x :: 0 <= x < |procs| && x !in but ==> Next(procs1[x], f) == Next(procs[x], f)
  }

  lemma LinkedFrame(procs: seq<Process>, procs1: seq<Process>, f: Field, but: set<nat>, head: Link, list: seq<nat>)
    requires Linked(procs, f, head, list) && SameLinks(procs, procs1, f, but)
    requires forall x :: x in but ==> x !in list
    ensures Linked(procs1, f, head, list)
  {
    forall i | 0 <= i < |list|
      ensures LinkAt(procs1, f, list, i)
    {
      assert list[i] in list && LinkAt(procs, f, list, i);
    }
  }

  // ---------------------------------------------------------------- the table as a whole

  ghost predicate CoresOk(procs: seq<Process>, cores: seq<Proc>) {
    |procs| == |cores| && forall p :: 0 <= p < |procs| ==> procs[p].core == cores[p]
  }

  ghost predicate QueuesLinked(procs: seq<Process>, queues: seq<seq<nat>>) {
    |queues| == |procs|
    && forall d :: 0 <= d < |queues| ==> Linked(procs, CallerLink, procs[d].callerHead, queues[d])
  }

  /** The tail of the task and server lists is right whenever the list is not empty. */
  ghost predicate ReadyLinked(procs: seq<Process>, head: seq<Link>, tail: seq<Link>, ready: seq<seq<nat>>) {
    && |head| == |tail| == |ready| == 3
    && (forall c :: 0 <= c < 3 ==> Linked(procs, NextReady, head[c], ready[c]))
    && (forall c :: 0 <= c < 2 && ready[c] != [] ==> tail[c] == Last(ready[c]))
  }

  /** The tail of the user list, which is set when a user is put in front of others, is never behind its head. */
  ghost predicate UserTail(cores: seq<Proc>, tail: Link, list: seq<nat>) {
    tail != NIL ==>
      && 0 <= tail < |cores| && ListOf(cores[tail].priority) == 2
      && forall i :: 0 < i < |list| ==> list[i] != tail
  }

  ghost predicate SameLists(cores: seq<Proc>, cores1: seq<Proc>) {
    |cores1| == |cores| && forall p :: 0 <= p < |cores| ==> ListOf(cores1[p].priority) == ListOf(cores[p].priority)
  }

  ghost predicate HeldLinked(procs: seq<Process>, head: Link, tail: Link, held: seq<nat>) {
    Linked(procs, NextHeld, head, held) && (held != [] ==> tail == Last(held))
  }

  lemma QueuesFrame(procs: seq<Process>, procs1: seq<Process>, queues: seq<seq<nat>>)
    requires QueuesLinked(procs, queues) && SameLinks(procs, procs1, CallerLink, {})
    requires forall d :: 0 <= d < |procs| ==> procs1[d].callerHead == procs[d].callerHead
    ensures QueuesLinked(procs1, queues)
  {
    forall d | 0 <= d < |queues|
      ensures Linked(procs1, CallerLink, procs1[d].callerHead, queues[d])
    {
      LinkedFrame(procs, procs1, CallerLink, {}, procs[d].callerHead, queues[d]);
    }
  }

  lemma ReadyFrame(procs: seq<Process>, procs1: seq<Process>, head: seq<Link>, tail: seq<Link>, ready: seq<seq<nat>>)
    requires ReadyLinked(procs, head, tail, ready) && SameLinks(procs, procs1, NextReady, {})
    ensures ReadyLinked(procs1, head, tail, ready)
  {
    forall c | 0 <= c < 3
      ensures Linked(procs1, NextReady, head[c], ready[c])
    {
      LinkedFrame(procs, procs1, NextReady, {}, head[c], ready[c]);
    }
  }

  lemma HeldFrame(procs: seq<Process>, procs1: seq<Process>, head: Link, tail: Link, held: seq<nat>)
    requires HeldLinked(procs, head, tail, held) && SameLinks(procs, procs1, NextHeld, {})
    ensures HeldLinked(procs1, head, tail, held)
  {
    LinkedFrame(procs, procs1, NextHeld, {}, head, held);
  }

  // ---------------------------------------------------------------- ready lists

  /** The lists have no duplicates and share no entry. */
  ghost predicate Apart(lists: seq<seq<nat>>) {
    && (forall c :: 0 <= c < |lists| ==> Distinct(lists[c]))
    && (forall c, k, x :: 0 <= c < |lists| && 0 <= k < |lists| && c != k && x in lists[c] ==> x !in lists[k])
  }

  ghost predicate Outside(lists: seq<seq<nat>>, p: nat) {
    forall c :: 0 <= c < |lists| ==> p !in lists[c]
  }

  lemma RunQueuesApart(nrTasks: nat, procs: seq<Proc>, ready: seq<seq<nat>>, lost: set<nat>, e: nat)
    requires |ready| == 3 && AllSlots(ready, |procs|) && RunQueuesBut(nrTasks, procs, ready, lost, e)
    ensures Apart(ready) && (e < |procs| ==> Outside(ready, e))
  {
    if e < |procs| {
      var q := procs[e];
      forall c | 0 <= c < 3
        ensures e !in ready[c]
      {
      }
    }
    forall c, k, x | 0 <= c < 3 && 0 <= k < 3 && c != k && x in ready[c]
      ensures x !in ready[k]
    {
      assert Slots(ready[c], |procs|);
      assert Belongs(nrTasks, procs[x], x, c);
    }
  }

  lemma QueuesApart(procs: seq<Proc>, queues: seq<seq<nat>>)
    requires QueuesOk(procs, queues) && AllSlots(queues, |procs|)
    ensures Apart(queues)
    ensures forall p :: 0 <= p < |procs| && !procs[p].sending ==> Outside(queues, p)
  {
    forall c, k, x | 0 <= c < |queues| && 0 <= k < |queues| && c != k && x in queues[c]
      ensures x !in queues[k]
    {
      assert Slots(queues[c], |procs|);
      assert procs[x].sendTo == c;
    }
  }

  /** Replacing ready list c by list, when only entries of neither of the other lists change their link. */
  lemma ReadyUpdate(procs: seq<Process>, procs1: seq<Process>, but: set<nat>, head: seq<Link>, tail: seq<Link>,
                    ready: seq<seq<nat>>, c: nat, h: Link, t: Link, list: seq<nat>)
    requires ReadyLinked(procs, head, tail, ready) && c < 3
    requires SameLinks(procs, procs1, NextReady, but)
    requires forall k, x :: 0 <= k < 3 && k != c && x in but ==> x !in ready[k]
    requires Linked(procs1, NextReady, h, list) && (c < 2 && list != [] ==> t == Last(list))
    ensures ReadyLinked(procs1, head[c := h], tail[c := t], ready[c := list])
  {
    forall k | 0 <= k < 3 && k != c
      ensures Linked(procs1, NextReady, head[k], ready[k])
    {
      LinkedFrame(procs, procs1, NextReady, but, head[k], ready[k]);
    }
  }

  /** Replacing the queue of d by list, when only entries on no other queue change their link. */
  lemma QueueUpdate(procs: seq<Process>, procs1: seq<Process>, but: set<nat>, queues: seq<seq<nat>>, d: nat,
                    list: seq<nat>)
    requires QueuesLinked(procs, queues) && d < |queues|
    requires SameLinks(procs, procs1, CallerLink, but)
    requires forall k, x :: 0 <= k < |queues| && k != d && x in but ==> x !in queues[k]
    requires forall k :: 0 <= k < |procs| && k != d ==> procs1[k].callerHead == procs[k].callerHead
    requires Linked(procs1, CallerLink, procs1[d].callerHead, list)
    ensures QueuesLinked(procs1, queues[d := list])
  {
    forall k | 0 <= k < |queues| && k != d
      ensures Linked(procs1, CallerLink, procs1[k].callerHead, queues[k])
    {
      LinkedFrame(procs, procs1, CallerLink, but, procs[k].callerHead, queues[k]);
    }
  }

  // ---------------------------------------------------------------- what a change of links represents

  /** The table entries, the list heads and tails, and the abstract state they stand for. */
  ghost predicate Represents(procs: seq<Process>, head: seq<Link>, tail: seq<Link>, heldHead: Link, heldTail: Link,
                             s: Table)
  {
    && CoresOk(procs, s.procs)
    && QueuesLinked(procs, s.queues)
    && ReadyLinked(procs, head, tail, s.ready)
    && HeldLinked(procs, heldHead, heldTail, s.held)
    && UserTail(s.procs, tail[2], s.ready[2])
  }

  /** A change of plain fields leaves all lists as they were. */
  ghost predicate SameChains(procs: seq<Process>, procs1: seq<Process>) {
    |procs1| == |procs| && forall p :: 0 <= p < |procs| ==> procs1[p] == procs[p].(core := procs1[p].core)
  }

  lemma CoreChange(procs: seq<Process>, procs1: seq<Process>, head: seq<Link>, tail: seq<Link>, heldHead: Link,
                   heldTail: Link, s: Sys, r: Sys)
    requires Represents(procs, head, tail, heldHead, heldTail, s) && SameChains(procs, procs1)
    requires CoresOk(procs1, r.procs) && r.queues == s.queues && r.ready == s.ready && r.held == s.held
    requires SameLists(s.procs, r.procs)
    ensures Represents(procs1, head, tail, heldHead, heldTail, r)
  {
    QueuesFrame(procs, procs1, s.queues);
    ReadyFrame(procs, procs1, head, tail, s.ready);
    HeldFrame(procs, procs1, heldHead, heldTail, s.held);
  }

  lemma AppendRepresents(procs: seq<Process>, head: seq<Link>, tail: seq<Link>, heldHead: Link, heldTail: Link,
                         s: Sys, c: nat, p: nat)
    requires Represents(procs, head, tail, heldHead, heldTail, s)
    requires p < |s.procs| && c < 2 && ListOf(s.procs[p].priority) == c && Apart(s.ready) && Outside(s.ready, p)
    ensures Represents(Appended(procs, NextReady, s.ready[c], p),
                       head[c := if s.ready[c] == [] then p else head[c]], tail[c := p], heldHead, heldTail,
                       Ready(s, p))
  {
    var list := s.ready[c];
    var procs1 := Appended(procs, NextReady, list, p);
    var but := if list == [] then {p} else {p, list[|list| - 1]};
    assert list != [] ==> list[|list| - 1] in list;
    LinkedAppend(procs, NextReady, head[c], list, p);
    QueuesFrame(procs, procs1, s.queues);
    HeldFrame(procs, procs1, heldHead, heldTail, s.held);
    ReadyUpdate(procs, procs1, but, head, tail, s.ready, c, if list == [] then p else head[c], p, list + [p]);
  }

  lemma PushRepresents(procs: seq<Process>, head: seq<Link>, tail: seq<Link>, t: Link, heldHead: Link, heldTail: Link,
                       s: Sys, p: nat)
    requires Represents(procs, head, tail, heldHead, heldTail, s)
    requires p < |s.procs| && ListOf(s.procs[p].priority) == 2 && Apart(s.ready) && Outside(s.ready, p)
    requires t == if s.ready[2] == [] then tail[2] else p
    ensures Represents(SetNext(procs, NextReady, p, head[2]), head[2 := p], tail[2 := t], heldHead, heldTail,
                       Ready(s, p))
  {
    var procs1 := SetNext(procs, NextReady, p, head[2]);
    LinkedPush(procs, NextReady, head[2], s.ready[2], p);
    QueuesFrame(procs, procs1, s.queues);
    HeldFrame(procs, procs1, heldHead, heldTail, s.held);
    ReadyUpdate(procs, procs1, {p}, head, tail, s.ready, 2, p, t, [p] + s.ready[2]);
  }

  lemma DropHeadRepresents(procs: seq<Process>, head: seq<Link>, tail: seq<Link>, heldHead: Link, heldTail: Link,
                           s: Sys, r: Sys, c: nat)
    requires Represents(procs, head, tail, heldHead, heldTail, s) && c < 3 && s.ready[c] != []
    requires r.procs == s.procs && r.queues == s.queues && r.held == s.held && r.ready == s.ready[c := s.ready[c][1..]]
    ensures Represents(procs, head[c := procs[s.ready[c][0]].nextReady], tail, heldHead, heldTail, r)
  {
    var list := s.ready[c];
    LinkedRest(procs, NextReady, head[c], list);
    assert c < 2 && list[1..] != [] ==> tail[c] == Last(list[1..]);
    ReadyUpdate(procs, procs, {}, head, tail, s.ready, c, procs[list[0]].nextReady, tail[c], list[1..]);
    assert tail[c := tail[c]] == tail;
  }

  lemma DropInnerRepresents(procs: seq<Process>, head: seq<Link>, tail: seq<Link>, t: Link, heldHead: Link,
                            heldTail: Link, s: Sys, c: nat, k: nat)
    requires Represents(procs, head, tail, heldHead, heldTail, s) && c < 3 && 0 < k < |s.ready[c]|
    requires Apart(s.ready)
    requires t == if tail[c] == s.ready[c][k] then s.ready[c][k - 1] else tail[c]
    ensures s.ready[c][k] < |procs| && s.ready[c][k - 1] < |procs|
    ensures ReadyLinked(SetNext(procs, NextReady, s.ready[c][k - 1], procs[s.ready[c][k]].nextReady),
                        head, tail[c := t], s.ready[c := RemoveAt(s.ready[c], k)])
    ensures UserTail(s.procs, tail[c := t][2], s.ready[c := RemoveAt(s.ready[c], k)][2])
  {
    var list := s.ready[c];
    assert Linked(procs, NextReady, head[c], list);
    var list1 := RemoveAt(list, k);
    var procs1 := SetNext(procs, NextReady, list[k - 1], procs[list[k]].nextReady);
    LinkedRemoveInner(procs, NextReady, head[c], list, k);
    assert list[k - 1] in list;
    if c < 2 {
      assert Last(list1) == if k == |list| - 1 then list[k - 1] else Last(list);
      assert tail[c] == list[k] ==> k == |list| - 1;
    }
    ReadyUpdate(procs, procs1, {list[k - 1]}, head, tail, s.ready, c, head[c], t, list1);
    assert head[c := head[c]] == head;
  }

  /** The entries after schedule: tail points to head, which ends the list. */
  ghost function Rotated(procs: seq<Process>, tail: nat, head: nat): (r: seq<Process>)
    requires tail < |procs| && head < |procs|
    ensures |r| == |procs|
  {
    SetNext(SetNext(procs, NextReady, tail, head), NextReady, head, NIL)
  }

  lemma RescheduledSlots(list: seq<nat>, k: nat, n: nat)
    requires Slots(list, n)
    ensures Slots(Rescheduled(list, k), n)
    ensures First(Rescheduled(list, k)) == if |list| > 1 then list[1] else NIL
  {
  }

  lemma {:induction false} RotatedLinkAt(procs: seq<Process>, list: seq<nat>, tail: nat, k: nat, i: nat)
    requires list != [] && Linked(procs, NextReady, list[0], list) && Distinct(list) && tail < |procs|
    requires k == IndexOf(list, tail) && i < |Rescheduled(list, k)| && Slots(Rescheduled(list, k), |procs|)
    ensures LinkAt(Rotated(procs, tail, list[0]), NextReady, Rescheduled(list, k), i)
  {
    assert i + 1 < |list| ==> LinkAt(procs, NextReady, list, i + 1);
  }

  /** Whatever entry the tail is, the links then form the list that Rescheduled says. */
  lemma {:induction false} RotatedLinks(procs: seq<Process>, list: seq<nat>, tail: nat, k: nat)
    requires list != [] && Linked(procs, NextReady, list[0], list) && Distinct(list) && tail < |procs|
    requires k == IndexOf(list, tail)
    ensures Linked(Rotated(procs, tail, list[0]), NextReady, procs[list[0]].nextReady, Rescheduled(list, k))
  {
    var procs1, list1 := Rotated(procs, tail, list[0]), Rescheduled(list, k);
    RescheduledSlots(list, k, |procs|);
    assert LinkAt(procs, NextReady, list, 0);
    forall i: nat | i < |list1|
      ensures LinkAt(procs1, NextReady, list1, i)
    {
      RotatedLinkAt(procs, list, tail, k, i);
    }
  }

  /** Schedule loses no process exactly if there is none, or there are several and the tail is right; the head is then
      the last. */
  lemma RescheduleKeepsExactly(list: seq<nat>, k: nat)
    requires Distinct(list) && k <= |list|
    ensures (forall p :: p in Rescheduled(list, k) <==> p in list) <==> list == [] || (1 < |list| && k == |list| - 1)
    ensures list != [] && 0 < k == |list| - 1 ==> Rescheduled(list, k) == list[1..] + [list[0]]
  {
    var list1 := Rescheduled(list, k);
    if list != [] && (k == 0 || k == |list|) {
      assert list[0] in list && list[0] !in list1;
    } else if list != [] && k < |list| - 1 {
      assert list[k + 1] in list && list[k + 1] !in list1;
    } else if list != [] {
      assert list == [list[0]] + list[1..];
    }
  }

  /** The ready lists hold processes of their own class only. */
  ghost predicate ByClass(cores: seq<Proc>, ready: seq<seq<nat>>) {
    forall c, x :: 0 <= c < |ready| && x in ready[c] ==> x < |cores| && ListOf(cores[x].priority) == c
  }

  lemma RunQueuesByClass(nrTasks: nat, cores: seq<Proc>, ready: seq<seq<nat>>, lost: set<nat>)
    requires |ready| == 3 && AllSlots(ready, |cores|) && RunQueues(nrTasks, cores, ready, lost)
    ensures ByClass(cores, ready)
  {
    forall c, x | 0 <= c < 3 && x in ready[c]
      ensures x < |cores| && ListOf(cores[x].priority) == c
    {
      assert Slots(ready[c], |cores|);
      assert Belongs(nrTasks, cores[x], x, c);
    }
  }

  lemma ScheduleRepresents(procs: seq<Process>, head: seq<Link>, tail: seq<Link>, heldHead: Link, heldTail: Link,
                           s: Sys, r: Sys, t: nat)
    requires Represents(procs, head, tail, heldHead, heldTail, s) && Apart(s.ready) && ByClass(s.procs, s.ready)
    requires s.ready[2] != [] && t == (if tail[2] == NIL then s.ready[2][0] else tail[2])
    requires r == s.(ready := s.ready[2 := s.ready[2][1..]])
    ensures s.ready[2][0] < |procs| && t < |procs|
    ensures var p := s.ready[2][0];
            Represents(Rotated(procs, t, p), head[2 := procs[p].nextReady], tail[2 := p], heldHead, heldTail, r)
  {
    var list := s.ready[2];
    var p := list[0];
    assert Linked(procs, NextReady, head[2], list) && p in list;
    var procs1 := Rotated(procs, t, p);
    var k := IndexOf(list, t);
    assert k == 0 || k == |list|;
    RotatedLinks(procs, list, t, k);
    QueuesFrame(procs, procs1, s.queues);
    HeldFrame(procs, procs1, heldHead, heldTail, s.held);
    ReadyUpdate(procs, procs1, {t, p}, head, tail, s.ready, 2, procs[p].nextReady, p, list[1..]);
  }

  lemma EnqueueLinks(procs: seq<Process>, queues: seq<seq<nat>>, d: nat, p: nat)
    requires QueuesLinked(procs, queues) && d < |procs| && p < |procs| && Apart(queues) && Outside(queues, p)
    ensures QueuesLinked(Enqueued(procs, queues[d], d, p), queues[d := queues[d] + [p]])
  {
    var list := queues[d];
    var procs1 := Enqueued(procs, list, d, p);
    var but := if list == [] then {p} else {p, list[|list| - 1]};
    assert Linked(procs, CallerLink, procs[d].callerHead, list);
    assert list != [] ==> list[|list| - 1] in list;
    LinkedAppend(procs, CallerLink, procs[d].callerHead, list, p);
    LinkedFrame(Appended(procs, CallerLink, list, p), procs1, CallerLink, {},
                if list == [] then p else procs[d].callerHead, list + [p]);
    QueueUpdate(procs, procs1, but, queues, d, list + [p]);
  }

  lemma EnqueueRepresents(procs: seq<Process>, head: seq<Link>, tail: seq<Link>, heldHead: Link, heldTail: Link,
                          s: Sys, d: nat, p: nat)
    requires Represents(procs, head, tail, heldHead, heldTail, s)
    requires d < |s.procs| && p < |s.procs| && Apart(s.queues) && Outside(s.queues, p)
    ensures Represents(Enqueued(procs, s.queues[d], d, p), head, tail, heldHead, heldTail,
                       s.(queues := s.queues[d := s.queues[d] + [p]]))
  {
    var procs1 := Enqueued(procs, s.queues[d], d, p);
    EnqueueLinks(procs, s.queues, d, p);
    ReadyFrame(procs, procs1, head, tail, s.ready);
    HeldFrame(procs, procs1, heldHead, heldTail, s.held);
  }

  /** The table after p has been hung at the end of list, the queue of d. */
  ghost function Enqueued(procs: seq<Process>, list: seq<nat>, d: nat, p: nat): (r: seq<Process>)
    requires p < |procs| && d < |procs| && Slots(list, |procs|)
    ensures |r| == |procs|
  {
    var procs1 := Appended(procs, CallerLink, list, p);
    if list == [] then procs1[d := procs1[d].(callerHead := p)] else procs1
  }

  /** The table after entry k has been taken out of list, the queue of d. */
  ghost function Dequeued(procs: seq<Process>, list: seq<nat>, d: nat, k: nat): (r: seq<Process>)
    requires d < |procs| && Slots(list, |procs|) && k < |list|
    ensures |r| == |procs|
  {
    var l := procs[list[k]].callerLink;
    if k == 0 then procs[d := procs[d].(callerHead := l)] else SetNext(procs, CallerLink, list[k - 1], l)
  }

  lemma DequeueRepresents(procs: seq<Process>, head: seq<Link>, tail: seq<Link>, heldHead: Link, heldTail: Link,
                          s: Sys, d: nat, k: nat)
    requires Represents(procs, head, tail, heldHead, heldTail, s)
    requires d < |s.procs| && k < |s.queues[d]| && Apart(s.queues)
    ensures Represents(Dequeued(procs, s.queues[d], d, k), head, tail, heldHead, heldTail,
                       s.(queues := s.queues[d := RemoveAt(s.queues[d], k)]))
  {
    var list := s.queues[d];
    var procs1 := Dequeued(procs, list, d, k);
    assert Linked(procs, CallerLink, procs[d].callerHead, list);
    if k == 0 {
      LinkedRest(procs, CallerLink, procs[d].callerHead, list);
      assert list[1..] == RemoveAt(list, 0);
      LinkedFrame(procs, procs1, CallerLink, {}, procs1[d].callerHead, list[1..]);
      QueueUpdate(procs, procs1, {}, s.queues, d, list[1..]);
    } else {
      LinkedRemoveInner(procs, CallerLink, procs[d].callerHead, list, k);
      assert list[k - 1] in list;
      QueueUpdate(procs, procs1, {list[k - 1]}, s.queues, d, RemoveAt(list, k));
    }
    ReadyFrame(procs, procs1, head, tail, s.ready);
    HeldFrame(procs, procs1, heldHead, heldTail, s.held);
  }

  lemma HoldRepresents(procs: seq<Process>, head: seq<Link>, tail: seq<Link>, heldHead: Link, heldTail: Link,
                       s: Sys, p: nat)
    requires Represents(procs, head, tail, heldHead, heldTail, s)
    requires p < |s.procs| && p !in s.held && Distinct(s.held)
    ensures Represents(Appended(procs, NextHeld, s.held, p), head, tail, if s.held == [] then p else heldHead, p,
                       s.(held := s.held + [p]))
  {
    var procs1 := Appended(procs, NextHeld, s.held, p);
    LinkedAppend(procs, NextHeld, heldHead, s.held, p);
    QueuesFrame(procs, procs1, s.queues);
    ReadyFrame(procs, procs1, head, tail, s.ready);
  }

  /** A chain of blocked senders that has come to an end without meeting p shows that p cannot be reached. */
  lemma ChainIsUnique(procs: seq<Proc>, path: seq<nat>, p: nat)
    requires Chain(procs, path) && !procs[path[|path| - 1]].sending && p !in path
    ensures !Reaches(procs, path[0], p)
  {
    if Reaches(procs, path[0], p) {
      var other :| Chain(procs, other) && other[0] == path[0] && other[|other| - 1] == p;
      ChainsAgree(procs, path, other);
    }
  }

  lemma ChainsAgree(procs: seq<Proc>, path: seq<nat>, other: seq<nat>)
    requires Chain(procs, path) && !procs[path[|path| - 1]].sending
    requires Chain(procs, other) && other[0] == path[0]
    ensures other[|other| - 1] in path
  {
    if |other| > 1 {
      assert procs[other[0]].sending;
      ChainsAgree(procs, path[1..], other[1..]);
    }
  }

  /** Copying a whole entry over one that is on no list duplicates its links without touching any list; both entries
      then head the same queue. */
  lemma CopyRepresents(procs: seq<Process>, head: seq<Link>, tail: seq<Link>, heldHead: Link, heldTail: Link,
                       s: Sys, parent: nat, child: nat, q: Proc)
    requires Represents(procs, head, tail, heldHead, heldTail, s)
    requires parent < |s.procs| && child < |s.procs|
    requires Outside(s.queues, child) && Outside(s.ready, child) && child !in s.held
    requires ListOf(q.priority) == ListOf(s.procs[child].priority)
    ensures Represents(procs[child := procs[parent].(core := q)], head, tail, heldHead, heldTail,
                       s.(procs := s.procs[child := q], queues := s.queues[child := s.queues[parent]]))
  {
    var procs1 := procs[child := procs[parent].(core := q)];
    var list := s.queues[parent];
    assert Linked(procs, CallerLink, procs[parent].callerHead, list);
    LinkedFrame(procs, procs1, CallerLink, {child}, procs[parent].callerHead, list);
    QueueUpdate(procs, procs1, {child}, s.queues, child, list);
    forall c | 0 <= c < 3
      ensures Linked(procs1, NextReady, head[c], s.ready[c])
    {
      LinkedFrame(procs, procs1, NextReady, {child}, head[c], s.ready[c]);
    }
    LinkedFrame(procs, procs1, NextHeld, {child}, heldHead, s.held);
  }

  /** A vacant slot is on no list. */
  lemma ForkLeavesLists(s: Sys, child: nat)
    requires Inv(s) && child < |s.procs| && s.procs[child].priority == Vacant
    ensures s.queues[child] == [] && Outside(s.queues, child) && Outside(s.ready, child) && child !in s.held
  {
    assert RoleOf(s.nrTasks, s.procs[child], s.queues[child], child);
    forall c | 0 <= c < 3
      ensures child !in s.ready[c]
    {
      assert child in s.ready[c] <==> Belongs(s.nrTasks, s.procs[child], child, c);
    }
  }

  /** Looking for the child in one more queue changes only the queue it is on; it is off all queues afterwards. */
  lemma WithdrawTurn(s: Sys, child: nat, search: nat)
    requires child < |s.procs| && search < |s.procs| && QueuesOk(s.procs, s.queues) && s.procs[child].sending
    ensures var d := s.procs[child].sendTo;
            var queues := s.queues[d := Remove(s.queues[d], child)];
            && child in s.queues[d] && Apart(queues)
            && (search < d ==> s.queues[search := Remove(s.queues[search], child)] == s.queues)
            && (search < d ==> child !in s.queues[search])
            && (search > d ==> queues[search := Remove(queues[search], child)] == queues && child !in queues[search])
  {
    var d := s.procs[child].sendTo;
    QueuesApart(s.procs, s.queues);
    RemoveKeepsRest(s.queues[d], child);
    assert search != d ==> child !in s.queues[search];
  }
}
