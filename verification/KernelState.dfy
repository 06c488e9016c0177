/** The kernel's process table as a value: linked lists are sequences, and every kernel operation is a function.
    The class KernelTable.Kernel implements these operations on links between table slots.

    A process is named by its slot in the table. Slots 0 .. nrTasks-1 are the tasks (process numbers -nrTasks .. -1);
    the last three tasks are IDLE, SYS and HARDWARE. The next three slots are the servers MM, FS and FLY. */
module KernelState {
  import opened Lists

  const ANY := 0x679
  const HARD_INT := 2
  const NR_SERVERS := 3

  datatype Priority = Vacant | Task | Server | User | Idle

  datatype Source = Any | From(p: nat)

  datatype Message = Message(source: nat, kind: int, body: int)

  /** For every pair of processes, the messages that went from the first to the second, oldest first. */
  type History = map<(nat, nat), seq<Message>>

  datatype CallKind = Send | Receive | SendRec

  datatype Status = Ok | BadDest | Locked | NoPerm | BadProc

  /** The fields of a table entry that are not links. `buf` is the memory its message pointer designates. */
  datatype Proc = Proc(
    priority: Priority,
    noMap: bool,
    sending: bool,
    receiving: bool,
    intBlocked: bool,
    intHeld: bool,
    getFrom: Source,
    sendTo: nat,
    buf: Message)
  {
    /** No flag is set: nothing keeps the process from running. */
    predicate Runnable() {
      !noMap && !sending && !receiving
    }

    /** The process waits for a message, has none of its own pending, and would take one from p. */
    predicate Accepts(p: nat) {
      receiving && !sending && (getFrom == Any || getFrom == From(p))
    }
  }

  /** queues[d]: the processes blocked sending to d, oldest first. ready: the task, server and user lists. held: the
      tasks with a held interrupt, oldest first. lost: the users that schedule has taken off their list and that have
      not exited since. The last three fields are histories: the messages each process has handed over to each other
      one, those that arrived, and the hardware messages each task got. */
  datatype Table = Table(
    nrTasks: nat,
    procs: seq<Proc>,
    queues: seq<seq<nat>>,
    ready: seq<seq<nat>>,
    curr: nat,
    held: seq<nat>,
    lost: set<nat>,
    sent: History,
    got: History,
    hardInts: seq<nat>)
  {
    function IdleTask(): int { nrTasks - 3 }

    function SysTask(): int { nrTasks - 2 }

    function Hardware(): int { nrTasks - 1 }

    /** All lists and links stay inside the table. */
    predicate Shape() {
      && 3 <= nrTasks
      && nrTasks + NR_SERVERS <= |procs| <= nrTasks + ANY
      && |queues| == |hardInts| == |procs|
      && |ready| == 3
      && curr < |procs|
      && AllSlots(queues, |procs|)
      && AllSlots(ready, |procs|)
      && Slots(held, |procs|)
      && Targets(procs)
    }

    /** s is a state of the same table. */
    predicate SameTable(s: Table) {
      s.nrTasks == nrTasks && |s.procs| == |procs|
    }
  }

  const BLANK := Proc(Vacant, false, false, false, false, false, Any, 0, Message(0, 0, 0))

  /** A process table all of whose lists and links stay inside it. */
  type Sys = s: Table | s.Shape()
    witness Table(3, seq(6, p => BLANK), seq(6, p => []), [[], [], []], 0, [], {}, map[], map[], seq(6, p => 0))

  /** Every element of q is one of n slots. */
  predicate Slots(q: seq<nat>, n: nat) {
    forall i :: 0 <= i < |q| ==> q[i] < n
  }

  predicate AllSlots(qs: seq<seq<nat>>, n: nat) {
    forall d :: 0 <= d < |qs| ==> Slots(qs[d], n)
  }

  predicate Targets(procs: seq<Proc>) {
    forall p :: 0 <= p < |procs| ==> procs[p].sendTo < |procs|
  }

  predicate IsServer(nrTasks: nat, p: nat) {
    nrTasks <= p < nrTasks + NR_SERVERS
  }

  /** IDLE and HARDWARE have table entries but are never scheduled. */
  predicate Schedulable(nrTasks: nat, q: Proc, p: nat) {
    q.priority in {Task, Server, User} && p != nrTasks - 1
  }

  function Log(m: History, s: nat, d: nat): seq<Message> {
    if (s, d) in m then m[(s, d)] else []
  }

  function Append(m: History, s: nat, d: nat, x: Message): History {
    m[(s, d) := Log(m, s, d) + [x]]
  }

  // ---------------------------------------------------------------- scheduling

  /** The ready list a priority belongs to: tasks 0, servers 1, everything else 2. */
  function ListOf(pri: Priority): (c: nat)
    ensures c < 3
  {
    if pri == Task then 0 else if pri == Server then 1 else 2
  }

  /** The process to run: the head of the first non-empty list, or IDLE. */
  ghost function Hunter(nrTasks: nat, ready: seq<seq<nat>>): (curr: nat)
    requires 3 <= nrTasks && |ready| == 3
  {
    if ready[0] != [] then ready[0][0]
    else if ready[1] != [] then ready[1][0]
    else if ready[2] != [] then ready[2][0]
    else nrTasks - 3
  }

  /** Tasks and servers go to the tail of their list and run at once if it was empty; users go to the front. */
  ghost function Ready(s: Sys, p: nat): (r: Sys)
    requires p < |s.procs|
    ensures r == s.(ready := r.ready, curr := r.curr)
  {
    var c := ListOf(s.procs[p].priority);
    if c == 2 then
      s.(ready := s.ready[2 := [p] + s.ready[2]])
    else
      s.(ready := s.ready[c := s.ready[c] + [p]], curr := if s.ready[c] == [] then p else s.curr)
  }

  ghost function Unready(s: Sys, p: nat): (r: Sys)
    requires p < |s.procs|
    ensures r == s.(ready := r.ready, curr := r.curr)
  {
    var c := ListOf(s.procs[p].priority);
    var list := s.ready[c];
    if list == [] then s
    else if list[0] == p then
      var ready := s.ready[c := list[1..]];
      s.(ready := ready, curr := if c == 0 && p != s.curr then s.curr else Hunter(s.nrTasks, ready))
    else s.(ready := s.ready[c := Remove(list, p)])
  }

  /** Wakes p if nothing keeps it blocked any more. */
  ghost function ReadyIfRunnable(s: Sys, p: nat): (r: Sys)
    requires p < |s.procs|
    ensures r == s.(ready := r.ready, curr := r.curr)
  {
    if s.procs[p].Runnable() then Ready(s, p) else s
  }

  ghost function UnreadyIfRunnable(s: Sys, p: nat): (r: Sys)
    requires p < |s.procs|
    ensures r == s.(ready := r.ready, curr := r.curr)
  {
    if s.procs[p].Runnable() then Unready(s, p) else s
  }

  /** What schedule leaves of a list whose tail is taken to be its entry k, or, if k is not in it, some entry of no
      list: the head goes behind the tail, and ends the list. */
  ghost function Rescheduled(list: seq<nat>, k: nat): seq<nat> {
    if list == [] then [] else if 0 < k < |list| then list[1..k + 1] + [list[0]] else list[1..]
  }

  /** schedule, in every state the kernel comes to: the tail of the user list is not behind its head. */
  ghost function Schedule(s: Sys): (r: Sys)
    ensures r == s.(ready := r.ready, curr := r.curr, lost := r.lost)
  {
    if s.ready[2] == [] then s
    else
      var ready := s.ready[2 := Rescheduled(s.ready[2], |s.ready[2]|)];
      s.(ready := ready, curr := Hunter(s.nrTasks, ready), lost := s.lost + {s.ready[2][0]})
  }

  // ---------------------------------------------------------------- rendezvous

  /** path follows blocked senders to their destinations. */
  ghost predicate Chain(procs: seq<Proc>, path: seq<nat>) {
    && path != []
    && (forall i :: 0 <= i < |path| ==> path[i] < |procs|)
    && (forall i :: 0 <= i < |path| - 1 ==> procs[path[i]].sending && procs[path[i]].sendTo == path[i + 1])
  }

  /** Following blocked senders from d leads to p. */
  ghost predicate Reaches(procs: seq<Proc>, d: nat, p: nat) {
    exists path :: Chain(procs, path) && path[0] == d && path[|path| - 1] == p
  }

  /** p, whose buffer holds the message, sends it to d. */
  ghost function SendMessage(s: Sys, p: nat, d: nat): (r: (Sys, Status))
    requires p < |s.procs| && d < |s.procs|
    ensures r.0.SameTable(s)
  {
    if s.procs[p].priority == User && !IsServer(s.nrTasks, d) then (s, BadDest)
    else if s.procs[d].priority == Vacant then (s, BadDest)
    else if Reaches(s.procs, d, p) then (s, Locked)
    else if s.procs[d].Accepts(p) then (Deliver(s, p, d), Ok)
    else (BlockSender(s, p, d), Ok)
  }

  ghost function Deliver(s: Sys, p: nat, d: nat): (r: Sys)
    requires p < |s.procs| && d < |s.procs|
    ensures r.SameTable(s)
  {
    var m := s.procs[p].buf;
    ReadyIfRunnable(
      s.(procs := s.procs[d := s.procs[d].(buf := m, receiving := false)],
         sent := Append(s.sent, p, d, m),
         got := Append(s.got, p, d, m)),
      d)
  }

  ghost function BlockSender(s: Sys, p: nat, d: nat): (r: Sys)
    requires p < |s.procs| && d < |s.procs|
    ensures r.SameTable(s)
  {
    var s1 := UnreadyIfRunnable(s, p);
    s1.(procs := s.procs[p := s.procs[p].(sending := true, sendTo := d)],
        queues := s.queues[d := s.queues[d] + [p]],
        sent := Append(s.sent, p, d, s.procs[p].buf))
  }

  predicate Matches(src: Source, q: nat) {
    src == Any || src == From(q)
  }

  /** Position of the first sender in queue that src admits, or |queue|. */
  ghost function FirstMatch(queue: seq<nat>, src: Source): (k: nat)
    ensures k <= |queue|
    ensures k < |queue| ==> Matches(src, queue[k])
    ensures forall j :: 0 <= j < k ==> !Matches(src, queue[j])
  {
    if queue == [] then 0
    else if Matches(src, queue[0]) then 0
    else 1 + FirstMatch(queue[1..], src)
  }

  predicate AdmitsHardware(nrTasks: nat, src: Source) {
    src == Any || (src.From? && src.p == nrTasks - 1)
  }

  ghost function ReceiveMessage(s: Sys, p: nat, src: Source): (r: Sys)
    requires p < |s.procs|
    ensures r.SameTable(s)
  {
    if s.procs[p].sending then BlockReceiver(s, p, src)
    else
      var k := FirstMatch(s.queues[p], src);
      if k < |s.queues[p]| then TakeMessage(s, p, k)
      else if s.procs[p].intBlocked && AdmitsHardware(s.nrTasks, src) then TakeInterrupt(s, p)
      else BlockReceiver(s, p, src)
  }

  ghost function TakeMessage(s: Sys, p: nat, k: nat): (r: Sys)
    requires p < |s.procs| && k < |s.queues[p]|
    ensures r.SameTable(s)
  {
    var q := s.queues[p][k];
    var m := s.procs[q].buf;
    var procs1 := s.procs[p := s.procs[p].(buf := m)];
    ReadyIfRunnable(
      s.(procs := procs1[q := procs1[q].(sending := false)],
         queues := s.queues[p := RemoveAt(s.queues[p], k)],
         got := Append(s.got, q, p, m)),
      q)
  }

  /** A blocked interrupt becomes a message without a sender: the buffer is cleared and filled in. */
  ghost function TakeInterrupt(s: Sys, p: nat): (r: Sys)
    requires p < |s.procs|
    ensures r.SameTable(s)
  {
    s.(procs := s.procs[p := s.procs[p].(buf := Message(s.Hardware(), HARD_INT, 0), intBlocked := false)],
       hardInts := s.hardInts[p := s.hardInts[p] + 1])
  }

  ghost function BlockReceiver(s: Sys, p: nat, src: Source): (r: Sys)
    requires p < |s.procs|
    ensures r.SameTable(s)
  {
    var s1 := UnreadyIfRunnable(s, p);
    s1.(procs := s.procs[p := s.procs[p].(receiving := true, getFrom := src)])
  }

  /** The buffer a call names; the kernel stamps an outgoing message with its sender. */
  ghost function FillBuffer(s: Sys, kind: CallKind, m: Message): (r: Sys)
    ensures r.SameTable(s)
  {
    s.(procs := s.procs[s.curr := s.procs[s.curr].(buf := if kind == Receive then m else m.(source := s.curr))])
  }

  /** The running process makes a call with the message m in its buffer. */
  ghost function SysCall(s: Sys, kind: CallKind, src: Source, m: Message): (r: (Sys, Status))
    requires src.From? ==> src.p < |s.procs|
    requires kind != Receive && s.procs[s.curr].priority != User ==> src.From?
    ensures r.0.SameTable(s)
  {
    var p := s.curr;
    if s.procs[p].priority == User && kind != SendRec then (s, NoPerm)
    else
      var s0 := FillBuffer(s, kind, m);
      if kind == Receive then (ReceiveMessage(s0, p, src), Ok)
      else if src == Any then (s0, BadDest)
      else
        var (s1, status) := SendMessage(s0, p, src.p);
        if kind == Send || status != Ok then (s1, status)
        else (ReceiveMessage(s1, p, src), Ok)
  }

  // ---------------------------------------------------------------- interrupts

  /** A hardware interrupt for task t. busy: the kernel is already active or is switching processes. */
  ghost function Interrupt(s: Sys, t: nat, busy: bool): (r: Sys)
    requires t < |s.procs|
    ensures r.SameTable(s)
  {
    var q := s.procs[t];
    if busy then
      if q.intHeld then s else s.(procs := s.procs[t := q.(intHeld := true)], held := s.held + [t])
    else if !(q.receiving && !q.sending && AdmitsHardware(s.nrTasks, q.getFrom)) then
      s.(procs := s.procs[t := q.(intBlocked := true)])
    else
      Ready(
        s.(procs := s.procs[t := q.(buf := q.buf.(source := s.Hardware(), kind := HARD_INT),
                                    receiving := false, intBlocked := false)],
           hardInts := s.hardInts[t := s.hardInts[t] + 1]),
        t)
  }

  ghost function PopHeld(s: Sys): (r: Sys)
    requires s.held != []
    ensures r.SameTable(s)
  {
    var t := s.held[0];
    s.(procs := s.procs[t := s.procs[t].(intHeld := false)], held := s.held[1..])
  }

  /** Turns every held interrupt into an ordinary one, oldest first. */
  ghost function Unhold(s: Sys): (r: Sys)
    ensures r.SameTable(s)
    decreases |s.held|
  {
    if s.held == [] then s else Unhold(Interrupt(PopHeld(s), s.held[0], false))
  }

  // ---------------------------------------------------------------- the system task's operations

  ghost function ExecRelease(s: Sys, p: nat): (r: Sys)
    requires p < |s.procs|
    ensures r.SameTable(s)
  {
    ReadyIfRunnable(s.(procs := s.procs[p := s.procs[p].(receiving := false)]), p)
  }

  ghost function NewMap(s: Sys, p: nat): (r: Sys)
    requires p < |s.procs|
    ensures r.SameTable(s)
  {
    var s1 := s.(procs := s.procs[p := s.procs[p].(noMap := false)]);
    if s.procs[p].Runnable() then s1 else ReadyIfRunnable(s1, p)
  }

  /** The whole entry is copied, the head of its queue included. */
  ghost function Fork(s: Sys, parent: nat, child: nat): (r: Sys)
    requires parent < |s.procs| && child < |s.procs|
    ensures r.SameTable(s)
  {
    s.(procs := s.procs[child := s.procs[parent].(noMap := true)], queues := s.queues[child := s.queues[parent]])
  }

  /** A message still pending when its sender dies is withdrawn, from the queue and from the history. */
  ghost function Exit(s: Sys, child: nat): (r: Sys)
    requires child < |s.procs|
    ensures r.SameTable(s)
  {
    var s1 := UnreadyIfRunnable(s, child);
    var q := s.procs[child];
    var d := q.sendTo;
    s1.(procs := s.procs[child := q.(priority := Vacant, noMap := false, sending := false, receiving := false)],
        queues := if q.sending then s.queues[d := Remove(s.queues[d], child)] else s.queues,
        lost := s.lost - {child},
        sent := if q.sending then s.sent[(child, d) := Log(s.got, child, d)] else s.sent)
  }
}
