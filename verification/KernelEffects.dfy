/** What every call and every event does to the fields of the processes concerned, in all reachable states. */
module KernelEffects {
  import opened Lists
  import opened KernelState
  import opened KernelInvariants
  import opened KernelSteps
  import opened KernelRuns
  import opened KernelTheorems

  /** All processes but those in `but` are as they were. */
  ghost predicate OthersSame(s: Sys, r: Sys, but: set<nat>)
    requires r.SameTable(s)
  {
    forall x :: 0 <= x < |s.procs| && x !in but ==> r.procs[x] == s.procs[x]
  }

  // ---------------------------------------------------------------- sending

  /** q waits, has no message of its own pending, and waits for anybody or for p. */
  ghost predicate WaitsForMessageOf(q: Proc, p: nat) {
    q.receiving && !q.sending && (q.getFrom == Any || q.getFrom == From(p))
  }

  /** d has the message m and no longer waits; p has become q. */
  ghost predicate HandedOver(s: Sys, r: Sys, p: nat, d: nat, m: Message, q: Proc)
    requires r.SameTable(s) && p < |s.procs| && d < |s.procs|
  {
    && OthersSame(s, r, {p, d}) && r.queues == s.queues && r.held == s.held && r.hardInts == s.hardInts
    && r.procs[d] == s.procs[d].(buf := m, receiving := false) && r.procs[p] == q
  }

  /** p has become q and stands last in the queue of d, which is as it was. */
  ghost predicate QueuedOn(s: Sys, r: Sys, p: nat, d: nat, q: Proc)
    requires r.SameTable(s) && p < |s.procs| && d < |s.procs|
  {
    && OthersSame(s, r, {p}) && r.queues == s.queues[d := s.queues[d] + [p]]
    && r.held == s.held && r.hardInts == s.hardInts && r.procs[p] == q
  }

  lemma SendEffect(s: Sys, p: nat, d: nat)
    requires p < |s.procs| && d < |s.procs| && d != p
    ensures var (r, status) := SendMessage(s, p, d);
            && (status == BadDest <==>
                  s.procs[d].priority == Vacant
                  || (s.procs[p].priority == User && !(s.nrTasks <= d < s.nrTasks + 3)))
            && status in {Ok, BadDest, Locked} && (status != Ok ==> r == s)
            && (status == Ok ==>
                  if WaitsForMessageOf(s.procs[d], p) then HandedOver(s, r, p, d, s.procs[p].buf, s.procs[p])
                  else QueuedOn(s, r, p, d, s.procs[p].(sending := true, sendTo := d)))
  {
  }

  lemma BlockEffect(s: Sys, p: nat, src: Source)
    requires p < |s.procs|
    ensures var r := BlockReceiver(s, p, src);
            && OthersSame(s, r, {p}) && r.procs[p] == s.procs[p].(receiving := true, getFrom := src)
            && r.queues == s.queues && r.held == s.held && r.hardInts == s.hardInts
  {
  }

  /** The caller of a send or SEND_REC to d with the message m, blocked on d or not; SEND_REC then waits for d. */
  function Caller(q: Proc, kind: CallKind, d: nat, m: Message, blocked: bool): Proc {
    var q1 := if blocked then q.(buf := m, sending := true, sendTo := d) else q.(buf := m);
    if kind == SendRec then q1.(receiving := true, getFrom := From(d)) else q1
  }

  /** What a send or SEND_REC to d by p with the message m has come to. Refused, it leaves the message stamped in p's
      buffer. Otherwise the message is handed over at once exactly if the destination waits for anybody or for p; if
      not, p is blocked at the end of its queue, and the destination is as it was. */
  ghost predicate Sent(s: Sys, r: Sys, status: Status, kind: CallKind, p: nat, d: nat, m: Message)
    requires r.SameTable(s) && p < |s.procs| && d < |s.procs|
  {
    && status in {Ok, BadDest, Locked}
    && (status == BadDest <==>
          s.procs[d].priority == Vacant || (s.procs[p].priority == User && !(s.nrTasks <= d < s.nrTasks + 3)))
    && (status != Ok ==>
          OthersSame(s, r, {p}) && r.procs[p] == s.procs[p].(buf := m) && r.queues == s.queues && r.ready == s.ready
          && r.curr == s.curr && r.held == s.held && r.hardInts == s.hardInts && r.sent == s.sent && r.got == s.got)
    && (status == Ok ==>
          if WaitsForMessageOf(s.procs[d], p) then HandedOver(s, r, p, d, m, Caller(s.procs[p], kind, d, m, false))
          else QueuedOn(s, r, p, d, Caller(s.procs[p], kind, d, m, true)))
  }

  lemma TransmitEffect(s: Sys, kind: CallKind, p: nat, d: nat)
    requires p < |s.procs| && d < |s.procs| && d != p && kind != Receive
    requires var (s1, status) := SendMessage(s, p, d);
             kind == SendRec && status == Ok ==> ReceiveMessage(s1, p, From(d)) == BlockReceiver(s1, p, From(d))
    ensures var (s1, status) := SendMessage(s, p, d);
            var r := if kind == Send || status != Ok then s1 else ReceiveMessage(s1, p, From(d));
            Sent(s, r, status, kind, p, d, s.procs[p].buf)
  {
    var (s1, status) := SendMessage(s, p, d);
    SendEffect(s, p, d);
    BlockEffect(s1, p, From(d));
  }

  lemma HandedBefore(s: Sys, s0: Sys, r: Sys, p: nat, d: nat, m: Message, q: Proc)
    requires p < |s.procs| && d < |s.procs| && d != p && s0 == s.(procs := s.procs[p := s.procs[p].(buf := m)])
    requires r.SameTable(s) && HandedOver(s0, r, p, d, m, q)
    ensures HandedOver(s, r, p, d, m, q)
  {
  }

  lemma QueuedBefore(s: Sys, s0: Sys, r: Sys, p: nat, d: nat, m: Message, q: Proc)
    requires p < |s.procs| && d < |s.procs| && d != p && s0 == s.(procs := s.procs[p := s.procs[p].(buf := m)])
    requires r.SameTable(s) && QueuedOn(s0, r, p, d, q)
    ensures QueuedOn(s, r, p, d, q)
  {
  }

  /** What the buffer held before is of no concern. */
  lemma StampedBefore(s: Sys, s0: Sys, r: Sys, status: Status, kind: CallKind, p: nat, d: nat, m: Message)
    requires p < |s.procs| && d < |s.procs| && d != p && s0 == s.(procs := s.procs[p := s.procs[p].(buf := m)])
    requires r.SameTable(s) && Sent(s0, r, status, kind, p, d, m)
    ensures Sent(s, r, status, kind, p, d, m)
  {
    if status == Ok {
      if WaitsForMessageOf(s.procs[d], p) {
        HandedBefore(s, s0, r, p, d, m, Caller(s.procs[p], kind, d, m, false));
      } else {
        QueuedBefore(s, s0, r, p, d, m, Caller(s.procs[p], kind, d, m, true));
      }
    }
  }

  lemma SendExactly(s: Sys, kind: CallKind, d: nat, m: Message)
    requires Inv(s) && CallAllowed(s, kind, From(d)) && kind != Receive
    requires s.procs[s.curr].priority == User ==> kind == SendRec
    ensures var (r, status) := SysCall(s, kind, From(d), m);
            Sent(s, r, status, kind, s.curr, d, Message(s.curr, m.kind, m.body))
  {
    FillBufferKeepsInv(s, kind, m);
    var s0 := FillBuffer(s, kind, m);
    if kind == SendRec && SendMessage(s0, s.curr, d).1 == Ok {
      SendRecBlocks(s0, d);
    }
    TransmitEffect(s0, kind, s.curr, d);
    var (r, status) := SysCall(s, kind, From(d), m);
    StampedBefore(s, s0, r, status, kind, s.curr, d, Message(s.curr, m.kind, m.body));
  }

  // ---------------------------------------------------------------- receiving

  ghost predicate Admits(src: Source, q: nat) {
    src == Any || src == From(q)
  }

  /** Entry k of the queue is the first one src admits. */
  ghost predicate IsFirst(queue: seq<nat>, src: Source, k: nat) {
    k < |queue| && Admits(src, queue[k]) && forall j :: 0 <= j < k ==> !Admits(src, queue[j])
  }

  /** p has the message of q, entry k of its queue; q is no longer blocked and has left the queue. */
  ghost predicate TookFrom(s: Sys, r: Sys, p: nat, k: nat)
    requires r.SameTable(s) && p < |s.procs| && k < |s.queues[p]|
  {
    var q := s.queues[p][k];
    && q < |s.procs| && OthersSame(s, r, {p, q}) && r.hardInts == s.hardInts && r.held == s.held
    && r.procs[p] == s.procs[p].(buf := s.procs[q].buf) && r.procs[q] == s.procs[q].(sending := false)
    && r.queues == s.queues[p := s.queues[p][..k] + s.queues[p][k + 1..]]
  }

  /** p has a message that says that its hardware interrupt has come, and nothing else. */
  ghost predicate TookInterrupt(s: Sys, r: Sys, p: nat)
    requires r.SameTable(s) && p < |s.procs|
  {
    && OthersSame(s, r, {p}) && r.queues == s.queues && r.ready == s.ready && r.curr == s.curr && r.held == s.held
    && r.procs[p] == s.procs[p].(buf := Message(s.nrTasks - 1, 2, 0), intBlocked := false)
    && r.hardInts == s.hardInts[p := s.hardInts[p] + 1]
  }

  /** p, with m in its buffer, waits for src; it has taken nothing. */
  ghost predicate Waits(s: Sys, r: Sys, p: nat, src: Source, m: Message)
    requires r.SameTable(s) && p < |s.procs|
  {
    && OthersSame(s, r, {p}) && r.queues == s.queues && r.hardInts == s.hardInts && r.held == s.held
    && r.procs[p] == s.procs[p].(buf := m, receiving := true, getFrom := src)
  }

  lemma TakeEffect(s: Sys, p: nat, k: nat)
    requires p < |s.procs| && k < |s.queues[p]| && s.queues[p][k] < |s.procs| && s.queues[p][k] != p
    ensures TookFrom(s, TakeMessage(s, p, k), p, k)
  {
  }

  lemma {:induction false} FirstIsFirst(queue: seq<nat>, src: Source)
    ensures var k := FirstMatch(queue, src);
            if k < |queue| then IsFirst(queue, src, k) else forall j :: 0 <= j < |queue| ==> !Admits(src, queue[j])
  {
  }

  lemma ReceiveEffect(s: Sys, p: nat, src: Source)
    requires p < |s.procs| && !s.procs[p].sending && p !in s.queues[p]
    ensures Received(s, ReceiveMessage(s, p, src), p, src, s.procs[p].buf)
  {
    var k := FirstMatch(s.queues[p], src);
    FirstIsFirst(s.queues[p], src);
    if k < |s.queues[p]| {
      assert Slots(s.queues[p], |s.procs|) && s.queues[p][k] in s.queues[p];
      TakeEffect(s, p, k);
    } else {
      BlockEffect(s, p, src);
    }
  }

  /** What a receive from src by p, with m in its buffer, has come to: p has the message of the first one queued that
      src admits; if there is none, its blocked interrupt, if it has one and src admits the hardware; otherwise it
      waits. */
  ghost predicate Received(s: Sys, r: Sys, p: nat, src: Source, m: Message)
    requires r.SameTable(s) && p < |s.procs|
  {
    || (exists k: nat :: IsFirst(s.queues[p], src, k) && TookFrom(s, r, p, k))
    || ((forall k :: 0 <= k < |s.queues[p]| ==> !Admits(src, s.queues[p][k]))
        && if s.procs[p].intBlocked && (src == Any || src == From(s.nrTasks - 1)) then TookInterrupt(s, r, p)
           else Waits(s, r, p, src, m))
  }

  lemma TookBefore(s: Sys, s0: Sys, r: Sys, p: nat, k: nat, m: Message)
    requires p < |s.procs| && s0 == s.(procs := s.procs[p := s.procs[p].(buf := m)])
    requires k < |s.queues[p]| && s.queues[p][k] != p && r.SameTable(s) && TookFrom(s0, r, p, k)
    ensures TookFrom(s, r, p, k)
  {
  }

  lemma FilledBefore(s: Sys, s0: Sys, r: Sys, p: nat, src: Source, m: Message)
    requires p < |s.procs| && s0 == s.(procs := s.procs[p := s.procs[p].(buf := m)]) && p !in s.queues[p]
    requires r.SameTable(s) && Received(s0, r, p, src, m)
    ensures Received(s, r, p, src, m)
  {
    if k: nat :| IsFirst(s0.queues[p], src, k) && TookFrom(s0, r, p, k) {
      assert s.queues[p][k] in s.queues[p];
      TookBefore(s, s0, r, p, k, m);
    }
  }

  lemma ReceiveExactly(s: Sys, src: Source, m: Message)
    requires Inv(s) && CallAllowed(s, Receive, src) && s.procs[s.curr].priority != User
    ensures Received(s, SysCall(s, Receive, src, m).0, s.curr, src, m)
  {
    CurrIsActive(s);
    var s0 := FillBuffer(s, Receive, m);
    assert s.curr !in s.queues[s.curr];
    ReceiveEffect(s0, s.curr, src);
    FilledBefore(s, s0, SysCall(s, Receive, src, m).0, s.curr, src, m);
  }

  /** What a call of p with these arguments has come to. A user is refused everything but SEND_REC, without any change,
      and nobody may send to anybody at large. */
  ghost predicate Called(s: Sys, r: Sys, status: Status, kind: CallKind, p: nat, src: Source, m: Message)
    requires r.SameTable(s) && p < |s.procs| && (src.From? ==> src.p < |s.procs|)
  {
    if s.procs[p].priority == User && kind != SendRec then status == NoPerm && r == s
    else if kind == Receive then status == Ok && Received(s, r, p, src, m)
    else
      var m1 := Message(p, m.kind, m.body);
      if src == Any then status == BadDest && r == s.(procs := s.procs[p := s.procs[p].(buf := m1)])
      else Sent(s, r, status, kind, p, src.p, m1)
  }

  /** In every reachable state every call comes to that, field by field. */
  lemma CallExactly(s: Sys, kind: CallKind, src: Source, m: Message)
    requires Reachable(s) && CallAllowed(s, kind, src)
    ensures var (r, status) := SysCall(s, kind, src, m); Called(s, r, status, kind, s.curr, src, m)
  {
    ReachableIsConsistent(s);
    CallIsCalled(s, kind, src, m);
  }

  lemma CallIsCalled(s: Sys, kind: CallKind, src: Source, m: Message)
    requires Inv(s) && CallAllowed(s, kind, src)
    ensures var (r, status) := SysCall(s, kind, src, m); Called(s, r, status, kind, s.curr, src, m)
  {
    if s.procs[s.curr].priority == User && kind != SendRec {
    } else if kind == Receive {
      ReceiveExactly(s, src, m);
    } else if src.From? {
      SendExactly(s, kind, src.p, m);
    }
  }

  // ---------------------------------------------------------------- interrupts

  /** q waits, has no message of its own pending, and waits for anybody or for the hardware. */
  ghost predicate WaitsForHardware(nrTasks: nat, q: Proc) {
    q.receiving && !q.sending && (q.getFrom == Any || (q.getFrom.From? && q.getFrom.p == nrTasks - 1))
  }

  /** What an interrupt makes of q: it has a message that says so and no longer waits, or is marked as having missed
      it. */
  ghost function Hit(nrTasks: nat, q: Proc): Proc
    requires 0 < nrTasks
  {
    if WaitsForHardware(nrTasks, q) then
      q.(buf := Message(nrTasks - 1, 2, q.buf.body), receiving := false, intBlocked := false)
    else q.(intBlocked := true)
  }

  ghost function One(b: bool): nat {
    if b then 1 else 0
  }

  /** An interrupt for t that comes while the kernel is busy is only held, once; any other one wakes t with a message
      exactly if t waits for anybody or for the hardware, and is otherwise marked as blocked. */
  lemma InterruptExactly(s: Sys, t: nat, busy: bool)
    requires t < |s.procs| && s.procs[t].priority == Task
    ensures var r, q := Interrupt(s, t, busy), s.procs[t];
            && OthersSame(s, r, {t}) && r.queues == s.queues
            && (busy ==> r.procs[t] == q.(intHeld := true) && r.held == s.held + (if q.intHeld then [] else [t])
                         && r.ready == s.ready && r.curr == s.curr && r.hardInts == s.hardInts)
            && (!busy ==> r.procs[t] == Hit(s.nrTasks, q) && r.held == s.held
                          && r.ready == s.ready[0 := s.ready[0] + if WaitsForHardware(s.nrTasks, q) then [t] else []]
                          && r.hardInts == s.hardInts[t := s.hardInts[t] + One(WaitsForHardware(s.nrTasks, q))])
  {
    assert s.ready[0] + [] == s.ready[0] && s.held + [] == s.held;
  }

  /** Each of the tasks with a held interrupt is hit once; no other process is concerned. */
  ghost predicate AllHit(s: Sys, r: Sys)
    requires r.SameTable(s)
  {
    && r.queues == s.queues && r.held == []
    && forall x :: 0 <= x < |s.procs| ==>
         if x in s.held then
           r.procs[x] == Hit(s.nrTasks, s.procs[x].(intHeld := false))
           && r.hardInts[x] == s.hardInts[x] + One(WaitsForHardware(s.nrTasks, s.procs[x]))
         else r.procs[x] == s.procs[x] && r.hardInts[x] == s.hardInts[x]
  }

  lemma {:induction false} UnholdExactly(s: Sys)
    requires Inv(s)
    ensures AllHit(s, Unhold(s))
    decreases |s.held|
  {
    if s.held != [] {
      UnholdTurn(s);
      var s1 := PopHeld(s);
      var s2 := Interrupt(s1, s.held[0], false);
      InterruptExactly(s1, s.held[0], false);
      UnholdExactly(s2);
      HitFirst(s, s2, Unhold(s2));
    }
  }

  lemma HitFirst(s: Sys, s2: Sys, r: Sys)
    requires s.held != [] && s.held[0] < |s.procs| && Distinct(s.held) && s2.SameTable(s) && r.SameTable(s)
    requires s2.held == s.held[1..] && s2.queues == s.queues && OthersSame(s, s2, {s.held[0]})
    requires var t := s.held[0];
             s2.procs[t] == Hit(s.nrTasks, s.procs[t].(intHeld := false))
             && s2.hardInts == s.hardInts[t := s.hardInts[t] + One(WaitsForHardware(s.nrTasks, s.procs[t]))]
    requires AllHit(s2, r)
    ensures AllHit(s, r)
  {
    assert forall x :: x in s.held <==> x == s.held[0] || x in s.held[1..];
    assert s.held[0] !in s.held[1..];
  }

  // ---------------------------------------------------------------- the system task's operations

  /** A process with a new map is no longer without one, exec ends the wait for its reply, fork gives the vacant slot
      the parent's fields, without a map, and exit leaves a vacant slot; nobody else is concerned. */
  lemma SystemExactly(s: Sys, e: Event)
    requires Allowed(s, e) && (e.Mapped? || e.ExecReleased? || e.Forked? || e.Exited?)
    ensures var r := Step(s, e);
            && r.hardInts == s.hardInts && r.held == s.held
            && match e
               case Mapped(p) => OthersSame(s, r, {p}) && r.procs[p] == s.procs[p].(noMap := false)
               case ExecReleased(p) => OthersSame(s, r, {p}) && r.procs[p] == s.procs[p].(receiving := false)
               case Forked(parent, child) =>
                 OthersSame(s, r, {child}) && r.procs[child] == s.procs[parent].(noMap := true)
               case Exited(child) =>
                 OthersSame(s, r, {child}) && r.procs[child].priority == Vacant && !r.procs[child].sending
                 && !r.procs[child].receiving && !r.procs[child].noMap
               case _ => true
  {
  }

  // ---------------------------------------------------------------- who may wake a receiver

  /** A message says that the hardware has interrupted. */
  predicate FromHardware(s: Sys, m: Message) {
    m.source == s.nrTasks - 1 && m.kind == 2
  }

  lemma CallReleases(s: Sys, r: Sys, status: Status, kind: CallKind, p: nat, src: Source, m: Message, x: nat)
    requires r.SameTable(s) && p < |s.procs| && (src.From? ==> src.p < |s.procs| && (kind != Receive ==> src.p != p))
    requires Called(s, r, status, kind, p, src, m) && !s.procs[p].receiving
    requires x < |s.procs| && s.procs[x].receiving && !r.procs[x].receiving
    ensures var q := s.procs[x];
            && kind != Receive && src == From(x) && !q.sending && (q.getFrom == Any || q.getFrom == From(p))
            && r.procs[x].buf == Message(p, m.kind, m.body)
  {
  }

  /** Why x, which waited for a message, no longer does, and what lies in its buffer. */
  ghost predicate RightlyReleased(s: Sys, e: Event, r: Sys, x: nat)
    requires r.SameTable(s) && x < |s.procs|
  {
    var q, m := s.procs[x], r.procs[x].buf;
    match e
    case Call(kind, src, m1) =>
      kind != Receive && src == From(x) && !q.sending && (q.getFrom == Any || q.getFrom == From(s.curr))
      && m == Message(s.curr, m1.kind, m1.body)
    case Interrupted(t, busy) => t == x && !busy && WaitsForHardware(s.nrTasks, q) && FromHardware(s, m)
    case Unheld => x in s.held && WaitsForHardware(s.nrTasks, q) && FromHardware(s, m)
    case ExecReleased(p) => p == x
    case Exited(child) => child == x
    case _ => false
  }

  lemma CallReleasesRightly(s: Sys, kind: CallKind, src: Source, m: Message, x: nat)
    requires Inv(s) && CallAllowed(s, kind, src) && x < |s.procs|
    requires s.procs[x].receiving && !SysCall(s, kind, src, m).0.procs[x].receiving
    ensures RightlyReleased(s, Call(kind, src, m), SysCall(s, kind, src, m).0, x)
  {
    CurrIsActive(s);
    CallIsCalled(s, kind, src, m);
    var (r, status) := SysCall(s, kind, src, m);
    CallReleases(s, r, status, kind, s.curr, src, m, x);
  }

  lemma OtherReleasesRightly(s: Sys, e: Event, x: nat)
    requires Inv(s) && Allowed(s, e) && !e.Call? && x < |s.procs|
    requires s.procs[x].receiving && !Step(s, e).procs[x].receiving
    ensures RightlyReleased(s, e, Step(s, e), x)
  {
    match e
    case Interrupted(t, busy) => InterruptExactly(s, t, busy);
    case Unheld => UnholdExactly(s);
    case Scheduled =>
    case _ => SystemExactly(s, e);
  }

  /** In every reachable state a process that waits for a message stops waiting only because of one it waits for: the
      running process has sent it one, and it waited for anybody or for that process; or the hardware has, and it
      waited for anybody or for the hardware. The message lies in its buffer. Otherwise it was released by exec or has
      exited. */
  lemma ReleasedByWhatItWaitsFor(s: Sys, e: Event, x: nat)
    requires Reachable(s) && Allowed(s, e) && x < |s.procs| && s.procs[x].receiving && !Step(s, e).procs[x].receiving
    ensures RightlyReleased(s, e, Step(s, e), x)
  {
    ReachableIsConsistent(s);
    if e.Call? {
      CallReleasesRightly(s, e.kind, e.src, e.m, x);
    } else {
      OtherReleasesRightly(s, e, x);
    }
  }

  // ---------------------------------------------------------------- hardware messages

  lemma CallTakesHardware(s: Sys, r: Sys, status: Status, kind: CallKind, p: nat, src: Source, m: Message, t: nat)
    requires r.SameTable(s) && p < |s.procs| && (src.From? ==> src.p < |s.procs|)
    requires Called(s, r, status, kind, p, src, m) && t < |s.procs| && r.hardInts[t] != s.hardInts[t]
    ensures r.hardInts[t] == s.hardInts[t] + 1 && r.procs[t].buf == Message(s.nrTasks - 1, 2, 0)
    ensures t == p && s.procs[t].intBlocked && !r.procs[t].intBlocked
  {
  }

  /** A hardware message that the event counts as received by t, one and no more, lies in t's buffer; one that comes
      from a blocked interrupt holds nothing else, and any other one has ended a wait for it. */
  ghost predicate HardwareIsThere(s: Sys, e: Event, r: Sys, t: nat)
    requires r.SameTable(s) && t < |s.procs|
  {
    && r.hardInts[t] == s.hardInts[t] + 1 && FromHardware(s, r.procs[t].buf) && !r.procs[t].intBlocked
    && (e.Call? ==> t == s.curr && s.procs[t].intBlocked && r.procs[t].buf.body == 0)
    && (!e.Call? ==> WaitsForHardware(s.nrTasks, s.procs[t]) && !r.procs[t].receiving)
  }

  lemma CallCountsRightly(s: Sys, kind: CallKind, src: Source, m: Message, t: nat)
    requires Inv(s) && CallAllowed(s, kind, src) && t < |s.procs|
    requires SysCall(s, kind, src, m).0.hardInts[t] != s.hardInts[t]
    ensures HardwareIsThere(s, Call(kind, src, m), SysCall(s, kind, src, m).0, t)
  {
    CallIsCalled(s, kind, src, m);
    var (r, status) := SysCall(s, kind, src, m);
    CallTakesHardware(s, r, status, kind, s.curr, src, m, t);
  }

  lemma OtherCountsRightly(s: Sys, e: Event, t: nat)
    requires Inv(s) && Allowed(s, e) && !e.Call? && t < |s.procs| && Step(s, e).hardInts[t] != s.hardInts[t]
    ensures HardwareIsThere(s, e, Step(s, e), t)
  {
    match e
    case Interrupted(u, busy) => InterruptExactly(s, u, busy);
    case Unheld => UnholdExactly(s);
    case Scheduled =>
    case _ => SystemExactly(s, e);
  }

  /** In every reachable state an event counts a hardware message as received only if it is. */
  lemma HardwareArrives(s: Sys, e: Event, t: nat)
    requires Reachable(s) && Allowed(s, e) && t < |s.procs| && Step(s, e).hardInts[t] != s.hardInts[t]
    ensures HardwareIsThere(s, e, Step(s, e), t)
  {
    ReachableIsConsistent(s);
    if e.Call? {
      CallCountsRightly(s, e.kind, e.src, e.m, t);
    } else {
      OtherCountsRightly(s, e, t);
    }
  }
}
