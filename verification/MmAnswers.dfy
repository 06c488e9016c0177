/** What every request is answered, and what it leaves of the table, field by field and in all reachable states. */
module MmAnswers {
  import opened Holes
  import opened MmState
  import opened MmInvariants
  import opened MmRuns
  import opened MmTheorems

  /** Slot i has the reply rs pending, and is otherwise as it was. */
  ghost predicate OnlyAnswered(q: MProc, q1: MProc, rs: int) {
    q1 == q.(reply := true, reply1 := rs)
  }

  ghost predicate SlotsSame(t: State, s: State, but: set<nat>) {
    |s.procs| == |t.procs| && forall i :: 0 <= i < |t.procs| && i !in but ==> s.procs[i] == t.procs[i]
  }

  // ---------------------------------------------------------------- fork

  /** No slot is to be had for a child of who. */
  ghost predicate NoSlot(t: State, who: nat)
    requires who < |t.procs|
  {
    CountInUse(t.procs) == |t.procs| || (t.procs[who].effectiveUid != 0 && CountInUse(t.procs) >= |t.procs| - 3)
  }

  ghost predicate NoMemory(t: State, who: nat)
    requires who < |t.procs|
  {
    forall k :: 0 <= k < |t.bs| ==> t.bs[k].length < t.procs[who].size / 1024
  }

  /** q is a child of the process p in slot who, with memory of its own at the bottom of a hole, an identifier that no
      other slot holds or held last, and 0 for an answer. */
  ghost predicate IsNewborn(t: State, who: nat, child: nat, q: MProc)
    requires who < |t.procs|
  {
    var p := t.procs[who];
    && q.inUse && !q.zombie && !q.waiting && q.parent == who && q.size == p.size && q.exitStatus == 0
    && q.effectiveUid == p.effectiveUid && q.procGroup == p.procGroup && q.reply && q.reply1 == 0
    && (exists k :: 0 <= k < |t.bs| && q.base == 1024 * t.bs[k].base)
    && 0 < q.pid <= 50000
    && forall i :: 0 <= i < |t.procs| && i != child ==> t.procs[i].pid != q.pid && t.procs[i].procGroup != q.pid
  }

  /** The slot child, the first free one, holds the newborn, and who is answered its identifier. */
  ghost predicate IsBorn(t: State, s: State, who: nat, child: nat)
    requires who < |t.procs|
  {
    && child < |t.procs| == |s.procs| && child != who && !t.procs[child].inUse
    && (forall i :: 0 <= i < child ==> t.procs[i].inUse)
    && SlotsSame(t, s, {who, child}) && IsNewborn(t, who, child, s.procs[child])
    && OnlyAnswered(t.procs[who], s.procs[who], s.procs[child].pid)
  }

  /** A fork is refused with EAGAIN exactly for want of a slot, and with ENOMEM exactly for want of memory; otherwise
      there is a child, which is answered 0, and the caller is answered its identifier. No other slot is concerned. */
  ghost predicate ForkAnswered(t: State, s: State, who: nat)
    requires who < |t.procs|
  {
    if NoSlot(t, who) then SlotsSame(t, s, {who}) && OnlyAnswered(t.procs[who], s.procs[who], -11)
    else if NoMemory(t, who) then SlotsSame(t, s, {who}) && OnlyAnswered(t.procs[who], s.procs[who], -12)
    else exists child: nat :: IsBorn(t, s, who, child)
  }

  lemma ForkRefused(t: State, who: nat)
    requires who < |t.procs| && Numbered(t) && t.procsInUse == CountInUse(t.procs)
    requires NoSlot(t, who) || (NoMemory(t, who) && FreeSlot(t.procs) < |t.procs|)
    ensures ForkAnswered(t, Served(t, who, Forking), who)
  {
    assert CLICK_SIZE == 1024;
  }

  lemma Spawned(t: State, who: nat, child: nat, pid: nat)
    requires who < |t.procs| && child < |t.procs| && child != who && !t.procs[child].inUse && t.procs[who].Alive()
    requires (forall i :: 0 <= i < child ==> t.procs[i].inUse) && !NoMemory(t, who)
    requires 1 <= pid <= MAX_PID && !PidTaken(t.procs, child, pid)
    ensures IsBorn(t, SetReply(Spawn(t, who, child, pid), who, pid), who, child)
  {
    var k := FirstFit(t.bs, t.procs[who].size / 1024);
    assert k < |t.bs| && Spawn(t, who, child, pid).procs[child].base == 1024 * t.bs[k].base;
  }

  lemma ForkIsAnswered(t: State, lo: int, hi: int, who: nat)
    requires Inv(t, lo, hi) && Allowed(t, who, Forking)
    ensures ForkAnswered(t, Served(t, who, Forking), who)
  {
    var c := t.(blocked := t.blocked + {who});
    CallIsOpen(t, lo, hi, who, Forking);
    if NoSlot(t, who) {
      ForkRefused(t, who);
    } else {
      ForkFinds(c, who);
      if NoMemory(t, who) {
        ForkRefused(t, who);
      } else {
        BornBySpawn(t, who, FreeSlot(t.procs), Handled(c, who, Forking).1);
      }
    }
  }

  /** The caller's request, marked as unanswered or not, makes no difference to the slots. */
  lemma BornBySpawn(t: State, who: nat, child: nat, pid: int)
    requires who < |t.procs| && Numbered(t) && t.procs[who].Alive() && !NoSlotFor(t, who) && !NoMemory(t, who)
    requires child == FreeSlot(t.procs) < |t.procs| && child != who
    requires pid == Handled(t.(blocked := t.blocked + {who}), who, Forking).1
    requires 1 <= pid <= MAX_PID && !PidTaken(t.procs, child, pid)
    ensures IsBorn(t, Served(t, who, Forking), who, child)
  {
    Spawned(t, who, child, pid);
    var c := t.(blocked := t.blocked + {who});
    assert FirstFit(t.bs, t.procs[who].size / 1024) < |t.bs|;
    assert Handled(c, who, Forking).0 == Spawn(c, who, child, pid);
    assert Spawn(c, who, child, pid).procs == Spawn(t, who, child, pid).procs;
  }

  /** In every reachable state that is what a fork comes to. */
  lemma ForkAnswers(t: State, hi: int, who: nat)
    requires Reachable(t, hi) && Numbered(t) && Allowed(t, who, Forking)
    ensures ForkAnswered(t, Served(t, who, Forking), who)
  {
    ReachableIsConsistent(t, hi);
    ForkIsAnswered(t, PROCS_BASE_CLICK, hi, who);
  }

  // ---------------------------------------------------------------- groups

  /** Nobody is ever given a process group. */
  ghost predicate NoGroups(procs: seq<MProc>) {
    forall i :: 0 <= i < |procs| ==> procs[i].procGroup == 0
  }

  lemma {:induction false} AdoptingGroupsNobody(t: State, x: nat, i: nat)
    requires i <= |t.procs| && NoGroups(t.procs)
    ensures NoGroups(AdoptFrom(t, x, i).procs)
    decreases |t.procs| - i
  {
    if i < |t.procs| {
      AdoptingGroupsNobody(Adopt(t, x, i), x, i + 1);
    }
  }

  lemma HandlingGroupsNobody(c: State, who: nat, req: Request)
    requires who < |c.procs| && Numbered(c) && NoGroups(c.procs)
    ensures NoGroups(Handled(c, who, req).0.procs)
  {
    if req.Exiting? {
      AdoptingGroupsNobody(Bury(c, who, req.status), who, 0);
    }
  }

  lemma TurnGroupsNobody(t: State, who: nat, req: Request)
    requires who < |t.procs| && Numbered(t) && NoGroups(t.procs)
    ensures NoGroups(Turn(t, who, req).procs)
  {
    HandlingGroupsNobody(t.(blocked := t.blocked + {who}), who, req);
  }

  lemma {:induction false} RunGroupsNobody(t: State, run: seq<Call>)
    requires Numbered(t) && Legal(t, run) && NoGroups(t.procs)
    ensures NoGroups(After(t, run).procs)
    decreases |run|
  {
    if run != [] {
      TurnGroupsNobody(t, run[0].who, run[0].req);
      RunGroupsNobody(Turn(t, run[0].who, run[0].req), run[1..]);
    }
  }

  lemma ReachableHasNoGroups(t: State, hi: int)
    requires Reachable(t, hi)
    ensures NoGroups(t.procs)
  {
    var nrProcs, maps, free, run :| ReachedBy(t, hi, nrProcs, maps, free, run);
    RunGroupsNobody(Boot(nrProcs, maps, free), run);
  }

  // ---------------------------------------------------------------- wait

  /** q, as far as its parent, identifier and group go, is what a wait of the process in slot w for pid asks about: any
      child, the one with that identifier, those of that group, or those of the caller's own group. */
  predicate AskedAbout(w: nat, p: MProc, pid: int, q: MProc) {
    && q.parent == w
    && (pid > 0 ==> q.pid == pid) && (pid == 0 ==> q.procGroup == p.procGroup) && (pid < -1 ==> q.procGroup == -pid)
  }

  /** Slot k holds the first dead child asked about. */
  ghost predicate IsFirstDead(t: State, w: nat, pid: int, k: nat)
    requires w < |t.procs|
  {
    && k < |t.procs| && t.procs[k].zombie && AskedAbout(w, t.procs[w], pid, t.procs[k])
    && forall i :: 0 <= i < k ==> !(t.procs[i].zombie && AskedAbout(w, t.procs[w], pid, t.procs[i]))
  }

  ghost predicate NoneAskedAbout(t: State, w: nat, pid: int)
    requires w < |t.procs|
  {
    forall i :: 0 <= i < |t.procs| ==> !AskedAbout(w, t.procs[w], pid, t.procs[i])
  }

  ghost predicate NoneDead(t: State, w: nat, pid: int)
    requires w < |t.procs|
  {
    forall i :: 0 <= i < |t.procs| && AskedAbout(w, t.procs[w], pid, t.procs[i]) ==> !t.procs[i].zombie
  }

  /** w is told of slot k, which becomes free. */
  ghost predicate ToldOfDead(t: State, s: State, w: nat, k: nat)
    requires w < |t.procs| && k < |t.procs|
  {
    && SlotsSame(t, s, {w, k})
    && s.procs[w] == t.procs[w].(waiting := false, reply := true, reply1 := t.procs[k].pid,
                                 reply2 := t.procs[k].exitStatus)
    && s.procs[k] == t.procs[k].(inUse := false, waiting := false, zombie := false, reply := false)
  }

  /** A wait is answered at once with the first dead child asked about if there is one. If not, it is told ECHILD if no
      slot is asked about, 0 if the lowest bit of the options is set, and otherwise waits for what it asked about. */
  ghost predicate WaitAnswered(t: State, s: State, w: nat, pid: int, options: nat)
    requires w < |t.procs|
  {
    && (forall k: nat :: IsFirstDead(t, w, pid, k) ==> k != w && ToldOfDead(t, s, w, k))
    && (NoneDead(t, w, pid) ==> NotTold(t, s, w, pid, options))
  }

  /** No child asked about is dead. */
  ghost predicate NotTold(t: State, s: State, w: nat, pid: int, options: nat)
    requires w < |t.procs|
  {
    && SlotsSame(t, s, {w})
    && if NoneAskedAbout(t, w, pid) then OnlyAnswered(t.procs[w], s.procs[w], -10)
       else if options % 2 == 1 then OnlyAnswered(t.procs[w], s.procs[w], 0)
       else s.procs[w] == t.procs[w].(waiting := true, waitPid := if pid == 0 then -t.procs[w].procGroup else pid)
  }

  /** The number of the caller's group, if it asks about that, is no other kind of target when its sign is changed; or
      there are no groups, and asking about group 0 is asking about any child. */
  ghost predicate GroupIsClear(t: State, w: nat, pid: int)
    requires w < |t.procs|
  {
    pid == 0 ==> t.procs[w].procGroup > 1 || NoGroups(t.procs)
  }

  lemma AskingIs(t: State, w: nat, pid: int)
    requires w < |t.procs| && GroupIsClear(t, w, pid)
    ensures forall i :: 0 <= i < |t.procs| ==>
              (WaitsFor(w, WaitTarget(t.procs[w], pid), t.procs[i]) <==> AskedAbout(w, t.procs[w], pid, t.procs[i]))
  {
  }

  lemma DeadIsTold(t: State, w: nat, pid: int, options: nat, k: nat)
    requires w < |t.procs| && Numbered(t) && GroupIsClear(t, w, pid) && t.procs[w].Alive()
    requires !t.procs[w].reply && !t.procs[w].waiting
    requires IsFirstDead(t, w, pid, k)
    ensures k != w && ToldOfDead(t, Served(t, w, Waiting(pid, options)), w, k)
  {
    AskingIs(t, w, pid);
    assert FirstDead(t.procs, w, WaitTarget(t.procs[w], pid)) == k;
  }

  lemma NoneIsTold(t: State, w: nat, pid: int, options: nat)
    requires w < |t.procs| && Numbered(t) && GroupIsClear(t, w, pid) && t.procs[w].Alive()
    requires !t.procs[w].reply && !t.procs[w].waiting
    requires NoneDead(t, w, pid)
    ensures NotTold(t, Served(t, w, Waiting(pid, options)), w, pid, options)
  {
    AskingIs(t, w, pid);
    assert FirstDead(t.procs, w, WaitTarget(t.procs[w], pid)) == |t.procs|;
  }

  lemma WaitIsAnswered(t: State, w: nat, pid: int, options: nat)
    requires w < |t.procs| && Numbered(t) && GroupIsClear(t, w, pid) && t.procs[w].Alive()
    requires !t.procs[w].reply && !t.procs[w].waiting
    ensures WaitAnswered(t, Served(t, w, Waiting(pid, options)), w, pid, options)
  {
    forall k: nat | IsFirstDead(t, w, pid, k)
      ensures k != w && ToldOfDead(t, Served(t, w, Waiting(pid, options)), w, k)
    {
      DeadIsTold(t, w, pid, options, k);
    }
    if NoneDead(t, w, pid) {
      NoneIsTold(t, w, pid, options);
    }
  }

  /** In every reachable state that is what a request to wait comes to. */
  lemma WaitAnswers(t: State, hi: int, w: nat, pid: int, options: nat)
    requires Reachable(t, hi) && Numbered(t) && Allowed(t, w, Waiting(pid, options))
    ensures WaitAnswered(t, Served(t, w, Waiting(pid, options)), w, pid, options)
  {
    ReachableIsConsistent(t, hi);
    ReachableHasNoGroups(t, hi);
    CallIsOpen(t, PROCS_BASE_CLICK, hi, w, Waiting(pid, options));
    WaitIsAnswered(t, w, pid, options);
  }

  /** Since there are no groups, whoever waits for one is told that it has no children. */
  lemma GroupsAreNeverFound(t: State, hi: int, w: nat, pid: int, options: nat)
    requires Reachable(t, hi) && Numbered(t) && Allowed(t, w, Waiting(pid, options)) && pid < -1
    ensures OnlyAnswered(t.procs[w], Served(t, w, Waiting(pid, options)).procs[w], -10)
  {
    WaitAnswers(t, hi, w, pid, options);
    ReachableHasNoGroups(t, hi);
    assert NoneAskedAbout(t, w, pid) && NoneDead(t, w, pid);
  }

  // ---------------------------------------------------------------- exit, and what changes nothing

  /** What identifies the process in a slot, and its memory. */
  ghost predicate SameProcess(q: MProc, q1: MProc) {
    && q1.pid == q.pid && q1.procGroup == q.procGroup && q1.base == q.base && q1.size == q.size
    && q1.effectiveUid == q.effectiveUid && (q.Alive() ==> q1.Alive())
  }

  /** The children of x in slots from i on have passed to ORIGIN. */
  ghost predicate Passed(procs: seq<MProc>, procs1: seq<MProc>, x: nat, i: nat) {
    && |procs1| == |procs|
    && forall j :: 0 <= j < |procs| ==>
         && SameProcess(procs[j], procs1[j]) && procs1[j].exitStatus == procs[j].exitStatus
         && procs1[j].parent == (if i <= j && procs[j].parent == x then 3 else procs[j].parent)
         && (procs1[j].inUse ==> procs[j].inUse) && (procs1[j].zombie ==> procs[j].zombie)
         && (procs[j].parent != x && !procs[j].waiting ==> procs1[j] == procs[j])
  }

  lemma AdoptPasses(t: State, x: nat, i: nat)
    requires i < |t.procs| && x != ORIGIN && !t.procs[ORIGIN].zombie
    ensures forall j :: 0 <= j < |t.procs| ==>
              var q, q1 := t.procs[j], Adopt(t, x, i).procs[j];
              && SameProcess(q, q1) && q1.exitStatus == q.exitStatus
              && q1.parent == (if j == i && q.parent == x then ORIGIN else q.parent)
              && (q1.inUse ==> q.inUse) && (q1.zombie ==> q.zombie) && (q1.waiting ==> q.waiting)
              && (q.parent != x && !q.waiting ==> q1 == q)
    ensures !Adopt(t, x, i).procs[ORIGIN].zombie
  {
  }

  lemma {:induction false} AdoptFromPasses(t: State, x: nat, i: nat)
    requires i <= |t.procs| && x != ORIGIN && !t.procs[ORIGIN].zombie
    ensures Passed(t.procs, AdoptFrom(t, x, i).procs, x, i)
    decreases |t.procs| - i
  {
    if i < |t.procs| {
      AdoptPasses(t, x, i);
      AdoptFromPasses(Adopt(t, x, i), x, i + 1);
    }
  }

  /** x's slot after it has exited: free if its parent waited, otherwise dead, with the status as a signed byte. */
  ghost predicate Gone(q: MProc, q1: MProc, status: int, told: bool) {
    && q1.pid == q.pid && q1.parent == q.parent && -128 <= q1.exitStatus < 128 && (q1.exitStatus - status) % 256 == 0
    && !q1.waiting && !q1.reply && q1.inUse == !told && q1.zombie == !told
  }

  /** Slot j after the exit of x: a child of x is now one of ORIGIN; a slot that is no child of x and did not wait is
      as it was. */
  ghost predicate Remains(q: MProc, q1: MProc, x: nat) {
    && SameProcess(q, q1) && q1.exitStatus == q.exitStatus && q1.parent == (if q.parent == x then 3 else q.parent)
    && (q1.inUse ==> q.inUse) && (q1.zombie ==> q.zombie) && (q.parent != x && !q.waiting ==> q1 == q)
  }

  lemma BuryLeaves(t: State, x: nat, status: int)
    requires ORIGIN < x < |t.procs| && t.procs[x].Alive() && t.procs[x].parent != x && t.procs[ORIGIN].Alive()
    ensures var b, w := Bury(t, x, status), t.procs[x].parent;
            && Gone(t.procs[x], b.procs[x], status, t.procs[w].waiting) && !b.procs[ORIGIN].zombie
            && forall j :: 0 <= j < |t.procs| && j != x ==>
                 var q, q1 := t.procs[j], b.procs[j];
                 && SameProcess(q, q1) && q1.exitStatus == q.exitStatus && q1.parent == q.parent
                 && q1.inUse == q.inUse && q1.zombie == q.zombie && (q1.waiting ==> q.waiting)
                    && (!q.waiting ==> q1 == q)
  {
  }

  lemma ExitLeaves(t: State, x: nat, status: int)
    requires ORIGIN < x < |t.procs| && t.procs[x].Alive() && t.procs[x].parent != x && t.procs[ORIGIN].Alive()
    ensures var r := ExitProc(t, x, status);
            && Gone(t.procs[x], r.procs[x], status, t.procs[t.procs[x].parent].waiting)
            && forall j :: 0 <= j < |t.procs| && j != x ==> Remains(t.procs[j], r.procs[j], x)
  {
    BuryLeaves(t, x, status);
    AdoptFromPasses(Bury(t, x, status), x, 0);
  }

  /** In every reachable state an exit leaves a free slot or a dead process, by whether its parent waits, passes all its
      children to ORIGIN, and concerns nobody else but those who wait. */
  lemma ExitAnswers(t: State, hi: int, x: nat, status: int)
    requires Reachable(t, hi) && Numbered(t) && Allowed(t, x, Exiting(status))
    ensures var s := Served(t, x, Exiting(status));
            && Gone(t.procs[x], s.procs[x], status, t.procs[t.procs[x].parent].waiting)
            && forall j :: 0 <= j < |t.procs| && j != x ==> Remains(t.procs[j], s.procs[j], x)
  {
    ReachableIsConsistent(t, hi);
    assert Rooted(t.procs[x], x);
    ExitLeaves(t.(blocked := t.blocked + {x}), x, status);
  }

  /** Any other request is answered what its handler says, and an exec that succeeds nothing. */
  lemma OtherAnswers(t: State, who: nat, req: Request)
    requires Numbered(t) && Allowed(t, who, req) && (req.Other? || req.Replaced?)
    ensures var s := Served(t, who, req);
            SlotsSame(t, s, {who}) && s.procs[who] == t.procs[who].(reply := req.Other? || t.procs[who].reply,
                                                                    reply1 := if req.Other? then req.rs
                                                                      else t.procs[who].reply1)
  {
  }

  /** What is pending is sent, and nothing else changes. */
  lemma TurnSends(t: State, who: nat, req: Request)
    requires who < |t.procs| && Numbered(t)
    ensures var s, r := Served(t, who, req), Turn(t, who, req);
            && (forall i :: 0 <= i < |t.procs| ==> r.procs[i] == s.procs[i].(reply := false))
            && (forall i :: i in r.blocked <==> i in s.blocked && !(i < |s.procs| && s.procs[i].reply))
  {
  }
}
