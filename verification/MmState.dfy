/** The memory manager's process table as a value: fork, exit, wait and the reply loop as functions. */
module MmState {
  import opened Holes

  const CLICK_SIZE := 1024
  const ORIGIN := 3
  const LAST_FEW := 3
  const MAX_PID := 50000
  const SUPER_USER := 0
  const WNOHANG := 1

  const EAGAIN := -11
  const ENOMEM := -12
  const ECHILD := -10
  const NO_MESSAGE := -1007

  /** A slot of the table. base and size, in bytes, are the process's memory; parent is a slot. */
  datatype MProc = MProc(
    base: nat,
    size: nat,
    exitStatus: int,
    pid: int,
    procGroup: int,
    waitPid: int,
    parent: nat,
    effectiveUid: int,
    inUse: bool,
    waiting: bool,
    zombie: bool,
    reply: bool,
    reply1: int,
    reply2: int)
  {
    function Memory(): Block {
      Block(base / CLICK_SIZE, size / CLICK_SIZE)
    }

    predicate Alive() {
      inUse && !zombie
    }
  }

  /** A process that has exited, and the status it left. */
  datatype Death = Death(pid: int, status: int)

  /** nrHoles: the size of the hole table. bs and merged: the holes and the merge counter. blocked: the processes whose
      last request is unanswered. deaths and reports: who has exited, and whose exit a parent has been told. */
  datatype Mm = Mm(
    nrHoles: nat,
    procs: seq<MProc>,
    procsInUse: int,
    nextPid: nat,
    bs: seq<Block>,
    merged: nat,
    blocked: set<nat>,
    deaths: multiset<Death>,
    reports: multiset<Death>)
  {
    /** Links between slots stay inside the table, which holds at least the servers and ORIGIN. */
    predicate Shape() {
      ORIGIN < |procs| && forall i :: 0 <= i < |procs| ==> procs[i].parent < |procs|
    }
  }

  const IDLE_SLOT := MProc(0, 0, 0, 0, 0, 0, 0, 0, false, false, false, false, 0, 0)

  type State = t: Mm | t.Shape() witness Mm(1, seq(4, i => IDLE_SLOT), 0, 0, [], 0, {}, multiset{}, multiset{})

  // ---------------------------------------------------------------- replies

  function SetReply(t: State, i: nat, rs: int): State
    requires i < |t.procs|
  {
    t.(procs := t.procs[i := t.procs[i].(reply1 := rs, reply := true)])
  }

  // ---------------------------------------------------------------- exit

  /** exit_status is a signed char. */
  function ToChar(x: int): (c: int)
    ensures -128 <= c < 128 && (c - x) % 256 == 0
  {
    (x + 128) % 256 - 128
  }

  /** Tells w, which stops waiting, that e is dead, and frees the slot of e. The reply goes to e's parent. */
  function ExitCleanup(t: State, e: nat, w: nat): (r: State)
    requires e < |t.procs| && w < |t.procs|
    ensures |r.procs| == |t.procs|
  {
    var dead := t.procs[e];
    var procs1 := t.procs[w := t.procs[w].(waiting := false, reply2 := dead.exitStatus)];
    var procs2 := procs1[dead.parent := procs1[dead.parent].(reply1 := dead.pid, reply := true)];
    t.(procs := procs2[e := procs2[e].(inUse := false, waiting := false, zombie := false, reply := false)],
       procsInUse := t.procsInUse - 1,
       reports := t.reports + multiset{Death(dead.pid, dead.exitStatus)})
  }

  /** Slot i, if a child of x, becomes a child of ORIGIN, which hears of it at once if it waits and the child is
      dead. */
  function Adopt(t: State, x: nat, i: nat): (r: State)
    requires i < |t.procs|
    ensures |r.procs| == |t.procs|
  {
    if t.procs[i].parent != x then t
    else
      var t1 := t.(procs := t.procs[i := t.procs[i].(parent := ORIGIN)]);
      if t1.procs[ORIGIN].waiting && t1.procs[i].zombie then ExitCleanup(t1, i, ORIGIN) else t1
  }

  /** Slots i and up. */
  function AdoptFrom(t: State, x: nat, i: nat): (r: State)
    requires i <= |t.procs|
    ensures |r.procs| == |t.procs|
    decreases |t.procs| - i
  {
    if i == |t.procs| then t else AdoptFrom(Adopt(t, x, i), x, i + 1)
  }

  /** The slot of x once its memory is gone: its parent is told at once if it waits, or x stays as a zombie. */
  ghost function Bury(t: State, x: nat, status: int): (r: State)
    requires x < |t.procs|
    ensures |r.procs| == |t.procs|
  {
    var freed := Freed(t.bs, t.procs[x].Memory(), t.merged);
    var dead := t.procs[x].(exitStatus := ToChar(status));
    var t1 := t.(procs := t.procs[x := dead], bs := freed.0, merged := freed.1, blocked := t.blocked - {x},
                 deaths := t.deaths + multiset{Death(dead.pid, dead.exitStatus)});
    if t1.procs[dead.parent].waiting then ExitCleanup(t1, x, dead.parent)
    else t1.(procs := t1.procs[x := dead.(inUse := true, zombie := true, waiting := false, reply := false)])
  }

  ghost function ExitProc(t: State, x: nat, status: int): (r: State)
    requires x < |t.procs|
    ensures |r.procs| == |t.procs|
  {
    AdoptFrom(Bury(t, x, status), x, 0)
  }

  // ---------------------------------------------------------------- wait

  /** q is among the children of w that a wait for pid is about. */
  predicate WaitsFor(w: nat, pid: int, q: MProc) {
    q.parent == w && (pid > 0 ==> pid == q.pid) && (pid < -1 ==> -pid == q.procGroup)
  }

  /** The first dead child that a wait for pid is about, or |procs|. */
  function FirstDead(procs: seq<MProc>, w: nat, pid: int): (k: nat)
    ensures k <= |procs| && (k < |procs| ==> WaitsFor(w, pid, procs[k]) && procs[k].zombie)
    ensures forall i :: 0 <= i < k ==> !(WaitsFor(w, pid, procs[i]) && procs[i].zombie)
  {
    if procs == [] then 0
    else if WaitsFor(w, pid, procs[0]) && procs[0].zombie then 0
    else 1 + FirstDead(procs[1..], w, pid)
  }

  /** A wait for process group 0 is about the caller's own group. */
  function WaitTarget(q: MProc, pid: int): int {
    if pid == 0 then -q.procGroup else pid
  }

  function WaitPid(t: State, w: nat, pid0: int, options: nat): (r: (State, int))
    requires w < |t.procs|
    ensures |r.0.procs| == |t.procs|
  {
    var pid := WaitTarget(t.procs[w], pid0);
    var k := FirstDead(t.procs, w, pid);
    if k < |t.procs| then (ExitCleanup(t, k, w), NO_MESSAGE)
    else if exists i :: 0 <= i < |t.procs| && WaitsFor(w, pid, t.procs[i]) then
      if options % 2 == WNOHANG then (t, 0)
      else (t.(procs := t.procs[w := t.procs[w].(waiting := true, waitPid := pid)]), NO_MESSAGE)
    else (t, ECHILD)
  }

  // ---------------------------------------------------------------- fork

  /** The process identifier tried after n. */
  function NextPid(n: nat): (r: nat)
    ensures 1 <= r && (n <= MAX_PID ==> r <= MAX_PID)
  {
    if n < MAX_PID then n + 1 else 1
  }

  /** The identifier tried k steps after n. */
  function Tried(n: nat, k: nat): nat {
    if k == 0 then n else NextPid(Tried(n, k - 1))
  }

  /** v is, or was last, the identifier or the group of a slot other than child. */
  predicate PidTaken(procs: seq<MProc>, child: nat, v: int) {
    exists i :: 0 <= i < |procs| && i != child && (procs[i].pid == v || procs[i].procGroup == v)
  }

  /** v is the first identifier after n that no slot other than child holds. */
  ghost predicate IsFresh(procs: seq<MProc>, child: nat, n: nat, k: nat) {
    0 < k && !PidTaken(procs, child, Tried(n, k)) && forall j :: 0 < j < k ==> PidTaken(procs, child, Tried(n, j))
  }

  /** The first slot that is not in use, or |procs|. */
  function FreeSlot(procs: seq<MProc>): (k: nat)
    ensures k <= |procs| && (k < |procs| ==> !procs[k].inUse)
    ensures forall i :: 0 <= i < k ==> procs[i].inUse
  {
    if procs == [] then 0 else if !procs[0].inUse then 0 else 1 + FreeSlot(procs[1..])
  }

  /** Why a fork is refused for want of slots. */
  predicate NoSlotFor(t: State, who: nat)
    requires who < |t.procs|
  {
    t.procsInUse == |t.procs|
    || (t.procs[who].effectiveUid != SUPER_USER && t.procsInUse >= |t.procs| - LAST_FEW)
  }

  /** Fork by `who`, when it succeeds, given the slot and the identifier the child gets. */
  ghost function Spawn(t: State, who: nat, child: nat, pid: nat): (r: State)
    requires who < |t.procs| && child < |t.procs|
    ensures |r.procs| == |t.procs|
  {
    var parent := t.procs[who];
    var clicks := parent.size / CLICK_SIZE;
    var k := FirstFit(t.bs, clicks);
    if k == |t.bs| then t
    else
      var q := parent.(parent := who, waiting := false, zombie := false, reply := false, pid := pid,
                       base := t.bs[k].base * CLICK_SIZE, exitStatus := 0);
      SetReply(
        t.(procs := t.procs[child := q], procsInUse := t.procsInUse + 1, nextPid := pid,
           bs := Taken(t.bs, k, clicks), blocked := t.blocked + {child}),
        child, 0)
  }

  /** r.1 is what fork returns: the child's identifier, or why there is no child. k: how many identifiers were tried. */
  ghost function Fork(t: State, who: nat, k: nat): (r: (State, int))
    requires who < |t.procs|
    ensures |r.0.procs| == |t.procs|
  {
    var child := FreeSlot(t.procs);
    if NoSlotFor(t, who) || child == |t.procs| then (t, EAGAIN)
    else if FirstFit(t.bs, t.procs[who].size / CLICK_SIZE) == |t.bs| then (t, ENOMEM)
    else (Spawn(t, who, child, Tried(t.nextPid, k)), Tried(t.nextPid, k))
  }

  // ---------------------------------------------------------------- the reply loop

  /** All pending replies are sent. */
  function Drained(t: State): (r: State)
    ensures |r.procs| == |t.procs|
  {
    t.(procs := seq(|t.procs|, i requires 0 <= i < |t.procs| => t.procs[i].(reply := false)),
       blocked := set i | i in t.blocked && !(i < |t.procs| && t.procs[i].reply))
  }
}
