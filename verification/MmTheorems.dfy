/** What the memory manager guarantees over every run, from boot on. */
module MmTheorems {
  import opened Holes
  import opened MmState
  import opened MmInvariants
  import opened MmSteps
  import opened MmTiles
  import opened MmRuns

  // ---------------------------------------------------------------- runs

  datatype Call = Call(who: nat, req: Request)

  /** mm_init: the servers and ORIGIN exist, with the maps the kernel gives, and `free` clicks are one hole. */
  ghost function Boot(nrProcs: nat, maps: seq<(nat, nat)>, free: nat): (t: State)
    requires ORIGIN < nrProcs && |maps| == ORIGIN + 1
  {
    var procs := seq(nrProcs, i requires 0 <= i < nrProcs =>
      if i <= ORIGIN then IDLE_SLOT.(base := maps[i].0, size := maps[i].1, inUse := true) else IDLE_SLOT);
    var holes := Freed([], Block(PROCS_BASE_CLICK, free), 0);
    Mm(2 * nrProcs, procs, ORIGIN + 1, 0, holes.0, holes.1, {}, multiset{}, multiset{})
  }

  lemma {:induction false} BootCounts(procs: seq<MProc>)
    requires forall i :: 0 <= i < |procs| ==> procs[i].inUse == (i <= ORIGIN) && !procs[i].zombie
    ensures CountInUse(procs) == if |procs| <= ORIGIN then |procs| else ORIGIN + 1
    ensures Zombies(procs) == multiset{}
  {
    if procs != [] {
      BootCounts(procs[..|procs| - 1]);
    }
  }

  lemma BootHoles(free: nat)
    ensures Freed([], Block(PROCS_BASE_CLICK, free), 0).0 == if free == 0 then [] else [Block(PROCS_BASE_CLICK, free)]
  {
  }

  lemma BootIsConsistent(nrProcs: nat, maps: seq<(nat, nat)>, free: nat)
    requires ORIGIN < nrProcs && |maps| == ORIGIN + 1 && 2 * nrProcs < MAX_PID
    ensures Inv(Boot(nrProcs, maps, free), PROCS_BASE_CLICK, PROCS_BASE_CLICK + free)
  {
    var t := Boot(nrProcs, maps, free);
    BootHoles(free);
    BootTable(t.procs);
    BootMemory(t.procs, PROCS_BASE_CLICK, free);
  }

  lemma {:induction false} BootTable(procs: seq<MProc>)
    requires ORIGIN < |procs| && forall i :: 0 <= i < |procs| ==>
               procs[i] == IDLE_SLOT.(base := procs[i].base, size := procs[i].size, inUse := i <= ORIGIN)
    ensures Tree(procs) && CountInUse(procs) == ORIGIN + 1 && Ledger(procs, multiset{}, multiset{}) && NoneMissed(procs)
    ensures PidsOk(procs, 0) && Quiet(procs, {})
  {
    BootCounts(procs);
    assert forall i :: 0 <= i < |procs| ==> ParentAlive(procs, i);
  }

  lemma BootMemory(procs: seq<MProc>, lo: nat, free: nat)
    requires 0 < lo && ORIGIN < |procs| && forall i :: ORIGIN < i < |procs| ==> !procs[i].inUse
    ensures Divided(procs, if free == 0 then [] else [Block(lo, free)], lo, lo + free)
  {
    var bs := if free == 0 then [] else [Block(lo, free)];
    forall c
      ensures Covers(bs, c) <==> lo <= c < lo + free
    {
      assert free > 0 && lo <= c < lo + free ==> In(c, bs[0]);
    }
    assert At(lo, lo, procs[ORIGIN].Memory().length, 0);
  }

  ghost predicate Legal(t: State, run: seq<Call>)
    requires Numbered(t)
    decreases |run|
  {
    run == []
    || (Allowed(t, run[0].who, run[0].req) && Legal(Turn(t, run[0].who, run[0].req), run[1..]))
  }

  ghost function After(t: State, run: seq<Call>): (r: State)
    requires Numbered(t) && Legal(t, run)
    ensures |r.procs| == |t.procs|
    decreases |run|
  {
    if run == [] then t else After(Turn(t, run[0].who, run[0].req), run[1..])
  }

  lemma {:induction false} RunKeepsInv(t: State, lo: int, hi: int, run: seq<Call>)
    requires Inv(t, lo, hi) && Legal(t, run)
    ensures Inv(After(t, run), lo, hi)
    decreases |run|
  {
    if run != [] {
      TurnKeepsInv(t, lo, hi, run[0].who, run[0].req);
      RunKeepsInv(Turn(t, run[0].who, run[0].req), lo, hi, run[1..]);
    }
  }

  // ---------------------------------------------------------------- what a caller can rely on

  ghost predicate ReachedBy(t: State, hi: int, nrProcs: nat, maps: seq<(nat, nat)>, free: nat, run: seq<Call>) {
    && ORIGIN < nrProcs && |maps| == ORIGIN + 1 && 2 * nrProcs < MAX_PID
    && Legal(Boot(nrProcs, maps, free), run)
    && t == After(Boot(nrProcs, maps, free), run) && hi == PROCS_BASE_CLICK + free
  }

  /** Every state between requests, in any run from boot. */
  ghost predicate Reachable(t: State, hi: int) {
    exists nrProcs, maps, free, run :: ReachedBy(t, hi, nrProcs, maps, free, run)
  }

  lemma ReachedIsConsistent(t: State, hi: int, nrProcs: nat, maps: seq<(nat, nat)>, free: nat, run: seq<Call>)
    requires ReachedBy(t, hi, nrProcs, maps, free, run)
    ensures Inv(t, PROCS_BASE_CLICK, hi)
  {
    BootIsConsistent(nrProcs, maps, free);
    RunKeepsInv(Boot(nrProcs, maps, free), PROCS_BASE_CLICK, hi, run);
  }

  lemma ReachableIsConsistent(t: State, hi: int)
    requires Reachable(t, hi)
    ensures Inv(t, PROCS_BASE_CLICK, hi)
  {
    var nrProcs, maps, free, run :| ReachedBy(t, hi, nrProcs, maps, free, run);
    ReachedIsConsistent(t, hi, nrProcs, maps, free, run);
  }

  /** Each click is in exactly one hole or belongs to exactly one living process, and giving back never fails. */
  lemma MemoryIsConserved(t: State, hi: int)
    requires Reachable(t, hi)
    ensures WellPlaced(t.bs) && |t.bs| < t.nrHoles
    ensures forall c :: PROCS_BASE_CLICK <= c < hi ==> Covers(t.bs, c) != Owned(t.procs, c)
    ensures forall i, j, c :: Owns(t.procs, i, c) && Owns(t.procs, j, c) ==> i == j
    ensures forall i, c :: Owns(t.procs, i, c) ==> PROCS_BASE_CLICK <= c < hi
  {
    ReachableIsConsistent(t, hi);
    HoleTableNeverFull(t, PROCS_BASE_CLICK, hi);
    forall i, c | Owns(t.procs, i, c)
      ensures PROCS_BASE_CLICK <= c < hi
    {
      assert Owned(t.procs, c);
    }
  }

  /** Whoever waits has no dead child that it waits for; whoever does not wait has its answer; nobody's parent is dead;
      no identifier is held twice. */
  lemma NobodyIsForgotten(t: State, hi: int)
    requires Reachable(t, hi)
    ensures forall w, i :: 0 <= w < |t.procs| && 0 <= i < |t.procs| && t.procs[w].waiting && t.procs[i].zombie ==>
              !WaitsFor(w, t.procs[w].waitPid, t.procs[i])
    ensures forall i :: i in t.blocked <==> 0 <= i < |t.procs| && t.procs[i].waiting
    ensures forall i :: 0 <= i < |t.procs| ==> ParentAlive(t.procs, i)
    ensures t.procsInUse == CountInUse(t.procs)
    ensures forall i, j :: 0 <= i < j < |t.procs| && t.procs[i].pid > 0 ==> t.procs[i].pid != t.procs[j].pid
  {
    ReachableIsConsistent(t, hi);
  }

  /** Each death is reported once, or its slot still holds it. */
  lemma EachDeathIsReportedOnce(t: State, hi: int)
    requires Reachable(t, hi)
    ensures t.reports <= t.deaths
    ensures t.deaths - t.reports == Zombies(t.procs)
    ensures t.reports == t.deaths <==> forall i :: 0 <= i < |t.procs| ==> !t.procs[i].zombie
  {
    ReachableIsConsistent(t, hi);
    NoZombies(t.procs);
    assert t.deaths == t.reports + Zombies(t.procs);
    if t.reports == t.deaths {
      assert Zombies(t.procs) == t.deaths - t.reports;
    }
  }

  lemma {:induction false} NoZombies(procs: seq<MProc>)
    ensures Zombies(procs) == multiset{} <==> forall i :: 0 <= i < |procs| ==> !procs[i].zombie
  {
    if procs != [] {
      var n := |procs| - 1;
      NoZombies(procs[..n]);
      if procs[n].zombie {
        assert Death(procs[n].pid, procs[n].exitStatus) in Zombies(procs);
      } else if i :| 0 <= i < |procs| && procs[i].zombie {
        assert procs[..n][i].zombie;
      }
    }
  }

  /** Fork fails exactly for want of a slot or of memory, and then changes nothing; or it makes one child, whose
      identifier no slot holds or held last, as identifier or group. */
  lemma ForkAllOrNothing(t: State, hi: int, who: nat)
    requires Reachable(t, hi) && Numbered(t) && Allowed(t, who, Forking)
    ensures var (r, rs) := Handled(t, who, Forking);
            && (rs < 0 <==>
                  NoSlotFor(t, who) || forall k :: 0 <= k < |t.bs| ==> t.bs[k].length < t.procs[who].size / CLICK_SIZE)
            && (rs < 0 ==> r == t)
            && (rs >= 0 ==> exists child :: Begotten(t, r, who, rs, child))
  {
    ReachableIsConsistent(t, hi);
    CallIsOpen(t, PROCS_BASE_CLICK, hi, who, Forking);
    var c := t.(blocked := t.blocked + {who});
    var (r, rs) := Handled(t, who, Forking);
    var n := t.procs[who].size / CLICK_SIZE;
    if !NoSlotFor(t, who) {
      ForkFinds(c, who);
      if FirstFit(t.bs, n) < |t.bs| {
        SpawnIs(t, who, FreeSlot(t.procs), rs);
        assert Begotten(t, r, who, rs, FreeSlot(t.procs));
      }
    }
  }

  /** The slot child, free in t, holds in r a new child of who. */
  ghost predicate Begotten(t: State, r: State, who: nat, pid: int, child: nat) {
    && child < |t.procs| && !t.procs[child].inUse && |r.procs| == |t.procs|
    && r.procs == t.procs[child := r.procs[child]]
    && r.procs[child].Alive() && r.procs[child].parent == who && r.procs[child].pid == pid
    && 1 <= pid <= MAX_PID && !PidTaken(t.procs, child, pid)
  }

  // ---------------------------------------------------------------- replies

  ghost function One(b: bool): nat {
    if b then 1 else 0
  }

  /** The slot a request fills, or |procs|. */
  ghost function Born(t: State, who: nat, req: Request): nat
    requires who < |t.procs| && Numbered(t)
  {
    if req.Forking? && Handled(t, who, Forking).1 >= 0 then FreeSlot(t.procs) else |t.procs|
  }

  /** How many requests slot i makes, and how often it comes to hold a new process. */
  ghost function Asked(t: State, run: seq<Call>, i: nat): nat
    requires Numbered(t) && Legal(t, run)
    decreases |run|
  {
    if run == [] then 0
    else
      One(run[0].who == i) + One(Born(t, run[0].who, run[0].req) == i)
      + Asked(Turn(t, run[0].who, run[0].req), run[1..], i)
  }

  /** How many replies slot i is sent. */
  ghost function Answered(t: State, run: seq<Call>, i: nat): nat
    requires Numbered(t) && Legal(t, run) && i < |t.procs|
    decreases |run|
  {
    if run == [] then 0
    else
      One(Served(t, run[0].who, run[0].req).procs[i].reply) + Answered(Turn(t, run[0].who, run[0].req), run[1..], i)
  }

  lemma {:induction false} AdoptingBlocksNobody(t: State, x: nat, i: nat)
    requires i <= |t.procs|
    ensures AdoptFrom(t, x, i).blocked == t.blocked
    decreases |t.procs| - i
  {
    if i < |t.procs| {
      AdoptingBlocksNobody(Adopt(t, x, i), x, i + 1);
    }
  }

  /** Only the caller and a new process come to await a reply. */
  lemma NewlyBlocked(t: State, who: nat, req: Request)
    requires who < |t.procs| && Numbered(t)
    ensures Served(t, who, req).blocked <= t.blocked + {who, Born(t, who, req)}
  {
    var c := t.(blocked := t.blocked + {who});
    if req.Exiting? {
      AdoptingBlocksNobody(Bury(c, who, req.status), who, 0);
    }
  }

  lemma DrainAnswers(t: State, i: nat)
    requires i < |t.procs| && RepliesOk(t.procs, t.blocked, |t.procs|)
    ensures One(t.procs[i].reply) + One(i in Drained(t).blocked) == One(i in t.blocked)
  {
  }

  /** A turn answers slot i at most once, and only if i awaits an answer. */
  lemma TurnAnswers(t: State, lo: int, hi: int, who: nat, req: Request, i: nat)
    requires Inv(t, lo, hi) && Allowed(t, who, req) && i < |t.procs|
    ensures One(Served(t, who, req).procs[i].reply) + One(i in Turn(t, who, req).blocked)
            <= One(who == i) + One(Born(t, who, req) == i) + One(i in t.blocked)
  {
    var s := Served(t, who, req);
    var born := Born(t, who, req);
    assert s.blocked <= t.blocked + {who, born} by {
      NewlyBlocked(t, who, req);
    }
    assert One(s.procs[i].reply) + One(i in Drained(s).blocked) == One(i in s.blocked) by {
      RequestIsServed(t, lo, hi, who, req);
      DrainAnswers(s, i);
    }
  }

  /** In every run a process is sent at most one reply for each request it makes, besides the one that starts it. */
  lemma {:induction false} RepliesAreAskedFor(t: State, lo: int, hi: int, run: seq<Call>, i: nat)
    requires Inv(t, lo, hi) && Legal(t, run) && i < |t.procs|
    ensures Answered(t, run, i) + One(i in After(t, run).blocked) <= Asked(t, run, i) + One(i in t.blocked)
    decreases |run|
  {
    if run != [] {
      TurnKeepsInv(t, lo, hi, run[0].who, run[0].req);
      TurnAnswers(t, lo, hi, run[0].who, run[0].req, i);
      RepliesAreAskedFor(Turn(t, run[0].who, run[0].req), lo, hi, run[1..], i);
    }
  }

  // ---------------------------------------------------------------- where the code departs from its intent

  /** A caller without children, alive or dead, is told so exactly if no free slot still names it as parent of what it
      asks about; otherwise, unless it said not to wait, it waits. */
  lemma ChildlessIsToldExactly(t: State, w: nat, pid: int, options: nat)
    requires w < |t.procs| && (forall i :: 0 <= i < |t.procs| ==> Consistent(t.procs[i]))
    requires forall i :: 0 <= i < |t.procs| && t.procs[i].inUse ==> t.procs[i].parent != w
    ensures var (r, rs) := WaitPid(t, w, pid, options);
            && (rs == ECHILD <==>
                  !exists i :: 0 <= i < |t.procs| && WaitsFor(w, WaitTarget(t.procs[w], pid), t.procs[i]))
            && (rs == NO_MESSAGE ==> r.procs[w].waiting)
            && (rs == ECHILD || rs == NO_MESSAGE || (rs == 0 && options % 2 == WNOHANG))
  {
    var k := FirstDead(t.procs, w, WaitTarget(t.procs[w], pid));
    assert k < |t.procs| ==> Consistent(t.procs[k]);
  }
}
