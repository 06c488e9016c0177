/** What every request to the memory manager keeps. */
module MmInvariants {
  import opened Holes
  import opened MmState

  // ---------------------------------------------------------------- the invariants

  /** The parent of every slot, used or not, is alive; the servers and ORIGIN are. */
  ghost predicate Tree(procs: seq<MProc>) {
    TreeBut(procs, |procs|, 0)
  }

  /** The same while the children of x, in slots from `from` on, have still to be adopted. */
  ghost predicate TreeBut(procs: seq<MProc>, x: nat, from: nat) {
    && ORIGIN < |procs|
    && (forall i :: 0 <= i <= ORIGIN ==> procs[i].Alive())
    && (forall i :: 0 <= i < |procs| ==> ParentAlive(procs, i) || (from <= i && procs[i].parent == x))
    && (forall i :: 0 <= i < |procs| ==> Consistent(procs[i]) && Rooted(procs[i], i))
  }

  /** Only the processes below ORIGIN and ORIGIN itself descend from slot 0; nobody else is its own parent. */
  ghost predicate Rooted(q: MProc, i: nat) {
    if i <= ORIGIN then q.parent == 0 else q.parent != i
  }

  ghost predicate ParentAlive(procs: seq<MProc>, i: nat)
    requires i < |procs|
  {
    procs[i].parent < |procs| && procs[procs[i].parent].Alive()
  }

  ghost predicate Consistent(q: MProc) {
    (q.zombie ==> q.inUse && !q.reply) && (q.waiting ==> q.Alive()) && (!q.inUse ==> !q.reply)
  }

  ghost function CountInUse(procs: seq<MProc>): nat {
    if procs == [] then 0 else CountInUse(procs[..|procs| - 1]) + (if procs[|procs| - 1].inUse then 1 else 0)
  }

  /** The dead whose parents have not been told. */
  ghost function Zombies(procs: seq<MProc>): multiset<Death> {
    if procs == [] then multiset{}
    else Zombies(procs[..|procs| - 1]) + DeathOf(procs[|procs| - 1])
  }

  ghost function DeathOf(q: MProc): multiset<Death> {
    if q.zombie then multiset{Death(q.pid, q.exitStatus)} else multiset{}
  }

  /** Every death has been reported or can still be, and neither twice. */
  ghost predicate Ledger(procs: seq<MProc>, deaths: multiset<Death>, reports: multiset<Death>) {
    deaths == reports + Zombies(procs)
  }

  /** Nobody waits although a child it waits for is dead. */
  ghost predicate NoneMissed(procs: seq<MProc>) {
    NoneMissedBut(procs, |procs|)
  }

  /** The same, the child in slot e apart. */
  ghost predicate NoneMissedBut(procs: seq<MProc>, e: nat) {
    forall w, i :: 0 <= w < |procs| && 0 <= i < |procs| && i != e && procs[w].waiting && procs[i].zombie ==>
      !WaitsFor(w, procs[w].waitPid, procs[i])
  }

  ghost predicate PidsOk(procs: seq<MProc>, nextPid: nat) {
    && nextPid <= MAX_PID
    && (forall i :: 0 <= i < |procs| ==> 0 <= procs[i].pid <= MAX_PID)
    && (forall i, j :: 0 <= i < j < |procs| && procs[i].pid > 0 ==> procs[i].pid != procs[j].pid)
  }

  /** While the request of `who` is being served: replies are pending only for processes that await one, and every
      process that awaits one, other than `who`, is waiting for a child or has its reply pending. */
  ghost predicate RepliesOk(procs: seq<MProc>, blocked: set<nat>, who: nat) {
    && (forall i :: i in blocked ==>
          i < |procs| && procs[i].Alive() && (procs[i].waiting || procs[i].reply || i == who))
    && (forall i :: 0 <= i < |procs| && procs[i].reply ==> i in blocked)
    && (forall i :: 0 <= i < |procs| && procs[i].waiting ==> i in blocked && !procs[i].reply)
  }

  /** Between requests: a process awaits a reply exactly if it waits for a child, and no reply is pending. */
  ghost predicate Quiet(procs: seq<MProc>, blocked: set<nat>) {
    && (forall i :: i in blocked <==> 0 <= i < |procs| && procs[i].waiting)
    && (forall i :: 0 <= i < |procs| ==> !procs[i].reply)
  }

  /** Click c belongs to the process in slot i, which was forked and lives. */
  ghost predicate Owns(procs: seq<MProc>, i: int, c: int) {
    ORIGIN < i < |procs| && procs[i].Alive() && In(c, procs[i].Memory())
  }

  ghost predicate Owned(procs: seq<MProc>, c: int) {
    exists i :: Owns(procs, i, c)
  }

  /** The clicks from lo up to hi are divided among the holes and the processes that were forked and live. */
  ghost predicate MemoryOk(procs: seq<MProc>, bs: seq<Block>, lo: int, hi: int) {
    && 0 < lo && WellPlaced(bs)
    && (forall c :: Covers(bs, c) || Owned(procs, c) <==> lo <= c < hi)
    && (forall i, c :: Owns(procs, i, c) ==> !Covers(bs, c))
    && (forall i, j, c :: Owns(procs, i, c) && Owns(procs, j, c) ==> i == j)
  }

  // ---------------------------------------------------------------- counting

  lemma {:induction false} ChangeCounts(procs: seq<MProc>, i: nat, q: MProc)
    requires i < |procs|
    ensures CountInUse(procs[i := q]) + (if procs[i].inUse then 1 else 0)
            == CountInUse(procs) + (if q.inUse then 1 else 0)
    ensures Zombies(procs[i := q]) + DeathOf(procs[i]) == Zombies(procs) + DeathOf(q)
  {
    var n := |procs| - 1;
    if i == n {
      assert procs[i := q][..n] == procs[..n];
      Exchange(Zombies(procs[..n]), DeathOf(q), DeathOf(procs[i]));
    } else {
      assert procs[i := q][..n] == procs[..n][i := q];
      ChangeCounts(procs[..n], i, q);
      AddToBoth(Zombies(procs[..n][i := q]), DeathOf(procs[i]), Zombies(procs[..n]), DeathOf(q), DeathOf(procs[n]));
    }
  }

  lemma Exchange(a: multiset<Death>, b: multiset<Death>, c: multiset<Death>)
    ensures a + b + c == a + c + b
  {
  }

  lemma AddToBoth(a: multiset<Death>, b: multiset<Death>, c: multiset<Death>, d: multiset<Death>, e: multiset<Death>)
    requires a + b == c + d
    ensures a + e + b == c + e + d
  {
    Exchange(a, e, b);
    Exchange(c, e, d);
  }

  /** Slots that differ in nothing that is counted. */
  lemma {:induction false} SameCounts(procs: seq<MProc>, procs1: seq<MProc>)
    requires |procs1| == |procs|
    requires forall i :: 0 <= i < |procs| ==>
               procs1[i].inUse == procs[i].inUse && DeathOf(procs1[i]) == DeathOf(procs[i])
    ensures CountInUse(procs1) == CountInUse(procs) && Zombies(procs1) == Zombies(procs)
  {
    if procs != [] {
      SameCounts(procs[..|procs| - 1], procs1[..|procs| - 1]);
    }
  }

  lemma {:induction false} CountIsBounded(procs: seq<MProc>)
    ensures CountInUse(procs) <= |procs|
    ensures CountInUse(procs) < |procs| <==> exists i :: 0 <= i < |procs| && !procs[i].inUse
  {
    if procs != [] {
      var rest := procs[..|procs| - 1];
      CountIsBounded(rest);
      if i :| 0 <= i < |procs| && !procs[i].inUse {
        assert i < |rest| ==> !rest[i].inUse;
      }
    }
  }

  lemma SubsetIsSmaller(a: set<int>, b: set<int>)
    requires a <= b
    ensures |a| <= |b|
  {
    assert b == a + (b - a);
  }

  // ---------------------------------------------------------------- telling a parent

  lemma CleanupCounts(t: State, e: nat, w: nat)
    requires e < |t.procs| && w < |t.procs| && t.procs[e].inUse && e != w && t.procs[e].parent == w
    ensures var r := ExitCleanup(t, e, w);
            CountInUse(r.procs) == CountInUse(t.procs) - 1 && Zombies(r.procs) + DeathOf(t.procs[e]) == Zombies(t.procs)
  {
    var r := ExitCleanup(t, e, w);
    ChangeCounts(t.procs, e, r.procs[e]);
    SameCounts(t.procs[e := r.procs[e]], r.procs);
  }

  lemma CleanupKeepsTree(t: State, e: nat, w: nat, x: nat, from: nat)
    requires e < |t.procs| && w < |t.procs| && e != w && ORIGIN < e && t.procs[e].parent == w
    requires TreeBut(t.procs, x, from) && (!t.procs[e].Alive() || (e == x && from == 0)) && t.procs[w].Alive()
    ensures TreeBut(ExitCleanup(t, e, w).procs, x, from)
  {
    var r := ExitCleanup(t, e, w);
    forall i | 0 <= i < |r.procs|
      ensures ParentAlive(r.procs, i) || (from <= i && r.procs[i].parent == x)
    {
      assert ParentAlive(t.procs, i) || (from <= i && t.procs[i].parent == x);
    }
    forall i | 0 <= i < |r.procs|
      ensures Consistent(r.procs[i]) && Rooted(r.procs[i], i)
    {
      assert Consistent(t.procs[i]) && Rooted(t.procs[i], i);
    }
  }

  lemma CleanupKeepsReplies(t: State, e: nat, w: nat, who: nat)
    requires e < |t.procs| && w < |t.procs| && e != w && t.procs[e].parent == w && e !in t.blocked
    requires RepliesOk(t.procs, t.blocked, who) && w in t.blocked
    ensures RepliesOk(ExitCleanup(t, e, w).procs, t.blocked, who)
  {
  }

  lemma CleanupMissesNone(t: State, e: nat, w: nat)
    requires e < |t.procs| && w < |t.procs| && e != w && t.procs[e].parent == w && NoneMissedBut(t.procs, e)
    ensures NoneMissed(ExitCleanup(t, e, w).procs)
  {
  }

  lemma CleanupKeepsPids(t: State, e: nat, w: nat)
    requires e < |t.procs| && w < |t.procs| && e != w && t.procs[e].parent == w && PidsOk(t.procs, t.nextPid)
    ensures PidsOk(ExitCleanup(t, e, w).procs, t.nextPid)
  {
  }

  /** Slots in which nobody comes to own other clicks. */
  ghost predicate SameOwners(procs: seq<MProc>, procs1: seq<MProc>) {
    |procs1| == |procs|
    && forall i :: 0 <= i < |procs| ==>
         procs1[i].Memory() == procs[i].Memory() && (procs1[i].Alive() <==> procs[i].Alive())
  }

  lemma CleanupKeepsOwners(t: State, e: nat, w: nat)
    requires e < |t.procs| && w < |t.procs| && e != w && t.procs[e].parent == w && !t.procs[e].Alive()
    ensures SameOwners(t.procs, ExitCleanup(t, e, w).procs)
  {
  }

  lemma SameOwnersKeepsMemory(procs: seq<MProc>, procs1: seq<MProc>, bs: seq<Block>, lo: int, hi: int)
    requires MemoryOk(procs, bs, lo, hi) && SameOwners(procs, procs1)
    ensures MemoryOk(procs1, bs, lo, hi)
  {
    assert forall i, c :: Owns(procs1, i, c) <==> Owns(procs, i, c);
  }

  // ---------------------------------------------------------------- exit

  /** What holds while a request is being served; x and from as in TreeBut, who as in RepliesOk. */
  ghost predicate Serving(t: State, who: nat, x: nat, from: nat) {
    ServingBut(t, who, x, from, |t.procs|)
  }

  ghost predicate ServingBut(t: State, who: nat, x: nat, from: nat, e: nat) {
    && TreeBut(t.procs, x, from)
    && t.procsInUse == CountInUse(t.procs)
    && Ledger(t.procs, t.deaths, t.reports)
    && NoneMissedBut(t.procs, e)
    && PidsOk(t.procs, t.nextPid)
    && RepliesOk(t.procs, t.blocked, who)
  }

  lemma CleanupKeepsServing(t: State, e: nat, w: nat, who: nat, x: nat, from: nat)
    requires e < |t.procs| && w < |t.procs| && ServingBut(t, who, x, from, e)
    requires ORIGIN < e && e != w && t.procs[e].parent == w && t.procs[e].zombie
    requires t.procs[w].Alive() && w in t.blocked
    ensures Serving(ExitCleanup(t, e, w), who, x, from)
  {
    assert Consistent(t.procs[e]);
    CleanupCounts(t, e, w);
    CleanupKeepsTree(t, e, w, x, from);
    CleanupKeepsReplies(t, e, w, who);
    CleanupMissesNone(t, e, w);
    CleanupKeepsPids(t, e, w);
  }

  /** The state in which the resources of x are gone but its slot is as before. */
  ghost function Dying(t: State, x: nat, status: int): (r: State)
    requires x < |t.procs|
    ensures |r.procs| == |t.procs|
  {
    var freed := Freed(t.bs, t.procs[x].Memory(), t.merged);
    var dead := t.procs[x].(exitStatus := ToChar(status));
    t.(procs := t.procs[x := dead], bs := freed.0, merged := freed.1, blocked := t.blocked - {x},
       deaths := t.deaths + multiset{Death(dead.pid, dead.exitStatus)})
  }

  /** Slot i becomes q, which lives as before or is x1, and whose parent is as before or lives. */
  lemma ChangeKeepsTree(procs: seq<MProc>, x: nat, from: nat, i: nat, q: MProc, x1: nat, from1: nat)
    requires i < |procs| && TreeBut(procs, x, from) && Consistent(q) && Rooted(q, i)
    requires q.Alive() == procs[i].Alive() || (i == x1 && ORIGIN < i && from1 == 0)
    requires q.parent == procs[i].parent || (q.parent != x1 && q.parent < |procs| && procs[q.parent].Alive()
                                             && q.parent != i)
    requires forall j :: from <= j < |procs| && procs[j].parent == x && (j != i || q.parent == x) ==>
               from1 <= j && x1 == x
    ensures TreeBut(procs[i := q], x1, from1)
  {
    var procs1 := procs[i := q];
    forall j | 0 <= j < |procs1|
      ensures ParentAlive(procs1, j) || (from1 <= j && procs1[j].parent == x1)
      ensures Consistent(procs1[j]) && Rooted(procs1[j], j)
    {
      assert ParentAlive(procs, j) || (from <= j && procs[j].parent == x);
      assert Consistent(procs[j]) && Rooted(procs[j], j);
    }
  }

  lemma ChangeKeepsPids(procs: seq<MProc>, nextPid: nat, i: nat, q: MProc)
    requires i < |procs| && PidsOk(procs, nextPid) && q.pid == procs[i].pid
    ensures PidsOk(procs[i := q], nextPid)
  {
  }

  lemma ChangeKeepsReplies(procs: seq<MProc>, blocked: set<nat>, who: nat, i: nat, q: MProc)
    requires i < |procs| && RepliesOk(procs, blocked, who)
    requires q.waiting == procs[i].waiting && q.reply == procs[i].reply && (i in blocked ==> q.Alive())
    ensures RepliesOk(procs[i := q], blocked, who)
  {
  }

  lemma ForgetCaller(procs: seq<MProc>, blocked: set<nat>, x: nat)
    requires x < |procs| && RepliesOk(procs, blocked, x) && !procs[x].waiting && !procs[x].reply
    ensures RepliesOk(procs, blocked - {x}, |procs|)
  {
  }

  lemma ChangeMissesNone(procs: seq<MProc>, i: nat, q: MProc)
    requires i < |procs| && NoneMissed(procs) && q.waiting == procs[i].waiting && q.waitPid == procs[i].waitPid
    requires q.zombie ==> procs[i].zombie || (q.parent < |procs| && !procs[q.parent].waiting)
    requires q.parent == procs[i].parent && q.pid == procs[i].pid && q.procGroup == procs[i].procGroup
    ensures NoneMissed(procs[i := q])
  {
  }

  lemma DyingFacts(t: State, x: nat, status: int)
    requires x < |t.procs| && ORIGIN < x && Serving(t, x, |t.procs|, 0)
    requires t.procs[x].Alive() && !t.procs[x].waiting && !t.procs[x].reply
    ensures var r := Dying(t, x, status);
            && TreeBut(r.procs, x, 0) && r.procsInUse == CountInUse(r.procs)
            && Ledger(r.procs, t.deaths, t.reports) && NoneMissed(r.procs) && PidsOk(r.procs, r.nextPid)
            && RepliesOk(r.procs, r.blocked, |r.procs|)
  {
    var q := Dying(t, x, status).procs[x];
    SameCounts(t.procs, t.procs[x := q]);
    assert Consistent(t.procs[x]) && Rooted(t.procs[x], x);
    ChangeKeepsTree(t.procs, |t.procs|, 0, x, q, x, 0);
    ChangeKeepsPids(t.procs, t.nextPid, x, q);
    ForgetCaller(t.procs, t.blocked, x);
    ChangeKeepsReplies(t.procs, t.blocked - {x}, |t.procs|, x, q);
    ChangeMissesNone(t.procs, x, q);
  }

  lemma BuryAsZombie(t: State, x: nat)
    requires x < |t.procs| && ORIGIN < x && t.procs[x].Alive() && !t.procs[x].waiting && x !in t.blocked
    requires !t.procs[t.procs[x].parent].waiting
    requires TreeBut(t.procs, x, 0) && NoneMissed(t.procs) && RepliesOk(t.procs, t.blocked, |t.procs|)
    requires PidsOk(t.procs, t.nextPid)
    ensures var q := t.procs[x].(zombie := true, reply := false);
            && TreeBut(t.procs[x := q], x, 0) && NoneMissed(t.procs[x := q])
            && RepliesOk(t.procs[x := q], t.blocked, |t.procs|) && PidsOk(t.procs[x := q], t.nextPid)
            && CountInUse(t.procs[x := q]) == CountInUse(t.procs)
            && Zombies(t.procs[x := q]) == Zombies(t.procs) + multiset{Death(q.pid, q.exitStatus)}
  {
    var q := t.procs[x].(zombie := true, reply := false);
    ChangeCounts(t.procs, x, q);
    assert Consistent(t.procs[x]) && Rooted(t.procs[x], x);
    ChangeKeepsTree(t.procs, x, 0, x, q, x, 0);
    ChangeKeepsPids(t.procs, t.nextPid, x, q);
    ChangeKeepsReplies(t.procs, t.blocked, |t.procs|, x, q);
    ChangeMissesNone(t.procs, x, q);
  }

  lemma BuryByTelling(t: State, x: nat)
    requires x < |t.procs| && ORIGIN < x && t.procs[x].Alive() && x !in t.blocked
    requires t.procs[t.procs[x].parent].waiting
    requires TreeBut(t.procs, x, 0) && NoneMissed(t.procs) && RepliesOk(t.procs, t.blocked, |t.procs|)
    requires t.procsInUse == CountInUse(t.procs) && PidsOk(t.procs, t.nextPid)
    ensures var r := ExitCleanup(t, x, t.procs[x].parent);
            && TreeBut(r.procs, x, 0) && NoneMissed(r.procs) && RepliesOk(r.procs, t.blocked, |t.procs|)
            && r.procsInUse == CountInUse(r.procs) && PidsOk(r.procs, r.nextPid)
            && Zombies(r.procs) == Zombies(t.procs)
  {
    var w := t.procs[x].parent;
    assert Rooted(t.procs[x], x) && Consistent(t.procs[w]);
    CleanupCounts(t, x, w);
    CleanupKeepsTree(t, x, w, x, 0);
    CleanupKeepsReplies(t, x, w, |t.procs|);
    CleanupMissesNone(t, x, w);
    CleanupKeepsPids(t, x, w);
  }

  /** Bury, once the resources are gone. */
  ghost function Laid(d: State, x: nat): (r: State)
    requires x < |d.procs|
    ensures |r.procs| == |d.procs|
  {
    if d.procs[d.procs[x].parent].waiting then ExitCleanup(d, x, d.procs[x].parent)
    else d.(procs := d.procs[x := d.procs[x].(inUse := true, zombie := true, waiting := false, reply := false)])
  }

  lemma LaidKeepsServing(d: State, x: nat, deaths: multiset<Death>)
    requires x < |d.procs| && ORIGIN < x && d.procs[x].Alive() && !d.procs[x].waiting && x !in d.blocked
    requires TreeBut(d.procs, x, 0) && NoneMissed(d.procs) && RepliesOk(d.procs, d.blocked, |d.procs|)
    requires d.procsInUse == CountInUse(d.procs) && PidsOk(d.procs, d.nextPid)
    requires Ledger(d.procs, deaths, d.reports)
    requires d.deaths == deaths + multiset{Death(d.procs[x].pid, d.procs[x].exitStatus)}
    ensures Serving(Laid(d, x), |d.procs|, x, 0) && !Laid(d, x).procs[x].Alive()
  {
    if d.procs[d.procs[x].parent].waiting {
      BuryByTelling(d, x);
    } else {
      BuryAsZombie(d, x);
    }
  }

  lemma BuryKeepsServing(t: State, x: nat, status: int)
    requires x < |t.procs| && ORIGIN < x && Serving(t, x, |t.procs|, 0)
    requires t.procs[x].Alive() && !t.procs[x].waiting && !t.procs[x].reply
    ensures Serving(Bury(t, x, status), |t.procs|, x, 0) && !Bury(t, x, status).procs[x].Alive()
  {
    DyingFacts(t, x, status);
    LaidKeepsServing(Dying(t, x, status), x, t.deaths);
    assert Bury(t, x, status) == Laid(Dying(t, x, status), x);
  }

  lemma AdoptMissesNone(procs: seq<MProc>, i: nat)
    requires i < |procs| && ORIGIN < |procs| && NoneMissed(procs)
    ensures var procs1 := procs[i := procs[i].(parent := ORIGIN)];
            NoneMissedBut(procs1, i) && (!procs[ORIGIN].waiting || !procs[i].zombie ==> NoneMissed(procs1))
  {
  }

  lemma AdoptKeepsTree(procs: seq<MProc>, x: nat, i: nat)
    requires i < |procs| && ORIGIN < x && procs[i].parent == x && TreeBut(procs, x, i)
    ensures ORIGIN < i && TreeBut(procs[i := procs[i].(parent := ORIGIN)], x, i + 1)
  {
    assert Rooted(procs[i], i) && Consistent(procs[i]);
    ChangeKeepsTree(procs, x, i, i, procs[i].(parent := ORIGIN), x, i + 1);
  }

  /** t, with slot i a child of ORIGIN. */
  ghost function Adopted(t: State, i: nat): (r: State)
    requires i < |t.procs|
    ensures |r.procs| == |t.procs|
  {
    t.(procs := t.procs[i := t.procs[i].(parent := ORIGIN)])
  }

  lemma AdoptedIsServed(t: State, x: nat, i: nat)
    requires i < |t.procs| && t.procs[i].parent == x && ORIGIN < x
    requires Serving(t, |t.procs|, x, i)
    ensures ORIGIN < i && ServingBut(Adopted(t, i), |t.procs|, x, i + 1, i)
    ensures !t.procs[ORIGIN].waiting || !t.procs[i].zombie ==> Serving(Adopted(t, i), |t.procs|, x, i + 1)
  {
    var q := t.procs[i].(parent := ORIGIN);
    assert Consistent(t.procs[i]);
    SameCounts(t.procs, t.procs[i := q]);
    AdoptKeepsTree(t.procs, x, i);
    ChangeKeepsPids(t.procs, t.nextPid, i, q);
    ChangeKeepsReplies(t.procs, t.blocked, |t.procs|, i, q);
    AdoptMissesNone(t.procs, i);
  }

  lemma AdoptedCanBeTold(t: State, x: nat, i: nat)
    requires i < |t.procs| && t.procs[i].parent == x && ORIGIN < x && Serving(t, |t.procs|, x, i)
    requires t.procs[ORIGIN].waiting && t.procs[i].zombie
    ensures Serving(ExitCleanup(Adopted(t, i), i, ORIGIN), |t.procs|, x, i + 1)
  {
    AdoptedIsServed(t, x, i);
    assert Consistent(t.procs[ORIGIN]);
    CleanupKeepsServing(Adopted(t, i), i, ORIGIN, |t.procs|, x, i + 1);
  }

  lemma NoChild(procs: seq<MProc>, x: nat, i: nat)
    requires i < |procs| && procs[i].parent != x && TreeBut(procs, x, i)
    ensures TreeBut(procs, x, i + 1)
  {
  }

  lemma AdoptIs(t: State, x: nat, i: nat)
    requires i < |t.procs|
    ensures Adopt(t, x, i)
            == if t.procs[i].parent != x then t
               else if Adopted(t, i).procs[ORIGIN].waiting && t.procs[i].zombie then
                 ExitCleanup(Adopted(t, i), i, ORIGIN)
               else Adopted(t, i)
    ensures i != ORIGIN ==> Adopted(t, i).procs[ORIGIN] == t.procs[ORIGIN]
  {
  }

  lemma AdoptKeepsServing(t: State, x: nat, i: nat)
    requires i < |t.procs| && ORIGIN < x && Serving(t, |t.procs|, x, i)
    ensures Serving(Adopt(t, x, i), |t.procs|, x, i + 1)
  {
    AdoptIs(t, x, i);
    if t.procs[i].parent != x {
      NoChild(t.procs, x, i);
    } else {
      assert Rooted(t.procs[i], i);
      if t.procs[ORIGIN].waiting && t.procs[i].zombie {
        AdoptedCanBeTold(t, x, i);
      } else {
        AdoptedIsServed(t, x, i);
      }
    }
  }

  lemma NobodyLeft(procs: seq<MProc>, x: nat)
    requires TreeBut(procs, x, |procs|)
    ensures Tree(procs)
  {
  }

  lemma {:induction false} AdoptFromKeepsServing(t: State, x: nat, i: nat)
    requires i <= |t.procs| && ORIGIN < x && Serving(t, |t.procs|, x, i)
    ensures Serving(AdoptFrom(t, x, i), |t.procs|, |t.procs|, 0)
    decreases |t.procs| - i
  {
    if i == |t.procs| {
      NobodyLeft(t.procs, x);
    } else {
      AdoptKeepsServing(t, x, i);
      AdoptFromKeepsServing(Adopt(t, x, i), x, i + 1);
      assert AdoptFrom(t, x, i) == AdoptFrom(Adopt(t, x, i), x, i + 1);
    }
  }

  /** After an exit every process has a living parent again, and nothing else is disturbed. */
  lemma ExitKeepsServing(t: State, x: nat, status: int)
    requires x < |t.procs| && ORIGIN < x && Serving(t, x, |t.procs|, 0)
    requires t.procs[x].Alive() && !t.procs[x].waiting && !t.procs[x].reply
    ensures Serving(ExitProc(t, x, status), |t.procs|, |t.procs|, 0)
  {
    BuryKeepsServing(t, x, status);
    AdoptFromKeepsServing(Bury(t, x, status), x, 0);
  }
}
