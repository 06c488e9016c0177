/** Runs of the memory manager: what holds after every request, from boot on. */
module MmRuns {
  import opened Holes
  import opened MmState
  import opened MmInvariants
  import opened MmSteps
  import opened MmMemory
  import opened MmTiles

  /** Other: a request that is answered with rs and changes nothing here. Replaced: an exec that succeeds. */
  datatype Request =
    | Forking
    | Exiting(status: int)
    | Waiting(pid: int, options: nat)
    | Other(rs: int)
    | Replaced

  /** Exit is not for the servers and ORIGIN; callers are ORIGIN and its descendants, one request at a time. */
  ghost predicate Allowed(t: State, who: nat, req: Request) {
    && ORIGIN <= who < |t.procs| && t.procs[who].Alive() && who !in t.blocked
    && (req.Exiting? ==> ORIGIN < who)
    && (req.Other? ==> req.rs != NO_MESSAGE)
  }

  /** There are more than twice as many identifiers as slots. */
  ghost predicate Numbered(t: State) {
    t.nextPid <= MAX_PID && 2 * |t.procs| < MAX_PID
  }

  lemma {:induction false} AdoptingKeepsConstants(t: State, x: nat, i: nat)
    requires i <= |t.procs|
    ensures AdoptFrom(t, x, i).nrHoles == t.nrHoles && AdoptFrom(t, x, i).nextPid == t.nextPid
    decreases |t.procs| - i
  {
    if i < |t.procs| {
      AdoptingKeepsConstants(Adopt(t, x, i), x, i + 1);
    }
  }

  /** What the handler of the request leaves, and what it answers. */
  ghost function Handled(t: State, who: nat, req: Request): (r: (State, int))
    requires who < |t.procs| && Numbered(t)
    ensures |r.0.procs| == |t.procs| && Numbered(r.0) && r.0.nrHoles == t.nrHoles
  {
    match req
    case Forking =>
      var k := Tries(t.procs, FreeSlot(t.procs), t.nextPid);
      TriedIsPid(t.nextPid, k);
      Fork(t, who, k)
    case Exiting(status) =>
      AdoptingKeepsConstants(Bury(t, who, status), who, 0);
      (ExitProc(t, who, status), NO_MESSAGE)
    case Waiting(pid, options) => WaitPid(t, who, pid, options)
    case Other(rs) => (t, rs)
    case Replaced => (t.(blocked := t.blocked - {who}), NO_MESSAGE)
  }

  /** A request before its replies are sent. */
  ghost function Served(t: State, who: nat, req: Request): (r: State)
    requires who < |t.procs| && Numbered(t)
    ensures |r.procs| == |t.procs| && Numbered(r) && r.nrHoles == t.nrHoles
  {
    var (r, rs) := Handled(t.(blocked := t.blocked + {who}), who, req);
    if rs != NO_MESSAGE then SetReply(r, who, rs) else r
  }

  /** One turn of the main loop. */
  ghost function Turn(t: State, who: nat, req: Request): (r: State)
    requires who < |t.procs| && Numbered(t)
    ensures |r.procs| == |t.procs| && Numbered(r) && r.nrHoles == t.nrHoles
  {
    Drained(Served(t, who, req))
  }

  /** What holds between requests; memory from click lo up to hi is for processes. */
  ghost predicate Inv(t: State, lo: int, hi: int) {
    && 2 * |t.procs| < MAX_PID && t.nrHoles == 2 * |t.procs|
    && Tree(t.procs)
    && t.procsInUse == CountInUse(t.procs)
    && Ledger(t.procs, t.deaths, t.reports)
    && NoneMissed(t.procs)
    && PidsOk(t.procs, t.nextPid)
    && Quiet(t.procs, t.blocked)
    && MemoryOk(t.procs, t.bs, lo, hi)
    && Tiled(t.procs, t.bs, lo, hi)
  }

  // ---------------------------------------------------------------- one turn

  lemma CallIsServed(procs: seq<MProc>, blocked: set<nat>, who: nat)
    requires who < |procs| && procs[who].Alive() && Tree(procs) && Quiet(procs, blocked)
    ensures RepliesOk(procs, blocked + {who}, who)
  {
    assert forall i :: 0 <= i < |procs| ==> Consistent(procs[i]);
  }

  lemma DrainSettles(t: State)
    requires Tree(t.procs) && RepliesOk(t.procs, t.blocked, |t.procs|)
    ensures Quiet(Drained(t).procs, Drained(t).blocked)
  {
    assert forall i :: 0 <= i < |t.procs| ==> Consistent(t.procs[i]);
  }

  lemma DrainKeepsTree(t: State)
    requires Tree(t.procs)
    ensures Tree(Drained(t).procs)
  {
    var procs := Drained(t).procs;
    forall i | 0 <= i < |procs|
      ensures ParentAlive(procs, i) || (0 <= i && procs[i].parent == |procs|)
      ensures Consistent(procs[i]) && Rooted(procs[i], i)
    {
      assert ParentAlive(t.procs, i);
      assert Consistent(t.procs[i]) && Rooted(t.procs[i], i);
    }
  }

  lemma DrainMissesNone(t: State)
    requires NoneMissed(t.procs)
    ensures NoneMissed(Drained(t).procs)
  {
  }

  lemma DrainKeepsRest(t: State)
    requires PidsOk(t.procs, t.nextPid)
    ensures PidsOk(Drained(t).procs, t.nextPid)
    ensures CountInUse(Drained(t).procs) == CountInUse(t.procs) && Zombies(Drained(t).procs) == Zombies(t.procs)
    ensures SameOwners(t.procs, Drained(t).procs)
  {
    SameCounts(t.procs, Drained(t).procs);
  }

  lemma SameOwnersKeepsTiles(procs: seq<MProc>, procs1: seq<MProc>, bs: seq<Block>, lo: int, hi: int)
    requires ORIGIN < |procs| && Tiled(procs, bs, lo, hi) && SameOwners(procs, procs1)
    ensures Tiled(procs1, bs, lo, hi)
  {
  }

  /** How memory is divided, in both descriptions. */
  ghost predicate Divided(procs: seq<MProc>, bs: seq<Block>, lo: int, hi: int) {
    MemoryOk(procs, bs, lo, hi) && ORIGIN < |procs| && Tiled(procs, bs, lo, hi)
  }

  lemma SameOwnersKeepsDivision(procs: seq<MProc>, procs1: seq<MProc>, bs: seq<Block>, lo: int, hi: int)
    requires Divided(procs, bs, lo, hi) && SameOwners(procs, procs1)
    ensures Divided(procs1, bs, lo, hi)
  {
    SameOwnersKeepsMemory(procs, procs1, bs, lo, hi);
    SameOwnersKeepsTiles(procs, procs1, bs, lo, hi);
  }

  lemma ReplyKeepsOwners(t: State, i: nat, rs: int)
    requires i < |t.procs|
    ensures SameOwners(t.procs, SetReply(t, i, rs).procs)
  {
  }

  // ---------------------------------------------------------------- fork

  lemma ForkFinds(t: State, who: nat)
    requires who < |t.procs| && Serving(t, who, |t.procs|, 0) && 2 * |t.procs| < MAX_PID && !NoSlotFor(t, who)
    ensures var child := FreeSlot(t.procs);
            && ORIGIN < child < |t.procs| && !t.procs[child].inUse
            && var pid := Tried(t.nextPid, Tries(t.procs, child, t.nextPid));
               !PidTaken(t.procs, child, pid) && 1 <= pid <= MAX_PID
  {
    FreeSlotExists(t, who);
    TriedIsPid(t.nextPid, Tries(t.procs, FreeSlot(t.procs), t.nextPid));
  }

  lemma ForkKeepsServing(t: State, who: nat)
    requires who < |t.procs| && Serving(t, who, |t.procs|, 0) && 2 * |t.procs| < MAX_PID && who in t.blocked
    requires t.procs[who].Alive() && !t.procs[who].waiting
    ensures var (r, rs) := Handled(t, who, Forking);
            rs != NO_MESSAGE && Serving(SetReply(r, who, rs), |t.procs|, |t.procs|, 0)
  {
    var (r, rs) := Handled(t, who, Forking);
    if !NoSlotFor(t, who) && FirstFit(t.bs, t.procs[who].size / CLICK_SIZE) < |t.bs| {
      ForkFinds(t, who);
      SpawnKeepsServing(t, who, FreeSlot(t.procs), rs);
    }
    AnswerKeepsServing(r, who, rs);
  }

  lemma SpawnTakes(t: State, who: nat, child: nat, pid: nat)
    requires who < |t.procs| && child < |t.procs| && FirstFit(t.bs, t.procs[who].size / CLICK_SIZE) < |t.bs|
    ensures var n := t.procs[who].size / CLICK_SIZE;
            var k := FirstFit(t.bs, n);
            && Spawn(t, who, child, pid).bs == Taken(t.bs, k, n)
            && Spawn(t, who, child, pid).procs[child].Memory() == Block(t.bs[k].base, n)
  {
  }

  lemma SpawnKeepsTiles(t: State, who: nat, child: nat, pid: nat, lo: int, hi: int)
    requires ORIGIN <= who < |t.procs| && ORIGIN < child < |t.procs| && !t.procs[child].inUse && t.procs[who].Alive()
    requires Divided(t.procs, t.bs, lo, hi) && FirstFit(t.bs, t.procs[who].size / CLICK_SIZE) < |t.bs|
    ensures Tiled(Spawn(t, who, child, pid).procs, Spawn(t, who, child, pid).bs, lo, hi)
  {
    var s := t.procs[ORIGIN].Memory().length;
    assert t.procs[who].Memory().length == s;
    var u := FitStartsLow(t.procs, t.bs, lo, hi, child);
    SpawnIs(t, who, child, pid);
    SpawnTakes(t, who, child, pid);
    TakenFits(t.bs, FirstFit(t.bs, s), lo, hi, s, |t.procs| - ORIGIN - 1, u);
  }

  lemma ForkKeepsDivision(t: State, who: nat, lo: int, hi: int)
    requires ORIGIN <= who < |t.procs| && Serving(t, who, |t.procs|, 0) && 2 * |t.procs| < MAX_PID
    requires t.procs[who].Alive()
    requires Divided(t.procs, t.bs, lo, hi)
    ensures Divided(Handled(t, who, Forking).0.procs, Handled(t, who, Forking).0.bs, lo, hi)
  {
    if !NoSlotFor(t, who) && FirstFit(t.bs, t.procs[who].size / CLICK_SIZE) < |t.bs| {
      ForkFinds(t, who);
      var child, pid := FreeSlot(t.procs), Handled(t, who, Forking).1;
      SpawnKeepsTiles(t, who, child, pid, lo, hi);
      SpawnKeepsMemory(t, who, child, pid, lo, hi);
    }
  }

  // ---------------------------------------------------------------- exit

  lemma BuryFits(t: State, x: nat, status: int, lo: int, hi: int)
    requires ORIGIN < x < |t.procs| && t.procs[x].Alive() && Divided(t.procs, t.bs, lo, hi)
    ensures HolesFit(Bury(t, x, status).bs, lo, hi, t.procs[ORIGIN].Memory().length, |t.procs| - ORIGIN - 1)
  {
    var s, m, b := t.procs[ORIGIN].Memory().length, |t.procs| - ORIGIN - 1, t.procs[x].Memory();
    AliveOwnsApart(t.procs, t.bs, x, lo, hi);
    if b.length > 0 {
      assert Owns(t.procs, x, b.base + b.length - 1);
      TileIsHole(b, lo, hi, s, m);
      FreedFits(t.bs, b, t.merged, lo, hi, s, m);
    }
  }

  /** Nothing but slot x changes who owns memory. */
  lemma ExitKeepsOthers(t: State, x: nat, status: int)
    requires ORIGIN < x < |t.procs| && Tree(t.procs) && t.procs[x].Alive()
    ensures ExitProc(t, x, status).bs == Bury(t, x, status).bs
    ensures forall i :: 0 <= i < |t.procs| ==>
              var q := ExitProc(t, x, status).procs[i];
              (i != x ==> q.Memory() == t.procs[i].Memory()) && (q.Alive() <==> i != x && t.procs[i].Alive())
  {
    var b := Bury(t, x, status);
    BuryKeepsOthers(t, x, status);
    forall j | 0 <= j < |b.procs| && b.procs[j].parent == x
      ensures ORIGIN < j
    {
      assert Rooted(t.procs[j], j);
      assert b.procs[j].parent == t.procs[j].parent;
    }
    AdoptFromKeepsOwners(b, x, 0);
  }

  lemma ExitKeepsTiles(t: State, x: nat, status: int, lo: int, hi: int)
    requires ORIGIN < x < |t.procs| && Tree(t.procs) && t.procs[x].Alive() && Divided(t.procs, t.bs, lo, hi)
    ensures Tiled(ExitProc(t, x, status).procs, ExitProc(t, x, status).bs, lo, hi)
  {
    BuryFits(t, x, status, lo, hi);
    ExitKeepsOthers(t, x, status);
  }

  // ---------------------------------------------------------------- wait

  lemma WaitKeepsDivision(t: State, w: nat, pid0: int, options: nat, lo: int, hi: int)
    requires w < |t.procs| && Serving(t, w, |t.procs|, 0) && Divided(t.procs, t.bs, lo, hi)
    ensures var r := WaitPid(t, w, pid0, options).0;
            SameOwners(t.procs, r.procs) && r.bs == t.bs && Divided(r.procs, r.bs, lo, hi)
  {
    var pid := WaitTarget(t.procs[w], pid0);
    var k := FirstDead(t.procs, w, pid);
    if k < |t.procs| {
      assert Rooted(t.procs[k], k) && Rooted(t.procs[0], 0) && Consistent(t.procs[k]);
      CleanupKeepsOwners(t, k, w);
    }
    SameOwnersKeepsDivision(t.procs, WaitPid(t, w, pid0, options).0.procs, t.bs, lo, hi);
  }

  // ---------------------------------------------------------------- every turn

  lemma CallIsOpen(t: State, lo: int, hi: int, who: nat, req: Request)
    requires Inv(t, lo, hi) && Allowed(t, who, req)
    ensures var c := t.(blocked := t.blocked + {who});
            && Serving(c, who, |t.procs|, 0) && Divided(c.procs, c.bs, lo, hi)
            && !c.procs[who].waiting && !c.procs[who].reply
  {
    CallIsServed(t.procs, t.blocked, who);
  }

  lemma ExitIsServed(t: State, lo: int, hi: int, who: nat, req: Request)
    requires Inv(t, lo, hi) && Allowed(t, who, req) && req.Exiting?
    ensures Serving(Served(t, who, req), |t.procs|, |t.procs|, 0)
    ensures Divided(Served(t, who, req).procs, Served(t, who, req).bs, lo, hi)
  {
    var c := t.(blocked := t.blocked + {who});
    CallIsOpen(t, lo, hi, who, req);
    ExitKeepsServing(c, who, req.status);
    ExitKeepsMemory(c, who, req.status, lo, hi);
    ExitKeepsTiles(c, who, req.status, lo, hi);
  }

  lemma ForkIsServed(t: State, lo: int, hi: int, who: nat)
    requires Inv(t, lo, hi) && Allowed(t, who, Forking)
    ensures Serving(Served(t, who, Forking), |t.procs|, |t.procs|, 0)
    ensures Divided(Served(t, who, Forking).procs, Served(t, who, Forking).bs, lo, hi)
  {
    var c := t.(blocked := t.blocked + {who});
    CallIsOpen(t, lo, hi, who, Forking);
    ForkKeepsServing(c, who);
    ForkKeepsDivision(c, who, lo, hi);
    var (r, rs) := Handled(c, who, Forking);
    ReplyKeepsOwners(r, who, rs);
    SameOwnersKeepsDivision(r.procs, SetReply(r, who, rs).procs, r.bs, lo, hi);
  }

  lemma WaitIsServed(t: State, lo: int, hi: int, who: nat, req: Request)
    requires Inv(t, lo, hi) && Allowed(t, who, req) && req.Waiting?
    ensures Serving(Served(t, who, req), |t.procs|, |t.procs|, 0)
    ensures Divided(Served(t, who, req).procs, Served(t, who, req).bs, lo, hi)
  {
    var c := t.(blocked := t.blocked + {who});
    CallIsOpen(t, lo, hi, who, req);
    WaitKeepsServing(c, who, req.pid, req.options);
    WaitKeepsDivision(c, who, req.pid, req.options, lo, hi);
    var (r, rs) := WaitPid(c, who, req.pid, req.options);
    if rs != NO_MESSAGE {
      AnswerKeepsServing(r, who, rs);
      ReplyKeepsOwners(r, who, rs);
      SameOwnersKeepsDivision(r.procs, SetReply(r, who, rs).procs, r.bs, lo, hi);
    }
  }

  lemma OtherIsServed(t: State, lo: int, hi: int, who: nat, req: Request)
    requires Inv(t, lo, hi) && Allowed(t, who, req) && (req.Other? || req.Replaced?)
    ensures Serving(Served(t, who, req), |t.procs|, |t.procs|, 0)
    ensures Divided(Served(t, who, req).procs, Served(t, who, req).bs, lo, hi)
  {
    var c := t.(blocked := t.blocked + {who});
    CallIsOpen(t, lo, hi, who, req);
    if req.Other? {
      AnswerKeepsServing(c, who, req.rs);
      ReplyKeepsOwners(c, who, req.rs);
      SameOwnersKeepsDivision(c.procs, SetReply(c, who, req.rs).procs, c.bs, lo, hi);
    } else {
      ForgetCaller(c.procs, c.blocked, who);
    }
  }

  lemma RequestIsServed(t: State, lo: int, hi: int, who: nat, req: Request)
    requires Inv(t, lo, hi) && Allowed(t, who, req)
    ensures Serving(Served(t, who, req), |t.procs|, |t.procs|, 0)
    ensures Divided(Served(t, who, req).procs, Served(t, who, req).bs, lo, hi)
  {
    match req
    case Forking => ForkIsServed(t, lo, hi, who);
    case Exiting(_) => ExitIsServed(t, lo, hi, who, req);
    case Waiting(_, _) => WaitIsServed(t, lo, hi, who, req);
    case Other(_) => OtherIsServed(t, lo, hi, who, req);
    case Replaced => OtherIsServed(t, lo, hi, who, req);
  }

  /** Every request, served from a consistent state, leaves a consistent state. */
  lemma TurnKeepsInv(t: State, lo: int, hi: int, who: nat, req: Request)
    requires Inv(t, lo, hi) && Allowed(t, who, req)
    ensures Inv(Turn(t, who, req), lo, hi)
  {
    RequestIsServed(t, lo, hi, who, req);
    SettledAfterwards(Served(t, who, req), lo, hi);
  }

  lemma SettledAfterwards(s: State, lo: int, hi: int)
    requires 2 * |s.procs| < MAX_PID && s.nrHoles == 2 * |s.procs|
    requires Serving(s, |s.procs|, |s.procs|, 0) && Divided(s.procs, s.bs, lo, hi)
    ensures Inv(Drained(s), lo, hi)
  {
    DrainSettles(s);
    DrainKeepsTree(s);
    DrainMissesNone(s);
    DrainKeepsRest(s);
    SameOwnersKeepsDivision(s.procs, Drained(s).procs, s.bs, lo, hi);
  }

  /** The hole table always has a slot to spare, so giving memory back cannot fail. */
  lemma HoleTableNeverFull(t: State, lo: int, hi: int)
    requires Inv(t, lo, hi)
    ensures |t.bs| + ORIGIN <= |t.procs| && |t.bs| < t.nrHoles
  {
    FewHoles(t.bs, lo, hi, t.procs[ORIGIN].Memory().length, |t.procs| - ORIGIN - 1);
  }
}
