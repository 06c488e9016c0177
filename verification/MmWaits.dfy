/** Waiting for a child, over runs: what ends a wait, and what never does. */
module MmWaits {
  import opened Holes
  import opened MmState
  import opened MmInvariants
  import opened MmSteps
  import opened MmRuns
  import opened MmTheorems

  /** q is what a wait for pid asks about, whoever its parent is. */
  predicate Meant(pid: int, q: MProc) {
    (pid > 0 ==> pid == q.pid) && (pid < -1 ==> -pid == q.procGroup)
  }

  /** The request of who ends the wait of w: who is a child of w and exits; or who exits and leaves a dead child to
      ORIGIN, which is w. */
  ghost predicate EndsWait(t: State, w: nat, who: nat, req: Request)
    requires who < |t.procs|
  {
    req.Exiting? && (t.procs[who].parent == w || (w == ORIGIN && FirstDead(t.procs, who, -1) < |t.procs|))
  }

  /** Whom w is then told of. */
  ghost function ToldOf(t: State, w: nat, who: nat): nat
    requires who < |t.procs|
  {
    if t.procs[who].parent == w then who else FirstDead(t.procs, who, -1)
  }

  /** The status it left. */
  ghost function StatusOf(t: State, x: nat, who: nat, req: Request): int
    requires x < |t.procs| && req.Exiting?
  {
    if x == who then ToChar(req.status) else t.procs[x].exitStatus
  }

  // ---------------------------------------------------------------- one request

  /** Whether and for whom a process waits is the same, and so is its reply. */
  ghost predicate SameWaiter(q: MProc, q1: MProc) {
    && q1.waiting == q.waiting && q1.waitPid == q.waitPid && q1.zombie == q.zombie
    && q1.reply == q.reply && q1.reply1 == q.reply1 && q1.reply2 == q.reply2
  }

  ghost predicate Told(q: MProc, pid: int, status: int) {
    !q.waiting && q.reply && q.reply1 == pid && q.reply2 == status
  }

  /** Adopting does not concern w, unless it is ORIGIN, waits, and slot i is dead. */
  lemma AdoptSpares(t: State, x: nat, i: nat, w: nat)
    requires i < |t.procs| && w < |t.procs| && !t.procs[w].zombie
    requires w == ORIGIN ==> !t.procs[w].waiting || t.procs[i].parent != x || !t.procs[i].zombie
    ensures SameWaiter(t.procs[w], Adopt(t, x, i).procs[w])
    ensures forall j :: i < j < |t.procs| ==>
              var q := Adopt(t, x, i).procs[j];
              q.parent == t.procs[j].parent && q.zombie == t.procs[j].zombie
              && q.pid == t.procs[j].pid && q.exitStatus == t.procs[j].exitStatus
  {
  }

  lemma {:induction false} AdoptFromSpares(t: State, x: nat, i: nat, w: nat)
    requires i <= |t.procs| && w < |t.procs| && !t.procs[w].zombie
    requires w == ORIGIN ==>
               !t.procs[w].waiting || forall j :: i <= j < |t.procs| ==> !(t.procs[j].parent == x && t.procs[j].zombie)
    ensures SameWaiter(t.procs[w], AdoptFrom(t, x, i).procs[w])
    decreases |t.procs| - i
  {
    if i < |t.procs| {
      AdoptSpares(t, x, i, w);
      AdoptFromSpares(Adopt(t, x, i), x, i + 1, w);
    }
  }

  /** ORIGIN is told of the first dead child that is left to it. */
  lemma {:induction false} AdoptFromTells(t: State, x: nat, i: nat, k: nat)
    requires i <= k < |t.procs| && ORIGIN < x && ORIGIN < k && t.procs[ORIGIN].waiting && !t.procs[ORIGIN].zombie
    requires t.procs[k].parent == x && t.procs[k].zombie
    requires forall j :: i <= j < k ==> !(t.procs[j].parent == x && t.procs[j].zombie)
    ensures Told(AdoptFrom(t, x, i).procs[ORIGIN], t.procs[k].pid, t.procs[k].exitStatus)
    decreases |t.procs| - i
  {
    if i < k {
      AdoptSpares(t, x, i, ORIGIN);
      AdoptFromTells(Adopt(t, x, i), x, i + 1, k);
    } else {
      assert Told(Adopt(t, x, i).procs[ORIGIN], t.procs[k].pid, t.procs[k].exitStatus);
      AdoptFromSpares(Adopt(t, x, i), x, i + 1, ORIGIN);
    }
  }

  /** What burying x does to a waiting process and to the others. */
  lemma BuryFacts(t: State, x: nat, status: int, w: nat)
    requires ORIGIN < x < |t.procs| && w < |t.procs| && w != x && t.procs[x].Alive() && t.procs[w].waiting
    requires t.procs[x].parent != x
    ensures var r := Bury(t, x, status);
            if t.procs[x].parent == w then
              Told(r.procs[w], t.procs[x].pid, ToChar(status)) && r.procs[w].zombie == t.procs[w].zombie
            else SameWaiter(t.procs[w], r.procs[w])
    ensures forall j :: 0 <= j < |t.procs| && j != x ==>
              var q := Bury(t, x, status).procs[j];
              q.parent == t.procs[j].parent && q.zombie == t.procs[j].zombie
              && q.pid == t.procs[j].pid && q.exitStatus == t.procs[j].exitStatus
    ensures Bury(t, x, status).procs[x].parent != x
  {
  }

  /** What the exit of x does to a waiting process. */
  lemma ExitFacts(t: State, x: nat, status: int, w: nat)
    requires ORIGIN < x < |t.procs| && w < |t.procs| && w != x && t.procs[x].Alive() && t.procs[x].parent != x
    requires t.procs[w].waiting && !t.procs[w].zombie && Tree(t.procs)
    ensures var r, e := ExitProc(t, x, status), Exiting(status);
            if EndsWait(t, w, x, e) then
              ToldOf(t, w, x) < |t.procs|
              && Told(r.procs[w], t.procs[ToldOf(t, w, x)].pid, StatusOf(t, ToldOf(t, w, x), x, e))
            else SameWaiter(t.procs[w], r.procs[w])
  {
    var b, k := Bury(t, x, status), FirstDead(t.procs, x, -1);
    BuryFacts(t, x, status, w);
    if t.procs[x].parent != w && w == ORIGIN && k < |t.procs| {
      assert Rooted(t.procs[k], k);
      AdoptFromTells(b, x, 0, k);
    } else {
      AdoptFromSpares(b, x, 0, w);
    }
  }

  lemma ForkSpares(c: State, who: nat, w: nat)
    requires who < |c.procs| && w < |c.procs| && w != who && c.procs[w].inUse
    requires Serving(c, who, |c.procs|, 0) && 2 * |c.procs| < MAX_PID
    ensures SameWaiter(c.procs[w], Handled(c, who, Forking).0.procs[w])
  {
    if !NoSlotFor(c, who) && FirstFit(c.bs, c.procs[who].size / CLICK_SIZE) < |c.bs| {
      ForkFinds(c, who);
      SpawnIs(c, who, FreeSlot(c.procs), Handled(c, who, Forking).1);
    }
  }

  lemma WaitSpares(c: State, who: nat, pid: int, options: nat, w: nat)
    requires who < |c.procs| && w < |c.procs| && w != who && !c.procs[w].zombie
    ensures SameWaiter(c.procs[w], WaitPid(c, who, pid, options).0.procs[w])
  {
  }

  /** What is known of a process that waits while another one makes a request. */
  lemma WaiterFacts(t: State, lo: int, hi: int, who: nat, req: Request, w: nat)
    requires Inv(t, lo, hi) && Allowed(t, who, req) && w < |t.procs| && t.procs[w].waiting
    ensures w != who && t.procs[w].Alive() && !t.procs[w].reply && t.procs[who].parent != who && Tree(t.procs)
    ensures Serving(t.(blocked := t.blocked + {who}), who, |t.procs|, 0) && 2 * |t.procs| < MAX_PID
  {
    CallIsOpen(t, lo, hi, who, req);
    assert Consistent(t.procs[w]) && Rooted(t.procs[who], who);
  }

  /** What the request leaves of w before its reply is sent. */
  lemma HandledFacts(t: State, lo: int, hi: int, who: nat, req: Request, w: nat)
    requires Inv(t, lo, hi) && Allowed(t, who, req) && w < |t.procs| && t.procs[w].waiting
    ensures var q := Handled(t.(blocked := t.blocked + {who}), who, req).0.procs[w];
            if EndsWait(t, w, who, req) then
              ToldOf(t, w, who) < |t.procs|
              && Told(q, t.procs[ToldOf(t, w, who)].pid, StatusOf(t, ToldOf(t, w, who), who, req))
            else SameWaiter(t.procs[w], q)
  {
    WaiterFacts(t, lo, hi, who, req, w);
    var c := t.(blocked := t.blocked + {who});
    match req
    case Forking => ForkSpares(c, who, w);
    case Exiting(status) => ExitFacts(c, who, status, w);
    case Waiting(pid, options) => WaitSpares(c, who, pid, options, w);
    case Other(_) =>
    case Replaced =>
  }

  /** A wait ends with a request exactly if that request is an exit which leaves w a dead child; w is told of that
      child, whether it is among those it waits for or not. Otherwise w goes on waiting, and is told nothing. */
  lemma TurnEndsWaitExactly(t: State, lo: int, hi: int, who: nat, req: Request, w: nat)
    requires Inv(t, lo, hi) && Allowed(t, who, req) && w < |t.procs| && t.procs[w].waiting
    ensures var s, r := Served(t, who, req).procs[w], Turn(t, who, req).procs[w];
            && w != who && (r.waiting <==> !EndsWait(t, w, who, req))
            && (if EndsWait(t, w, who, req) then
                  ToldOf(t, w, who) < |t.procs|
                  && Told(s, t.procs[ToldOf(t, w, who)].pid, StatusOf(t, ToldOf(t, w, who), who, req))
                else !s.reply && r.waitPid == t.procs[w].waitPid)
  {
    WaiterFacts(t, lo, hi, who, req, w);
    HandledFacts(t, lo, hi, who, req, w);
  }

  // ---------------------------------------------------------------- from the wait to the reply

  /** The request c, in state r, ends the wait of w with the news of a child. */
  ghost predicate EndsWithNews(r: State, w: nat, c: Call) {
    && Numbered(r) && w < |r.procs| && Allowed(r, c.who, c.req) && EndsWait(r, w, c.who, c.req)
       && !Turn(r, c.who, c.req).procs[w].waiting
    && var x := ToldOf(r, w, c.who);
       x < |r.procs| && Told(Served(r, c.who, c.req).procs[w], r.procs[x].pid, StatusOf(r, x, c.who, c.req))
  }

  /** One more request: either it ends the wait with news, or w still waits. */
  lemma WaitGoesOn(t: State, lo: int, hi: int, c: Call, w: nat)
    requires Inv(t, lo, hi) && Allowed(t, c.who, c.req) && w < |t.procs| && t.procs[w].waiting
    ensures var t1 := Turn(t, c.who, c.req);
            if EndsWait(t, w, c.who, c.req) then EndsWithNews(t, w, c)
            else
              t1.procs[w].waiting && t1.procs[w].waitPid == t.procs[w].waitPid
              && !Served(t, c.who, c.req).procs[w].reply
  {
    TurnEndsWaitExactly(t, lo, hi, c.who, c.req, w);
  }

  /** Through the run w waits for the same and is told nothing, up to the first request that leaves it a dead child; it
      is then told of that child. */
  ghost predicate WaitsForDeath(t: State, w: nat, run: seq<Call>)
    requires w < |t.procs| && Numbered(t) && Legal(t, run)
    decreases |run|
  {
    && t.procs[w].waiting
    && (run == []
        || if EndsWait(t, w, run[0].who, run[0].req) then EndsWithNews(t, w, run[0])
           else
             var t1 := Turn(t, run[0].who, run[0].req);
             && !Served(t, run[0].who, run[0].req).procs[w].reply && t1.procs[w].waitPid == t.procs[w].waitPid
             && WaitsForDeath(t1, w, run[1..]))
  }

  lemma {:induction false} WaitLasts(t: State, lo: int, hi: int, run: seq<Call>, w: nat)
    requires Inv(t, lo, hi) && Legal(t, run) && w < |t.procs| && t.procs[w].waiting
    ensures WaitsForDeath(t, w, run)
    decreases |run|
  {
    if run != [] {
      WaitGoesOn(t, lo, hi, run[0], w);
      if !EndsWait(t, w, run[0].who, run[0].req) {
        TurnKeepsInv(t, lo, hi, run[0].who, run[0].req);
        WaitLasts(Turn(t, run[0].who, run[0].req), lo, hi, run[1..], w);
      }
    }
  }

  /** In state t w asks to wait and is not answered at once; t1 is the state then, and the run follows. */
  ghost predicate Begins(t: State, w: nat, pid: int, options: nat, t1: State, run: seq<Call>) {
    && Numbered(t) && Allowed(t, w, Waiting(pid, options)) && t1 == Turn(t, w, Waiting(pid, options))
    && t1.procs[w].waiting && Legal(t1, run)
  }

  lemma WaitPidStarts(c: State, w: nat, pid: int, options: nat)
    requires w < |c.procs| && !c.procs[w].waiting
    ensures var q := WaitPid(c, w, pid, options).0.procs[w]; q.waiting ==> q.waitPid == WaitTarget(c.procs[w], pid)
  {
  }

  lemma WaitStarts(t: State, lo: int, hi: int, w: nat, pid: int, options: nat, t1: State, run: seq<Call>)
    requires Inv(t, lo, hi) && Begins(t, w, pid, options, t1, run)
    ensures Inv(t1, lo, hi) && w < |t1.procs| && t1.procs[w].waitPid == WaitTarget(t.procs[w], pid)
  {
    TurnKeepsInv(t, lo, hi, w, Waiting(pid, options));
    CallIsOpen(t, lo, hi, w, Waiting(pid, options));
    WaitPidStarts(t.(blocked := t.blocked + {w}), w, pid, options);
  }

  /** A request to wait that is not answered at once, and whatever follows: the wait is for what was asked, with 0
      standing for the caller's own group, and the first death among the caller's children ends it. */
  lemma {:induction false} AnyDeathEndsTheWait(t: State, hi: int, w: nat, pid: int, options: nat, t1: State,
                                               run: seq<Call>)
    requires Reachable(t, hi) && Begins(t, w, pid, options, t1, run)
    ensures w < |t.procs| == |t1.procs| && t1.procs[w].waitPid == WaitTarget(t.procs[w], pid)
    ensures WaitsForDeath(t1, w, run)
  {
    ReachableIsConsistent(t, hi);
    WaitStarts(t, PROCS_BASE_CLICK, hi, w, pid, options, t1, run);
    WaitLasts(t1, PROCS_BASE_CLICK, hi, run, w);
  }

  // ---------------------------------------------------------------- the children of one who waits

  /** Slots come to be free, and children to belong to ORIGIN; nothing else happens to them. */
  ghost predicate Shrinks(procs: seq<MProc>, procs1: seq<MProc>) {
    && |procs1| == |procs|
    && forall j :: 0 <= j < |procs| ==>
         && (procs1[j].inUse ==> procs[j].inUse) && procs1[j].pid == procs[j].pid
            && procs1[j].procGroup == procs[j].procGroup
         && (procs1[j].parent == procs[j].parent || procs1[j].parent == ORIGIN)
  }

  lemma {:induction false} AdoptFromShrinks(t: State, x: nat, i: nat)
    requires i <= |t.procs|
    ensures Shrinks(t.procs, AdoptFrom(t, x, i).procs)
    decreases |t.procs| - i
  {
    if i < |t.procs| {
      assert Shrinks(t.procs, Adopt(t, x, i).procs);
      AdoptFromShrinks(Adopt(t, x, i), x, i + 1);
    }
  }

  lemma ExitShrinks(t: State, x: nat, status: int)
    requires x < |t.procs| && t.procs[x].inUse
    ensures Shrinks(t.procs, ExitProc(t, x, status).procs)
  {
    assert Shrinks(t.procs, Bury(t, x, status).procs);
    AdoptFromShrinks(Bury(t, x, status), x, 0);
  }

  /** Who is a child of w after a request of somebody else was one before it. */
  ghost predicate NoNewChild(procs: seq<MProc>, procs1: seq<MProc>, w: nat) {
    && |procs1| == |procs|
    && forall j :: 0 <= j < |procs| && procs1[j].inUse && procs1[j].parent == w ==>
         procs[j].inUse && procs[j].parent == w && procs1[j].pid == procs[j].pid
           && procs1[j].procGroup == procs[j].procGroup
  }

  lemma ForkGivesNoChild(c: State, who: nat, w: nat)
    requires who < |c.procs| && w != who && Serving(c, who, |c.procs|, 0) && 2 * |c.procs| < MAX_PID
    ensures NoNewChild(c.procs, Handled(c, who, Forking).0.procs, w)
  {
    if !NoSlotFor(c, who) && FirstFit(c.bs, c.procs[who].size / CLICK_SIZE) < |c.bs| {
      ForkFinds(c, who);
      SpawnIs(c, who, FreeSlot(c.procs), Handled(c, who, Forking).1);
    }
  }

  lemma WaitGivesNoChild(c: State, who: nat, pid: int, options: nat, w: nat)
    requires who < |c.procs|
    ensures NoNewChild(c.procs, WaitPid(c, who, pid, options).0.procs, w)
  {
  }

  lemma ExitGivesNoChild(c: State, who: nat, status: int, w: nat)
    requires who < |c.procs| && c.procs[who].inUse && w != ORIGIN
    ensures NoNewChild(c.procs, ExitProc(c, who, status).procs, w)
  {
    ExitShrinks(c, who, status);
  }

  lemma HandledGivesNoChild(c: State, who: nat, req: Request, w: nat)
    requires who < |c.procs| && Serving(c, who, |c.procs|, 0) && 2 * |c.procs| < MAX_PID && c.procs[who].inUse
    requires w != ORIGIN && w != who
    ensures NoNewChild(c.procs, Handled(c, who, req).0.procs, w)
  {
    match req
    case Forking => ForkGivesNoChild(c, who, w);
    case Exiting(status) => ExitGivesNoChild(c, who, status, w);
    case Waiting(pid, options) => WaitGivesNoChild(c, who, pid, options, w);
    case Other(_) =>
    case Replaced =>
  }

  lemma TurnGivesNoChild(t: State, lo: int, hi: int, who: nat, req: Request, w: nat)
    requires Inv(t, lo, hi) && Allowed(t, who, req) && w != ORIGIN && w != who
    ensures NoNewChild(t.procs, Turn(t, who, req).procs, w)
  {
    CallIsOpen(t, lo, hi, who, req);
    HandledGivesNoChild(t.(blocked := t.blocked + {who}), who, req, w);
    AnsweringGivesNoChild(t, who, req, w);
  }

  lemma AnsweringGivesNoChild(t: State, who: nat, req: Request, w: nat)
    requires who < |t.procs| && Numbered(t)
    requires NoNewChild(t.procs, Handled(t.(blocked := t.blocked + {who}), who, req).0.procs, w)
    ensures NoNewChild(t.procs, Turn(t, who, req).procs, w)
  {
  }

  /** Who is in use after a request of who was before it, or is new and of the same group as who. */
  ghost predicate GroupsStay(procs: seq<MProc>, procs1: seq<MProc>, who: nat)
    requires who < |procs|
  {
    && |procs1| == |procs|
    && forall j :: 0 <= j < |procs| && procs1[j].inUse ==>
         (procs[j].inUse && procs1[j].procGroup == procs[j].procGroup) || procs1[j].procGroup == procs[who].procGroup
  }

  lemma ForkKeepsGroups(t: State, who: nat, k: nat)
    requires who < |t.procs|
    ensures GroupsStay(t.procs, Fork(t, who, k).0.procs, who)
  {
  }

  lemma HandledKeepsGroups(c: State, who: nat, req: Request)
    requires who < |c.procs| && Numbered(c) && c.procs[who].inUse
    ensures GroupsStay(c.procs, Handled(c, who, req).0.procs, who)
  {
    match req
    case Forking => ForkKeepsGroups(c, who, Tries(c.procs, FreeSlot(c.procs), c.nextPid));
    case Exiting(status) => ExitShrinks(c, who, status);
    case Waiting(pid, options) => WaitShrinks(c, who, pid, options);
    case Other(_) =>
    case Replaced =>
  }

  lemma WaitShrinks(c: State, who: nat, pid: int, options: nat)
    requires who < |c.procs|
    ensures Shrinks(c.procs, WaitPid(c, who, pid, options).0.procs)
  {
  }

  lemma TurnKeepsGroups(t: State, who: nat, req: Request)
    requires who < |t.procs| && Numbered(t) && t.procs[who].inUse
    ensures GroupsStay(t.procs, Turn(t, who, req).procs, who)
  {
    HandledKeepsGroups(t.(blocked := t.blocked + {who}), who, req);
  }

  /** All children that w has or can come to have are among those it waits for: for ORIGIN, which adopts them, all
      processes; those that are still to be forked are of their parents' groups, but have other identifiers. */
  ghost predicate AllMeant(t: State, w: nat)
    requires w < |t.procs|
  {
    && (w == ORIGIN ==> t.procs[w].waitPid <= 0)
    && forall i :: 0 <= i < |t.procs| && t.procs[i].inUse && (t.procs[i].parent == w || (w == ORIGIN && ORIGIN < i)) ==>
         Meant(t.procs[w].waitPid, t.procs[i])
  }

  lemma AllMeantStays(t: State, lo: int, hi: int, c: Call, w: nat)
    requires Inv(t, lo, hi) && Allowed(t, c.who, c.req) && w < |t.procs| && t.procs[w].waiting
    requires AllMeant(t, w) && !EndsWait(t, w, c.who, c.req)
    ensures AllMeant(Turn(t, c.who, c.req), w)
  {
    WaitGoesOn(t, lo, hi, c, w);
    WaiterFacts(t, lo, hi, c.who, c.req, w);
    if w == ORIGIN {
      TurnKeepsInv(t, lo, hi, c.who, c.req);
      GroupsStayMeant(t, c, Turn(t, c.who, c.req));
    } else {
      TurnGivesNoChild(t, lo, hi, c.who, c.req, w);
    }
  }

  lemma GroupsStayMeant(t: State, c: Call, r: State)
    requires Numbered(t) && ORIGIN < c.who < |t.procs| && t.procs[c.who].inUse && r == Turn(t, c.who, c.req)
    requires AllMeant(t, ORIGIN) && r.procs[ORIGIN].waitPid == t.procs[ORIGIN].waitPid && Tree(r.procs)
    ensures AllMeant(r, ORIGIN)
  {
    TurnKeepsGroups(t, c.who, c.req);
    forall i | 0 <= i < |r.procs| && r.procs[i].inUse && (r.procs[i].parent == ORIGIN || ORIGIN < i)
      ensures Meant(r.procs[ORIGIN].waitPid, r.procs[i])
    {
      assert Rooted(r.procs[i], i);
      assert Meant(t.procs[ORIGIN].waitPid, t.procs[c.who]);
    }
  }

  /** The news that ends the wait is of a child that w waits for. */
  ghost predicate GoodNews(r: State, w: nat, c: Call) {
    EndsWithNews(r, w, c) && Meant(r.procs[w].waitPid, r.procs[ToldOf(r, w, c.who)])
  }

  /** If a request of the run ends the wait of w, the news is good. */
  ghost predicate EndsWell(t: State, w: nat, run: seq<Call>)
    requires w < |t.procs| && Numbered(t) && Legal(t, run)
    decreases |run|
  {
    run == []
    || if EndsWait(t, w, run[0].who, run[0].req) then GoodNews(t, w, run[0])
       else EndsWell(Turn(t, run[0].who, run[0].req), w, run[1..])
  }

  /** In every run a wait that ends does so with good news if all children there are and can come to be are among those
      waited for. */
  lemma {:induction false} RightChildEndsTheWait(t: State, lo: int, hi: int, run: seq<Call>, w: nat)
    requires Inv(t, lo, hi) && Legal(t, run) && w < |t.procs| && t.procs[w].waiting && AllMeant(t, w)
    ensures EndsWell(t, w, run)
    decreases |run|
  {
    if run != [] {
      var c := run[0];
      WaitGoesOn(t, lo, hi, c, w);
      if EndsWait(t, w, c.who, c.req) {
        IsOwnChild(t, lo, hi, c, w);
      } else {
        AllMeantStays(t, lo, hi, c, w);
        TurnKeepsInv(t, lo, hi, c.who, c.req);
        RightChildEndsTheWait(Turn(t, c.who, c.req), lo, hi, run[1..], w);
      }
    }
  }

  lemma IsOwnChild(t: State, lo: int, hi: int, c: Call, w: nat)
    requires Inv(t, lo, hi) && w < |t.procs| && AllMeant(t, w) && EndsWithNews(t, w, c)
    ensures GoodNews(t, w, c)
  {
    var x := ToldOf(t, w, c.who);
    assert Consistent(t.procs[x]) && Rooted(t.procs[x], x) && Rooted(t.procs[c.who], c.who);
  }

  /** A living child that is not waited for, and does not itself wait, can end the wait at once. */
  lemma WrongChildCanEndTheWait(t: State, lo: int, hi: int, w: nat, x: nat)
    requires Inv(t, lo, hi) && w < |t.procs| && t.procs[w].waiting && ORIGIN < x < |t.procs|
    requires t.procs[x].Alive() && t.procs[x].parent == w && !t.procs[x].waiting
    requires !Meant(t.procs[w].waitPid, t.procs[x])
    ensures EndsWithNews(t, w, Call(x, Exiting(0))) && ToldOf(t, w, x) == x && !GoodNews(t, w, Call(x, Exiting(0)))
  {
    assert x !in t.blocked;
    TurnEndsWaitExactly(t, lo, hi, x, Exiting(0), w);
  }

  // ---------------------------------------------------------------- who waits without children

  ghost predicate Childless(t: State, w: nat) {
    forall i :: 0 <= i < |t.procs| && t.procs[i].inUse ==> t.procs[i].parent != w
  }

  /** A process other than ORIGIN that waits without children waits for ever. */
  lemma {:induction false} ChildlessWaitsForever(t: State, lo: int, hi: int, run: seq<Call>, w: nat)
    requires Inv(t, lo, hi) && Legal(t, run) && w < |t.procs| && w != ORIGIN && t.procs[w].waiting && Childless(t, w)
    ensures After(t, run).procs[w].waiting && Childless(After(t, run), w) && Answered(t, run, w) == 0
    decreases |run|
  {
    if run != [] {
      var c := run[0];
      WaiterFacts(t, lo, hi, c.who, c.req, w);
      WaitGoesOn(t, lo, hi, c, w);
      TurnGivesNoChild(t, lo, hi, c.who, c.req, w);
      TurnKeepsInv(t, lo, hi, c.who, c.req);
      ChildlessWaitsForever(Turn(t, c.who, c.req), lo, hi, run[1..], w);
    }
  }

  // ---------------------------------------------------------------- two runs from boot

  /** Who the parent of a slot is, or was last, and what the slot holds. */
  datatype Role = Role(parent: nat, inUse: bool, zombie: bool, waiting: bool)

  const ALIVE := Role(ORIGIN, true, false, false)

  ghost predicate Plays(q: MProc, r: Role) {
    q.size == 0 && q.effectiveUid == SUPER_USER && q.parent == r.parent && q.inUse == r.inUse && q.zombie == r.zombie
    && q.waiting == r.waiting
  }

  /** A table of six slots, three servers, ORIGIN and two more, all of size 0, with one hole. */
  ghost predicate Family(t: State, used: int, origin: Role, four: Role, five: Role) {
    && |t.procs| == 6 && t.nextPid <= MAX_PID && t.bs == [Block(PROCS_BASE_CLICK, 1)] && t.procsInUse == used
    && (forall i :: 0 <= i < ORIGIN ==> Plays(t.procs[i], ALIVE.(parent := 0)))
    && Plays(t.procs[3], origin) && Plays(t.procs[4], four) && Plays(t.procs[5], five)
    && Quiet(t.procs, t.blocked)
  }

  const ROOT := ALIVE.(parent := 0)
  const FREE := Role(0, false, false, false)

  ghost function SmallBoot(): State {
    Boot(6, seq(ORIGIN + 1, _ => (0, 0)), 1)
  }

  lemma SmallBootIsFamily()
    ensures Family(SmallBoot(), 4, ROOT, FREE, FREE)
  {
    BootHoles(1);
  }

  lemma {:induction false} FreeSlotIs(procs: seq<MProc>, k: nat)
    requires k < |procs| && !procs[k].inUse && forall i :: 0 <= i < k ==> procs[i].inUse
    ensures FreeSlot(procs) == k
  {
  }

  lemma HoleIsFound()
    ensures FirstFit([Block(PROCS_BASE_CLICK, 1)], 0) == 0
    ensures Taken([Block(PROCS_BASE_CLICK, 1)], 0, 0) == [Block(PROCS_BASE_CLICK, 1)]
  {
  }

  /** The slots of s but `but` play the same roles as those of t. */
  ghost predicate SameRoles(t: State, s: State, but: nat) {
    && |s.procs| == |t.procs|
    && forall i :: 0 <= i < |t.procs| && i != but ==>
         && s.procs[i].size == t.procs[i].size && s.procs[i].effectiveUid == t.procs[i].effectiveUid
         && s.procs[i].parent == t.procs[i].parent && s.procs[i].inUse == t.procs[i].inUse
         && s.procs[i].zombie == t.procs[i].zombie && s.procs[i].waiting == t.procs[i].waiting
         && s.procs[i].pid == t.procs[i].pid
  }

  lemma ForkInto(c: State, who: nat, k: nat)
    requires |c.procs| == 6 && c.nextPid <= MAX_PID && c.bs == [Block(PROCS_BASE_CLICK, 1)] && c.procsInUse < 6
    requires ORIGIN <= who < k < 6 && c.procs[who].size == 0 && c.procs[who].effectiveUid == SUPER_USER
    requires c.procs[who].inUse
    requires !c.procs[k].inUse && forall i :: 0 <= i < k ==> c.procs[i].inUse
    ensures var (r, rs) := Handled(c, who, Forking);
            && 0 < rs && SameRoles(c, r, k) && Plays(r.procs[k], ALIVE.(parent := who)) && r.procs[k].reply
               && r.procs[k].pid == rs
            && r.bs == c.bs && r.procsInUse == c.procsInUse + 1 && r.blocked == c.blocked + {k}
            && (forall i :: 0 <= i < 6 && i != k ==> r.procs[i].reply == c.procs[i].reply)
  {
    FreeSlotIs(c.procs, k);
    HoleIsFound();
    TriedIsPid(c.nextPid, Tries(c.procs, k, c.nextPid));
  }

  /** The answers of a fork are pending for who and for slot k. */
  lemma ForkIsAnswered(t: State, who: nat, k: nat)
    requires |t.procs| == 6 && t.nextPid <= MAX_PID && t.bs == [Block(PROCS_BASE_CLICK, 1)] && t.procsInUse < 6
    requires ORIGIN <= who < k < 6 && t.procs[who].size == 0 && t.procs[who].effectiveUid == SUPER_USER
    requires t.procs[who].inUse
    requires !t.procs[k].inUse && forall i :: 0 <= i < k ==> t.procs[i].inUse
    requires forall i :: 0 <= i < 6 ==> !t.procs[i].reply
    ensures var s := Served(t, who, Forking);
            && SameRoles(t, s, k) && Plays(s.procs[k], ALIVE.(parent := who)) && 0 < s.procs[k].pid
            && s.bs == t.bs && s.procsInUse == t.procsInUse + 1 && s.blocked == t.blocked + {who, k}
            && (forall i :: 0 <= i < 6 ==> (s.procs[i].reply <==> i == who || i == k))
  {
    ForkInto(t.(blocked := t.blocked + {who}), who, k);
  }

  lemma ForkIsQuiet(t: State, who: nat, k: nat)
    requires |t.procs| == 6 && Quiet(t.procs, t.blocked) && who < 6 && k < 6 && 0 <= t.nextPid <= MAX_PID
    requires var s := Served(t, who, Forking);
             s.blocked == t.blocked + {who, k}
             && (forall i :: 0 <= i < 6 ==> (s.procs[i].reply <==> i == who || i == k))
             && (forall i :: 0 <= i < 6 && i != k ==> s.procs[i].waiting == t.procs[i].waiting) && !s.procs[k].waiting
    requires !t.procs[who].waiting && !t.procs[k].waiting
    ensures var r := Turn(t, who, Forking); Quiet(r.procs, r.blocked)
  {
  }

  /** A fork by who, when slot k is the first free one. */
  lemma FamilyForks(t: State, used: int, origin: Role, four: Role, five: Role, who: nat, k: nat)
    requires Family(t, used, origin, four, five) && used < 6 && ORIGIN <= who < k < 6
    requires t.procs[who].Alive() && !t.procs[who].waiting && !t.procs[k].inUse
    requires forall i :: 0 <= i < k ==> t.procs[i].inUse
    requires !t.procs[k].waiting
    ensures Allowed(t, who, Forking)
    ensures var child := ALIVE.(parent := who);
            Family(Turn(t, who, Forking), used + 1, origin,
                   if k == 4 then child else four, if k == 5 then child else five)
    ensures 0 < Turn(t, who, Forking).procs[k].pid && (k == 5 ==> Turn(t, who, Forking).procs[4].pid == t.procs[4].pid)
  {
    ForkIsAnswered(t, who, k);
    ForkIsQuiet(t, who, k);
    assert SameRoles(t, Turn(t, who, Forking), k);
  }

  /** Slot 5, which has no children, exits; slot 4, its parent, does not wait. */
  lemma FamilyLoses(t: State, used: int)
    requires Family(t, used, ROOT, ALIVE, ALIVE.(parent := 4))
    ensures Allowed(t, 5, Exiting(0))
    ensures Family(Turn(t, 5, Exiting(0)), used, ROOT, ALIVE, Role(4, true, true, false))
  {
    var c := t.(blocked := t.blocked + {5});
    var b := Bury(c, 5, 0);
    assert b.bs == c.bs;
    NobodyAdopted(b, 5, 0);
    assert SameRoles(t, Turn(t, 5, Exiting(0)), 5);
  }

  lemma {:induction false} NobodyAdopted(t: State, x: nat, i: nat)
    requires i <= |t.procs| && forall j :: 0 <= j < |t.procs| ==> t.procs[j].parent != x
    ensures AdoptFrom(t, x, i) == t
    decreases |t.procs| - i
  {
    if i < |t.procs| {
      NobodyAdopted(t, x, i + 1);
    }
  }

  /** Slot 4 waits for any child and is told of slot 5, which becomes free but keeps its parent. */
  lemma FamilyIsTold(t: State, used: int)
    requires Family(t, used, ROOT, ALIVE, Role(4, true, true, false))
    ensures Allowed(t, 4, Waiting(-1, 0))
    ensures Family(Turn(t, 4, Waiting(-1, 0)), used - 1, ROOT, ALIVE, Role(4, false, false, false))
  {
    var c := t.(blocked := t.blocked + {4});
    assert FirstDead(c.procs, 4, -1) == 5;
    assert SameRoles(t.(procs := t.procs[5 := t.procs[5].(inUse := false, zombie := false)]),
                     Turn(t, 4, Waiting(-1, 0)), 6);
  }

  /** Slot 4 waits once more: the free slot still counts as its child. */
  lemma FamilyHangs(t: State, used: int)
    requires Family(t, used, ROOT, ALIVE, Role(4, false, false, false))
    ensures Allowed(t, 4, Waiting(-1, 0)) && Childless(Turn(t, 4, Waiting(-1, 0)), 4)
    ensures Family(Turn(t, 4, Waiting(-1, 0)), used, ROOT, ALIVE.(waiting := true), Role(4, false, false, false))
  {
    var c := t.(blocked := t.blocked + {4});
    assert FirstDead(c.procs, 4, -1) == 6;
    assert WaitsFor(4, -1, c.procs[5]);
    assert SameRoles(t.(procs := t.procs[4 := t.procs[4].(waiting := true)]), Turn(t, 4, Waiting(-1, 0)), 6);
  }

  /** The run leads from b to the consistent state t. */
  ghost predicate Leads(b: State, run: seq<Call>, t: State) {
    Numbered(b) && Legal(b, run) && After(b, run) == t && Inv(t, PROCS_BASE_CLICK, PROCS_BASE_CLICK + 1)
  }

  lemma {:induction false} Extends(t: State, run: seq<Call>, c: Call)
    requires Numbered(t) && Legal(t, run) && Allowed(After(t, run), c.who, c.req) && Numbered(After(t, run))
    ensures Legal(t, run + [c]) && After(t, run + [c]) == Turn(After(t, run), c.who, c.req)
    decreases |run|
  {
    if run == [] {
      assert run + [c] == [c] && [c][1..] == [];
    } else {
      assert (run + [c])[1..] == run[1..] + [c] && (run + [c])[0] == run[0];
      Extends(Turn(t, run[0].who, run[0].req), run[1..], c);
    }
  }

  lemma RunsOn(b: State, run: seq<Call>, t: State, c: Call)
    requires Leads(b, run, t) && Allowed(t, c.who, c.req)
    ensures Leads(b, run + [c], Turn(t, c.who, c.req))
  {
    Extends(b, run, c);
    TurnKeepsInv(t, PROCS_BASE_CLICK, PROCS_BASE_CLICK + 1, c.who, c.req);
  }

  lemma SmallBootLeads()
    ensures Leads(SmallBoot(), [], SmallBoot())
  {
    BootIsConsistent(6, seq(ORIGIN + 1, _ => (0, 0)), 1);
  }

  lemma FirstFork(b: State) returns (t: State)
    requires Leads(b, [], b) && Family(b, 4, ROOT, FREE, FREE)
    ensures Leads(b, [Call(3, Forking)], t) && Family(t, 5, ROOT, ALIVE, FREE) && 0 < t.procs[4].pid
  {
    FamilyForks(b, 4, ROOT, FREE, FREE, 3, 4);
    RunsOn(b, [], b, Call(3, Forking));
    assert [] + [Call(3, Forking)] == [Call(3, Forking)];
    t := Turn(b, 3, Forking);
  }

  lemma SecondFork(b: State, run: seq<Call>, t: State, who: nat) returns (r: State)
    requires Leads(b, run, t) && Family(t, 5, ROOT, ALIVE, FREE) && (who == 3 || who == 4)
    ensures Leads(b, run + [Call(who, Forking)], r) && Family(r, 6, ROOT, ALIVE, ALIVE.(parent := who))
    ensures r.procs[4].pid == t.procs[4].pid
  {
    FamilyForks(t, 5, ROOT, ALIVE, FREE, who, 5);
    RunsOn(b, run, t, Call(who, Forking));
    r := Turn(t, who, Forking);
  }

  lemma ExitFollows(b: State, run: seq<Call>, t: State) returns (r: State)
    requires Leads(b, run, t) && Family(t, 6, ROOT, ALIVE, ALIVE.(parent := 4))
    ensures Leads(b, run + [Call(5, Exiting(0))], r) && Family(r, 6, ROOT, ALIVE, Role(4, true, true, false))
  {
    FamilyLoses(t, 6);
    RunsOn(b, run, t, Call(5, Exiting(0)));
    r := Turn(t, 5, Exiting(0));
  }

  lemma NewsFollows(b: State, run: seq<Call>, t: State) returns (r: State)
    requires Leads(b, run, t) && Family(t, 6, ROOT, ALIVE, Role(4, true, true, false))
    ensures Leads(b, run + [Call(4, Waiting(-1, 0))], r) && Family(r, 5, ROOT, ALIVE, Role(4, false, false, false))
  {
    FamilyIsTold(t, 6);
    RunsOn(b, run, t, Call(4, Waiting(-1, 0)));
    r := Turn(t, 4, Waiting(-1, 0));
  }

  lemma HangingFollows(b: State, run: seq<Call>, t: State) returns (r: State)
    requires Leads(b, run, t) && Family(t, 5, ROOT, ALIVE, Role(4, false, false, false))
    ensures Leads(b, run + [Call(4, Waiting(-1, 0))], r) && |r.procs| == 6 && r.procs[4].waiting && Childless(r, 4)
  {
    FamilyHangs(t, 5);
    RunsOn(b, run, t, Call(4, Waiting(-1, 0)));
    r := Turn(t, 4, Waiting(-1, 0));
  }

  lemma TwoForks(b: State, who: nat) returns (t: State)
    requires Leads(b, [], b) && Family(b, 4, ROOT, FREE, FREE)
    requires who == 3 || who == 4
    ensures Leads(b, [Call(3, Forking), Call(who, Forking)], t) && Family(t, 6, ROOT, ALIVE, ALIVE.(parent := who))
    ensures 0 < t.procs[4].pid
  {
    t := FirstFork(b);
    t := SecondFork(b, [Call(3, Forking)], t, who);
    assert [Call(3, Forking)] + [Call(who, Forking)] == [Call(3, Forking), Call(who, Forking)];
  }

  lemma DeadChild(b: State) returns (run: seq<Call>, t: State)
    requires Leads(b, [], b) && Family(b, 4, ROOT, FREE, FREE)
    ensures run == [Call(3, Forking), Call(4, Forking), Call(5, Exiting(0))]
    ensures Leads(b, run, t) && Family(t, 6, ROOT, ALIVE, Role(4, true, true, false))
  {
    t := TwoForks(b, 4);
    run := [Call(3, Forking), Call(4, Forking)];
    t := ExitFollows(b, run, t);
    run := run + [Call(5, Exiting(0))];
  }

  lemma ToldOnce(b: State) returns (run: seq<Call>, t: State)
    requires Leads(b, [], b) && Family(b, 4, ROOT, FREE, FREE)
    ensures run == [Call(3, Forking), Call(4, Forking), Call(5, Exiting(0)), Call(4, Waiting(-1, 0))]
    ensures Leads(b, run, t) && Family(t, 5, ROOT, ALIVE, Role(4, false, false, false))
  {
    run, t := DeadChild(b);
    t := NewsFollows(b, run, t);
    run := run + [Call(4, Waiting(-1, 0))];
  }

  lemma HangingRun(b: State) returns (run: seq<Call>, t: State)
    requires Leads(b, [], b) && Family(b, 4, ROOT, FREE, FREE)
    ensures run == [Call(3, Forking), Call(4, Forking), Call(5, Exiting(0)), Call(4, Waiting(-1, 0)),
                    Call(4, Waiting(-1, 0))]
    ensures Leads(b, run, t) && |t.procs| == 6 && t.procs[4].waiting && Childless(t, 4)
  {
    run, t := ToldOnce(b);
    t := HangingFollows(b, run, t);
    run := run + [Call(4, Waiting(-1, 0))];
  }

  /** From boot: ORIGIN forks slot 4, which forks slot 5; that exits; slot 4 waits, and waits again. It has no children,
      and whatever follows it waits for ever. */
  lemma ChildlessCanWaitForever(rest: seq<Call>) returns (run: seq<Call>, t: State)
    ensures run == [Call(3, Forking), Call(4, Forking), Call(5, Exiting(0)), Call(4, Waiting(-1, 0)),
                    Call(4, Waiting(-1, 0))]
    ensures Leads(SmallBoot(), run, t) && Childless(t, 4)
    ensures Legal(t, rest) ==> After(t, rest).procs[4].waiting && Answered(t, rest, 4) == 0
  {
    var b := SmallBoot();
    SmallBootLeads();
    SmallBootIsFamily();
    run, t := HangingRun(b);
    if Legal(t, rest) {
      ChildlessWaitsForever(t, PROCS_BASE_CLICK, PROCS_BASE_CLICK + 1, rest, 4);
    }
  }

  /** ORIGIN, whose children are slots 4 and 5, waits for slot 4. */
  lemma FamilyWaits(t: State)
    requires Family(t, 6, ROOT, ALIVE, ALIVE) && 0 < t.procs[4].pid
    ensures Allowed(t, 3, Waiting(t.procs[4].pid, 0))
    ensures var r := Turn(t, 3, Waiting(t.procs[4].pid, 0));
            && Family(r, 6, ROOT.(waiting := true), ALIVE, ALIVE) && r.procs[3].waitPid == t.procs[4].pid
            && r.procs[4].pid == t.procs[4].pid && r.procs[5].pid == t.procs[5].pid
  {
    var c := t.(blocked := t.blocked + {3});
    assert FirstDead(c.procs, 3, t.procs[4].pid) == 6;
    assert WaitsFor(3, t.procs[4].pid, c.procs[4]);
    assert SameRoles(t.(procs := t.procs[3 := t.procs[3].(waiting := true)]),
                     Turn(t, 3, Waiting(t.procs[4].pid, 0)), 6);
  }

  lemma WaitingFollows(b: State, run: seq<Call>, t: State) returns (r: State)
    requires Leads(b, run, t) && Family(t, 6, ROOT, ALIVE, ALIVE) && 0 < t.procs[4].pid
    ensures Leads(b, run + [Call(3, Waiting(t.procs[4].pid, 0))], r)
    ensures Family(r, 6, ROOT.(waiting := true), ALIVE, ALIVE)
    ensures r.procs[3].waitPid == t.procs[4].pid == r.procs[4].pid && 0 < r.procs[4].pid != r.procs[5].pid
  {
    FamilyWaits(t);
    RunsOn(b, run, t, Call(3, Waiting(t.procs[4].pid, 0)));
    r := Turn(t, 3, Waiting(t.procs[4].pid, 0));
    assert PidsOk(r.procs, r.nextPid);
  }

  lemma WaitingRun(b: State) returns (pid: int, run: seq<Call>, t: State)
    requires Leads(b, [], b) && Family(b, 4, ROOT, FREE, FREE)
    ensures run == [Call(3, Forking), Call(3, Forking), Call(3, Waiting(pid, 0))] && Leads(b, run, t)
    ensures Family(t, 6, ROOT.(waiting := true), ALIVE, ALIVE)
    ensures t.procs[3].waitPid == pid == t.procs[4].pid && 0 < pid != t.procs[5].pid
  {
    t := TwoForks(b, 3);
    run := [Call(3, Forking), Call(3, Forking)];
    pid := t.procs[4].pid;
    t := WaitingFollows(b, run, t);
    run := run + [Call(3, Waiting(pid, 0))];
  }

  /** From boot: ORIGIN forks slots 4 and 5, waits for slot 4, and is told of slot 5. */
  lemma WrongChildIsReported() returns (pid: int, run: seq<Call>, t: State)
    ensures run == [Call(3, Forking), Call(3, Forking), Call(3, Waiting(pid, 0))] && Leads(SmallBoot(), run, t)
    ensures |t.procs| == 6 && t.procs[3].waitPid == pid == t.procs[4].pid != t.procs[5].pid
    ensures EndsWithNews(t, 3, Call(5, Exiting(0))) && ToldOf(t, 3, 5) == 5
  {
    var b := SmallBoot();
    SmallBootLeads();
    SmallBootIsFamily();
    pid, run, t := WaitingRun(b);
    WrongChildCanEndTheWait(t, PROCS_BASE_CLICK, PROCS_BASE_CLICK + 1, 3, 5);
  }
}
