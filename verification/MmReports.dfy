/** The deaths that are counted as reported are those that the replies tell, over every run. */
module MmReports {
  import opened Holes
  import opened MmState
  import opened MmInvariants
  import opened MmRuns
  import opened MmTheorems
  import opened MmWaits

  // ---------------------------------------------------------------- what the replies of one turn tell

  /** The reply that slot i is sent tells it of a child: it was waiting, or asks to wait and gets no other answer. */
  ghost predicate IsTold(t: State, who: nat, req: Request, i: nat)
    requires who < |t.procs| && Numbered(t) && i < |t.procs|
  {
    && Served(t, who, req).procs[i].reply
    && (t.procs[i].waiting
        || (i == who && req.Waiting? && Handled(t.(blocked := t.blocked + {who}), who, req).1 == NO_MESSAGE))
  }

  /** The identifier and status in that reply. */
  ghost function NewsAt(t: State, who: nat, req: Request, i: nat): multiset<Death>
    requires who < |t.procs| && Numbered(t) && i < |t.procs|
  {
    var q := Served(t, who, req).procs[i];
    if IsTold(t, who, req, i) then multiset{Death(q.reply1, q.reply2)} else multiset{}
  }

  ghost function Union(ms: seq<multiset<Death>>): multiset<Death> {
    if ms == [] then multiset{} else Union(ms[..|ms| - 1]) + ms[|ms| - 1]
  }

  /** Everything that processes are told of their children by the replies of one turn. */
  ghost function News(t: State, who: nat, req: Request): multiset<Death>
    requires who < |t.procs| && Numbered(t)
  {
    Union(seq(|t.procs|, i requires 0 <= i < |t.procs| => NewsAt(t, who, req, i)))
  }

  /** And over a run. */
  ghost function AllNews(t: State, run: seq<Call>): multiset<Death>
    requires Numbered(t) && Legal(t, run)
    decreases |run|
  {
    if run == [] then multiset{}
    else News(t, run[0].who, run[0].req) + AllNews(Turn(t, run[0].who, run[0].req), run[1..])
  }

  lemma {:induction false} UnionOfNone(ms: seq<multiset<Death>>)
    requires forall i :: 0 <= i < |ms| ==> ms[i] == multiset{}
    ensures Union(ms) == multiset{}
  {
    if ms != [] {
      UnionOfNone(ms[..|ms| - 1]);
    }
  }

  lemma {:induction false} UnionOfOne(ms: seq<multiset<Death>>, w: nat)
    requires w < |ms| && forall i :: 0 <= i < |ms| && i != w ==> ms[i] == multiset{}
    ensures Union(ms) == ms[w]
  {
    var n := |ms| - 1;
    if w == n {
      UnionOfNone(ms[..n]);
    } else {
      UnionOfOne(ms[..n], w);
    }
  }

  lemma {:induction false} UnionOfTwo(ms: seq<multiset<Death>>, w: nat, o: nat)
    requires w < o < |ms| && forall i :: 0 <= i < |ms| && i != w && i != o ==> ms[i] == multiset{}
    ensures Union(ms) == ms[w] + ms[o]
  {
    var n := |ms| - 1;
    if o == n {
      UnionOfOne(ms[..n], w);
    } else {
      UnionOfTwo(ms[..n], w, o);
    }
  }

  // ---------------------------------------------------------------- what an exit reports

  /** What ORIGIN is told of when x leaves its children from slot i on to it. */
  ghost function LeftTo(t: State, x: nat, i: nat): multiset<Death>
    requires i <= |t.procs|
    decreases |t.procs| - i
  {
    if i == |t.procs| || !t.procs[ORIGIN].waiting then multiset{}
    else if t.procs[i].parent == x && t.procs[i].zombie then multiset{Death(t.procs[i].pid, t.procs[i].exitStatus)}
    else LeftTo(t, x, i + 1)
  }

  lemma {:induction false} SameLeft(t: State, r: State, x: nat, i: nat)
    requires i <= |t.procs| == |r.procs| && r.procs[ORIGIN].waiting == t.procs[ORIGIN].waiting
    requires forall j :: i <= j < |t.procs| ==>
               && r.procs[j].parent == t.procs[j].parent && r.procs[j].zombie == t.procs[j].zombie
               && r.procs[j].pid == t.procs[j].pid && r.procs[j].exitStatus == t.procs[j].exitStatus
    ensures LeftTo(r, x, i) == LeftTo(t, x, i)
    decreases |t.procs| - i
  {
    if i < |t.procs| {
      SameLeft(t, r, x, i + 1);
    }
  }

  lemma {:induction false} AdoptingReports(t: State, x: nat, i: nat)
    requires i <= |t.procs| && !t.procs[ORIGIN].zombie && ORIGIN < x && t.procs[ORIGIN].parent != x
    ensures AdoptFrom(t, x, i).reports == t.reports + LeftTo(t, x, i)
    decreases |t.procs| - i
  {
    if i < |t.procs| {
      var r := Adopt(t, x, i);
      AdoptingReports(r, x, i + 1);
      if t.procs[ORIGIN].waiting && t.procs[i].parent == x && t.procs[i].zombie {
        assert LeftTo(r, x, i + 1) == multiset{};
      } else {
        AdoptSpares(t, x, i, ORIGIN);
        SameLeft(t, r, x, i + 1);
      }
    }
  }

  /** The first dead child that is left is the one reported. */
  lemma {:induction false} LeftIsFirstDead(t: State, x: nat, i: nat)
    requires i <= |t.procs| && forall j :: 0 <= j < i ==> !(t.procs[j].parent == x && t.procs[j].zombie)
    ensures var k := FirstDead(t.procs, x, -1);
            LeftTo(t, x, i)
            == if t.procs[ORIGIN].waiting && k < |t.procs| then multiset{Death(t.procs[k].pid, t.procs[k].exitStatus)}
               else multiset{}
    decreases |t.procs| - i
  {
    if i < |t.procs| && !(t.procs[i].parent == x && t.procs[i].zombie) {
      LeftIsFirstDead(t, x, i + 1);
    }
  }

  ghost function DeathIf(b: bool, pid: int, status: int): multiset<Death> {
    if b then multiset{Death(pid, status)} else multiset{}
  }

  /** ORIGIN, though not the parent of x, is told of a child that x leaves. */
  ghost predicate OriginHears(t: State, x: nat)
    requires x < |t.procs|
  {
    t.procs[ORIGIN].waiting && t.procs[x].parent != ORIGIN && FirstDead(t.procs, x, -1) < |t.procs|
  }

  ghost function OriginNews(t: State, x: nat): multiset<Death>
    requires x < |t.procs|
  {
    var k := FirstDead(t.procs, x, -1);
    if OriginHears(t, x) then multiset{Death(t.procs[k].pid, t.procs[k].exitStatus)} else multiset{}
  }

  lemma {:induction false} SameFirstDead(t: State, r: State, x: nat)
    requires |t.procs| == |r.procs|
    requires forall j :: 0 <= j < |t.procs| ==>
               (r.procs[j].parent == x && r.procs[j].zombie <==> t.procs[j].parent == x && t.procs[j].zombie)
    ensures FirstDead(r.procs, x, -1) == FirstDead(t.procs, x, -1)
  {
    assert forall j :: 0 <= j < |t.procs| ==>
        (WaitsFor(x, -1, r.procs[j]) && r.procs[j].zombie <==> WaitsFor(x, -1, t.procs[j]) && t.procs[j].zombie);
  }

  /** Burying x reports it to its parent if that waits. */
  lemma BuryingReports(t: State, x: nat, status: int)
    requires ORIGIN < x < |t.procs| && t.procs[x].Alive() && t.procs[x].parent != x && t.procs[ORIGIN].Alive()
    requires t.procs[ORIGIN].parent != x
    ensures var b, w := Bury(t, x, status), t.procs[x].parent;
            && b.reports == t.reports + DeathIf(t.procs[w].waiting, t.procs[x].pid, ToChar(status))
            && !b.procs[ORIGIN].zombie && b.procs[ORIGIN].parent != x
            && (b.procs[ORIGIN].waiting <==> t.procs[ORIGIN].waiting && w != ORIGIN)
            && (forall j :: 0 <= j < |t.procs| ==>
                  (b.procs[j].parent == x && b.procs[j].zombie <==> t.procs[j].parent == x && t.procs[j].zombie)
                  && (j != x ==> b.procs[j].pid == t.procs[j].pid && b.procs[j].exitStatus == t.procs[j].exitStatus))
  {
  }

  lemma ExitReports(t: State, x: nat, status: int)
    requires ORIGIN < x < |t.procs| && t.procs[x].Alive() && t.procs[x].parent != x && t.procs[ORIGIN].Alive()
    requires t.procs[ORIGIN].parent != x
    ensures ExitProc(t, x, status).reports
            == t.reports + DeathIf(t.procs[t.procs[x].parent].waiting, t.procs[x].pid, ToChar(status))
               + OriginNews(t, x)
  {
    var b := Bury(t, x, status);
    BuryingReports(t, x, status);
    AdoptingReports(b, x, 0);
    LeftIsFirstDead(b, x, 0);
    SameFirstDead(t, b, x);
  }

  // ---------------------------------------------------------------- what is told is what is reported

  lemma {:induction false} UnionOfBoth(ms: seq<multiset<Death>>, w: nat, o: nat, a: multiset<Death>, b: multiset<Death>)
    requires w < |ms| && o < |ms| && (w == o ==> b == multiset{})
    requires forall i :: 0 <= i < |ms| ==> ms[i] == if i == w then a else if i == o then b else multiset{}
    ensures Union(ms) == a + b
  {
    if w == o {
      UnionOfOne(ms, w);
    } else if w < o {
      UnionOfTwo(ms, w, o);
    } else {
      UnionOfTwo(ms, o, w);
    }
  }

  /** What the parent of an exiting process is told. */
  ghost function ParentNews(t: State, x: nat, status: int): multiset<Death>
    requires x < |t.procs|
  {
    DeathIf(t.procs[t.procs[x].parent].waiting, t.procs[x].pid, ToChar(status))
  }

  /** Nobody but those whose wait an exit ends is told of a child by it. */
  lemma ExitNewsAt(t: State, lo: int, hi: int, who: nat, req: Request, i: nat)
    requires Inv(t, lo, hi) && Allowed(t, who, req) && req.Exiting? && i < |t.procs|
    ensures NewsAt(t, who, req, i)
            == if i == t.procs[who].parent then ParentNews(t, who, req.status)
               else if i == ORIGIN then OriginNews(t, who)
               else multiset{}
  {
    if t.procs[i].waiting {
      HandledFacts(t, lo, hi, who, req, i);
      WaiterFacts(t, lo, hi, who, req, i);
    }
  }

  lemma ExitIsTold(t: State, lo: int, hi: int, who: nat, req: Request)
    requires Inv(t, lo, hi) && Allowed(t, who, req) && req.Exiting?
    ensures News(t, who, req) == ParentNews(t, who, req.status) + OriginNews(t, who)
  {
    var w := t.procs[who].parent;
    var ms := seq(|t.procs|, i requires 0 <= i < |t.procs| => NewsAt(t, who, req, i));
    forall i | 0 <= i < |t.procs|
      ensures ms[i] == if i == w then ParentNews(t, who, req.status)
                       else if i == ORIGIN then OriginNews(t, who)
                       else multiset{}
    {
      ExitNewsAt(t, lo, hi, who, req, i);
    }
    UnionOfBoth(ms, w, ORIGIN, ParentNews(t, who, req.status), OriginNews(t, who));
  }

  lemma ExitReportsNews(t: State, lo: int, hi: int, who: nat, req: Request)
    requires Inv(t, lo, hi) && Allowed(t, who, req) && req.Exiting?
    ensures Served(t, who, req).reports == t.reports + News(t, who, req)
  {
    assert Rooted(t.procs[who], who) && Rooted(t.procs[ORIGIN], ORIGIN);
    ExitIsTold(t, lo, hi, who, req);
    ExitReports(t.(blocked := t.blocked + {who}), who, req.status);
  }

  lemma CallerNews(t: State, who: nat, req: Request)
    requires who < |t.procs| && Numbered(t) && !req.Exiting? && t.procs[who].Alive()
    requires !t.procs[who].waiting && !t.procs[who].reply
    ensures NewsAt(t, who, req, who) == WaitNews(t, who, req)
  {
  }

  /** A request to wait that finds a dead child is answered with it; other requests tell of none. */
  lemma OtherNewsAt(t: State, lo: int, hi: int, who: nat, req: Request, i: nat)
    requires Inv(t, lo, hi) && Allowed(t, who, req) && !req.Exiting? && i < |t.procs|
    ensures NewsAt(t, who, req, i) == if i == who then WaitNews(t, who, req) else multiset{}
  {
    if t.procs[i].waiting {
      HandledFacts(t, lo, hi, who, req, i);
      WaiterFacts(t, lo, hi, who, req, i);
    } else if i == who {
      CallIsOpen(t, lo, hi, who, req);
      CallerNews(t, who, req);
    }
  }

  ghost function WaitNews(t: State, who: nat, req: Request): multiset<Death>
    requires who < |t.procs|
  {
    if req.Waiting? then
      var k := FirstDead(t.procs, who, WaitTarget(t.procs[who], req.pid));
      if k < |t.procs| then multiset{Death(t.procs[k].pid, t.procs[k].exitStatus)} else multiset{}
    else multiset{}
  }

  lemma OtherReports(t: State, who: nat, req: Request)
    requires who < |t.procs| && Numbered(t) && !req.Exiting?
    ensures Served(t, who, req).reports == t.reports + WaitNews(t, who, req)
  {
  }

  lemma OtherReportsNews(t: State, lo: int, hi: int, who: nat, req: Request)
    requires Inv(t, lo, hi) && Allowed(t, who, req) && !req.Exiting?
    ensures Served(t, who, req).reports == t.reports + News(t, who, req)
  {
    var ms := seq(|t.procs|, i requires 0 <= i < |t.procs| => NewsAt(t, who, req, i));
    forall i | 0 <= i < |t.procs|
      ensures ms[i] == if i == who then WaitNews(t, who, req) else multiset{}
    {
      OtherNewsAt(t, lo, hi, who, req, i);
    }
    UnionOfOne(ms, who);
    OtherReports(t, who, req);
  }

  lemma SumsAssociate(a: multiset<Death>, b: multiset<Death>, c: multiset<Death>)
    ensures a + b + c == a + (b + c)
  {
  }

  /** Over every run the deaths counted as reported are exactly those that replies have told, as often as they have. */
  lemma {:induction false} ReportsAreTold(t: State, lo: int, hi: int, run: seq<Call>)
    requires Inv(t, lo, hi) && Legal(t, run)
    ensures After(t, run).reports == t.reports + AllNews(t, run)
    decreases |run|
  {
    if run != [] {
      var t1 := Turn(t, run[0].who, run[0].req);
      TurnReports(t, lo, hi, run[0].who, run[0].req);
      TurnKeepsInv(t, lo, hi, run[0].who, run[0].req);
      ReportsAreTold(t1, lo, hi, run[1..]);
      SumsAssociate(t.reports, News(t, run[0].who, run[0].req), AllNews(t1, run[1..]));
    }
  }

  lemma TurnReports(t: State, lo: int, hi: int, who: nat, req: Request)
    requires Inv(t, lo, hi) && Allowed(t, who, req)
    ensures Turn(t, who, req).reports == t.reports + News(t, who, req)
  {
    if req.Exiting? {
      ExitReportsNews(t, lo, hi, who, req);
    } else {
      OtherReportsNews(t, lo, hi, who, req);
    }
  }

  /** Over every run from boot, each death has been told by exactly one reply, or is still held by a slot and by one
      only. */
  lemma {:induction false} DeathsAreToldOnce(nrProcs: nat, maps: seq<(nat, nat)>, free: nat, run: seq<Call>)
    requires ORIGIN < nrProcs && |maps| == ORIGIN + 1 && 2 * nrProcs < MAX_PID && Legal(Boot(nrProcs, maps, free), run)
    ensures var b := Boot(nrProcs, maps, free);
            After(b, run).deaths == AllNews(b, run) + Zombies(After(b, run).procs)
  {
    var b := Boot(nrProcs, maps, free);
    BootIsConsistent(nrProcs, maps, free);
    RunKeepsInv(b, PROCS_BASE_CLICK, PROCS_BASE_CLICK + free, run);
    ReportsAreTold(b, PROCS_BASE_CLICK, PROCS_BASE_CLICK + free, run);
  }
}
