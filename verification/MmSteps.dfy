/** What wait and fork keep, and why the search for an identifier ends. */
module MmSteps {
  import opened Holes
  import opened MmState
  import opened MmInvariants

  // ---------------------------------------------------------------- wait

  lemma {:induction false} WaitingKeepsServing(t: State, w: nat, pid: int)
    requires w < |t.procs| && Serving(t, w, |t.procs|, 0) && w in t.blocked
    requires !t.procs[w].waiting && !t.procs[w].reply && FirstDead(t.procs, w, pid) == |t.procs|
    ensures Serving(t.(procs := t.procs[w := t.procs[w].(waiting := true, waitPid := pid)]), |t.procs|, |t.procs|, 0)
  {
    var q := t.procs[w].(waiting := true, waitPid := pid);
    assert Consistent(t.procs[w]) && Rooted(t.procs[w], w);
    SameCounts(t.procs, t.procs[w := q]);
    ChangeKeepsTree(t.procs, |t.procs|, 0, w, q, |t.procs|, 0);
    ChangeKeepsPids(t.procs, t.nextPid, w, q);
    WaitingMissesNone(t.procs, w, pid);
    WaitingKeepsReplies(t.procs, t.blocked, w, pid);
  }

  lemma {:induction false} WaitingMissesNone(procs: seq<MProc>, w: nat, pid: int)
    requires w < |procs| && NoneMissed(procs) && FirstDead(procs, w, pid) == |procs|
    ensures NoneMissed(procs[w := procs[w].(waiting := true, waitPid := pid)])
  {
  }

  lemma WaitingKeepsReplies(procs: seq<MProc>, blocked: set<nat>, w: nat, pid: int)
    requires w < |procs| && RepliesOk(procs, blocked, w) && w in blocked && !procs[w].reply
    ensures RepliesOk(procs[w := procs[w].(waiting := true, waitPid := pid)], blocked, |procs|)
  {
  }

  /** The caller's request is answered. */
  lemma AnswerKeepsServing(t: State, w: nat, rs: int)
    requires w < |t.procs| && Serving(t, w, |t.procs|, 0) && w in t.blocked && !t.procs[w].waiting
    ensures Serving(SetReply(t, w, rs), |t.procs|, |t.procs|, 0)
  {
    var q := SetReply(t, w, rs).procs[w];
    assert Consistent(t.procs[w]) && Rooted(t.procs[w], w);
    SameCounts(t.procs, t.procs[w := q]);
    ChangeKeepsTree(t.procs, |t.procs|, 0, w, q, |t.procs|, 0);
    ChangeKeepsPids(t.procs, t.nextPid, w, q);
    ChangeMissesNone(t.procs, w, q);
    AnswerKeepsReplies(t.procs, t.blocked, w, q);
  }

  lemma AnswerKeepsReplies(procs: seq<MProc>, blocked: set<nat>, w: nat, q: MProc)
    requires w < |procs| && RepliesOk(procs, blocked, w) && w in blocked
    requires q.Alive() && !q.waiting && q.reply
    ensures RepliesOk(procs[w := q], blocked, |procs|)
  {
  }

  lemma RepliedIsSettled(procs: seq<MProc>, blocked: set<nat>, w: nat)
    requires w < |procs| && RepliesOk(procs, blocked, w) && procs[w].reply
    ensures RepliesOk(procs, blocked, |procs|)
  {
  }

  /** A wait that does not answer itself has told the caller of a dead child, or leaves it waiting with none to tell. */
  lemma WaitKeepsServing(t: State, w: nat, pid0: int, options: nat)
    requires w < |t.procs| && Serving(t, w, |t.procs|, 0) && w in t.blocked && t.procs[w].Alive()
    requires !t.procs[w].waiting && !t.procs[w].reply
    ensures var (r, rs) := WaitPid(t, w, pid0, options);
            if rs == NO_MESSAGE then Serving(r, |t.procs|, |t.procs|, 0) else r == t
  {
    var pid := WaitTarget(t.procs[w], pid0);
    var k := FirstDead(t.procs, w, pid);
    if k < |t.procs| {
      CleanupKeepsServing(t, k, w, w, |t.procs|, 0);
      var r := ExitCleanup(t, k, w);
      RepliedIsSettled(r.procs, r.blocked, w);
    } else if WaitPid(t, w, pid0, options).1 == NO_MESSAGE {
      WaitingKeepsServing(t, w, pid);
    }
  }

  // ---------------------------------------------------------------- identifiers

  /** The values a new identifier must avoid. */
  ghost function Held(procs: seq<MProc>, child: nat): set<int> {
    (set i | 0 <= i < |procs| && i != child :: procs[i].pid)
      + (set i | 0 <= i < |procs| && i != child :: procs[i].procGroup)
  }

  lemma FewAreHeld(procs: seq<MProc>, child: nat)
    ensures |Held(procs, child)| <= 2 * |procs|
  {
    ValuesAreFew(procs, child, false);
    ValuesAreFew(procs, child, true);
    var a, b := Values(procs, child, false), Values(procs, child, true);
    assert Held(procs, child) == a + b;
    assert |a + b| == |a| + |b| - |a * b|;
  }

  ghost function Value(q: MProc, group: bool): int {
    if group then q.procGroup else q.pid
  }

  ghost function Values(procs: seq<MProc>, child: nat, group: bool): set<int> {
    set i | 0 <= i < |procs| && i != child :: Value(procs[i], group)
  }

  lemma {:induction false} ValuesAreFew(procs: seq<MProc>, child: nat, group: bool)
    ensures |Values(procs, child, group)| <= |procs|
  {
    if procs == [] {
      assert Values(procs, child, group) == {};
    } else {
      var n := |procs| - 1;
      var rest := procs[..n];
      ValuesAreFew(rest, child, group);
      var all := Values(procs, child, group);
      forall v | v in all
        ensures v in Values(rest, child, group) + {Value(procs[n], group)}
      {
        var i :| 0 <= i < |procs| && i != child && Value(procs[i], group) == v;
        assert i < n ==> rest[i] == procs[i];
      }
      SubsetIsSmaller(all, Values(rest, child, group) + {Value(procs[n], group)});
    }
  }

  /** The identifiers tried in steps 1 .. k. */
  ghost function TriedSet(n: nat, k: nat): set<int> {
    if k == 0 then {} else TriedSet(n, k - 1) + {Tried(n, k)}
  }

  lemma {:induction false} TriedIs(n: nat, k: nat)
    requires n <= MAX_PID && 0 < k
    ensures Tried(n, k) == (n + k - 1) % MAX_PID + 1
  {
    if k > 1 {
      TriedIs(n, k - 1);
    }
  }

  lemma {:induction false} TriedDiffer(n: nat, j: nat, k: nat)
    requires n <= MAX_PID && 0 < j < k <= MAX_PID
    ensures Tried(n, j) != Tried(n, k)
  {
    TriedIs(n, j);
    TriedIs(n, k);
  }

  lemma {:induction false} TriedSetHas(n: nat, k: nat, v: int) returns (j: nat)
    requires v in TriedSet(n, k)
    ensures 0 < j <= k && v == Tried(n, j)
  {
    if v == Tried(n, k) {
      j := k;
    } else {
      j := TriedSetHas(n, k - 1, v);
    }
  }

  /** Up to MAX_PID steps never try the same identifier twice. */
  lemma {:induction false} TriedAreDistinct(n: nat, k: nat)
    requires n <= MAX_PID && k <= MAX_PID
    ensures |TriedSet(n, k)| == k
  {
    if k > 0 {
      TriedAreDistinct(n, k - 1);
      if Tried(n, k) in TriedSet(n, k - 1) {
        var j := TriedSetHas(n, k - 1, Tried(n, k));
        TriedDiffer(n, j, k);
      }
    }
  }

  /** If every identifier of the first k steps is held, there are at least k held values. */
  lemma {:induction false} TriedAreHeld(procs: seq<MProc>, child: nat, n: nat, k: nat)
    requires forall j :: 0 < j <= k ==> PidTaken(procs, child, Tried(n, j))
    ensures TriedSet(n, k) <= Held(procs, child)
  {
    if k > 0 {
      TriedAreHeld(procs, child, n, k - 1);
      assert PidTaken(procs, child, Tried(n, k));
    }
  }

  /** A search over a table of fewer than half of all identifiers ends within twice as many steps as there are slots. */
  lemma SearchEnds(procs: seq<MProc>, child: nat, n: nat, k: nat)
    requires n <= MAX_PID && 2 * |procs| < MAX_PID
    requires forall j :: 0 < j <= k ==> PidTaken(procs, child, Tried(n, j))
    ensures k <= 2 * |procs|
  {
    var m := if k <= MAX_PID then k else MAX_PID;
    TriedAreDistinct(n, m);
    TriedAreHeld(procs, child, n, m);
    FewAreHeld(procs, child);
    SubsetIsSmaller(TriedSet(n, m), Held(procs, child));
  }

  lemma {:induction false} FreshExists(procs: seq<MProc>, child: nat, n: nat, from: nat)
    requires n <= MAX_PID && 2 * |procs| < MAX_PID
    requires forall j :: 0 < j <= from ==> PidTaken(procs, child, Tried(n, j))
    ensures exists k: nat :: IsFresh(procs, child, n, k)
    decreases 2 * |procs| + 1 - from
  {
    SearchEnds(procs, child, n, from);
    if PidTaken(procs, child, Tried(n, from + 1)) {
      FreshExists(procs, child, n, from + 1);
    } else {
      assert IsFresh(procs, child, n, from + 1);
    }
  }

  /** How many identifiers the search tries: the least number that finds a free one. */
  ghost function Tries(procs: seq<MProc>, child: nat, n: nat): (k: nat)
    requires n <= MAX_PID && 2 * |procs| < MAX_PID
    ensures IsFresh(procs, child, n, k) && k <= 2 * |procs| + 1
  {
    FreshExists(procs, child, n, 0);
    var k: nat :| IsFresh(procs, child, n, k);
    SearchEnds(procs, child, n, k - 1);
    k
  }

  lemma {:induction false} TriedIsPid(n: nat, k: nat)
    requires n <= MAX_PID && 0 < k
    ensures 1 <= Tried(n, k) <= MAX_PID
  {
    TriedIs(n, k);
  }

  // ---------------------------------------------------------------- fork

  lemma FreeSlotExists(t: State, who: nat)
    requires who < |t.procs| && Serving(t, who, |t.procs|, 0) && !NoSlotFor(t, who)
    ensures FreeSlot(t.procs) < |t.procs| && ORIGIN < FreeSlot(t.procs)
  {
    CountIsBounded(t.procs);
    var i :| 0 <= i < |t.procs| && !t.procs[i].inUse;
    assert i >= FreeSlot(t.procs);
  }

  lemma NewbornKeepsPids(procs: seq<MProc>, nextPid: nat, child: nat, q: MProc)
    requires child < |procs| && PidsOk(procs, nextPid) && !PidTaken(procs, child, q.pid) && 1 <= q.pid <= MAX_PID
    ensures PidsOk(procs[child := q], q.pid)
  {
  }

  lemma NewbornKeepsTree(procs: seq<MProc>, child: nat, q: MProc)
    requires child < |procs| && Tree(procs) && !procs[child].inUse && ORIGIN < child
    requires q.Alive() && !q.waiting && q.parent < |procs| && procs[q.parent].Alive()
    ensures Tree(procs[child := q])
  {
    var procs1 := procs[child := q];
    forall j | 0 <= j < |procs1|
      ensures ParentAlive(procs1, j) || (0 <= j && procs1[j].parent == |procs1|)
      ensures Consistent(procs1[j]) && Rooted(procs1[j], j)
    {
      assert ParentAlive(procs, j) || procs[j].parent == |procs|;
      assert Consistent(procs[j]) && Rooted(procs[j], j);
    }
  }

  lemma NewbornKeepsReplies(procs: seq<MProc>, blocked: set<nat>, who: nat, child: nat, q: MProc)
    requires child < |procs| && RepliesOk(procs, blocked, who) && child != who
    requires q.Alive() && !q.waiting && q.reply
    ensures RepliesOk(procs[child := q], blocked + {child}, who)
  {
  }

  lemma NewbornMissesNone(procs: seq<MProc>, child: nat, q: MProc)
    requires child < |procs| && NoneMissed(procs) && !q.waiting && !q.zombie
    ensures NoneMissed(procs[child := q])
  {
  }

  lemma NewbornIsCounted(procs: seq<MProc>, child: nat, q: MProc, deaths: multiset<Death>, reports: multiset<Death>)
    requires child < |procs| && Tree(procs) && !procs[child].inUse && q.Alive() && Ledger(procs, deaths, reports)
    ensures CountInUse(procs[child := q]) == CountInUse(procs) + 1 && Ledger(procs[child := q], deaths, reports)
  {
    assert Consistent(procs[child]);
    ChangeCounts(procs, child, q);
    assert Zombies(procs[child := q]) + multiset{} == Zombies(procs[child := q]);
    assert Zombies(procs) + multiset{} == Zombies(procs);
  }

  /** A free slot comes to hold a process whose first reply is pending. */
  lemma BirthKeepsServing(t: State, who: nat, child: nat, q: MProc)
    requires who < |t.procs| && child < |t.procs| && Serving(t, who, |t.procs|, 0) && child != who
    requires !t.procs[child].inUse && ORIGIN < child && !PidTaken(t.procs, child, q.pid) && 1 <= q.pid <= MAX_PID
    requires q.Alive() && !q.waiting && q.reply && q.parent < |t.procs| && t.procs[q.parent].Alive()
    ensures var procs := t.procs[child := q];
            && Tree(procs) && CountInUse(procs) == t.procsInUse + 1 && Ledger(procs, t.deaths, t.reports)
            && NoneMissed(procs) && PidsOk(procs, q.pid) && RepliesOk(procs, t.blocked + {child}, who)
  {
    NewbornIsCounted(t.procs, child, q, t.deaths, t.reports);
    NewbornKeepsPids(t.procs, t.nextPid, child, q);
    NewbornKeepsTree(t.procs, child, q);
    NewbornKeepsReplies(t.procs, t.blocked, who, child, q);
    NewbornMissesNone(t.procs, child, q);
  }

  lemma SpawnIs(t: State, who: nat, child: nat, pid: nat)
    requires who < |t.procs| && child < |t.procs| && FirstFit(t.bs, t.procs[who].size / CLICK_SIZE) < |t.bs|
    ensures var r := Spawn(t, who, child, pid);
            && r.procs == t.procs[child := r.procs[child]] && r.procsInUse == t.procsInUse + 1
            && r.nextPid == pid && r.blocked == t.blocked + {child} && r.deaths == t.deaths && r.reports == t.reports
    ensures var q := Spawn(t, who, child, pid).procs[child];
            && q.pid == pid && !q.waiting && !q.zombie && q.reply && q.parent == who && q.inUse == t.procs[who].inUse
  {
  }

  lemma SpawnKeepsServing(t: State, who: nat, child: nat, pid: nat)
    requires who < |t.procs| && child < |t.procs| && Serving(t, who, |t.procs|, 0) && t.procs[who].Alive()
    requires !t.procs[child].inUse && ORIGIN < child
    requires !PidTaken(t.procs, child, pid) && 1 <= pid <= MAX_PID
    requires FirstFit(t.bs, t.procs[who].size / CLICK_SIZE) < |t.bs|
    ensures Serving(Spawn(t, who, child, pid), who, |t.procs|, 0)
    ensures Spawn(t, who, child, pid).procs[who] == t.procs[who]
  {
    SpawnIs(t, who, child, pid);
    BirthKeepsServing(t, who, child, Spawn(t, who, child, pid).procs[child]);
  }
}
