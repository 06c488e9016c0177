/** The memory manager as it is written: a table of processes that scanning loops change in place, above the hole
    table. */
module MemoryManager {
  import opened Holes
  import opened MmState
  import opened MmInvariants
  import opened MmSteps
  import opened MmRuns
  import HoleTable
  import MmTheorems

  // ---------------------------------------------------------------- the search for an identifier

  lemma FreshIsUnique(procs: seq<MProc>, child: nat, n: nat, j: nat, k: nat)
    requires IsFresh(procs, child, n, j) && IsFresh(procs, child, n, k)
    ensures j == k
  {
  }

  /** Slot i holds v, as identifier or group. */
  ghost predicate Holds(procs: seq<MProc>, i: nat, v: int)
    requires i < |procs|
  {
    procs[i].pid == v || procs[i].procGroup == v
  }

  ghost predicate AnyHolds(procs: seq<MProc>, v: int) {
    exists i: nat :: i < |procs| && Holds(procs, i, v)
  }

  /** The scan passes over the child's slot too; there it sees only the identifier tried before and its parent's
      group. */
  lemma ScanSeesOthers(procs: seq<MProc>, child: nat, who: nat, q: MProc, n: nat, k: nat)
    requires child < |procs| && who < |procs| && who != child && q.procGroup == procs[who].procGroup && 0 < k
    requires q.pid == if k == 1 then procs[who].pid else Tried(n, k - 1)
    ensures PidTaken(procs, child, Tried(n, k)) <==> AnyHolds(procs[child := q], Tried(n, k))
  {
    var v, procs1 := Tried(n, k), procs[child := q];
    if Holds(procs1, child, v) {
      assert Holds(procs1, who, v);
      assert Holds(procs, who, v);
    }
    if i :| 0 <= i < |procs| && i != child && (procs[i].pid == v || procs[i].procGroup == v) {
      assert Holds(procs1, i, v);
    }
  }

  datatype Reply = Reply(to: nat, rs1: int, rs2: int)

  /** The replies pending in the first n slots. */
  ghost function Pending(procs: seq<MProc>, n: nat): seq<Reply>
    requires n <= |procs|
  {
    if n == 0 then []
    else Pending(procs, n - 1)
         + (if procs[n - 1].reply then [Reply(n - 1, procs[n - 1].reply1, procs[n - 1].reply2)] else [])
  }

  /** Spawn, once the memory for the child has been taken. */
  ghost function Populated(t: State, who: nat, child: nat, childBase: nat, pid: nat): (r: State)
    requires who < |t.procs| && child < |t.procs|
    ensures |r.procs| == |t.procs|
  {
    var q := t.procs[who].(parent := who, waiting := false, zombie := false, reply := false, pid := pid,
                           base := childBase, exitStatus := 0);
    MmState.SetReply(
      t.(procs := t.procs[child := q], procsInUse := t.procsInUse + 1, nextPid := pid, blocked := t.blocked + {child}),
      child, 0)
  }

  /** Fork, once there is a slot: refused for want of memory, or the child is populated in the memory taken for it. */
  lemma ForkPopulates(t: State, who: nat, bs: seq<Block>, childBase: nat)
    requires who < |t.procs| && Numbered(t) && !NoSlotFor(t, who) && FreeSlot(t.procs) < |t.procs|
    requires var n := t.procs[who].size / CLICK_SIZE;
             var k := FirstFit(t.bs, n);
             k < |t.bs| && bs == Taken(t.bs, k, n) && childBase == t.bs[k].base * CLICK_SIZE
    ensures var child := FreeSlot(t.procs);
            var pid := Tried(t.nextPid, Tries(t.procs, child, t.nextPid));
            && Handled(t, who, Forking) == (Populated(t.(bs := bs), who, child, childBase, pid), pid)
            && Populated(t.(bs := bs), who, child, childBase, pid).procs[child].pid == pid
  {
  }

  class Manager {
    const mmproc: array<MProc>
    const memory: HoleTable.Memory
    var procsInUse: int
    var nextPid: nat
    ghost var st: State

    ghost predicate Valid()
      reads this, mmproc, memory, memory.hole
    {
      && mmproc[..] == st.procs && procsInUse == st.procsInUse && nextPid == st.nextPid
      && memory.Valid() && memory.hole.Length == st.nrHoles
      && memory.Blocks() == st.bs && memory.mergeCount == st.merged
    }

    constructor (nrProcs: nat, maps: seq<(nat, nat)>, free: nat)
      requires ORIGIN < nrProcs && |maps| == ORIGIN + 1
      ensures Valid() && st == MmTheorems.Boot(nrProcs, maps, free)
      ensures fresh(mmproc) && fresh(memory) && fresh(memory.hole)
    {
      mmproc := new MProc[nrProcs](_ => IDLE_SLOT);
      memory := new HoleTable.Memory(2 * nrProcs, free);
      procsInUse := ORIGIN + 1;
      nextPid := 0;
      st := MmTheorems.Boot(nrProcs, maps, free);
      new;
      var i := 0;
      while i <= ORIGIN
        modifies mmproc
        invariant 0 <= i <= ORIGIN + 1
        invariant forall j :: 0 <= j < nrProcs ==>
                    mmproc[j] == if j < i then IDLE_SLOT.(base := maps[j].0, size := maps[j].1, inUse := true)
                                 else IDLE_SLOT
      {
        mmproc[i] := mmproc[i].(base := maps[i].0, size := maps[i].1, inUse := true);
        i := i + 1;
      }
    }

    method SetReply(i: nat, rs: int)
      requires Valid() && i < mmproc.Length
      modifies mmproc, `st
      ensures Valid() && st == MmState.SetReply(old(st), i, rs)
    {
      mmproc[i] := mmproc[i].(reply1 := rs, reply := true);
      st := MmState.SetReply(st, i, rs);
    }

    method ExitCleanup(e: nat, w: nat)
      requires Valid() && e < mmproc.Length && w < mmproc.Length
      modifies mmproc, `procsInUse, `st
      ensures Valid() && st == MmState.ExitCleanup(old(st), e, w)
    {
      ghost var procs := mmproc[..];
      var exitStatus := mmproc[e].exitStatus;
      mmproc[w] := mmproc[w].(waiting := false, reply2 := exitStatus);
      var parent := mmproc[e].parent;
      mmproc[parent] := mmproc[parent].(reply1 := mmproc[e].pid, reply := true);
      mmproc[e] := mmproc[e].(inUse := false, waiting := false, zombie := false, reply := false);
      procsInUse := procsInUse - 1;
      st := MmState.ExitCleanup(st, e, w);
    }

    /** The children of x, alive or dead, become children of ORIGIN. */
    method Orphan(x: nat)
      requires Valid()
      modifies mmproc, `procsInUse, `st
      ensures Valid() && st == AdoptFrom(old(st), x, 0)
    {
      var i := 0;
      while i < mmproc.Length
        invariant i <= mmproc.Length && Valid()
        invariant AdoptFrom(st, x, i) == AdoptFrom(old(st), x, 0)
      {
        OrphanOne(x, i);
        i := i + 1;
      }
    }

    method OrphanOne(x: nat, i: nat)
      requires Valid() && i < mmproc.Length
      modifies mmproc, `procsInUse, `st
      ensures Valid() && st == Adopt(old(st), x, i)
    {
      if mmproc[i].parent == x {
        mmproc[i] := mmproc[i].(parent := ORIGIN);
        st := st.(procs := st.procs[i := st.procs[i].(parent := ORIGIN)]);
        if mmproc[ORIGIN].waiting {
          if mmproc[i].zombie {
            ExitCleanup(i, ORIGIN);
          }
        }
      }
    }

    /** Fails only if the hole table is full, where the memory manager panics. */
    method MmExit(x: nat, status: int) returns (ok: bool)
      requires Valid() && x < mmproc.Length
      modifies this, mmproc, memory, memory.hole
      ensures Valid() && (ok <==> old(st).procs[x].Memory().length == 0 || |old(st).bs| < old(st).nrHoles)
      ensures ok ==> st == ExitProc(old(st), x, status)
    {
      ok := memory.FreeMem(mmproc[x].base / CLICK_SIZE, mmproc[x].size / CLICK_SIZE);
      if ok {
        st := Dying(st, x, status);
        mmproc[x] := mmproc[x].(exitStatus := ToChar(status));
        var w := mmproc[x].parent;
        if mmproc[w].waiting {
          ExitCleanup(x, w);
        } else {
          mmproc[x] := mmproc[x].(inUse := true, zombie := true, waiting := false, reply := false);
          st := Laid(st, x);
        }
        assert st == Bury(old(st), x, status);
        Orphan(x);
      }
    }

    method MmWaitpid(w: nat, pid0: int, options: nat) returns (rs: int)
      requires Valid() && w < mmproc.Length
      modifies mmproc, `procsInUse, `st
      ensures Valid() && (st, rs) == WaitPid(old(st), w, pid0, options)
    {
      var childCount := 0;
      var pid := pid0;
      if pid == 0 {
        pid := -mmproc[w].procGroup;
      }
      var i := 0;
      while i < mmproc.Length
        invariant i <= mmproc.Length && Valid() && st == old(st)
        invariant i <= FirstDead(st.procs, w, pid)
        invariant 0 <= childCount && (childCount > 0 <==> exists j :: 0 <= j < i && WaitsFor(w, pid, st.procs[j]))
      {
        if WaitsFor(w, pid, mmproc[i]) {
          childCount := childCount + 1;
          if mmproc[i].zombie {
            assert i == FirstDead(st.procs, w, pid);
            ExitCleanup(i, w);
            return NO_MESSAGE;
          }
        }
        i := i + 1;
      }
      if childCount > 0 {
        if options % 2 == WNOHANG {
          return 0;
        }
        mmproc[w] := mmproc[w].(waiting := true, waitPid := pid);
        st := st.(procs := st.procs[w := st.procs[w].(waiting := true, waitPid := pid)]);
        return NO_MESSAGE;
      }
      return ECHILD;
    }

    method Search(v: int) returns (found: bool)
      ensures found <==> AnyHolds(mmproc[..], v)
    {
      var i := 0;
      while i < mmproc.Length
        invariant i <= mmproc.Length
        invariant forall j :: 0 <= j < i ==> !Holds(mmproc[..], j, v)
      {
        if mmproc[i].pid == v || mmproc[i].procGroup == v {
          assert Holds(mmproc[..], i, v);
          return true;
        }
        i := i + 1;
      }
      return false;
    }

    /** Gives the child, still a copy of who, the next identifier that nobody else holds. */
    method FindPid(child: nat, who: nat, ghost procs: seq<MProc>)
      requires child < mmproc.Length == |procs| && who < |procs| && who != child
      requires mmproc[..] == procs[child := mmproc[child]]
      requires mmproc[child].pid == procs[who].pid && mmproc[child].procGroup == procs[who].procGroup
      requires nextPid <= MAX_PID && 2 * |procs| < MAX_PID
      modifies mmproc, `nextPid
      ensures nextPid == Tried(old(nextPid), Tries(procs, child, old(nextPid)))
      ensures mmproc[..] == procs[child := old(mmproc[child]).(pid := nextPid)]
    {
      ghost var k := 0;
      ghost var n := nextPid;
      ghost var q := mmproc[child];
      var pidInUse := true;
      while pidInUse
        invariant nextPid == Tried(n, k) <= MAX_PID
        invariant mmproc[..] == procs[child := q.(pid := if k == 0 then procs[who].pid else Tried(n, k))]
        invariant if pidInUse then forall j :: 0 < j <= k ==> PidTaken(procs, child, Tried(n, j))
                  else IsFresh(procs, child, n, k)
        decreases 2 * |procs| + 1 - k, pidInUse
      {
        SearchEnds(procs, child, n, k);
        nextPid := if nextPid < MAX_PID then nextPid + 1 else 1;
        k := k + 1;
        ScanSeesOthers(procs, child, who, mmproc[child], n, k);
        pidInUse := Search(nextPid);
        mmproc[child] := mmproc[child].(pid := nextPid);
      }
      FreshIsUnique(procs, child, n, k, Tries(procs, child, n));
    }

    /** The first slot that is not in use. */
    method FindSlot() returns (child: nat)
      requires CountInUse(mmproc[..]) < mmproc.Length
      ensures child == FreeSlot(mmproc[..]) < mmproc.Length
    {
      CountIsBounded(mmproc[..]);
      ghost var free :| 0 <= free < mmproc.Length && !mmproc[..][free].inUse;
      child := 0;
      while mmproc[child].inUse
        invariant child <= free && child <= FreeSlot(mmproc[..])
        decreases mmproc.Length - child
      {
        child := child + 1;
      }
    }

    /** The child's slot is filled from its parent's, and its first reply is made pending. */
    method Populate(who: nat, child: nat, childBase: nat)
      requires Valid() && who < mmproc.Length && child < mmproc.Length && who != child && Numbered(st)
      modifies mmproc, `procsInUse, `nextPid, `st
      ensures Valid()
      ensures var t := old(st);
              st == Populated(t, who, child, childBase, Tried(t.nextPid, Tries(t.procs, child, t.nextPid)))
    {
      ghost var procs := mmproc[..];
      procsInUse := procsInUse + 1;
      mmproc[child] := mmproc[who].(parent := who, waiting := false, zombie := false, reply := false);
      FindPid(child, who, procs);
      mmproc[child] := mmproc[child].(base := childBase, exitStatus := 0);
      st := st.(procs := mmproc[..], procsInUse := procsInUse, nextPid := nextPid, blocked := st.blocked + {child});
      SetReply(child, 0);
    }

    method DoFork(who: nat) returns (rs: int)
      requires Valid() && who < mmproc.Length && Numbered(st) && st.procs[who].inUse
      requires st.procsInUse == CountInUse(st.procs) && WellPlaced(st.bs)
      modifies this, mmproc, memory, memory.hole
      ensures Valid() && (st, rs) == Handled(old(st), who, Forking)
    {
      if procsInUse == mmproc.Length {
        return EAGAIN;
      }
      if mmproc[who].effectiveUid != SUPER_USER && procsInUse >= mmproc.Length - LAST_FEW {
        return EAGAIN;
      }
      rs := MakeChild(who);
    }

    /** The part of do_fork that follows the check for slots. */
    method MakeChild(who: nat) returns (rs: int)
      requires Valid() && who < mmproc.Length && Numbered(st) && st.procs[who].inUse && !NoSlotFor(st, who)
      requires st.procsInUse == CountInUse(st.procs) && WellPlaced(st.bs)
      modifies this, mmproc, memory, memory.hole
      ensures Valid() && (st, rs) == Handled(old(st), who, Forking)
    {
      CountIsBounded(mmproc[..]);
      var childBase := memory.AllocMem(mmproc[who].size / CLICK_SIZE);
      childBase := childBase * CLICK_SIZE;
      if childBase == NO_MEM {
        return ENOMEM;
      }
      var child := FindSlot();
      ForkPopulates(st, who, memory.Blocks(), childBase);
      st := st.(bs := memory.Blocks());
      Populate(who, child, childBase);
      rs := mmproc[child].pid;
    }

    /** Sends every pending reply, in the order of the slots. */
    method SendReplies() returns (sent: seq<Reply>)
      requires Valid()
      modifies mmproc, `st
      ensures Valid() && st == Drained(old(st)) && sent == Pending(old(st).procs, |old(st).procs|)
    {
      ghost var procs := mmproc[..];
      sent := [];
      var i := 0;
      while i < mmproc.Length
        modifies mmproc
        invariant i <= mmproc.Length && sent == Pending(procs, i)
        invariant forall j :: 0 <= j < mmproc.Length ==>
                    mmproc[j] == if j < i then procs[j].(reply := false) else procs[j]
      {
        if mmproc[i].reply {
          sent := sent + [Reply(i, mmproc[i].reply1, mmproc[i].reply2)];
          mmproc[i] := mmproc[i].(reply := false);
        }
        i := i + 1;
      }
      st := Drained(st);
      assert mmproc[..] == st.procs;
    }

    /** The handler of the request, and the caller's reply. It never panics. */
    method Dispatch(who: nat, req: Request, ghost lo: int, ghost hi: int)
      requires Valid() && Inv(st, lo, hi) && Allowed(st, who, req)
      modifies this, mmproc, memory, memory.hole
      ensures Valid() && st == Served(old(st), who, req)
    {
      CallIsOpen(st, lo, hi, who, req);
      HoleTableNeverFull(st, lo, hi);
      st := st.(blocked := st.blocked + {who});
      var rs := NO_MESSAGE;
      match req {
        case Forking =>
          rs := DoFork(who);
        case Exiting(status) =>
          var ok := MmExit(who, status);
          assert ok;
        case Waiting(pid, options) =>
          rs := MmWaitpid(who, pid, options);
        case Other(answer) =>
          rs := answer;
        case Replaced =>
          st := st.(blocked := st.blocked - {who});
      }
      if rs != NO_MESSAGE {
        SetReply(who, rs);
      }
    }

    /** One turn of the main loop. */
    method Serve(who: nat, req: Request, ghost lo: int, ghost hi: int) returns (sent: seq<Reply>)
      requires Valid() && Inv(st, lo, hi) && Allowed(st, who, req)
      modifies this, mmproc, memory, memory.hole
      ensures Valid() && st == Turn(old(st), who, req) && Inv(st, lo, hi)
      ensures var s := Served(old(st), who, req); sent == Pending(s.procs, |s.procs|)
    {
      TurnKeepsInv(st, lo, hi, who, req);
      Dispatch(who, req, lo, hi);
      sent := SendReplies();
    }
  }
}
