/** How memory is divided among the holes and the processes. */
module MmMemory {
  import opened Holes
  import opened MmState
  import opened MmInvariants

  // ---------------------------------------------------------------- fork

  lemma SpawnKeepsMemory(t: State, who: nat, child: nat, pid: nat, lo: int, hi: int)
    requires who < |t.procs| && child < |t.procs| && !t.procs[child].inUse && ORIGIN < child && t.procs[who].Alive()
    requires MemoryOk(t.procs, t.bs, lo, hi)
    ensures MemoryOk(Spawn(t, who, child, pid).procs, Spawn(t, who, child, pid).bs, lo, hi)
  {
    var n := t.procs[who].size / CLICK_SIZE;
    var k := FirstFit(t.bs, n);
    if k < |t.bs| {
      var r := Spawn(t, who, child, pid);
      TakingTakesExactly(t.bs, n);
      assert r.procs[child].Memory() == Block(t.bs[k].base, n);
      assert r.procs == t.procs[child := r.procs[child]];
      GrowKeepsMemory(t.procs, r.procs, t.bs, r.bs, child, lo, hi);
    }
  }

  /** Slot child comes to own exactly the clicks that leave the holes. */
  lemma GrowKeepsMemory(procs: seq<MProc>, procs1: seq<MProc>, bs: seq<Block>, bs1: seq<Block>, child: nat, lo: int,
                        hi: int)
    requires child < |procs| && !procs[child].inUse && ORIGIN < child && MemoryOk(procs, bs, lo, hi) && WellPlaced(bs1)
    requires |procs1| == |procs| && procs1 == procs[child := procs1[child]] && procs1[child].Alive()
    requires forall c :: Covers(bs1, c) <==> Covers(bs, c) && !In(c, procs1[child].Memory())
    requires forall c :: In(c, procs1[child].Memory()) ==> Covers(bs, c)
    ensures MemoryOk(procs1, bs1, lo, hi)
  {
    forall i, c
      ensures Owns(procs1, i, c) <==> if i == child then In(c, procs1[child].Memory()) else Owns(procs, i, c)
    {
    }
    forall c
      ensures Covers(bs1, c) || Owned(procs1, c) <==> lo <= c < hi
    {
      if Owned(procs1, c) {
        var i :| Owns(procs1, i, c);
        assert i != child ==> Owns(procs, i, c);
      }
      if Owned(procs, c) {
        var i :| Owns(procs, i, c);
        assert Owns(procs1, i, c);
      }
      if In(c, procs1[child].Memory()) {
        assert Owns(procs1, child, c);
      }
    }
  }

  // ---------------------------------------------------------------- exit

  /** Slot x alone stops owning; its clicks go to the holes. */
  lemma ShrinkKeepsMemory(procs: seq<MProc>, procs1: seq<MProc>, bs: seq<Block>, bs1: seq<Block>, x: nat, lo: int,
                          hi: int)
    requires x < |procs| && ORIGIN < x && procs[x].Alive() && MemoryOk(procs, bs, lo, hi) && WellPlaced(bs1)
    requires |procs1| == |procs| && !procs1[x].Alive()
    requires forall i :: 0 <= i < |procs| && i != x ==>
               procs1[i].Memory() == procs[i].Memory() && (procs1[i].Alive() <==> procs[i].Alive())
    requires forall c :: Covers(bs1, c) <==> Covers(bs, c) || In(c, procs[x].Memory())
    ensures MemoryOk(procs1, bs1, lo, hi)
  {
    forall i, c
      ensures Owns(procs1, i, c) <==> i != x && Owns(procs, i, c)
    {
    }
    forall c
      ensures In(c, procs[x].Memory()) <==> Owns(procs, x, c)
    {
    }
    forall c
      ensures Covers(bs1, c) || Owned(procs1, c) <==> lo <= c < hi
    {
      if Owned(procs1, c) {
        var i :| Owns(procs1, i, c);
        assert Owns(procs, i, c);
      }
      if Owned(procs, c) {
        var i :| Owns(procs, i, c);
        assert i != x ==> Owns(procs1, i, c);
      }
    }
  }

  lemma AliveOwnsApart(procs: seq<MProc>, bs: seq<Block>, x: nat, lo: int, hi: int)
    requires x < |procs| && ORIGIN < x && procs[x].Alive() && MemoryOk(procs, bs, lo, hi)
    ensures Apart(bs, procs[x].Memory())
    ensures procs[x].Memory().length > 0 ==> 0 < procs[x].Memory().base
  {
    forall c | In(c, procs[x].Memory())
      ensures !Covers(bs, c) && lo <= c
    {
      assert Owns(procs, x, c);
    }
    if procs[x].Memory().length > 0 {
      assert In(procs[x].Memory().base, procs[x].Memory());
    }
  }

  lemma AdoptKeepsOwners(t: State, x: nat, i: nat)
    requires i < |t.procs| && (t.procs[i].parent == x ==> ORIGIN < i)
    ensures SameOwners(t.procs, Adopt(t, x, i).procs) && Adopt(t, x, i).bs == t.bs
  {
    if t.procs[i].parent == x {
      var t1 := t.(procs := t.procs[i := t.procs[i].(parent := ORIGIN)]);
      if t1.procs[ORIGIN].waiting && t1.procs[i].zombie {
        CleanupKeepsOwners(t1, i, ORIGIN);
      }
    }
  }

  lemma {:induction false} AdoptFromKeepsOwners(t: State, x: nat, i: nat)
    requires i <= |t.procs| && ORIGIN != x && forall j :: i <= j < |t.procs| && t.procs[j].parent == x ==> ORIGIN < j
    ensures SameOwners(t.procs, AdoptFrom(t, x, i).procs) && AdoptFrom(t, x, i).bs == t.bs
    decreases |t.procs| - i
  {
    if i < |t.procs| {
      AdoptKeepsOwners(t, x, i);
      AdoptFromKeepsOwners(Adopt(t, x, i), x, i + 1);
    }
  }

  /** Bury changes who owns memory in slot x only. */
  lemma BuryKeepsOthers(t: State, x: nat, status: int)
    requires x < |t.procs| && ORIGIN < x && Tree(t.procs) && t.procs[x].Alive()
    ensures var procs1 := Bury(t, x, status).procs;
            !procs1[x].Alive() && forall i :: 0 <= i < |t.procs| && i != x ==>
              procs1[i].Memory() == t.procs[i].Memory() && (procs1[i].Alive() <==> t.procs[i].Alive())
  {
    assert Rooted(t.procs[x], x);
  }

  lemma ExitKeepsMemory(t: State, x: nat, status: int, lo: int, hi: int)
    requires x < |t.procs| && ORIGIN < x && Serving(t, x, |t.procs|, 0)
    requires t.procs[x].Alive() && !t.procs[x].waiting && !t.procs[x].reply && MemoryOk(t.procs, t.bs, lo, hi)
    ensures MemoryOk(ExitProc(t, x, status).procs, ExitProc(t, x, status).bs, lo, hi)
  {
    var b := Bury(t, x, status);
    var m := t.procs[x].Memory();
    AliveOwnsApart(t.procs, t.bs, x, lo, hi);
    if m.length > 0 {
      FreeingAddsExactly(t.bs, m, t.merged);
    }
    BuryKeepsOthers(t, x, status);
    ShrinkKeepsMemory(t.procs, b.procs, t.bs, b.bs, x, lo, hi);
    BuryKeepsServing(t, x, status);
    assert forall j :: 0 <= j < |b.procs| ==> Rooted(b.procs[j], j);
    AdoptFromKeepsOwners(b, x, 0);
    SameOwnersKeepsMemory(b.procs, ExitProc(t, x, status).procs, b.bs, lo, hi);
  }
}
