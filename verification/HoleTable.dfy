/** The hole list of the memory manager as it is written: two linked lists, of holes and of free slots, in one array. */
module HoleTable {
  import opened Lists
  import opened Holes

  type Link = int
  const NIL: Link := -1

  datatype Slot = Slot(next: Link, block: Block)

  /** Following the links from head visits exactly the slots of list, in order, and ends. */
  ghost predicate Linked(slots: seq<Slot>, head: Link, list: seq<nat>) {
    && head == (if list == [] then NIL else list[0])
    && InTable(slots, list)
    && (forall i :: 0 <= i < |list| ==> LinkAt(slots, list, i))
  }

  ghost predicate InTable(slots: seq<Slot>, list: seq<nat>) {
    forall i :: 0 <= i < |list| ==> list[i] < |slots|
  }

  ghost predicate LinkAt(slots: seq<Slot>, list: seq<nat>, i: nat)
    requires InTable(slots, list) && i < |list|
  {
    slots[list[i]].next == if i + 1 < |list| then list[i + 1] else NIL
  }

  /** The holes the list stands for. */
  ghost function BlocksOf(slots: seq<Slot>, list: seq<nat>): (bs: seq<Block>)
    requires InTable(slots, list)
    ensures |bs| == |list|
  {
    seq(|list|, i requires 0 <= i < |list| => slots[list[i]].block)
  }

  /** Every slot of the table is on exactly one of the two lists. */
  ghost predicate Partition(n: nat, holes: seq<nat>, frees: seq<nat>) {
    Distinct(holes + frees) && |holes| + |frees| == n
  }

  ghost predicate Represents(slots: seq<Slot>, holeHead: Link, freeSlots: Link, holes: seq<nat>, frees: seq<nat>) {
    Linked(slots, holeHead, holes) && Linked(slots, freeSlots, frees) && Partition(|slots|, holes, frees)
  }

  lemma PartitionSplits(n: nat, holes: seq<nat>, frees: seq<nat>)
    requires Partition(n, holes, frees)
    ensures Distinct(holes) && Distinct(frees)
    ensures forall i, j :: 0 <= i < |holes| && 0 <= j < |frees| ==> holes[i] != frees[j]
  {
    var all := holes + frees;
    forall i, j | 0 <= i < |holes| && 0 <= j < |frees|
      ensures holes[i] != frees[j]
    {
      assert all[i] == holes[i] && all[|holes| + j] == frees[j];
    }
    forall i, j | 0 <= i < j < |frees|
      ensures frees[i] != frees[j]
    {
      assert all[|holes| + i] == frees[i] && all[|holes| + j] == frees[j];
    }
    forall i, j | 0 <= i < j < |holes|
      ensures holes[i] != holes[j]
    {
      assert all[i] == holes[i] && all[j] == holes[j];
    }
  }

  lemma PartitionJoins(n: nat, holes: seq<nat>, frees: seq<nat>)
    requires Distinct(holes) && Distinct(frees) && |holes| + |frees| == n
    requires forall i, j :: 0 <= i < |holes| && 0 <= j < |frees| ==> holes[i] != frees[j]
    ensures Partition(n, holes, frees)
  {
  }

  /** The table after hole k has been moved to the front of the free slots. */
  ghost function Removed(slots: seq<Slot>, holes: seq<nat>, k: nat, freeSlots: Link): (r: seq<Slot>)
    requires InTable(slots, holes) && k < |holes|
    ensures |r| == |slots|
  {
    var hp := holes[k];
    var slots1 := if k == 0 then slots else slots[holes[k - 1] := slots[holes[k - 1]].(next := slots[hp].next)];
    slots1[hp := slots1[hp].(next := freeSlots)]
  }

  lemma RemovedRepresents(slots: seq<Slot>, holeHead: Link, freeSlots: Link, holes: seq<nat>, frees: seq<nat>, k: nat)
    requires Represents(slots, holeHead, freeSlots, holes, frees) && k < |holes|
    ensures Represents(Removed(slots, holes, k, freeSlots), if k == 0 then slots[holes[0]].next else holeHead, holes[k],
                       RemoveAt(holes, k), [holes[k]] + frees)
  {
    var r := Removed(slots, holes, k, freeSlots);
    var holes1, frees1 := RemoveAt(holes, k), [holes[k]] + frees;
    PartitionSplits(|slots|, holes, frees);
    assert LinkAt(slots, holes, k);
    forall i: nat | i < |holes1|
      ensures LinkAt(r, holes1, i)
    {
      assert LinkAt(slots, holes, if i < k then i else i + 1);
    }
    forall i: nat | i < |frees1|
      ensures LinkAt(r, frees1, i)
    {
      assert i > 0 ==> LinkAt(slots, frees, i - 1);
    }
    RemoveAtKeepsRest(holes, k);
    PartitionJoins(|slots|, holes1, frees1);
  }

  lemma RemovedBlocks(slots: seq<Slot>, freeSlots: Link, holes: seq<nat>, k: nat)
    requires InTable(slots, holes) && Distinct(holes) && k < |holes|
    ensures InTable(Removed(slots, holes, k, freeSlots), RemoveAt(holes, k))
    ensures BlocksOf(Removed(slots, holes, k, freeSlots), RemoveAt(holes, k)) == RemoveAt(BlocksOf(slots, holes), k)
  {
  }

  /** The table after the first free slot has become hole k, holding block b. */
  ghost function Added(slots: seq<Slot>, holes: seq<nat>, frees: seq<nat>, k: nat, b: Block): (r: seq<Slot>)
    requires InTable(slots, holes) && InTable(slots, frees) && frees != [] && k <= |holes|
    ensures |r| == |slots|
  {
    var new_ := frees[0];
    var slots1 := slots[new_ := Slot(if k < |holes| then holes[k] else NIL, b)];
    if k == 0 then slots1 else slots1[holes[k - 1] := slots1[holes[k - 1]].(next := new_)]
  }

  lemma AddedRepresents(slots: seq<Slot>, holeHead: Link, freeSlots: Link, holes: seq<nat>, frees: seq<nat>, k: nat,
                        b: Block)
    requires Represents(slots, holeHead, freeSlots, holes, frees) && k <= |holes| && frees != []
    ensures Represents(Added(slots, holes, frees, k, b), if k == 0 then frees[0] else holeHead, slots[frees[0]].next,
                       holes[..k] + [frees[0]] + holes[k..], frees[1..])
  {
    var r := Added(slots, holes, frees, k, b);
    var holes1, frees1 := holes[..k] + [frees[0]] + holes[k..], frees[1..];
    PartitionSplits(|slots|, holes, frees);
    assert LinkAt(slots, frees, 0);
    forall i: nat | i < |holes1|
      ensures LinkAt(r, holes1, i)
    {
      assert i != k ==> LinkAt(slots, holes, if i < k then i else i - 1);
    }
    forall i: nat | i < |frees1|
      ensures LinkAt(r, frees1, i)
    {
      assert LinkAt(slots, frees, i + 1);
    }
    PartitionJoins(|slots|, holes1, frees1);
  }

  lemma AddedBlocks(slots: seq<Slot>, holes: seq<nat>, frees: seq<nat>, k: nat, b: Block)
    requires InTable(slots, holes) && InTable(slots, frees) && k <= |holes| && frees != []
    requires Partition(|slots|, holes, frees)
    ensures InTable(slots, holes[..k] + [frees[0]] + holes[k..])
    ensures BlocksOf(Added(slots, holes, frees, k, b), holes[..k] + [frees[0]] + holes[k..])
            == BlocksOf(slots, holes)[..k] + [b] + BlocksOf(slots, holes)[k..]
  {
    PartitionSplits(|slots|, holes, frees);
  }

  /** Changing the block of a hole changes no list. */
  lemma ResizedRepresents(slots: seq<Slot>, holeHead: Link, freeSlots: Link, holes: seq<nat>, frees: seq<nat>, k: nat,
                          b: Block)
    requires Represents(slots, holeHead, freeSlots, holes, frees) && k < |holes|
    ensures var r := slots[holes[k] := slots[holes[k]].(block := b)];
            Represents(r, holeHead, freeSlots, holes, frees) && BlocksOf(r, holes) == BlocksOf(slots, holes)[k := b]
  {
    var r := slots[holes[k] := slots[holes[k]].(block := b)];
    PartitionSplits(|slots|, holes, frees);
    forall i: nat | i < |holes|
      ensures LinkAt(r, holes, i)
    {
      assert LinkAt(slots, holes, i);
    }
    forall i: nat | i < |frees|
      ensures LinkAt(r, frees, i)
    {
      assert LinkAt(slots, frees, i);
    }
  }

  class Memory {
    const hole: array<Slot>
    var holeHead: Link
    var freeSlots: Link
    var mergeCount: nat
    ghost var holes: seq<nat>
    ghost var frees: seq<nat>

    ghost predicate Valid()
      reads this, hole
    {
      Represents(hole[..], holeHead, freeSlots, holes, frees) && mergeCount < MERGE_LIMIT
    }

    /** The holes, lowest first. */
    ghost function Blocks(): seq<Block>
      requires Valid()
      reads this, hole
    {
      BlocksOf(hole[..], holes)
    }

    /** mem_init: all slots are linked as free, and one hole of `free` clicks is given back. */
    constructor (nrHoles: nat, free: nat)
      requires 0 < nrHoles
      ensures Valid() && fresh(hole) && hole.Length == nrHoles
      ensures (Blocks(), mergeCount) == Freed([], Block(PROCS_BASE_CLICK, free), 0)
    {
      hole := new Slot[nrHoles](i => Slot(NIL, Block(0, 0)));
      mergeCount := 0;
      holeHead := NIL;
      freeSlots := 0;
      holes := [];
      frees := seq(nrHoles, i => i);
      new;
      var hp := 0;
      while hp < nrHoles
        modifies hole
        invariant 0 <= hp <= nrHoles && hole.Length == nrHoles
        invariant forall i :: 0 <= i < hp ==> hole[i].next == i + 1
      {
        hole[hp] := hole[hp].(next := hp + 1);
        hp := hp + 1;
      }
      hole[nrHoles - 1] := hole[nrHoles - 1].(next := NIL);
      forall i: nat | i < nrHoles
        ensures LinkAt(hole[..], frees, i)
      {
      }
      assert Blocks() == [];
      var ok := FreeMem(PROCS_BASE_CLICK, free);
    }

    /** remove_slot: hole k leaves the list and heads the free slots. */
    method RemoveSlot(prev: Link, hp: Link, ghost k: nat)
      requires Valid() && k < |holes| && hp == holes[k] && (k > 0 ==> prev == holes[k - 1])
      modifies this, hole
      ensures Valid() && mergeCount == old(mergeCount)
      ensures holes == RemoveAt(old(holes), k) && Blocks() == RemoveAt(old(Blocks()), k)
    {
      ghost var slots := hole[..];
      PartitionSplits(|slots|, holes, frees);
      RemovedRepresents(slots, holeHead, freeSlots, holes, frees, k);
      RemovedBlocks(slots, freeSlots, holes, k);
      if hp == holeHead {
        holeHead := hole[hp].next;
      } else {
        hole[prev] := hole[prev].(next := hole[hp].next);
      }
      hole[hp] := hole[hp].(next := freeSlots);
      assert hole[..] == Removed(slots, holes, k, freeSlots);
      freeSlots := hp;
      holes, frees := RemoveAt(holes, k), [holes[k]] + frees;
    }

    /** First fit. Answers NO_MEM, and changes nothing, when no hole is large enough. */
    method AllocMem(clicks: nat) returns (base: nat)
      requires Valid()
      modifies this, hole
      ensures Valid() && mergeCount == old(mergeCount)
      ensures var k := FirstFit(old(Blocks()), clicks);
              if k < |old(Blocks())| then base == old(Blocks())[k].base && Blocks() == Taken(old(Blocks()), k, clicks)
              else base == NO_MEM && Blocks() == old(Blocks())
    {
      ghost var i := 0;
      var prev := NIL;
      var hp := holeHead;
      while hp != NIL
        invariant 0 <= i <= |holes| && i <= FirstFit(Blocks(), clicks)
        invariant hp == if i < |holes| then holes[i] else NIL
        invariant i > 0 ==> prev == holes[i - 1]
        decreases |holes| - i
      {
        assert LinkAt(hole[..], holes, i) && Blocks()[i] == hole[hp].block;
        if hole[hp].block.length >= clicks {
          base := hole[hp].block.base;
          ghost var slots := hole[..];
          var b := Block(base + clicks, hole[hp].block.length - clicks);
          ResizedRepresents(slots, holeHead, freeSlots, holes, frees, i, b);
          hole[hp] := hole[hp].(block := b);
          assert hole[..] == slots[holes[i] := slots[holes[i]].(block := b)];
          if b.length == 0 {
            RemoveSlot(prev, hp, i);
          }
          return;
        }
        prev := hp;
        hp := hole[hp].next;
        i := i + 1;
      }
      return NO_MEM;
    }

    /** The last hole below base, which does not lie below the first hole. */
    method LastBelow(base: nat) returns (prev: Link)
      requires Valid() && 0 < Place(Blocks(), base)
      ensures prev == holes[Place(Blocks(), base) - 1]
    {
      ghost var i := 0;
      var hp := holeHead;
      prev := NIL;
      while hp != NIL && base > hole[hp].block.base
        invariant 0 <= i <= Place(Blocks(), base)
        invariant hp == if i < |holes| then holes[i] else NIL
        invariant i > 0 ==> prev == holes[i - 1]
        decreases |holes| - i
      {
        assert LinkAt(hole[..], holes, i) && Blocks()[i] == hole[hp].block;
        prev := hp;
        hp := hole[hp].next;
        i := i + 1;
      }
      assert i < |holes| ==> Blocks()[i] == hole[hp].block;
    }

    /** The first free slot becomes hole k, holding the block; prev is the hole before it. */
    method Insert(prev: Link, ghost k: nat, base: nat, clicks: nat)
      requires Valid() && frees != [] && k <= |holes| && prev == if k == 0 then NIL else holes[k - 1]
      modifies this, hole
      ensures Valid() && mergeCount == old(mergeCount) && holes == old(holes[..k] + [frees[0]] + holes[k..])
      ensures Blocks() == old(Blocks())[..k] + [Block(base, clicks)] + old(Blocks())[k..]
    {
      ghost var slots := hole[..];
      ghost var b := Block(base, clicks);
      PartitionSplits(|slots|, holes, frees);
      AddedRepresents(slots, holeHead, freeSlots, holes, frees, k, b);
      AddedBlocks(slots, holes, frees, k, b);
      assert k > 0 ==> LinkAt(slots, holes, k - 1);
      var added := freeSlots;
      hole[added] := hole[added].(block := Block(base, clicks));
      freeSlots := hole[added].next;
      if prev == NIL {
        hole[added] := hole[added].(next := holeHead);
        holeHead := added;
      } else {
        hole[added] := hole[added].(next := hole[prev].next);
        hole[prev] := hole[prev].(next := added);
      }
      assert hole[..] == Added(slots, holes, frees, k, b);
      holes, frees := holes[..k] + [frees[0]] + holes[k..], frees[1..];
    }

    /** Gives a block back. Fails, and changes nothing, when the table has no slot left (the memory manager panics). */
    method FreeMem(base: nat, clicks: nat) returns (ok: bool)
      requires Valid()
      modifies this, hole
      ensures Valid()
      ensures ok <==> clicks == 0 || |old(Blocks())| < hole.Length
      ensures if ok then (Blocks(), mergeCount) == Freed(old(Blocks()), Block(base, clicks), old(mergeCount))
              else Blocks() == old(Blocks()) && mergeCount == old(mergeCount)
    {
      if clicks == 0 {
        return true;
      }
      if freeSlots == NIL {
        return false;
      }
      assert 0 < |holes| ==> Blocks()[0] == hole[holeHead].block;
      if holeHead == NIL || base <= hole[holeHead].block.base {
        FreeFirst(base, clicks);
      } else {
        FreeAbove(base, clicks);
      }
      return true;
    }

    /** The block becomes the first hole. */
    method FreeFirst(base: nat, clicks: nat)
      requires Valid() && frees != [] && Place(Blocks(), base) == 0
      modifies this, hole
      ensures Valid()
      ensures (Blocks(), mergeCount) == Merge(Inserted(old(Blocks()), Block(base, clicks)), 0, old(mergeCount))
    {
      ghost var bs := Blocks();
      var added := freeSlots;
      Insert(NIL, 0, base, clicks);
      assert Blocks() == Inserted(bs, Block(base, clicks));
      MergeHole(added, 0);
    }

    /** The block comes after the last hole below it. */
    method FreeAbove(base: nat, clicks: nat)
      requires Valid() && frees != [] && Place(Blocks(), base) > 0
      modifies this, hole
      ensures Valid()
      ensures var bs := old(Blocks());
              (Blocks(), mergeCount) == Merge(Inserted(bs, Block(base, clicks)), Place(bs, base) - 1, old(mergeCount))
    {
      ghost var bs, k := Blocks(), Place(Blocks(), base);
      var prev := LastBelow(base);
      Insert(prev, k, base, clicks);
      assert Blocks() == Inserted(bs, Block(base, clicks));
      MergeHole(prev, k - 1);
    }

    /** Hole k takes over the next one, which it touches. */
    method JoinHoles(hp: Link, next: Link, ghost k: nat)
      requires Valid() && k + 1 < |holes| && hp == holes[k] && next == holes[k + 1]
      modifies this, hole
      ensures Valid() && mergeCount == old(mergeCount) && Blocks() == Joined(old(Blocks()), k)
    {
      ghost var slots, bs := hole[..], Blocks();
      var b := Block(hole[hp].block.base, hole[hp].block.length + hole[next].block.length);
      ResizedRepresents(slots, holeHead, freeSlots, holes, frees, k, b);
      hole[hp] := hole[hp].(block := b);
      assert hole[..] == slots[holes[k] := slots[holes[k]].(block := b)];
      RemoveSlot(hp, next, k + 1);
      assert RemoveAt(bs[k := b], k + 1) == Joined(bs, k);
    }

    /** merge_hole, entered at hole k. */
    method MergeHole(hp: Link, ghost k: nat)
      requires Valid() && k < |holes| && hp == holes[k]
      modifies this, hole
      ensures Valid() && (Blocks(), mergeCount) == Merge(old(Blocks()), k, old(mergeCount))
      decreases |holes| - k
    {
      mergeCount := mergeCount + 1;
      if mergeCount == MERGE_LIMIT {
        mergeCount := 0;
        return;
      }
      assert LinkAt(hole[..], holes, k);
      var next := hole[hp].next;
      if next == NIL {
        return;
      }
      if hole[hp].block.base + hole[hp].block.length == hole[next].block.base {
        JoinHoles(hp, next, k);
      } else {
        MergeHole(next, k + 1);
      }
    }
  }
}
