/** Free memory as the memory manager keeps it: a list of holes ordered by address, threaded through a fixed table. */
module Holes {
  import opened Lists

  /** A run of clicks. */
  datatype Block = Block(base: nat, length: nat)

  /** Programs are loaded from 11 MB upwards; a click is 1024 bytes. */
  const PROCS_BASE_CLICK := 11264

  /** What alloc_mem answers when no hole is large enough. */
  const NO_MEM := 0

  /** merge_hole gives up at this count. */
  const MERGE_LIMIT := 5

  // ---------------------------------------------------------------- lists of holes

  predicate In(c: int, b: Block) {
    b.base <= c < b.base + b.length
  }

  /** Click c is free. */
  ghost predicate Covers(bs: seq<Block>, c: int) {
    exists i :: 0 <= i < |bs| && In(c, bs[i])
  }

  /** The holes are not empty, do not overlap, lie above click 0, and come in order of address. */
  ghost predicate WellPlaced(bs: seq<Block>) {
    && (forall i :: 0 <= i < |bs| ==> 0 < bs[i].base && 0 < bs[i].length)
    && (forall i, j :: 0 <= i < j < |bs| ==> bs[i].base + bs[i].length <= bs[j].base)
  }

  /** No click of b is free. */
  ghost predicate Apart(bs: seq<Block>, b: Block) {
    forall c :: In(c, b) ==> !Covers(bs, c)
  }

  /** The first hole of at least n clicks, or |bs|. */
  ghost function FirstFit(bs: seq<Block>, n: nat): (k: nat)
    ensures k <= |bs| && (k < |bs| ==> bs[k].length >= n)
    ensures forall j :: 0 <= j < k ==> bs[j].length < n
  {
    if bs == [] then 0 else if bs[0].length >= n then 0 else 1 + FirstFit(bs[1..], n)
  }

  /** bs after n clicks have been taken from the bottom of hole k. */
  ghost function Taken(bs: seq<Block>, k: nat, n: nat): seq<Block>
    requires k < |bs| && n <= bs[k].length
  {
    if n == bs[k].length then RemoveAt(bs, k)
    else bs[k := Block(bs[k].base + n, bs[k].length - n)]
  }

  /** The place of a block at base: before the first hole that does not lie below it. */
  ghost function Place(bs: seq<Block>, base: nat): (k: nat)
    ensures k <= |bs| && (k < |bs| ==> base <= bs[k].base)
    ensures forall j :: 0 <= j < k ==> bs[j].base < base
  {
    if bs == [] then 0 else if base <= bs[0].base then 0 else 1 + Place(bs[1..], base)
  }

  ghost function Inserted(bs: seq<Block>, b: Block): seq<Block> {
    var k := Place(bs, b.base);
    bs[..k] + [b] + bs[k..]
  }

  ghost predicate Touch(b: Block, b': Block) {
    b.base + b.length == b'.base
  }

  /** Holes k and k + 1 as one. */
  ghost function Joined(bs: seq<Block>, k: nat): (r: seq<Block>)
    requires k + 1 < |bs|
    ensures |r| == |bs| - 1
  {
    bs[..k] + [Block(bs[k].base, bs[k].length + bs[k + 1].length)] + bs[k + 2..]
  }

  /** From hole k on, the first pair of holes that touch is joined, unless the counter reaches its limit before. */
  ghost function Merge(bs: seq<Block>, k: nat, count: nat): (r: (seq<Block>, nat))
    requires k < |bs|
    decreases |bs| - k
  {
    if count + 1 == MERGE_LIMIT then (bs, 0)
    else if k + 1 == |bs| then (bs, count + 1)
    else if Touch(bs[k], bs[k + 1]) then (Joined(bs, k), count + 1)
    else Merge(bs, k + 1, count + 1)
  }

  /** The holes and the merge counter after block b has been given back. */
  ghost function Freed(bs: seq<Block>, b: Block, count: nat): (seq<Block>, nat) {
    if b.length == 0 then (bs, count)
    else
      var k := Place(bs, b.base);
      Merge(Inserted(bs, b), if k == 0 then 0 else k - 1, count)
  }

  // ---------------------------------------------------------------- what allocation does

  lemma TakenIsWellPlaced(bs: seq<Block>, k: nat, n: nat)
    requires WellPlaced(bs) && k < |bs| && n <= bs[k].length
    ensures WellPlaced(Taken(bs, k, n))
  {
    var r := Taken(bs, k, n);
    if n == bs[k].length {
      forall i, j | 0 <= i < j < |r|
        ensures r[i].base + r[i].length <= r[j].base
      {
        assert r[i] == bs[if i < k then i else i + 1] && r[j] == bs[if j < k then j else j + 1];
      }
    }
  }

  lemma TakenLosesNothingElse(bs: seq<Block>, k: nat, n: nat, c: int)
    requires k < |bs| && n <= bs[k].length && Covers(bs, c) && !In(c, Block(bs[k].base, n))
    ensures Covers(Taken(bs, k, n), c)
  {
    var i :| 0 <= i < |bs| && In(c, bs[i]);
    assert In(c, Taken(bs, k, n)[if n == bs[k].length && i > k then i - 1 else i]);
  }

  lemma TakenGainsNothing(bs: seq<Block>, k: nat, n: nat, c: int)
    requires WellPlaced(bs) && k < |bs| && n <= bs[k].length && Covers(Taken(bs, k, n), c)
    ensures Covers(bs, c) && !In(c, Block(bs[k].base, n))
  {
    var r := Taken(bs, k, n);
    var i :| 0 <= i < |r| && In(c, r[i]);
    var j := if n == bs[k].length && i >= k then i + 1 else i;
    assert In(c, bs[j]);
  }

  /** First fit takes exactly its n clicks, from the bottom of the lowest hole that is large enough. */
  lemma {:induction false} TakingTakesExactly(bs: seq<Block>, n: nat)
    requires WellPlaced(bs) && FirstFit(bs, n) < |bs|
    ensures var k := FirstFit(bs, n);
            && WellPlaced(Taken(bs, k, n))
            && (forall c :: Covers(Taken(bs, k, n), c) <==> Covers(bs, c) && !In(c, Block(bs[k].base, n)))
            && (forall c :: In(c, Block(bs[k].base, n)) ==> Covers(bs, c))
            && (forall j :: 0 <= j < |bs| && bs[j].length >= n ==> bs[k].base <= bs[j].base)
  {
    var k := FirstFit(bs, n);
    TakenIsWellPlaced(bs, k, n);
    forall c
      ensures Covers(Taken(bs, k, n), c) <==> Covers(bs, c) && !In(c, Block(bs[k].base, n))
    {
      if Covers(bs, c) && !In(c, Block(bs[k].base, n)) {
        TakenLosesNothingElse(bs, k, n, c);
      }
      if Covers(Taken(bs, k, n), c) {
        TakenGainsNothing(bs, k, n, c);
      }
    }
    forall c | In(c, Block(bs[k].base, n))
      ensures Covers(bs, c)
    {
      assert In(c, bs[k]);
    }
  }

  // ---------------------------------------------------------------- what giving back does

  lemma {:induction false} PlacedBelow(bs: seq<Block>, b: Block)
    requires WellPlaced(bs) && Apart(bs, b) && 0 < b.length
    ensures var k := Place(bs, b.base);
            && (forall j :: 0 <= j < k ==> bs[j].base + bs[j].length <= b.base)
            && (forall j :: k <= j < |bs| ==> b.base + b.length <= bs[j].base)
  {
    var k := Place(bs, b.base);
    assert In(b.base, b);
    forall j | 0 <= j < k
      ensures bs[j].base + bs[j].length <= b.base
    {
      assert !In(b.base, bs[j]);
    }
    forall j | k <= j < |bs|
      ensures b.base + b.length <= bs[j].base
    {
      assert In(bs[j].base, bs[j]);
      assert !In(bs[j].base, b);
    }
  }

  lemma {:induction false} InsertedIs(bs: seq<Block>, b: Block, i: nat)
    requires i <= |bs|
    ensures |Inserted(bs, b)| == |bs| + 1
    ensures var k := Place(bs, b.base); Inserted(bs, b)[i] == if i < k then bs[i] else if i == k then b else bs[i - 1]
  {
  }

  lemma {:induction false} InsertedIsWellPlaced(bs: seq<Block>, b: Block)
    requires WellPlaced(bs) && Apart(bs, b) && 0 < b.base && 0 < b.length
    ensures WellPlaced(Inserted(bs, b))
  {
    var r := Inserted(bs, b);
    PlacedBelow(bs, b);
    forall i | 0 <= i < |r|
      ensures 0 < r[i].base && 0 < r[i].length
    {
      InsertedIs(bs, b, i);
    }
    forall i, j | 0 <= i < j < |r|
      ensures r[i].base + r[i].length <= r[j].base
    {
      InsertedIs(bs, b, i);
      InsertedIs(bs, b, j);
    }
  }

  lemma InsertedCovers(bs: seq<Block>, b: Block, c: int)
    ensures Covers(Inserted(bs, b), c) <==> Covers(bs, c) || In(c, b)
  {
    var k := Place(bs, b.base);
    var r := Inserted(bs, b);
    if Covers(bs, c) {
      var i :| 0 <= i < |bs| && In(c, bs[i]);
      assert r[if i < k then i else i + 1] == bs[i];
    }
    if In(c, b) {
      assert r[k] == b;
    }
    if Covers(r, c) {
      var i :| 0 <= i < |r| && In(c, r[i]);
      assert i != k ==> r[i] == bs[if i < k then i else i - 1];
    }
  }

  lemma InsertingAddsExactly(bs: seq<Block>, b: Block)
    requires WellPlaced(bs) && Apart(bs, b) && 0 < b.base && 0 < b.length
    ensures WellPlaced(Inserted(bs, b))
    ensures forall c :: Covers(Inserted(bs, b), c) <==> Covers(bs, c) || In(c, b)
  {
    InsertedIsWellPlaced(bs, b);
    forall c
      ensures Covers(Inserted(bs, b), c) <==> Covers(bs, c) || In(c, b)
    {
      InsertedCovers(bs, b, c);
    }
  }

  lemma JoinedIs(bs: seq<Block>, k: nat, i: nat)
    requires k + 1 < |bs| && i < |bs| - 1
    ensures Joined(bs, k)[i]
            == if i < k then bs[i] else if i == k then Block(bs[k].base, bs[k].length + bs[k + 1].length) else bs[i + 1]
  {
  }

  lemma JoinedIsWellPlaced(bs: seq<Block>, k: nat)
    requires WellPlaced(bs) && k + 1 < |bs| && Touch(bs[k], bs[k + 1])
    ensures WellPlaced(Joined(bs, k))
  {
    var r := Joined(bs, k);
    forall i | 0 <= i < |r|
      ensures 0 < r[i].base && 0 < r[i].length
    {
      JoinedIs(bs, k, i);
    }
    forall i, j | 0 <= i < j < |r|
      ensures r[i].base + r[i].length <= r[j].base
    {
      JoinedIs(bs, k, i);
      JoinedIs(bs, k, j);
    }
  }

  lemma JoinedCovers(bs: seq<Block>, k: nat, c: int)
    requires k + 1 < |bs| && Touch(bs[k], bs[k + 1])
    ensures Covers(Joined(bs, k), c) <==> Covers(bs, c)
  {
    var r := Joined(bs, k);
    if i :| 0 <= i < |bs| && In(c, bs[i]) {
      var j := if i <= k then i else i - 1;
      JoinedIs(bs, k, j);
      assert In(c, r[j]);
    }
    if i :| 0 <= i < |r| && In(c, r[i]) {
      JoinedIs(bs, k, i);
      assert In(c, bs[if i < k then i else if i == k && c < bs[k].base + bs[k].length then k else i + 1]);
    }
  }

  lemma JoiningKeepsClicks(bs: seq<Block>, k: nat)
    requires WellPlaced(bs) && k + 1 < |bs| && Touch(bs[k], bs[k + 1])
    ensures WellPlaced(Joined(bs, k)) && forall c :: Covers(Joined(bs, k), c) <==> Covers(bs, c)
  {
    JoinedIsWellPlaced(bs, k);
    forall c
      ensures Covers(Joined(bs, k), c) <==> Covers(bs, c)
    {
      JoinedCovers(bs, k, c);
    }
  }

  /** Merging never changes which clicks are free. */
  lemma {:induction false} MergingKeepsClicks(bs: seq<Block>, k: nat, count: nat)
    requires WellPlaced(bs) && k < |bs|
    ensures WellPlaced(Merge(bs, k, count).0)
    ensures forall c :: Covers(Merge(bs, k, count).0, c) <==> Covers(bs, c)
    decreases |bs| - k
  {
    if count + 1 == MERGE_LIMIT || k + 1 == |bs| {
    } else if Touch(bs[k], bs[k + 1]) {
      JoiningKeepsClicks(bs, k);
    } else {
      MergingKeepsClicks(bs, k + 1, count + 1);
    }
  }

  /** Giving a block back adds exactly its clicks to the free ones. */
  lemma FreeingAddsExactly(bs: seq<Block>, b: Block, count: nat)
    requires WellPlaced(bs) && Apart(bs, b) && 0 < b.base
    ensures WellPlaced(Freed(bs, b, count).0)
    ensures forall c :: Covers(Freed(bs, b, count).0, c) <==> Covers(bs, c) || In(c, b)
  {
    if b.length > 0 {
      var k := Place(bs, b.base);
      InsertingAddsExactly(bs, b);
      MergingKeepsClicks(Inserted(bs, b), if k == 0 then 0 else k - 1, count);
    }
  }

  // ---------------------------------------------------------------- how far holes are joined

  /** No two neighbouring holes touch. */
  ghost predicate Coalesced(bs: seq<Block>) {
    forall i :: 0 <= i < |bs| - 1 ==> !Touch(bs[i], bs[i + 1])
  }

  /** The block touches the hole below it. */
  ghost predicate TouchesBelow(bs: seq<Block>, b: Block) {
    var k := Place(bs, b.base);
    0 < k && Touch(bs[k - 1], b)
  }

  /** The block touches the hole above it. */
  ghost predicate TouchesAbove(bs: seq<Block>, b: Block) {
    var k := Place(bs, b.base);
    k < |bs| && Touch(b, bs[k])
  }

  /** No holes touch but, perhaps, hole j and its neighbours. */
  ghost predicate TouchOnlyAt(bs: seq<Block>, j: nat) {
    forall i :: 0 <= i < |bs| - 1 && i != j - 1 && i != j ==> !Touch(bs[i], bs[i + 1])
  }

  lemma JoiningCoalesces(bs: seq<Block>, k: nat, j: nat)
    requires WellPlaced(bs) && k + 1 < |bs| && Touch(bs[k], bs[k + 1]) && k <= j < |bs| && j <= k + 1
    requires TouchOnlyAt(bs, j)
    requires j > k || (0 < k ==> !Touch(bs[k - 1], bs[k]))
    ensures Coalesced(Joined(bs, k)) <==> !(j > k && j + 1 < |bs| && Touch(bs[j], bs[j + 1]))
  {
    JoinedNeighbours(bs, k);
  }

  lemma NothingTouches(bs: seq<Block>, j: nat)
    requires j < |bs| && TouchOnlyAt(bs, j)
    ensures Coalesced(bs)
            <==> (0 < j ==> !Touch(bs[j - 1], bs[j])) && (j + 1 < |bs| ==> !Touch(bs[j], bs[j + 1]))
  {
    assert 0 < j ==> bs[j - 1 + 1] == bs[j];
  }

  /** Entering the merge at hole k of a list whose only possibly touching neighbours are those of hole j: what is
      joined, and whether anything that touches is left. */
  lemma {:induction false} MergeCoalesces(bs: seq<Block>, k: nat, count: nat, j: nat)
    requires k < |bs| && count < MERGE_LIMIT && k <= j < |bs| && j <= k + 1 && TouchOnlyAt(bs, j)
    requires j > k || (0 < k ==> !Touch(bs[k - 1], bs[k]))
    requires WellPlaced(bs)
    ensures var below := j > k && Touch(bs[j - 1], bs[j]); var above := j + 1 < |bs| && Touch(bs[j], bs[j + 1]);
            Coalesced(Merge(bs, k, count).0)
            <==> (below ==> !above && count + 1 < MERGE_LIMIT) && (above ==> count + 1 + j - k < MERGE_LIMIT)
    decreases |bs| - k
  {
    NothingTouches(bs, j);
    if count + 1 == MERGE_LIMIT || k + 1 == |bs| {
    } else if Touch(bs[k], bs[k + 1]) {
      JoiningCoalesces(bs, k, j);
    } else if j > k {
      MergeCoalesces(bs, k + 1, count + 1, j);
    } else {
      MergeFindsNothing(bs, k + 1, count + 1);
    }
  }

  lemma {:induction false} MergeFindsNothing(bs: seq<Block>, k: nat, count: nat)
    requires k < |bs| && Coalesced(bs)
    ensures Merge(bs, k, count).0 == bs
    decreases |bs| - k
  {
    if count + 1 != MERGE_LIMIT && k + 1 != |bs| {
      assert !Touch(bs[k], bs[k + 1]);
      MergeFindsNothing(bs, k + 1, count + 1);
    }
  }

  /** After holes k and k + 1 are joined the touching neighbours are those there were but that pair. */
  lemma JoinedTouches(bs: seq<Block>, k: nat, i: nat)
    requires WellPlaced(bs) && k + 1 < |bs| && Touch(bs[k], bs[k + 1]) && i + 2 < |bs|
    ensures var j := if i < k then i else i + 1;
            Touch(Joined(bs, k)[i], Joined(bs, k)[i + 1]) <==> Touch(bs[j], bs[j + 1])
  {
    JoinedIs(bs, k, i);
    JoinedIs(bs, k, i + 1);
  }

  lemma JoinedNeighbours(bs: seq<Block>, k: nat)
    requires WellPlaced(bs) && k + 1 < |bs| && Touch(bs[k], bs[k + 1])
    ensures Coalesced(Joined(bs, k)) <==> forall i :: 0 <= i < |bs| - 1 && i != k ==> !Touch(bs[i], bs[i + 1])
  {
    var r := Joined(bs, k);
    forall i | 0 <= i < |r| - 1
      ensures Touch(r[i], r[i + 1]) <==> (var j := if i < k then i else i + 1; Touch(bs[j], bs[j + 1]))
    {
      JoinedTouches(bs, k, i);
    }
    if Coalesced(r) {
      forall i | 0 <= i < |bs| - 1 && i != k
        ensures !Touch(bs[i], bs[i + 1])
      {
        JoinedTouches(bs, k, if i < k then i else i - 1);
      }
    }
  }

  lemma {:induction false} InsertedNeighbours(bs: seq<Block>, b: Block, i: nat)
    requires Coalesced(bs) && i < |bs| && i != Place(bs, b.base) && i + 1 != Place(bs, b.base)
    ensures !Touch(Inserted(bs, b)[i], Inserted(bs, b)[i + 1])
  {
    var k := Place(bs, b.base);
    var j := if i < k then i else i - 1;
    assert !Touch(bs[j], bs[j + 1]);
    InsertedIs(bs, b, i);
    InsertedIs(bs, b, i + 1);
  }

  /** Joining is incomplete in general. Holes stay fully joined after a block is given back exactly when nothing has to
      be joined, or only one side has and the counter does not run into its limit before that side is looked at: the
      hole below is looked at on the first entry of merge_hole, the one above on the second (the first if there is no
      hole below). */
  lemma {:induction false} FreeingCoalescesExactly(bs: seq<Block>, b: Block, count: nat)
    requires WellPlaced(bs) && Apart(bs, b) && 0 < b.base && 0 < b.length && Coalesced(bs) && count < MERGE_LIMIT
    ensures var entries := if Place(bs, b.base) == 0 then 1 else 2;
            Coalesced(Freed(bs, b, count).0)
            <==> (TouchesBelow(bs, b) ==> !TouchesAbove(bs, b) && count + 1 < MERGE_LIMIT)
                 && (TouchesAbove(bs, b) ==> count + entries < MERGE_LIMIT)
  {
    InsertedIsWellPlaced(bs, b);
    InsertedTouches(bs, b);
    var k := Place(bs, b.base);
    MergeCoalesces(Inserted(bs, b), if k == 0 then 0 else k - 1, count, k);
  }

  lemma {:induction false} InsertedTouches(bs: seq<Block>, b: Block)
    requires Coalesced(bs)
    ensures var k, r := Place(bs, b.base), Inserted(bs, b);
            && |r| == |bs| + 1 && TouchOnlyAt(r, k)
            && (TouchesBelow(bs, b) <==> 0 < k && Touch(r[k - 1], r[k]))
            && (TouchesAbove(bs, b) <==> k + 1 < |r| && Touch(r[k], r[k + 1]))
  {
    var k, r := Place(bs, b.base), Inserted(bs, b);
    InsertedIs(bs, b, k);
    if 0 < k {
      InsertedIs(bs, b, k - 1);
    }
    if k < |bs| {
      InsertedIs(bs, b, k + 1);
    }
    forall i | 0 <= i < |r| - 1 && i != k - 1 && i != k
      ensures !Touch(r[i], r[i + 1])
    {
      InsertedNeighbours(bs, b, i);
    }
  }

  /** Hole j is the first one from k on that touches the next one or is the last. */
  ghost predicate IsFirstPair(bs: seq<Block>, k: nat, j: nat) {
    && k <= j < |bs| && (j + 1 == |bs| || Touch(bs[j], bs[j + 1]))
    && forall i :: k <= i < j ==> !Touch(bs[i], bs[i + 1])
  }

  /** The walk enters every hole up to that one, and the counter goes up by one for each; with the fifth entry, those of
      earlier calls included, it is back at 0 and nothing is joined. */
  lemma {:induction false} MergeCounts(bs: seq<Block>, k: nat, count: nat, j: nat)
    requires count < 5 && IsFirstPair(bs, k, j)
    ensures var (r, c) := Merge(bs, k, count);
            var entries := j - k + 1;
            if count + entries >= 5 then r == bs && c == 0
            else c == count + entries && r == if j + 1 == |bs| then bs else Joined(bs, j)
    decreases |bs| - k
  {
    if count + 1 != 5 && k < j {
      MergeCounts(bs, k + 1, count + 1, j);
    }
  }

  /** A block that fills the gap between two holes is joined to the lower one only. */
  lemma FillingAGapLeavesTwoHoles()
    ensures var bs := [Block(10, 5), Block(20, 5)];
            Coalesced(bs) && Freed(bs, Block(15, 5), 0).0 == [Block(10, 10), Block(20, 5)]
            && !Coalesced(Freed(bs, Block(15, 5), 0).0)
  {
    var bs := [Block(10, 5), Block(20, 5)];
    assert Place(bs, 15) == 1 by {
      assert Place(bs[1..], 15) == 0;
    }
    var r := Freed(bs, Block(15, 5), 0).0;
    assert r == [Block(10, 10), Block(20, 5)];
    assert Touch(r[0], r[1]);
  }
}
