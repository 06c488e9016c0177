/** Why the hole table never fills: every process is as large as ORIGIN, so memory is used in tiles of one size. */
module MmTiles {
  import opened Holes
  import opened MmState
  import opened MmInvariants

  // ---------------------------------------------------------------- tiles

  /** The size of u tiles of s clicks. */
  ghost function Tiles(u: nat, s: nat): nat {
    if u == 0 then 0 else Tiles(u - 1, s) + s
  }

  /** a lies u tiles of s above lo. */
  ghost predicate At(a: int, lo: int, s: nat, u: nat) {
    a == lo + Tiles(u, s)
  }

  /** The hole starts on one of the first m tile boundaries, and consists of whole tiles or reaches the end of
      memory. */
  ghost predicate HoleFits(b: Block, lo: int, hi: int, s: nat, m: nat) {
    && b.base + b.length <= hi
    && (exists u: nat :: u <= m && At(b.base, lo, s, u))
    && (b.base + b.length == hi || exists v: nat :: At(b.length, 0, s, v))
  }

  ghost predicate HolesFit(bs: seq<Block>, lo: int, hi: int, s: nat, m: nat) {
    forall i :: 0 <= i < |bs| ==> HoleFits(bs[i], lo, hi, s, m)
  }

  /** The block is one of the first m tiles. */
  ghost predicate TileFits(b: Block, lo: int, s: nat, m: nat) {
    b.length == s && exists u: nat :: u < m && At(b.base, lo, s, u)
  }

  /** The processes that were forked and live each hold one tile, and the holes are made of tiles. */
  ghost predicate Tiled(procs: seq<MProc>, bs: seq<Block>, lo: int, hi: int)
    requires ORIGIN < |procs|
  {
    var s, m := procs[ORIGIN].Memory().length, |procs| - ORIGIN - 1;
    HolesFit(bs, lo, hi, s, m)
    && forall i :: ORIGIN < i < |procs| && procs[i].Alive() ==> TileFits(procs[i].Memory(), lo, s, m)
  }

  lemma {:induction false} TileAbove(u: nat, v: nat, s: nat)
    requires u < v
    ensures Tiles(u, s) + s <= Tiles(v, s)
  {
    if u + 1 < v {
      TileAbove(u, v - 1, s);
    }
  }

  lemma {:induction false} NothingInTiles(u: nat)
    ensures Tiles(u, 0) == 0
  {
    if u > 0 {
      NothingInTiles(u - 1);
    }
  }

  lemma {:induction false} TileIndex(u: nat, j: nat, s: nat)
    requires Tiles(u, s) <= Tiles(j, s) < Tiles(u, s) + s
    ensures u == j
  {
    if u < j {
      TileAbove(u, j, s);
    } else if j < u {
      TileAbove(j, u, s);
    }
  }

  lemma {:induction false} TilesAdd(u: nat, v: nat, s: nat)
    ensures Tiles(u + v, s) == Tiles(u, s) + Tiles(v, s)
  {
    if v > 0 {
      TilesAdd(u, v - 1, s);
    }
  }

  // ---------------------------------------------------------------- there are few holes

  /** Each hole starts at a boundary of its own, in order. */
  lemma {:induction false} HolesSpread(bs: seq<Block>, lo: int, hi: int, s: nat, m: nat, i: nat) returns (u: nat)
    requires WellPlaced(bs) && HolesFit(bs, lo, hi, s, m) && i < |bs|
    ensures i <= u <= m && At(bs[i].base, lo, s, u)
  {
    assert HoleFits(bs[i], lo, hi, s, m);
    u :| u <= m && At(bs[i].base, lo, s, u);
    if i > 0 {
      var v := HolesSpread(bs, lo, hi, s, m, i - 1);
      assert bs[i - 1].base < bs[i].base;
      if u < v {
        TileAbove(u, v, s);
      }
    }
  }

  lemma FewHoles(bs: seq<Block>, lo: int, hi: int, s: nat, m: nat)
    requires WellPlaced(bs) && HolesFit(bs, lo, hi, s, m)
    ensures |bs| <= m + 1
  {
    if bs != [] {
      var u := HolesSpread(bs, lo, hi, s, m, |bs| - 1);
    }
  }

  // ---------------------------------------------------------------- giving back

  lemma JoinedFits(b: Block, c: Block, lo: int, hi: int, s: nat, m: nat)
    requires HoleFits(b, lo, hi, s, m) && HoleFits(c, lo, hi, s, m) && Touch(b, c) && 0 < c.length
    ensures HoleFits(Block(b.base, b.length + c.length), lo, hi, s, m)
  {
    var r := Block(b.base, b.length + c.length);
    if r.base + r.length < hi {
      var v: nat :| At(b.length, 0, s, v);
      var w: nat :| At(c.length, 0, s, w);
      TilesAdd(v, w, s);
      assert At(r.length, 0, s, v + w);
    }
  }

  lemma {:induction false} MergeFits(bs: seq<Block>, k: nat, count: nat, lo: int, hi: int, s: nat, m: nat)
    requires WellPlaced(bs) && HolesFit(bs, lo, hi, s, m) && k < |bs|
    ensures HolesFit(Merge(bs, k, count).0, lo, hi, s, m)
    decreases |bs| - k
  {
    if count + 1 == MERGE_LIMIT || k + 1 == |bs| {
    } else if Touch(bs[k], bs[k + 1]) {
      JoinedFits(bs[k], bs[k + 1], lo, hi, s, m);
    } else {
      MergeFits(bs, k + 1, count + 1, lo, hi, s, m);
    }
  }

  lemma FreedFits(bs: seq<Block>, b: Block, count: nat, lo: int, hi: int, s: nat, m: nat)
    requires WellPlaced(bs) && Apart(bs, b) && 0 < b.base && 0 < b.length
    requires HolesFit(bs, lo, hi, s, m) && HoleFits(b, lo, hi, s, m)
    ensures HolesFit(Freed(bs, b, count).0, lo, hi, s, m)
  {
    var k := Place(bs, b.base);
    InsertingAddsExactly(bs, b);
    MergeFits(Inserted(bs, b), if k == 0 then 0 else k - 1, count, lo, hi, s, m);
  }

  lemma TileIsHole(b: Block, lo: int, hi: int, s: nat, m: nat)
    requires TileFits(b, lo, s, m) && b.base + b.length <= hi
    ensures HoleFits(b, lo, hi, s, m)
  {
    assert At(b.length, 0, s, 1);
  }

  // ---------------------------------------------------------------- taking

  lemma TakenFits(bs: seq<Block>, k: nat, lo: int, hi: int, s: nat, m: nat, u: nat)
    requires HolesFit(bs, lo, hi, s, m) && k < |bs| && s <= bs[k].length && At(bs[k].base, lo, s, u) && u < m
    ensures HolesFit(Taken(bs, k, s), lo, hi, s, m)
  {
    var b := Block(bs[k].base + s, bs[k].length - s);
    assert HoleFits(bs[k], lo, hi, s, m);
    assert At(b.base, lo, s, u + 1);
    if b.base + b.length < hi && b.length > 0 {
      var v: nat :| At(bs[k].length, 0, s, v);
      assert v > 0;
      assert At(b.length, 0, s, v - 1);
    }
  }

  /** A hole that does not reach the end of memory has room for a tile. */
  lemma InnerHoleIsLarge(b: Block, lo: int, hi: int, s: nat, m: nat)
    requires HoleFits(b, lo, hi, s, m) && 0 < b.length
    ensures b.base + b.length < hi ==> s <= b.length
  {
    if b.base + b.length < hi {
      var v: nat :| At(b.length, 0, s, v);
      TileAbove(0, v, s);
    }
  }

  /** If any hole is large enough for a tile, the first one is. */
  lemma {:induction false} FirstHoleFits(bs: seq<Block>, lo: int, hi: int, s: nat, m: nat)
    requires WellPlaced(bs) && HolesFit(bs, lo, hi, s, m) && FirstFit(bs, s) < |bs|
    ensures FirstFit(bs, s) == 0
  {
    var k := FirstFit(bs, s);
    assert HoleFits(bs[0], lo, hi, s, m) && HoleFits(bs[k], lo, hi, s, m);
    InnerHoleIsLarge(bs[0], lo, hi, s, m);
    assert bs[k].base + bs[k].length <= hi;
  }

  /** Nothing is free below the lowest hole that fits. */
  lemma {:induction false} NothingFreeBelow(bs: seq<Block>, lo: int, hi: int, s: nat, m: nat, c: int)
    requires WellPlaced(bs) && HolesFit(bs, lo, hi, s, m)
    requires FirstFit(bs, s) < |bs| && c < bs[FirstFit(bs, s)].base
    ensures !Covers(bs, c)
  {
    FirstHoleFits(bs, lo, hi, s, m);
  }

  /** The process in slot i holds tile j. */
  ghost predicate Holds(procs: seq<MProc>, i: int, j: nat, lo: int, s: nat) {
    ORIGIN < i < |procs| && procs[i].Alive() && At(procs[i].Memory().base, lo, s, j)
  }

  /** If the lowest hole that fits starts beyond m tiles, a living process holds each of them. */
  lemma TileIsHeld(procs: seq<MProc>, bs: seq<Block>, lo: int, hi: int, j: nat) returns (i: nat)
    requires MemoryOk(procs, bs, lo, hi) && ORIGIN < |procs| && Tiled(procs, bs, lo, hi)
    requires var s := procs[ORIGIN].Memory().length;
             var k := FirstFit(bs, s);
             0 < s && k < |bs| && lo + Tiles(j, s) + s <= bs[k].base
    ensures Holds(procs, i, j, lo, procs[ORIGIN].Memory().length)
  {
    var s, m := procs[ORIGIN].Memory().length, |procs| - ORIGIN - 1;
    var k := FirstFit(bs, s);
    var c := lo + Tiles(j, s);
    assert In(bs[k].base, bs[k]);
    assert Covers(bs, bs[k].base);
    assert lo <= c < hi;
    NothingFreeBelow(bs, lo, hi, s, m, c);
    assert Owned(procs, c);
    var o :| Owns(procs, o, c);
    assert TileFits(procs[o].Memory(), lo, s, m);
    var u: nat :| u < m && At(procs[o].Memory().base, lo, s, u);
    TileIndex(u, j, s);
    i := o;
  }

  ghost predicate Held(procs: seq<MProc>, j: nat, lo: int, s: nat) {
    exists i :: Holds(procs, i, j, lo, s)
  }

  /** The slots of forked processes other than child, as far as they hold one of the first n tiles. */
  ghost function Holders(procs: seq<MProc>, child: nat, lo: int, s: nat, n: nat): set<int> {
    set i | i in Forked(|procs|) - {child} && exists j: nat :: j < n && Holds(procs, i, j, lo, s)
  }

  ghost function Forked(n: int): set<int> {
    if n <= ORIGIN + 1 then {} else Forked(n - 1) + {n - 1}
  }

  lemma {:induction false} ForkedHas(n: int, i: int)
    ensures i in Forked(n) <==> ORIGIN < i < n
  {
    if n > ORIGIN + 1 {
      ForkedHas(n - 1, i);
    }
  }

  lemma {:induction false} HoldersAreMany(procs: seq<MProc>, child: nat, lo: int, s: nat, n: nat)
    requires 0 < s && child < |procs| && !procs[child].Alive()
    requires forall j: nat :: j < n ==> Held(procs, j, lo, s)
    ensures n <= |Holders(procs, child, lo, s, n)|
  {
    if n > 0 {
      HoldersAreMany(procs, child, lo, s, n - 1);
      assert Held(procs, n - 1, lo, s);
      var i :| Holds(procs, i, n - 1, lo, s);
      ForkedHas(|procs|, i);
      var before := Holders(procs, child, lo, s, n - 1);
      if i in before {
        var j: nat :| j < n - 1 && Holds(procs, i, j, lo, s);
        TileAbove(j, n - 1, s);
        assert false;
      }
      assert before + {i} <= Holders(procs, child, lo, s, n);
      SubsetIsSmaller(before + {i}, Holders(procs, child, lo, s, n));
    }
  }

  lemma {:induction false} ForkedSize(n: int)
    requires ORIGIN < n
    ensures |Forked(n)| == n - ORIGIN - 1
  {
    if n > ORIGIN + 1 {
      ForkedSize(n - 1);
      ForkedHas(n - 1, n - 1);
    }
  }

  /** While a slot is free, the lowest hole that fits starts within the tiles that the other slots leave. */
  lemma FitStartsLow(procs: seq<MProc>, bs: seq<Block>, lo: int, hi: int, child: nat) returns (u: nat)
    requires MemoryOk(procs, bs, lo, hi) && ORIGIN < child < |procs| && Tiled(procs, bs, lo, hi)
    requires !procs[child].Alive()
    requires FirstFit(bs, procs[ORIGIN].Memory().length) < |bs|
    ensures var s := procs[ORIGIN].Memory().length;
            u < |procs| - ORIGIN - 1 && At(bs[FirstFit(bs, s)].base, lo, s, u)
  {
    var s, m := procs[ORIGIN].Memory().length, |procs| - ORIGIN - 1;
    var k := FirstFit(bs, s);
    assert HoleFits(bs[k], lo, hi, s, m);
    u :| u <= m && At(bs[k].base, lo, s, u);
    if s == 0 {
      NothingInTiles(u);
      u := 0;
    } else if u == m {
      AllHeld(procs, bs, lo, hi, m);
      HoldersAreMany(procs, child, lo, s, m);
      ForkedSize(|procs|);
      SubsetIsSmaller(Holders(procs, child, lo, s, m), Forked(|procs|) - {child});
      ForkedHas(|procs|, child);
      assert false;
    }
  }

  lemma {:induction false} AllHeld(procs: seq<MProc>, bs: seq<Block>, lo: int, hi: int, m: nat)
    requires MemoryOk(procs, bs, lo, hi) && ORIGIN < |procs| && Tiled(procs, bs, lo, hi)
    requires var s := procs[ORIGIN].Memory().length;
             0 < s && FirstFit(bs, s) < |bs| && bs[FirstFit(bs, s)].base == lo + Tiles(m, s)
    ensures forall j: nat :: j < m ==> Held(procs, j, lo, procs[ORIGIN].Memory().length)
  {
    forall j: nat | j < m
      ensures Held(procs, j, lo, procs[ORIGIN].Memory().length)
    {
      TileAbove(j, m, procs[ORIGIN].Memory().length);
      var i := TileIsHeld(procs, bs, lo, hi, j);
    }
  }
}
