/** Creating and deleting files that all have the same number of sectors. */
module SectorRuns {
  import opened SectorMap

  /** The map, and the bits at which the files begin. */
  datatype Fs = Fs(map_: seq<Byte>, files: set<nat>)

  datatype Op = Create | Delete(start: nat)

  /** What the operations on the map allow: alloc_smap_bit for a new file, the release part of do_unlink for an old
      one. */
  ghost predicate Next(f: Fs, op: Op, g: Fs, n: nat) {
    match op
    case Create =>
      exists p: nat :: FirstClear(f.map_, p) && p + n <= 8 * |f.map_| && Marks(f.map_, g.map_, p, p + n)
                       && g.files == f.files + {p}
    case Delete(s) =>
      s in f.files && Clears(f.map_, g.map_, s, s + n - LeftOver(s, n)) && g.files == f.files - {s}
  }

  /** Where the m-th place for a file begins. */
  ghost function Start(base: nat, n: nat, m: nat): nat {
    if m == 0 then base else Start(base, n, m - 1) + n
  }

  ghost predicate Bit(map_: seq<Byte>, p: nat) {
    Used(map_, p, p + 1)
  }

  /** Place m holds a file and is marked throughout, or its first bit is clear. */
  ghost predicate PlaceOk(f: Fs, base: nat, n: nat, m: nat) {
    var s := Start(base, n, m);
    s + n <= 8 * |f.map_| ==> if s in f.files then Used(f.map_, s, s + n) else !Bit(f.map_, s)
  }

  ghost predicate IsPlace(base: nat, n: nat, m: nat, s: nat) {
    s == Start(base, n, m)
  }

  ghost predicate Inv(f: Fs, base: nat, n: nat) {
    && 0 < n && Used(f.map_, 0, base)
    && (forall m: nat :: PlaceOk(f, base, n, m))
    && (forall s :: s in f.files ==> s + n <= 8 * |f.map_| && exists m: nat :: IsPlace(base, n, m, s))
  }

  /** No sector belongs to two files, and every sector of a file is marked. */
  ghost predicate Sound(f: Fs, n: nat) {
    && (forall s, t :: s in f.files && t in f.files && s < t ==> s + n <= t)
    && (forall s :: s in f.files ==> Used(f.map_, s, s + n))
  }

  // ---------------------------------------------------------------- places

  lemma {:induction false} StartsAreApart(base: nat, n: nat, a: nat, b: nat)
    requires a < b
    ensures Start(base, n, a) + n <= Start(base, n, b)
  {
    if a + 1 < b {
      StartsAreApart(base, n, a, b - 1);
    }
  }

  lemma {:induction false} PlacesAreApart(base: nat, n: nat, a: nat, b: nat)
    requires Start(base, n, a) < Start(base, n, b) + n && Start(base, n, b) < Start(base, n, a) + n
    ensures a == b
  {
    if a < b {
      StartsAreApart(base, n, a, b);
    } else if b < a {
      StartsAreApart(base, n, b, a);
    }
  }

  lemma {:induction false} PlaceOf(base: nat, n: nat, p: nat) returns (m: nat)
    requires base <= p && 0 < n
    ensures Start(base, n, m) <= p < Start(base, n, m) + n
    decreases p
  {
    if p < base + n {
      m := 0;
    } else {
      var k := PlaceOf(base, n, p - n);
      m := k + 1;
    }
  }

  lemma InvIsSound(f: Fs, base: nat, n: nat)
    requires Inv(f, base, n)
    ensures Sound(f, n)
  {
    forall s, t | s in f.files && t in f.files && s < t
      ensures s + n <= t
    {
      var a: nat :| IsPlace(base, n, a, s);
      var b: nat :| IsPlace(base, n, b, t);
      if t < s + n {
        PlacesAreApart(base, n, a, b);
      }
    }
    forall s | s in f.files
      ensures Used(f.map_, s, s + n)
    {
      var m: nat :| IsPlace(base, n, m, s);
      assert PlaceOk(f, base, n, m);
    }
  }

  // ---------------------------------------------------------------- creating

  lemma BitIs(map_: seq<Byte>, p: nat)
    requires p < 8 * |map_|
    ensures Bit(map_, p) <==> map_[p / 8][p % 8]
  {
    assert 8 * (p / 8) + p % 8 == p;
    if map_[p / 8][p % 8] {
      forall j, k | 0 <= j < |map_| && 0 <= k < 8 && p <= 8 * j + k < p + 1
        ensures map_[j][k]
      {
        assert j == p / 8 && k == p % 8;
      }
    }
  }

  lemma UsedBits(map_: seq<Byte>, lo: nat, hi: nat, p: nat)
    ensures Used(map_, lo, hi) && lo <= p < hi ==> Bit(map_, p)
  {
  }

  lemma FirstClearIsClear(map_: seq<Byte>, p: nat)
    requires FirstClear(map_, p) && p < 8 * |map_|
    ensures !Bit(map_, p)
  {
    BitIs(map_, p);
    assert 8 * (p / 8) + p % 8 == p;
  }

  /** The first clear bit begins a place without a file, if there is room from there on. */
  lemma FirstClearIsPlace(f: Fs, base: nat, n: nat, p: nat) returns (m: nat)
    requires Inv(f, base, n) && FirstClear(f.map_, p) && p + n <= 8 * |f.map_|
    ensures p == Start(base, n, m) && p !in f.files
  {
    FirstClearIsClear(f.map_, p);
    UsedBits(f.map_, 0, base, p);
    m := PlaceOf(base, n, p);
    var s := Start(base, n, m);
    assert PlaceOk(f, base, n, m);
    UsedBits(f.map_, s, s + n, p);
    UsedBits(f.map_, 0, p, s);
  }

  lemma MarksBits(was: seq<Byte>, new_: seq<Byte>, lo: nat, hi: nat, p: nat)
    requires Marks(was, new_, lo, hi)
    ensures Bit(new_, p) <==> Bit(was, p) || lo <= p < hi || p >= 8 * |was|
  {
    if p < 8 * |was| {
      BitIs(was, p);
      BitIs(new_, p);
      assert 8 * (p / 8) + p % 8 == p;
    }
  }

  lemma ClearsBits(was: seq<Byte>, new_: seq<Byte>, lo: nat, hi: nat, p: nat)
    requires Clears(was, new_, lo, hi)
    ensures Bit(new_, p) <==> (Bit(was, p) && !(lo <= p < hi)) || p >= 8 * |was|
  {
    if p < 8 * |was| {
      BitIs(was, p);
      BitIs(new_, p);
      assert 8 * (p / 8) + p % 8 == p;
    }
  }

  lemma CreateKeepsInv(f: Fs, g: Fs, base: nat, n: nat)
    requires Inv(f, base, n) && Next(f, Create, g, n)
    ensures Inv(g, base, n)
  {
    var p: nat :| FirstClear(f.map_, p) && p + n <= 8 * |f.map_| && Marks(f.map_, g.map_, p, p + n)
                  && g.files == f.files + {p};
    var k := FirstClearIsPlace(f, base, n, p);
    assert IsPlace(base, n, k, p);
    forall m: nat
      ensures PlaceOk(g, base, n, m)
    {
      assert PlaceOk(f, base, n, m);
      var s := Start(base, n, m);
      MarksBits(f.map_, g.map_, p, p + n, s);
      if p <= s < p + n {
        PlacesAreApart(base, n, m, k);
      }
    }
  }

  lemma LeftOverIsLess(b: nat, n: nat)
    requires 0 < n
    ensures LeftOver(b, n) < n
  {
  }

  lemma DeleteKeepsInv(f: Fs, g: Fs, base: nat, n: nat, s: nat)
    requires Inv(f, base, n) && Next(f, Delete(s), g, n)
    ensures Inv(g, base, n)
  {
    var k: nat :| IsPlace(base, n, k, s);
    LeftOverIsLess(s, n);
    var e := s + n - LeftOver(s, n);
    forall m: nat
      ensures PlaceOk(g, base, n, m)
    {
      assert PlaceOk(f, base, n, m);
      var t := Start(base, n, m);
      ClearsBits(f.map_, g.map_, s, e, t);
      if m < k {
        StartsAreApart(base, n, m, k);
      } else if k < m {
        StartsAreApart(base, n, k, m);
      }
    }
    assert Used(g.map_, 0, base) by {
      if k > 0 {
        StartsAreApart(base, n, 0, k);
      }
    }
  }

  // ---------------------------------------------------------------- runs

  ghost predicate Trace(states: seq<Fs>, ops: seq<Op>, n: nat) {
    |states| == |ops| + 1 && forall i :: 0 <= i < |ops| ==> Next(states[i], ops[i], states[i + 1], n)
  }

  /** However files of n sectors come and go on places that begin with bit base, no sector is ever given to two of
      them, although allocation does not look at the bits after the first and deletion leaves some of them set; and no
      deletion stops the file system. */
  lemma {:induction false} FilesStayApart(states: seq<Fs>, ops: seq<Op>, base: nat, n: nat)
    requires Trace(states, ops, n) && Inv(states[0], base, n)
    ensures forall i :: 0 <= i < |states| ==> Sound(states[i], n)
    decreases |ops|
  {
    InvIsSound(states[0], base, n);
    if ops != [] {
      assert Next(states[0], ops[0], states[1], n);
      if ops[0].Create? {
        CreateKeepsInv(states[0], states[1], base, n);
      } else {
        DeleteKeepsInv(states[0], states[1], base, n, ops[0].start);
      }
      FilesStayApart(states[1..], ops[1..], base, n);
    }
  }

  // ---------------------------------------------------------------- a new file system

  /** The file system that mkfs_flyanx makes: the root directory begins with bit 1, cmd.tar with bit x. */
  ghost predicate NewFs(f: Fs, x: nat) {
    && 1 <= x && x + FILE_SECTS < 8 * |f.map_| && 1 + FILE_SECTS <= 8 * |f.map_|
    && f.files == {1, x} && NewMap(f.map_, x, FILE_SECTS)
  }

  /** Whatever is created and deleted, no file ever loses a sector or shares one. */
  ghost predicate StaysSound(f: Fs, n: nat) {
    forall states, ops :: Trace(states, ops, n) && states[0] == f ==>
      forall i :: 0 <= i < |states| ==> Sound(states[i], n)
  }

  lemma NewMapBits(map_: seq<Byte>, x: int, n: nat, p: nat)
    requires NewMap(map_, x, n) && p < 8 * |map_|
    ensures Bit(map_, p) <==> p <= FILE_SECTS || x <= p < x + n
  {
    BitIs(map_, p);
    assert 8 * (p / 8) + p % 8 == p;
  }

  lemma {:induction false} StartIs(m: nat)
    ensures Start(1, FILE_SECTS, m) == 1 + FILE_SECTS * m
  {
    if m > 0 {
      StartIs(m - 1);
    }
  }

  /** If cmd.tar begins where a place begins, the new file system is consistent. */
  lemma NewOnGrid(f: Fs, x: nat, k: nat)
    requires NewFs(f, x) && x == 1 + FILE_SECTS * k
    ensures Inv(f, 1, FILE_SECTS)
  {
    StartIs(0);
    StartIs(k);
    assert IsPlace(1, FILE_SECTS, 0, 1) && IsPlace(1, FILE_SECTS, k, x);
    forall m: nat
      ensures PlaceOk(f, 1, FILE_SECTS, m)
    {
      StartIs(m);
      var s := Start(1, FILE_SECTS, m);
      if s + FILE_SECTS <= 8 * |f.map_| {
        NewMapBits(f.map_, x, FILE_SECTS, s);
      }
    }
  }

  /** Every place before the i-th is taken, and nothing from there up to x. */
  ghost predicate FilledUpTo(f: Fs, x: nat, i: nat) {
    var s := 1 + FILE_SECTS * i;
    && 0 < i && s < x && x + FILE_SECTS < 8 * |f.map_| && x in f.files
    && Used(f.map_, 0, s) && Free(f.map_, s, x) && Used(f.map_, x, x + FILE_SECTS)
  }

  function Marked(map_: seq<Byte>, lo: nat, hi: nat): (r: seq<Byte>) {
    seq(|map_|, j requires 0 <= j < |map_| => seq(8, k requires 0 <= k < 8 => map_[j][k] || lo <= 8 * j + k < hi))
  }

  function Cleared(map_: seq<Byte>, lo: nat, hi: nat): (r: seq<Byte>) {
    seq(|map_|, j requires 0 <= j < |map_| => seq(8, k requires 0 <= k < 8 => map_[j][k] && !(lo <= 8 * j + k < hi)))
  }

  /** The next file is created on place i. */
  lemma FillOne(f: Fs, x: nat, i: nat) returns (g: Fs)
    requires FilledUpTo(f, x, i)
    ensures var s := 1 + FILE_SECTS * i;
            && Next(f, Create, g, FILE_SECTS) && g.files == f.files + {s} && |g.map_| == |f.map_|
            && Used(g.map_, 0, s + FILE_SECTS) && Used(g.map_, x, x + FILE_SECTS)
            && (s + FILE_SECTS < x ==> FilledUpTo(g, x, i + 1))
  {
    var s := 1 + FILE_SECTS * i;
    g := Fs(Marked(f.map_, s, s + FILE_SECTS), f.files + {s});
    assert FirstClear(f.map_, s) && Marks(f.map_, g.map_, s, s + FILE_SECTS);
  }

  /** The run in which files are created until one is given sectors of cmd.tar, which begins inside place m. */
  lemma {:induction false} FillUntil(f: Fs, x: nat, i: nat, m: nat) returns (states: seq<Fs>, ops: seq<Op>)
    requires FilledUpTo(f, x, i) && i <= m && 1 + FILE_SECTS * m < x < 1 + FILE_SECTS * m + FILE_SECTS
    ensures Trace(states, ops, FILE_SECTS) && states[0] == f && |ops| == m + 1 - i
    ensures forall k :: 0 <= k < |ops| ==> ops[k] == Create
    ensures Collides(states[|ops|], x, m)
    decreases m - i
  {
    var g := FillOne(f, x, i);
    if i == m {
      states, ops := [f, g], [Create];
    } else {
      states, ops := FillUntil(g, x, i + 1, m);
      states, ops := [f] + states, [Create] + ops;
    }
  }

  /** The file on place m and cmd.tar, which begins inside that place, are both there. */
  ghost predicate Collides(f: Fs, x: nat, m: nat) {
    var s := 1 + FILE_SECTS * m;
    && s in f.files && x in f.files && s < x < s + FILE_SECTS && x + FILE_SECTS < 8 * |f.map_|
    && Used(f.map_, s, s + FILE_SECTS) && Used(f.map_, x, x + FILE_SECTS)
  }

  /** When one of the two is deleted, the other has lost sectors: deleting it as well stops the file system. */
  lemma DeletionStops(f: Fs, x: nat, m: nat) returns (g: Fs)
    requires Collides(f, x, m)
    ensures Next(f, Delete(x), g, FILE_SECTS)
    ensures var s := 1 + FILE_SECTS * m; s in g.files && !Used(g.map_, s, s + FILE_SECTS)
  {
    var s := 1 + FILE_SECTS * m;
    LeftOverIsLess(x, FILE_SECTS);
    var e := x + FILE_SECTS - LeftOver(x, FILE_SECTS);
    g := Fs(Cleared(f.map_, x, e), f.files - {x});
    assert Clears(f.map_, g.map_, x, e);
    ClearsBits(f.map_, g.map_, x, e, x);
    UsedBits(g.map_, s, s + FILE_SECTS, x);
  }

  lemma CollisionIsUnsound(f: Fs, x: nat, m: nat)
    requires Collides(f, x, m)
    ensures !Sound(f, FILE_SECTS)
  {
    assert 1 + FILE_SECTS * m in f.files;
  }

  /** If cmd.tar begins inside place m, the m-th file that is created is given sectors of cmd.tar. When cmd.tar is then
      deleted, deleting that file stops the file system. */
  lemma InstalledFileIsHit(f: Fs, x: nat, m: nat) returns (states: seq<Fs>, ops: seq<Op>)
    requires NewFs(f, x) && 1 + FILE_SECTS * m < x < 1 + FILE_SECTS * m + FILE_SECTS
    ensures Trace(states, ops, FILE_SECTS) && states[0] == f && |ops| == m + 1
    ensures Collides(states[m], x, m) && ops[m] == Delete(x)
    ensures var s := 1 + FILE_SECTS * m; s in states[m + 1].files && !Used(states[m + 1].map_, s, s + FILE_SECTS)
  {
    if m == 0 {
      states, ops := [f], [];
    } else {
      states, ops := FillUntil(f, x, 1, m);
    }
    var g := DeletionStops(states[m], x, m);
    states, ops := states + [g], ops + [Delete(x)];
  }

  /** From a new file system on files stay apart, whatever is created and deleted, exactly if cmd.tar begins on a
      place. */
  lemma StaysSoundExactly(f: Fs, x: nat)
    requires NewFs(f, x)
    ensures StaysSound(f, FILE_SECTS) <==> x % FILE_SECTS == 1
  {
    var m := (x - 1) / FILE_SECTS;
    if x % FILE_SECTS == 1 {
      NewOnGrid(f, x, m);
      forall states, ops | Trace(states, ops, FILE_SECTS) && states[0] == f
        ensures forall i :: 0 <= i < |states| ==> Sound(states[i], FILE_SECTS)
      {
        FilesStayApart(states, ops, 1, FILE_SECTS);
      }
    } else {
      var states, ops := InstalledFileIsHit(f, x, m);
      CollisionIsUnsound(states[m], x, m);
    }
  }

  /** The disk can hold a file system, and its tables end before cmd.tar. */
  predicate Installable(nrSects: nat) {
    INSTALL_START + INSTALL_SECTS < nrSects - LOG_SECTS && 1 <= InstallBit(nrSects)
  }

  /** In terms of the size of the disk: only if its map has 1789 sectors, or 2048 more, and so on, do files stay
      apart. */
  lemma NewFileSystem(f: Fs, nrSects: nat)
    requires Installable(nrSects) && |f.map_| == SECTOR_SIZE * MapSects(nrSects)
    requires f.files == {1, InstallBit(nrSects)} && NewMap(f.map_, InstallBit(nrSects), INSTALL_SECTS)
    ensures StaysSound(f, FILE_SECTS) <==> MapSects(nrSects) % FILE_SECTS == 1789
  {
    StaysSoundExactly(f, InstallBit(nrSects));
  }
}
