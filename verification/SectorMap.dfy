/** The bitmap of the file system: marking a run of sectors as used, and clearing it when the file is deleted. */
module SectorMap {
  const SECTOR_SIZE := 512

  /** A byte of the map: its eight bits, lowest first. */
  type Byte = b: seq<bool> | |b| == 8 witness [false, false, false, false, false, false, false, false]

  const FULL: Byte := [true, true, true, true, true, true, true, true]
  const EMPTY: Byte := [false, false, false, false, false, false, false, false]

  // ---------------------------------------------------------------- what the operations are to do

  /** Bit k of byte j is bit 8 * j + k of the map. The bits from lo up to hi become set; no other bit changes. */
  ghost predicate Marks(old_: seq<Byte>, new_: seq<Byte>, lo: int, hi: int) {
    |new_| == |old_|
    && forall j, k :: 0 <= j < |old_| && 0 <= k < 8 ==> new_[j][k] == (old_[j][k] || lo <= 8 * j + k < hi)
  }

  /** The bits from lo up to hi become clear; no other bit changes. */
  ghost predicate Clears(old_: seq<Byte>, new_: seq<Byte>, lo: int, hi: int) {
    |new_| == |old_|
    && forall j, k :: 0 <= j < |old_| && 0 <= k < 8 ==> new_[j][k] == (old_[j][k] && !(lo <= 8 * j + k < hi))
  }

  /** All bits from lo up to hi are set. */
  ghost predicate Used(map_: seq<Byte>, lo: int, hi: int) {
    forall j, k :: 0 <= j < |map_| && 0 <= k < 8 && lo <= 8 * j + k < hi ==> map_[j][k]
  }

  /** Bit p is the lowest clear bit; it is just beyond the map if there is none. */
  ghost predicate FirstClear(map_: seq<Byte>, p: int) {
    && 0 <= p <= 8 * |map_| && Used(map_, 0, p)
    && forall j, k :: 0 <= j < |map_| && 0 <= k < 8 && 8 * j + k == p ==> !map_[j][k]
  }

  // ---------------------------------------------------------------- a new file system

  /** The sectors of every file that is created, and of the root directory. */
  const FILE_SECTS := 2048
  const LOG_SECTS := 2048
  /** The file cmd.tar lies at fixed sectors of the disk. */
  const INSTALL_START := 0x17000
  const INSTALL_SECTS := 0x800

  /** How many sectors the map of a disk has. */
  function MapSects(nrSects: nat): nat {
    nrSects / (8 * SECTOR_SIZE) + 1
  }

  /** Boot sector, super block, inode map, sector map, and 4096 inodes of 32 bytes come before the data. */
  function FirstDataSect(nrSects: nat): nat {
    1 + 1 + 1 + MapSects(nrSects) + 4096 * 32 / SECTOR_SIZE
  }

  /** The bit of the first sector of cmd.tar. */
  function InstallBit(nrSects: nat): int {
    INSTALL_START - FirstDataSect(nrSects) + 1
  }

  /** The map of a new file system: bit 0, the root directory, and a run of n bits from bit x. */
  ghost predicate NewMap(map_: seq<Byte>, x: int, n: nat) {
    forall j, k :: 0 <= j < |map_| && 0 <= k < 8 ==> map_[j][k] == (8 * j + k <= FILE_SECTS || x <= 8 * j + k < x + n)
  }

  /** NoBit: nothing was asked for. Panic: the file system stops. */
  datatype Outcome = NoBit | Sector(nr: int) | Panic

  /** How many bits of the run of n from bit b the last, partly covered byte holds; deleting a file leaves them set. */
  function LeftOver(b: nat, n: nat): nat {
    if n <= 8 - b % 8 then 0 else (b + n) % 8
  }

  lemma MarksJoin(a: seq<Byte>, b: seq<Byte>, c: seq<Byte>, lo: int, mid: int, hi: int)
    requires Marks(a, b, lo, mid) && Marks(b, c, mid, hi) && lo <= mid <= hi
    ensures Marks(a, c, lo, hi)
  {
  }

  lemma FirstClearIsLeast(map_: seq<Byte>, p: int, q: int)
    requires FirstClear(map_, p) && FirstClear(map_, q)
    ensures p <= q
  {
    if q < 8 * |map_| {
      var j, k := q / 8, q % 8;
      assert 8 * j + k == q && !map_[j][k];
    }
  }

  lemma FirstClearIsUnique(map_: seq<Byte>, p: int, q: int)
    requires FirstClear(map_, p) && FirstClear(map_, q)
    ensures p == q
  {
    FirstClearIsLeast(map_, p, q);
    FirstClearIsLeast(map_, q, p);
  }

  lemma {:induction false} FirstClearExists(map_: seq<Byte>) returns (p: int)
    ensures FirstClear(map_, p)
  {
    if map_ == [] {
      p := 0;
    } else {
      var n := |map_| - 1;
      p := FirstClearExists(map_[..n]);
      assert map_ == map_[..n] + [map_[n]];
      if p == 8 * n {
        var k := 0;
        while k < 8 && map_[n][k]
          invariant 0 <= k <= 8 && forall i :: 0 <= i < k ==> map_[n][i]
        {
          k := k + 1;
        }
        p := 8 * n + k;
      }
    }
  }

  /** cur, with the bytes from a on replaced by those of one sector. */
  function Patched(cur: seq<Byte>, a: nat, sect: seq<Byte>): (r: seq<Byte>)
    requires a + |sect| <= |cur|
    ensures |r| == |cur|
  {
    cur[..a] + sect + cur[a + |sect|..]
  }

  lemma PatchedMarks(cur: seq<Byte>, a: nat, sect: seq<Byte>, lo: int, hi: int)
    requires a + |sect| <= |cur| && Marks(cur[a..a + |sect|], sect, lo, hi) && 0 <= lo
    ensures Marks(cur, Patched(cur, a, sect), 8 * a + lo, 8 * a + Min(hi, 8 * |sect|))
  {
  }

  lemma PatchedClears(cur: seq<Byte>, a: nat, sect: seq<Byte>, lo: int, hi: int)
    requires a + |sect| <= |cur| && Clears(cur[a..a + |sect|], sect, lo, hi) && 0 <= lo
    ensures Clears(cur, Patched(cur, a, sect), 8 * a + lo, 8 * a + Min(hi, 8 * |sect|))
  {
  }

  function Min(a: int, b: int): int {
    if a < b then a else b
  }

  /** The search goes on in the bytes from a up to b. */
  lemma SearchGoesOn(map_: seq<Byte>, a: nat, b: nat, p: int)
    requires a <= b <= |map_| && Used(map_, 0, 8 * a) && FirstClear(map_[a..b], p)
    ensures Used(map_, 0, 8 * a + p)
    ensures p < 8 * (b - a) ==> FirstClear(map_, 8 * a + p)
  {
    var part := map_[a..b];
    forall j, k | 0 <= j < |map_| && 0 <= k < 8 && 8 * j + k < 8 * a + p
      ensures map_[j][k]
    {
      assert j >= a ==> part[j - a][k] == map_[j][k];
    }
    forall j, k | 0 <= j < |map_| && 0 <= k < 8 && 8 * j + k == 8 * a + p && p < 8 * (b - a)
      ensures !map_[j][k]
    {
      assert part[j - a][k] == map_[j][k];
    }
  }

  function Max(a: int, b: int): int {
    if a < b then b else a
  }

  /** What the loop over the map sectors has done after i of them: p is where the run begins, once that is known. */
  ghost predicate Progress(was: seq<Byte>, cur: seq<Byte>, size: nat, i: nat, n: nat, left: nat, free: int, p: int,
                           first: int)
    requires size <= |was|
  {
    if free == 0 then cur == was && left == n && Used(was[..size], 0, 8 * SECTOR_SIZE * i)
    else
      && FirstClear(was[..size], p) && free == p - 1 + first && Marks(was, cur, p, p + (n - left))
      && (if left > 0 then p + (n - left) == 8 * SECTOR_SIZE * i else p + n <= 8 * SECTOR_SIZE * i)
  }

  lemma PatchedChange(cur: seq<Byte>, a: nat, sect: seq<Byte>, i: nat, e: Byte)
    requires a + |sect| <= |cur| && i < |sect|
    ensures Patched(cur, a, sect[i := e]) == Patched(cur, a, sect)[a + i := e]
    ensures Patched(cur, a, sect)[a + i] == sect[i]
  {
  }

  lemma PatchedSame(cur: seq<Byte>, a: nat, b: nat)
    requires a <= b <= |cur|
    ensures Patched(cur, a, cur[a..b]) == cur
  {
  }

  lemma UsedInSector(was: seq<Byte>, a: nat, sect: seq<Byte>, lo: int, hi: int)
    requires a + |sect| <= |was| && sect == was[a..a + |sect|] && 0 <= lo && hi <= 8 * |sect|
    ensures Used(sect, lo, hi) <==> Used(was, 8 * a + lo, 8 * a + hi)
  {
    forall j, k | 0 <= j < |sect| && 0 <= k < 8
      ensures sect[j][k] == was[a + j][k]
    {
    }
    if Used(sect, lo, hi) {
      forall j, k | 0 <= j < |was| && 0 <= k < 8 && 8 * a + lo <= 8 * j + k < 8 * a + hi
        ensures was[j][k]
      {
        assert sect[j - a][k];
      }
    }
  }

  /** What has been checked and cleared of the run from bit b, up to bit e. */
  ghost predicate Released(was: seq<Byte>, v: seq<Byte>, b: int, e: int) {
    Used(was, b, e) && Clears(was, v, b, e)
  }

  /** Another whole byte is released. */
  lemma ReleaseByte(was: seq<Byte>, v: seq<Byte>, b: int, y: nat)
    requires Released(was, v, b, 8 * y) && b <= 8 * y && y < |v|
    ensures v[y] == was[y]
    ensures v[y] == FULL ==> Released(was, v[y := EMPTY], b, 8 * y + 8)
    ensures v[y] == FULL <==> Used(was, 8 * y, 8 * y + 8)
  {
    assert forall k :: 0 <= k < 8 ==> v[y][k] == was[y][k];
    assert v[y] == was[y];
    assert forall k :: 0 <= k < 8 ==> FULL[k] && !EMPTY[k];
    if Used(was, 8 * y, 8 * y + 8) {
      assert was[y] == FULL;
    }
  }

  /** The check of the last byte sees the run as it was. */
  lemma LastIsUsed(was: seq<Byte>, v: seq<Byte>, cur: seq<Byte>, a: nat, sect: seq<Byte>, i: nat, b: int, e: int,
                   left: nat)
    requires Released(was, v, b, e) && a + |sect| <= |cur| && v == Patched(cur, a, sect) && i < |sect| && left < 8
    requires b <= e
    requires left == 0 || e == 8 * (a + i)
    ensures Used(sect, 8 * i, 8 * i + left) <==> Used(was, e, e + left)
    ensures Used(was, b, e + left) <==> Used(was, e, e + left)
  {
    if left > 0 {
      assert forall k :: 0 <= k < 8 ==> sect[i][k] == v[a + i][k] == was[a + i][k];
    }
  }

  /** The loop over one sector found nothing. */
  lemma ProgressIdle(was: seq<Byte>, size: nat, i: nat, n: nat, first: int, p0: int)
    requires size <= |was| && (i + 1) * SECTOR_SIZE <= size && Progress(was, was, size, i, n, n, 0, p0, first)
    requires FirstClear(was[i * SECTOR_SIZE..(i + 1) * SECTOR_SIZE], 8 * SECTOR_SIZE)
    ensures Progress(was, was, size, i + 1, n, n, 0, p0, first)
  {
    var a := i * SECTOR_SIZE;
    assert was[..size][a..a + SECTOR_SIZE] == was[a..a + SECTOR_SIZE];
    SearchGoesOn(was[..size], a, a + SECTOR_SIZE, 8 * SECTOR_SIZE);
  }

  /** The loop over one sector found the first clear bit, bit q of that sector. */
  lemma ProgressFound(was: seq<Byte>, size: nat, i: nat, n: nat, first: int, p0: int, sect: seq<Byte>, q: int)
    requires size <= |was| && (i + 1) * SECTOR_SIZE <= size && Progress(was, was, size, i, n, n, 0, p0, first)
    requires 2 <= first && 0 < n && |sect| == SECTOR_SIZE && q < 8 * SECTOR_SIZE
    requires FirstClear(was[i * SECTOR_SIZE..(i + 1) * SECTOR_SIZE], q)
    requires Marks(was[i * SECTOR_SIZE..(i + 1) * SECTOR_SIZE], sect, q, q + n)
    ensures var a := i * SECTOR_SIZE;
            Progress(was, Patched(was, a, sect), size, i + 1, n, Max(0, n - (8 * SECTOR_SIZE - q)),
                     8 * a + q - 1 + first, 8 * a + q, first)
  {
    var a := i * SECTOR_SIZE;
    assert was[..size][a..a + SECTOR_SIZE] == was[a..a + SECTOR_SIZE];
    SearchGoesOn(was[..size], a, a + SECTOR_SIZE, q);
    PatchedMarks(was, a, sect, q, q + n);
  }

  /** The run goes on from the start of this sector. */
  lemma ProgressMore(was: seq<Byte>, cur: seq<Byte>, size: nat, i: nat, n: nat, left: nat, free: int, p: int,
                     first: int, sect: seq<Byte>)
    requires size <= |was| && (i + 1) * SECTOR_SIZE <= size && Progress(was, cur, size, i, n, left, free, p, first)
    requires free != 0 && 0 < left <= n && |sect| == SECTOR_SIZE
    requires |cur| == |was| && Marks(cur[i * SECTOR_SIZE..(i + 1) * SECTOR_SIZE], sect, 0, left)
    ensures Progress(was, Patched(cur, i * SECTOR_SIZE, sect), size, i + 1, n, Max(0, left - 8 * SECTOR_SIZE), free,
                     p, first)
  {
    var a := i * SECTOR_SIZE;
    var next := Patched(cur, a, sect);
    var left1 := Max(0, left - 8 * SECTOR_SIZE);
    assert Marks(cur, next, 8 * a, 8 * a + Min(left, 8 * SECTOR_SIZE)) by {
      PatchedMarks(cur, a, sect, 0, left);
    }
    assert p + (n - left) == 8 * a && p + (n - left1) == 8 * a + Min(left, 8 * SECTOR_SIZE);
    MarksJoin(was, cur, next, p, p + (n - left), p + (n - left1));
  }

  /** A run is the bits of its first byte, whole bytes, and what is left over. */
  lemma RunSplits(b: nat, n: nat, byteCount: int)
    requires byteCount == (n - (8 - b % 8)) / 8
    ensures var m := Min(8 - b % 8, n);
            && n - m - 8 * Max(0, byteCount) == LeftOver(b, n) <= n && LeftOver(b, n) < 8
            && (byteCount > 0 || LeftOver(b, n) > 0 ==> b + m == 8 * (b / 8 + 1))
            && 8 * (b / 8 + 1 + Max(0, byteCount)) <= b + n + 8
  {
  }

  /** Another sector of zeros belongs to the map. */
  lemma NewMapGrows(was: seq<Byte>, sect: seq<Byte>, i: nat)
    requires 0 < i && (i + 1) * SECTOR_SIZE <= |was| && |sect| == SECTOR_SIZE
    requires NewMap(was[..i * SECTOR_SIZE], 0, 0) && forall j :: 0 <= j < SECTOR_SIZE ==> sect[j] == EMPTY
    ensures var now := Patched(was, i * SECTOR_SIZE, sect);
            && NewMap(now[..(i + 1) * SECTOR_SIZE], 0, 0)
            && (forall j :: (i + 1) * SECTOR_SIZE <= j < |was| ==> now[j] == was[j])
  {
    var a := i * SECTOR_SIZE;
    var now := Patched(was, a, sect)[..a + SECTOR_SIZE];
    forall j, k | 0 <= j < |now| && 0 <= k < 8
      ensures now[j][k] == (8 * j + k <= FILE_SECTS)
    {
      assert if j < a then now[j] == was[..a][j] else now[j] == sect[j - a];
    }
  }

  lemma MarkOne(was: seq<Byte>, v: seq<Byte>, b: nat, e: nat)
    requires Marks(was, v, b, e) && b <= e < 8 * |was|
    ensures Marks(was, v[e / 8 := v[e / 8][e % 8 := true]], b, e + 1)
  {
    var w := v[e / 8 := v[e / 8][e % 8 := true]];
    forall j, k | 0 <= j < |was| && 0 <= k < 8
      ensures w[j][k] == (was[j][k] || b <= 8 * j + k < e + 1)
    {
      assert 8 * j + k == e <==> j == e / 8 && k == e % 8;
    }
  }

  lemma MarkedIsNew(was: seq<Byte>, now: seq<Byte>, size: nat, x: int, n: nat)
    requires size <= |was| && NewMap(was[..size], 0, 0) && Marks(was, now, x, x + n) && x + n <= 8 * size
    ensures NewMap(now[..size], x, n) && now[size..] == was[size..]
  {
    forall j, k | 0 <= j < size && 0 <= k < 8
      ensures now[..size][j][k] == (8 * j + k <= FILE_SECTS || x <= 8 * j + k < x + n)
    {
      assert now[..size][j] == now[j] && was[..size][j] == was[j];
    }
    forall j | size <= j < |was|
      ensures now[j] == was[j]
    {
      assert forall k :: 0 <= k < 8 ==> now[j][k] == was[j][k];
    }
  }

  // ---------------------------------------------------------------- the operations as written

  class Disk {
    /** The map, and at least one byte of what follows it on the disk. */
    const sectors: array<Byte>
    const buffer: array<Byte>

    ghost predicate Valid() {
      buffer != sectors && buffer.Length == SECTOR_SIZE && sectors.Length % SECTOR_SIZE == 0
    }

    constructor (nrSects: nat)
      ensures Valid() && sectors.Length == nrSects * SECTOR_SIZE
      ensures sectors[..] == seq(nrSects * SECTOR_SIZE, _ => EMPTY)
      ensures fresh(sectors) && fresh(buffer)
    {
      sectors := new Byte[nrSects * SECTOR_SIZE](_ => EMPTY);
      buffer := new Byte[SECTOR_SIZE](_ => EMPTY);
    }

    method ReadSect(i: nat)
      requires Valid() && (i + 1) * SECTOR_SIZE <= sectors.Length
      modifies buffer
      ensures buffer[..] == sectors[i * SECTOR_SIZE..(i + 1) * SECTOR_SIZE]
    {
      forall j | 0 <= j < SECTOR_SIZE {
        buffer[j] := sectors[i * SECTOR_SIZE + j];
      }
    }

    method WriteSect(i: nat)
      requires Valid() && (i + 1) * SECTOR_SIZE <= sectors.Length
      modifies sectors
      ensures sectors[..] == Patched(old(sectors[..]), i * SECTOR_SIZE, buffer[..])
    {
      forall j | 0 <= j < SECTOR_SIZE {
        sectors[i * SECTOR_SIZE + j] := buffer[j];
      }
    }

    /** Sets bits of byte j from bit k on, as long as sectors are wanted. */
    method MarkByte(j: nat, k0: nat, wanted: nat) returns (left: nat)
      requires Valid() && j < SECTOR_SIZE && k0 < 8 && 0 < wanted
      modifies buffer
      ensures Marks(old(buffer[..]), buffer[..], 8 * j + k0, if k0 + wanted < 8 then 8 * j + k0 + wanted else 8 * j + 8)
      ensures left == if k0 + wanted < 8 then 0 else wanted - (8 - k0)
    {
      var k := k0;
      left := wanted;
      ghost var b := buffer[j];
      while k < 8
        invariant k0 <= k <= 8 && left + (k - k0) == wanted && (0 < left || k == 8)
        invariant buffer[..] == old(buffer[..])[j := buffer[j]]
        invariant forall i :: 0 <= i < 8 ==> buffer[j][i] == (b[i] || k0 <= i < k)
      {
        buffer[j] := buffer[j][k := true];
        left := left - 1;
        k := k + 1;
        if left == 0 {
          break;
        }
      }
    }

    /** The first clear bit of byte j, which is not full. */
    method FindBit(j: nat) returns (k: nat)
      requires Valid() && j < SECTOR_SIZE && buffer[j] != FULL
      ensures k < 8 && !buffer[j][k] && forall i :: 0 <= i < k ==> buffer[j][i]
    {
      k := 0;
      assert exists i :: 0 <= i < 8 && !buffer[j][i] by {
        assert forall i :: 0 <= i < 8 ==> FULL[i];
      }
      while buffer[j][k]
        invariant k < 8 && forall i :: 0 <= i < k ==> buffer[j][i]
        decreases 8 - k
      {
        k := k + 1;
      }
    }

    /** The loop over the bytes of map sector i. free is the sector found, or 0; p says where the marks begin. */
    method MarkSector(i: nat, wanted: nat, free0: int, first: int) returns (left: nat, free: int, ghost p: int)
      requires Valid() && 0 < wanted && 0 <= free0 && 2 <= first
      modifies buffer
      ensures if free0 != 0 then p == 0 && free == free0 else FirstClear(old(buffer[..]), p)
      ensures free0 == 0 ==> free == if p < 8 * SECTOR_SIZE then i * SECTOR_SIZE * 8 + p - 1 + first else 0
      ensures left == if free == 0 then wanted else Max(0, wanted - (8 * SECTOR_SIZE - p))
      ensures Marks(old(buffer[..]), buffer[..], p, if free == 0 then p else p + wanted)
    {
      left, free, p := wanted, free0, 0;
      ghost var before := buffer[..];
      var j: nat := 0;
      while j < SECTOR_SIZE && left > 0
        invariant j <= SECTOR_SIZE && left <= wanted && 0 <= p && (free0 != 0 ==> p == 0 && free == free0)
        invariant free == 0 ==> free0 == 0 && left == wanted && buffer[..] == before && Used(before, 0, 8 * j)
        invariant free != 0 && free0 == 0 ==>
                    FirstClear(before, p) && p < 8 * SECTOR_SIZE && free == i * SECTOR_SIZE * 8 + p - 1 + first
        invariant free != 0 ==> Marks(before, buffer[..], p, p + (wanted - left))
        invariant free != 0 ==> if left > 0 then p + (wanted - left) == 8 * j else p + wanted <= 8 * j
      {
        var k: nat := 0;
        if free == 0 {
          if buffer[j] == FULL {
            j := j + 1;
            continue;
          }
          k := FindBit(j);
          free := (i * SECTOR_SIZE + j) * 8 + k - 1 + first;
          p := 8 * j + k;
        }
        ghost var old_, was := buffer[..], left;
        left := MarkByte(j, k, left);
        MarksJoin(before, old_, buffer[..], p, p + (wanted - was), p + (wanted - left));
        j := j + 1;
      }
      if free == 0 {
        p := 8 * SECTOR_SIZE;
      } else {
        assert Marks(before, buffer[..], p, p + wanted);
      }
    }

    /** One turn of the loop over the map sectors. */
    method AllocSector(i: nat, nrSmap: nat, n: nat, left0: nat, free0: int, first: int, ghost p0: int,
                       ghost was: seq<Byte>)
      returns (left: nat, free: int, ghost p: int)
      requires Valid() && i < nrSmap && nrSmap * SECTOR_SIZE <= sectors.Length == |was| && 0 < left0 <= n && 2 <= first
      requires 0 <= free0 && Progress(was, sectors[..], nrSmap * SECTOR_SIZE, i, n, left0, free0, p0, first)
      modifies buffer, sectors
      ensures left <= n && 0 <= free
      ensures Progress(was, sectors[..], nrSmap * SECTOR_SIZE, i + 1, n, left, free, p, first)
    {
      ghost var size, cur := nrSmap * SECTOR_SIZE, sectors[..];
      ReadSect(i);
      assert buffer[..] == cur[i * SECTOR_SIZE..(i + 1) * SECTOR_SIZE];
      left, free, p := MarkSector(i, left0, free0, first);
      if free != 0 {
        WriteSect(i);
      }
      if free == 0 {
        ProgressIdle(was, size, i, n, first, p0);
        p := p0;
      } else if free0 == 0 {
        ProgressFound(was, size, i, n, first, p0, buffer[..], p);
        p := 8 * SECTOR_SIZE * i + p;
      } else {
        ProgressMore(was, cur, size, i, n, left0, free0, p0, first, buffer[..]);
        p := p0;
      }
    }

    /** alloc_smap_bit, for a map of nrSmap sectors; p is the first clear bit. */
    method AllocSmapBit(n: int, nrSmap: nat, first: int) returns (r: Outcome, ghost p: int)
      requires Valid() && nrSmap * SECTOR_SIZE <= sectors.Length && 2 <= first
      modifies buffer, sectors
      ensures FirstClear(old(sectors[..nrSmap * SECTOR_SIZE]), p)
      ensures n <= 0 ==> r == NoBit && sectors[..] == old(sectors[..])
      ensures n > 0 ==> r == if p + n <= 8 * nrSmap * SECTOR_SIZE then Sector(p - 1 + first) else Panic
      ensures r.Sector? ==> Marks(old(sectors[..]), sectors[..], p, p + n)
    {
      ghost var was, size := sectors[..], nrSmap * SECTOR_SIZE;
      p := FirstClearExists(was[..size]);
      if n <= 0 {
        return NoBit, p;
      }
      var left: nat, free := n, 0;
      var i: nat := 0;
      ghost var q := p;
      while i < nrSmap
        invariant i <= nrSmap && left <= n && 0 < left && 0 <= free
        invariant Progress(was, sectors[..], size, i, n, left, free, q, first)
      {
        left, free, q := AllocSector(i, nrSmap, n, left, free, first, q, was);
        i := i + 1;
        if left == 0 {
          break;
        }
      }
      if free == 0 {
        assert FirstClear(was[..size], 8 * size);
        q := 8 * size;
      }
      FirstClearIsUnique(was[..size], p, q);
      r := if left != 0 then Panic else Sector(free);
    }

    /** Clears bits of byte j from bit k on, as long as any are left; false if one of them is not set. */
    method ClearBits(j: nat, k0: nat, wanted: nat) returns (ok: bool, left: nat)
      requires Valid() && j < SECTOR_SIZE && k0 < 8
      modifies buffer
      ensures var m := Min(8 - k0, wanted);
              && (ok <==> Used(old(buffer[..]), 8 * j + k0, 8 * j + k0 + m))
              && (ok ==> left == wanted - m && Clears(old(buffer[..]), buffer[..], 8 * j + k0, 8 * j + k0 + m))
    {
      var k := k0;
      left := wanted;
      ghost var b := buffer[j];
      while k < 8 && left > 0
        invariant k0 <= k <= 8 && left + (k - k0) == wanted
        invariant buffer[..] == old(buffer[..])[j := buffer[j]]
        invariant forall i :: 0 <= i < 8 ==> buffer[j][i] == (b[i] && !(k0 <= i < k))
        invariant forall i :: k0 <= i < k ==> b[i]
      {
        if !buffer[j][k] {
          assert !old(buffer[..])[j][k];
          return false, left;
        }
        buffer[j] := buffer[j][k := false];
        left := left - 1;
        k := k + 1;
      }
      ok := true;
    }

    /** At the end of the buffer it is written, and the next sector is read. */
    method Advance(cur0: nat, i0: nat, ghost v: seq<Byte>) returns (cur: nat, i: nat)
      requires Valid() && i0 <= SECTOR_SIZE && cur0 * SECTOR_SIZE + i0 < sectors.Length
      requires v == Patched(sectors[..], cur0 * SECTOR_SIZE, buffer[..])
      modifies buffer, sectors
      ensures i < SECTOR_SIZE && cur * SECTOR_SIZE + i == cur0 * SECTOR_SIZE + i0
      ensures (cur + 1) * SECTOR_SIZE <= sectors.Length
      ensures v == Patched(sectors[..], cur * SECTOR_SIZE, buffer[..])
    {
      cur, i := cur0, i0;
      if i == SECTOR_SIZE {
        i := 0;
        WriteSect(cur);
        cur := cur + 1;
        ReadSect(cur);
        PatchedSame(v, cur * SECTOR_SIZE, (cur + 1) * SECTOR_SIZE);
      }
    }

    /** Clears whole bytes, from byte i of the buffer on. */
    method ClearMiddle(cur0: nat, i0: nat, byteCount: int, ghost b: int, ghost was: seq<Byte>)
      returns (ok: bool, cur: nat, i: nat, ghost v: seq<Byte>)
      requires Valid() && i0 <= SECTOR_SIZE && cur0 * SECTOR_SIZE + i0 + Max(0, byteCount) < sectors.Length == |was|
      requires b <= 8 * (cur0 * SECTOR_SIZE + i0)
      requires Released(was, Patched(sectors[..], cur0 * SECTOR_SIZE, buffer[..]), b, 8 * (cur0 * SECTOR_SIZE + i0))
      modifies buffer, sectors
      ensures i <= SECTOR_SIZE && (cur + 1) * SECTOR_SIZE <= sectors.Length
      ensures ok <==> Used(was, b, 8 * (cur0 * SECTOR_SIZE + i0 + Max(0, byteCount)))
      ensures ok ==> cur * SECTOR_SIZE + i == cur0 * SECTOR_SIZE + i0 + Max(0, byteCount)
                     && v == Patched(sectors[..], cur * SECTOR_SIZE, buffer[..])
                        && Released(was, v, b, 8 * (cur * SECTOR_SIZE + i))
    {
      cur, i := cur0, i0;
      v := Patched(sectors[..], cur * SECTOR_SIZE, buffer[..]);
      var k := 0;
      while k < byteCount
        invariant 0 <= k <= Max(0, byteCount) && i <= SECTOR_SIZE && (cur + 1) * SECTOR_SIZE <= sectors.Length
        invariant cur * SECTOR_SIZE + i == cur0 * SECTOR_SIZE + i0 + k
        invariant v == Patched(sectors[..], cur * SECTOR_SIZE, buffer[..])
        invariant Released(was, v, b, 8 * (cur * SECTOR_SIZE + i))
      {
        cur, i := Advance(cur, i, v);
        ghost var y, sect := cur * SECTOR_SIZE + i, buffer[..];
        PatchedChange(sectors[..], cur * SECTOR_SIZE, sect, i, EMPTY);
        ReleaseByte(was, v, b, y);
        if buffer[i] != FULL {
          return false, cur, i, v;
        }
        buffer[i] := EMPTY;
        assert buffer[..] == sect[i := EMPTY];
        v := v[y := EMPTY];
        k := k + 1;
        i := i + 1;
      }
      ok := true;
    }

    /** The first byte of a run, in the buffer that holds sector cur. */
    method ClearFirst(b: nat, n: nat, ghost was: seq<Byte>) returns (ok: bool, left: nat, cur: nat, i: nat)
      requires Valid() && b + n + 16 <= 8 * sectors.Length && was == sectors[..]
      modifies buffer
      ensures cur * SECTOR_SIZE + i == b / 8 + 1 && 0 < i <= SECTOR_SIZE && (cur + 1) * SECTOR_SIZE <= sectors.Length
      ensures var m := Min(8 - b % 8, n);
              && (ok <==> Used(was, b, b + m))
              && (ok ==> left == n - m && Released(was, Patched(sectors[..], cur * SECTOR_SIZE, buffer[..]), b, b + m))
    {
      cur := b / 8 / SECTOR_SIZE;
      var j := b / 8 % SECTOR_SIZE;
      assert cur * SECTOR_SIZE + j == b / 8;
      ReadSect(cur);
      ghost var sect, a := buffer[..], cur * SECTOR_SIZE;
      assert sect == was[a..a + SECTOR_SIZE];
      ok, left := ClearBits(j, b % 8, n);
      i := j + 1;
      ghost var m := Min(8 - b % 8, n);
      assert 8 * a + 8 * j + b % 8 == b;
      UsedInSector(was, a, sect, 8 * j + b % 8, 8 * j + b % 8 + m);
      if ok {
        PatchedClears(was, a, buffer[..], 8 * j + b % 8, 8 * j + b % 8 + m);
      }
    }

    /** The last, partly covered byte is checked. */
    method CheckLast(i: nat, left: nat) returns (ok: bool)
      requires Valid() && i < SECTOR_SIZE && left < 8
      ensures ok <==> Used(buffer[..], 8 * i, 8 * i + left)
    {
      var k := 0;
      while k < left
        invariant 0 <= k <= left && forall h :: 0 <= h < k ==> buffer[i][h]
      {
        if !buffer[i][k] {
          assert !buffer[..][i][k];
          return false;
        }
        k := k + 1;
      }
      ok := true;
    }

    /** The last byte is checked and the last sector written; e is the bit behind those that are cleared. */
    method ReleaseLast(cur0: nat, i0: nat, left: nat, ghost b: int, ghost e: int, ghost was: seq<Byte>,
                       ghost v: seq<Byte>)
      returns (ok: bool)
      requires Valid() && i0 <= SECTOR_SIZE && cur0 * SECTOR_SIZE + i0 < sectors.Length && left < 8 && b <= e
      requires v == Patched(sectors[..], cur0 * SECTOR_SIZE, buffer[..]) && Released(was, v, b, e)
      requires left == 0 || e == 8 * (cur0 * SECTOR_SIZE + i0)
      modifies buffer, sectors
      ensures ok <==> Used(was, b, e + left)
      ensures ok ==> sectors[..] == v
    {
      var cur, i := Advance(cur0, i0, v);
      ok := CheckLast(i, left);
      LastIsUsed(was, v, sectors[..], cur * SECTOR_SIZE, buffer[..], i, b, e, left);
      WriteSect(cur);
    }

    /** The sector map part of do_unlink, for a file whose n sectors start at bit b; false where the file system
        stops. */
    method ReleaseRun(b: nat, n: nat) returns (ok: bool)
      requires Valid() && b + n + 16 <= 8 * sectors.Length
      modifies buffer, sectors
      ensures ok <==> Used(old(sectors[..]), b, b + n)
      ensures ok ==> Clears(old(sectors[..]), sectors[..], b, b + n - LeftOver(b, n))
    {
      ghost var was := sectors[..];
      // However a negative count is rounded, no middle byte is cleared then.
      var byteCount := (n - (8 - b % 8)) / 8;
      RunSplits(b, n, byteCount);
      var left, cur, i;
      ok, left, cur, i := ClearFirst(b, n, was);
      if !ok {
        return;
      }
      ghost var v := Patched(sectors[..], cur * SECTOR_SIZE, buffer[..]);
      if byteCount > 0 {
        ok, cur, i, v := ClearMiddle(cur, i, byteCount, b, was);
        if !ok {
          return;
        }
        left := left - 8 * byteCount;
      }
      ok := ReleaseLast(cur, i, left, b, b + n - left, was, v);
    }

    /** alloc_imap_bit, for a map of nrImap sectors: only the first is ever looked at, and if it is full the answer is
        0. */
    method AllocImapBit(nrImap: nat) returns (r: Outcome, ghost p: int)
      requires Valid() && nrImap * SECTOR_SIZE <= sectors.Length
      modifies buffer, sectors
      ensures nrImap == 0 ==> r == Panic && sectors[..] == old(sectors[..])
      ensures nrImap > 0 ==> FirstClear(old(sectors[..SECTOR_SIZE]), p)
      ensures nrImap > 0 && p < 8 * SECTOR_SIZE ==> r == Sector(p) && Marks(old(sectors[..]), sectors[..], p, p + 1)
      ensures nrImap > 0 && p == 8 * SECTOR_SIZE ==> r == Sector(0) && sectors[..] == old(sectors[..])
    {
      ghost var was := sectors[..];
      p := 0;
      if nrImap == 0 {
        return Panic, p;
      }
      ReadSect(0);
      assert buffer[..] == was[..SECTOR_SIZE] == was[0..SECTOR_SIZE];
      var j := 0;
      while j < SECTOR_SIZE
        invariant 0 <= j <= SECTOR_SIZE && sectors[..] == was && buffer[..] == was[..SECTOR_SIZE]
        invariant Used(was[..SECTOR_SIZE], 0, 8 * j)
      {
        if buffer[j] != FULL {
          var k := FindBit(j);
          p := 8 * j + k;
          var left := MarkByte(j, k, 1);
          WriteSect(0);
          PatchedMarks(was, 0, buffer[..], p, p + 1);
          return Sector(j * 8 + k), p;
        }
        j := j + 1;
      }
      return Sector(0), 8 * SECTOR_SIZE;
    }

    // -------------------------------------------------------------- making a file system

    method ClearBuffer()
      requires Valid()
      modifies buffer
      ensures forall j :: 0 <= j < SECTOR_SIZE ==> buffer[j] == EMPTY
    {
      forall j | 0 <= j < SECTOR_SIZE {
        buffer[j] := EMPTY;
      }
    }

    /** The first sector of the map: bit 0 and the sectors of the root directory. */
    method ReserveRoot()
      requires Valid()
      modifies buffer
      ensures forall j, k :: 0 <= j < SECTOR_SIZE && 0 <= k < 8 ==> buffer[j][k] == (8 * j + k < FILE_SECTS + 1)
    {
      ClearBuffer();
      var n := FILE_SECTS + 1;
      var i := 0;
      while i < n / 8
        invariant 0 <= i <= n / 8
        invariant forall j :: 0 <= j < SECTOR_SIZE ==> buffer[j] == if j < i then FULL else EMPTY
      {
        buffer[i] := FULL;
        i := i + 1;
      }
      var j := 0;
      while j < n % 8
        invariant 0 <= j <= n % 8
        invariant forall l :: 0 <= l < SECTOR_SIZE && l != i ==> buffer[l] == if l < i then FULL else EMPTY
        invariant forall k :: 0 <= k < 8 ==> buffer[i][k] == (k < j)
      {
        buffer[i] := buffer[i][j := true];
        j := j + 1;
      }
    }

    /** The map before cmd.tar is entered. */
    method ClearMap(nrSmap: nat)
      requires Valid() && 0 < nrSmap && nrSmap * SECTOR_SIZE <= sectors.Length
      modifies buffer, sectors
      ensures NewMap(sectors[..nrSmap * SECTOR_SIZE], 0, 0)
      ensures sectors[nrSmap * SECTOR_SIZE..] == old(sectors[nrSmap * SECTOR_SIZE..])
    {
      ReserveRoot();
      WriteSect(0);
      ClearBuffer();
      var i := 1;
      while i < nrSmap
        invariant 1 <= i <= nrSmap && forall j :: 0 <= j < SECTOR_SIZE ==> buffer[j] == EMPTY
        invariant NewMap(sectors[..i * SECTOR_SIZE], 0, 0)
        invariant sectors[nrSmap * SECTOR_SIZE..] == old(sectors[nrSmap * SECTOR_SIZE..])
      {
        ghost var was := sectors[..];
        WriteSect(i);
        NewMapGrows(was, buffer[..], i);
        i := i + 1;
      }
    }

    /** Sets bit off of the buffer, which is bit e of the map. */
    method MarkBit(cur: nat, off: nat, ghost v0: seq<Byte>, ghost was: seq<Byte>, ghost b: nat, ghost e: nat)
      returns (ghost v: seq<Byte>)
      requires Valid() && off < 8 * SECTOR_SIZE && (cur + 1) * SECTOR_SIZE <= sectors.Length
      requires v0 == Patched(sectors[..], cur * SECTOR_SIZE, buffer[..]) && Marks(was, v0, b, e)
      requires b <= e == 8 * SECTOR_SIZE * cur + off
      modifies buffer
      ensures v == Patched(sectors[..], cur * SECTOR_SIZE, buffer[..]) && Marks(was, v, b, e + 1)
    {
      var j := off / 8;
      ghost var sect, y := buffer[..], cur * SECTOR_SIZE + j;
      assert y == e / 8 && off % 8 == e % 8;
      buffer[j] := buffer[j][off % 8 := true];
      PatchedChange(sectors[..], cur * SECTOR_SIZE, sect, j, buffer[j]);
      assert buffer[..] == sect[j := buffer[j]];
      MarkOne(was, v0, b, e);
      v := v0[y := buffer[j]];
    }

    /** At the end of the buffer it is written, and the next sector is read. */
    method NextSector(cur0: nat, off0: nat, ghost v: seq<Byte>) returns (cur: nat, off: nat)
      requires Valid() && off0 <= 8 * SECTOR_SIZE && 8 * SECTOR_SIZE * cur0 + off0 < 8 * sectors.Length
      requires v == Patched(sectors[..], cur0 * SECTOR_SIZE, buffer[..])
      modifies buffer, sectors
      ensures off < 8 * SECTOR_SIZE && 8 * SECTOR_SIZE * cur + off == 8 * SECTOR_SIZE * cur0 + off0
      ensures v == Patched(sectors[..], cur * SECTOR_SIZE, buffer[..])
    {
      cur, off := cur0, off0;
      if off == 8 * SECTOR_SIZE {
        WriteSect(cur);
        cur := cur + 1;
        ReadSect(cur);
        PatchedSame(v, cur * SECTOR_SIZE, (cur + 1) * SECTOR_SIZE);
        off := 0;
      }
    }

    /** Sets the bits from b on one by one, going from sector to sector. */
    method MarkRun(b: nat, n: nat)
      requires Valid() && b + n < 8 * sectors.Length
      modifies buffer, sectors
      ensures Marks(old(sectors[..]), sectors[..], b, b + n)
    {
      var off: nat := b % (8 * SECTOR_SIZE);
      var left: nat := n;
      var cur: nat := b / (8 * SECTOR_SIZE);
      ghost var was, v := sectors[..], sectors[..];
      ReadSect(cur);
      PatchedSame(v, cur * SECTOR_SIZE, (cur + 1) * SECTOR_SIZE);
      while left > 0
        invariant left <= n && off < 8 * SECTOR_SIZE && 8 * SECTOR_SIZE * cur + off == b + (n - left)
        invariant (cur + 1) * SECTOR_SIZE <= sectors.Length
        invariant v == Patched(sectors[..], cur * SECTOR_SIZE, buffer[..]) && Marks(was, v, b, b + (n - left))
      {
        v := MarkBit(cur, off, v, was, b, b + (n - left));
        left := left - 1;
        cur, off := NextSector(cur, off + 1, v);
      }
      WriteSect(cur);
    }

    /** The sector map part of mkfs_flyanx; false where the file system stops. */
    method MakeMap(nrSects: nat) returns (ok: bool)
      requires Valid() && LOG_SECTS <= nrSects && 0 <= InstallBit(nrSects)
      requires MapSects(nrSects) * SECTOR_SIZE <= sectors.Length
      modifies buffer, sectors
      ensures ok <==> INSTALL_START + INSTALL_SECTS < nrSects - LOG_SECTS
      ensures ok ==> NewMap(sectors[..MapSects(nrSects) * SECTOR_SIZE], InstallBit(nrSects), INSTALL_SECTS)
      ensures sectors[MapSects(nrSects) * SECTOR_SIZE..] == old(sectors[MapSects(nrSects) * SECTOR_SIZE..])
    {
      var nrSmap := MapSects(nrSects);
      ClearMap(nrSmap);
      if INSTALL_START + INSTALL_SECTS >= nrSects - LOG_SECTS {
        return false;
      }
      ghost var was := sectors[..];
      MarkRun(InstallBit(nrSects), INSTALL_SECTS);
      MarkedIsNew(was, sectors[..], nrSmap * SECTOR_SIZE, InstallBit(nrSects), INSTALL_SECTS);
      ok := true;
    }
  }

  // ---------------------------------------------------------------- deleting a file

  ghost predicate Free(map_: seq<Byte>, lo: int, hi: int) {
    forall j, k :: 0 <= j < |map_| && 0 <= k < 8 && lo <= 8 * j + k < hi ==> !map_[j][k]
  }

  /** All bits from b up to h were set, and those up to e are cleared. */
  lemma ClearedUpTo(was: seq<Byte>, new_: seq<Byte>, b: nat, e: nat, h: nat)
    requires b <= e <= h <= 8 * |was| && Used(was, b, h) && Clears(was, new_, b, e)
    ensures Used(new_, e, h) && (e == h ==> Free(new_, b, h))
    ensures e < h ==> exists j, k :: 0 <= j < |new_| && 0 <= k < 8 && b <= 8 * j + k < h && new_[j][k]
  {
    if e < h {
      var j, k := e / 8, e % 8;
      assert 8 * j + k == e && new_[j][k];
    }
  }

  /** Deleting a file frees all its sectors exactly if its run ends with its first byte or on a byte boundary. */
  lemma AllAreFreedExactly(was: seq<Byte>, new_: seq<Byte>, b: nat, n: nat)
    requires b + n <= 8 * |was| && Used(was, b, b + n) && Clears(was, new_, b, b + n - LeftOver(b, n))
    ensures Free(new_, b, b + n) <==> b % 8 + n <= 8 || (b + n) % 8 == 0
    ensures Used(new_, b + n - LeftOver(b, n), b + n)
  {
    RunSplits(b, n, (n - (8 - b % 8)) / 8);
    ClearedUpTo(was, new_, b, b + n - LeftOver(b, n), b + n);
  }

  /** Files of the default size leave as many sectors marked as there are bits before their first one in its byte. */
  lemma DefaultFilesKeep(b: nat)
    ensures LeftOver(b, FILE_SECTS) == b % 8
  {
  }

  /** That is one for every file that has a place of its own, and another number for cmd.tar on seven disks of eight. */
  lemma DefaultFilesKeepOneSector(m: nat, nrSects: nat)
    requires 0 <= InstallBit(nrSects)
    ensures LeftOver(1 + FILE_SECTS * m, FILE_SECTS) == 1
    ensures LeftOver(InstallBit(nrSects), INSTALL_SECTS) == 1 <==> MapSects(nrSects) % 8 == 5
  {
    DefaultFilesKeep(1 + FILE_SECTS * m);
    DefaultFilesKeep(InstallBit(nrSects));
  }
}
