/** Reading and writing a regular file: whole sectors go through one buffer, in chunks. */
module FileTransfer {
  const SECTOR_SIZE := 512

  type Byte = b: nat | b < 256

  function Min(a: int, b: int): int {
    if a < b then a else b
  }

  function Max(a: int, b: int): int {
    if a < b then b else a
  }

  /** How many sectors the loop from sector first to sector last passes over, chunk by chunk. */
  function Covered(first: int, last: int, chunk: int): (c: nat)
    requires 0 < chunk
    ensures first <= last ==> last - first < c
    ensures last < first ==> c == 0
    decreases last - first
  {
    if last < first then 0 else chunk + Covered(first + chunk, last, chunk)
  }

  /** The sectors of one transfer, relative to the start of the disk. */
  datatype Plan = Plan(first: int, last: int, chunk: int)

  /** A transfer of n bytes at pos that is to end by `limit`, through a buffer of `room` sectors. */
  function Planned(start: nat, pos: nat, n: nat, limit: nat, room: nat): (p: Plan)
  {
    var first, last := start + pos / SECTOR_SIZE, start + Min(pos + n, limit) / SECTOR_SIZE;
    Plan(first, last, Min(last - first + 1, room))
  }

  /** The sector after the last one that is transferred. */
  function Beyond(p: Plan): (e: int)
    ensures p.first <= e
  {
    if p.last < p.first || p.chunk <= 0 then p.first else p.first + Covered(p.first, p.last, p.chunk)
  }

  /** How many of n bytes fit into the sectors of a plan, from byte off of the first one on. */
  function Transferred(p: Plan, off: nat, n: nat): (r: nat)
    requires off < SECTOR_SIZE
    ensures r <= n
  {
    if Beyond(p) == p.first then 0 else Min(n, (Beyond(p) - p.first) * SECTOR_SIZE - off)
  }

  /** How many bytes a transfer yields. */
  function Yield(start: nat, pos: nat, n: nat, limit: nat, room: nat): nat {
    Transferred(Planned(start, pos, n, limit, room), pos % SECTOR_SIZE, n)
  }

  /** Nothing changes but the bytes from lo up to hi. */
  ghost predicate Outside<T>(was: seq<T>, now: seq<T>, lo: int, hi: int) {
    |was| == |now| && forall k :: 0 <= k < |was| && !(lo <= k < hi) ==> now[k] == was[k]
  }

  /** The first r bytes of the data lie at place a, and nothing else has changed but between lo and hi. */
  ghost predicate Written(was: seq<Byte>, now: seq<Byte>, data: seq<Byte>, a: nat, r: nat, lo: int, hi: int)
    requires r <= |data|
  {
    Outside(was, now, lo, hi) && (r > 0 ==> a + r <= |now| && now[a..a + r] == data[..r])
  }

  lemma OutsideGrows<T>(a: seq<T>, b: seq<T>, c: seq<T>, lo: int, mid: int, hi: int)
    requires Outside(a, b, lo, mid) && Outside(b, c, mid, hi) && lo <= mid <= hi
    ensures Outside(a, c, lo, hi)
  {
  }

  lemma SlicesJoin<T>(d: seq<T>, a: nat, b: nat, c: nat)
    requires a <= b <= c <= |d|
    ensures d[a..b] + d[b..c] == d[a..c]
  {
  }

  /** Bytes r and up of the data are written behind the first r, which stay. */
  lemma WrittenJoins(before: seq<Byte>, after: seq<Byte>, a: nat, r: nat, bytes: nat, data: seq<Byte>)
    requires |before| == |after| && a + r + bytes <= |after| && r + bytes <= |data|
    requires r > 0 ==> before[a..a + r] == data[..r] && forall k :: a <= k < a + r ==> after[k] == before[k]
    requires after[a + r..a + r + bytes] == data[r..r + bytes]
    ensures after[a..a + (r + bytes)] == data[..r + bytes]
  {
    SlicesJoin(after, a, a + r, a + r + bytes);
    SlicesJoin(data, 0, r, r + bytes);
    assert r > 0 ==> after[a..a + r] == before[a..a + r];
  }

  class File {
    const disk: array<Byte>
    const buffer: array<Byte>
    const start: nat
    const nrSects: nat
    var pos: nat
    var size: nat

    ghost predicate Valid() {
      disk != buffer && SECTOR_SIZE <= buffer.Length && buffer.Length % SECTOR_SIZE == 0
    }

    function Room(): nat {
      buffer.Length / SECTOR_SIZE
    }

    constructor (disk: array<Byte>, start: nat, nrSects: nat, room: nat, size: nat)
      requires 0 < room
      ensures Valid() && this.disk == disk && this.start == start && this.nrSects == nrSects && Room() == room
      ensures pos == 0 && this.size == size && fresh(buffer)
    {
      this.disk, this.start, this.nrSects, this.size := disk, start, nrSects, size;
      buffer := new Byte[room * SECTOR_SIZE](_ => 0);
      pos := 0;
    }

    /** The device copies whole sectors from the disk into the buffer. */
    method DeviceRead(sect: nat, count: nat)
      requires Valid() && (sect + count) * SECTOR_SIZE <= disk.Length && count * SECTOR_SIZE <= buffer.Length
      modifies buffer
      ensures forall k :: 0 <= k < count * SECTOR_SIZE ==> buffer[k] == disk[sect * SECTOR_SIZE + k]
    {
      forall k | 0 <= k < count * SECTOR_SIZE {
        buffer[k] := disk[sect * SECTOR_SIZE + k];
      }
    }

    /** The device copies whole sectors from the buffer to the disk. */
    method DeviceWrite(sect: nat, count: nat)
      requires Valid() && (sect + count) * SECTOR_SIZE <= disk.Length && count * SECTOR_SIZE <= buffer.Length
      modifies disk
      ensures forall k :: 0 <= k < disk.Length ==>
                disk[k] == if sect * SECTOR_SIZE <= k < (sect + count) * SECTOR_SIZE then buffer[k - sect * SECTOR_SIZE]
                           else old(disk[k])
    {
      forall k | 0 <= k < count * SECTOR_SIZE {
        disk[sect * SECTOR_SIZE + k] := buffer[k];
      }
    }

    /** One chunk of a read. */
    method ReadChunk(i: nat, chunk: nat, off: nat, bytes: nat) returns (part: seq<Byte>)
      requires Valid() && (i + chunk) * SECTOR_SIZE <= disk.Length && chunk * SECTOR_SIZE <= buffer.Length
      requires off + bytes <= chunk * SECTOR_SIZE
      modifies buffer
      ensures part == disk[i * SECTOR_SIZE + off..i * SECTOR_SIZE + off + bytes]
    {
      DeviceRead(i, chunk);
      part := buffer[off..off + bytes];
    }

    /** One chunk of a write: the rest of its sectors receives whatever the buffer holds. */
    method WriteChunk(i: nat, chunk: nat, off: nat, part: seq<Byte>)
      requires Valid() && (i + chunk) * SECTOR_SIZE <= disk.Length && chunk * SECTOR_SIZE <= buffer.Length
      requires off + |part| <= chunk * SECTOR_SIZE
      modifies buffer, disk
      ensures Outside(old(disk[..]), disk[..], i * SECTOR_SIZE, (i + chunk) * SECTOR_SIZE)
      ensures disk[i * SECTOR_SIZE + off..i * SECTOR_SIZE + off + |part|] == part
    {
      forall k | 0 <= k < |part| {
        buffer[off + k] := part[k];
      }
      DeviceWrite(i, chunk);
    }

    /** The bytes of one more chunk are added to those read from place a on. */
    method ReadTurn(i: nat, chunk: nat, off: nat, bytes: nat, out0: seq<Byte>, ghost a: nat) returns (out: seq<Byte>)
      requires Valid() && (i + chunk) * SECTOR_SIZE <= disk.Length && chunk * SECTOR_SIZE <= buffer.Length
      requires off + bytes <= chunk * SECTOR_SIZE && (bytes > 0 ==> a + |out0| == i * SECTOR_SIZE + off)
      requires out0 != [] ==> a + |out0| <= disk.Length && out0 == disk[a..a + |out0|]
      modifies buffer
      ensures |out| == |out0| + bytes && (out != [] ==> a + |out| <= disk.Length && out == disk[a..a + |out|])
    {
      var part := ReadChunk(i, chunk, off, bytes);
      if bytes > 0 {
        SlicesJoin(disk[..], a, a + |out0|, a + |out0| + bytes);
      }
      out := out0 + part;
    }

    /** Bytes r and up of the data are written behind the first r, which begin at place a. */
    method WriteTurn(i: nat, chunk: nat, off: nat, bytes: nat, data: seq<Byte>, r: nat, ghost a: nat, ghost lo: int,
                     ghost was: seq<Byte>)
      requires Valid() && (i + chunk) * SECTOR_SIZE <= disk.Length && chunk * SECTOR_SIZE <= buffer.Length
      requires off + bytes <= chunk * SECTOR_SIZE && r + bytes <= |data| && lo <= i * SECTOR_SIZE
      requires bytes > 0 ==> a + r == i * SECTOR_SIZE + off
      requires r > 0 ==> a + r <= i * SECTOR_SIZE
      requires Written(was, disk[..], data, a, r, lo, i * SECTOR_SIZE)
      modifies buffer, disk
      ensures Written(was, disk[..], data, a, r + bytes, lo, (i + chunk) * SECTOR_SIZE)
    {
      ghost var before := disk[..];
      WriteChunk(i, chunk, off, data[r..r + bytes]);
      OutsideGrows(was, before, disk[..], lo, i * SECTOR_SIZE, (i + chunk) * SECTOR_SIZE);
      if bytes > 0 {
        WrittenJoins(before, disk[..], a, r, bytes, data);
      } else if r > 0 {
        assert disk[a..a + r] == before[a..a + r];
      }
    }

    /** The loop of a read over the sectors from first to last. */
    method ReadChunks(first: nat, last: int, chunk: int, off0: nat, n: nat) returns (out: seq<Byte>)
      requires Valid() && off0 < SECTOR_SIZE && (first <= last ==> 1 <= chunk && chunk * SECTOR_SIZE <= buffer.Length)
      requires Beyond(Plan(first, last, chunk)) * SECTOR_SIZE <= disk.Length
      modifies buffer, `pos
      ensures var a, r := first * SECTOR_SIZE + off0, Transferred(Plan(first, last, chunk), off0, n);
              |out| == r && (r > 0 ==> a + r <= disk.Length && out == disk[a..a + r]) && pos == old(pos) + r
    {
      ghost var plan, d, a := Plan(first, last, chunk), disk[..], first * SECTOR_SIZE + off0;
      out := [];
      var left, off, i := n, off0, first;
      while i <= last
        invariant first <= i && (i > first ==> first <= last) && left == n - |out| && 0 <= left
        invariant first <= last ==> i + Covered(i, last, chunk) == Beyond(plan)
        invariant if i == first then off == off0 && out == [] else off == 0
        invariant left > 0 ==> a + |out| == i * SECTOR_SIZE + off
        invariant left == 0 && i > first ==> a + |out| <= i * SECTOR_SIZE
        invariant pos == old(pos) + |out| && disk[..] == d
        invariant |out| > 0 ==> a + |out| <= |d| && out == d[a..a + |out|]
        decreases last - i
      {
        var bytes := Min(left, chunk * SECTOR_SIZE - off);
        out := ReadTurn(i, chunk, off, bytes, out, a);
        off := 0;
        pos := pos + bytes;
        left := left - bytes;
        i := i + chunk;
      }
    }

    /** Gives the bytes of the disk from the current position on; the end of the file does not limit them. */
    method Read(n: nat) returns (out: seq<Byte>)
      requires Valid() && Beyond(Planned(start, pos, n, size, Room())) * SECTOR_SIZE <= disk.Length
      modifies buffer, `pos, `size
      ensures var a, r := start * SECTOR_SIZE + old(pos), Yield(start, old(pos), n, old(size), Room());
              && |out| == r && (r > 0 ==> a + r <= disk.Length && out == disk[a..a + r])
              && pos == old(pos) + r && size == Max(old(size), pos)
    {
      var posEnd := Min(pos + n, size);
      var off := pos % SECTOR_SIZE;
      var first, last := start + pos / SECTOR_SIZE, start + posEnd / SECTOR_SIZE;
      var chunk := Min(last - first + 1, buffer.Length / SECTOR_SIZE);
      out := ReadChunks(first, last, chunk, off, n);
      if pos > size {
        size := pos;
      }
    }

    /** The loop of a write over the sectors from first to last. */
    method WriteChunks(first: nat, last: int, chunk: int, off0: nat, data: seq<Byte>) returns (r: nat)
      requires Valid() && off0 < SECTOR_SIZE && (first <= last ==> 1 <= chunk && chunk * SECTOR_SIZE <= buffer.Length)
      requires Beyond(Plan(first, last, chunk)) * SECTOR_SIZE <= disk.Length
      modifies buffer, disk, `pos
      ensures var a, plan := first * SECTOR_SIZE + off0, Plan(first, last, chunk);
              && r == Transferred(plan, off0, |data|) <= |data| && pos == old(pos) + r
              && (r > 0 ==> a + r <= disk.Length && disk[a..a + r] == data[..r])
              && Outside(old(disk[..]), disk[..], first * SECTOR_SIZE, Beyond(plan) * SECTOR_SIZE)
    {
      ghost var plan, a, was := Plan(first, last, chunk), first * SECTOR_SIZE + off0, disk[..];
      r := 0;
      var left, off, i := |data|, off0, first;
      while i <= last
        invariant first <= i && (i > first ==> first <= last) && left == |data| - r && r <= |data|
        invariant first <= last ==> i + Covered(i, last, chunk) == Beyond(plan)
        invariant if i == first then off == off0 && r == 0 else off == 0
        invariant left > 0 ==> a + r == i * SECTOR_SIZE + off
        invariant left == 0 && i > first ==> a + r <= i * SECTOR_SIZE
        invariant pos == old(pos) + r
        invariant Written(was, disk[..], data, a, r, first * SECTOR_SIZE, i * SECTOR_SIZE)
        decreases last - i
      {
        var bytes := Min(left, chunk * SECTOR_SIZE - off);
        WriteTurn(i, chunk, off, bytes, data, r, a, first * SECTOR_SIZE, was);
        off := 0;
        r := r + bytes;
        pos := pos + bytes;
        left := left - bytes;
        i := i + chunk;
      }
    }

    /** Puts the bytes at the current position, as far as the file's sectors reach. */
    method Write(data: seq<Byte>) returns (r: nat)
      requires Valid()
      requires Beyond(Planned(start, pos, |data|, nrSects * SECTOR_SIZE, Room())) * SECTOR_SIZE <= disk.Length
      modifies buffer, disk, `pos, `size
      ensures var a, plan := start * SECTOR_SIZE + old(pos),
              Planned(start, old(pos), |data|, nrSects * SECTOR_SIZE, Room());
              && r == Yield(start, old(pos), |data|, nrSects * SECTOR_SIZE, Room()) <= |data|
              && (r > 0 ==> a + r <= disk.Length && disk[a..a + r] == data[..r])
              && Outside(old(disk[..]), disk[..], plan.first * SECTOR_SIZE, Beyond(plan) * SECTOR_SIZE)
              && pos == old(pos) + r && size == Max(old(size), pos)
    {
      var posEnd := Min(pos + |data|, nrSects * SECTOR_SIZE);
      var off := pos % SECTOR_SIZE;
      var first, last := start + pos / SECTOR_SIZE, start + posEnd / SECTOR_SIZE;
      var chunk := Min(last - first + 1, buffer.Length / SECTOR_SIZE);
      r := WriteChunks(first, last, chunk, off, data);
      if pos > size {
        size := pos;
      }
    }

    /** Whatever the position and however many chunks it takes, what is written within the file's sectors is written in
        full, and is what a later read of the same place gives. */
    method WriteThenRead(data: seq<Byte>) returns (r: nat, out: seq<Byte>)
      requires Valid() && pos + |data| <= nrSects * SECTOR_SIZE
      requires Beyond(Planned(start, pos, |data|, nrSects * SECTOR_SIZE, Room())) * SECTOR_SIZE <= disk.Length
      modifies buffer, disk, `pos, `size
      ensures r == |data| && out == data && pos == old(pos) + |data| && size == Max(old(size), pos)
    {
      var at := pos;
      FullYield(start, at, |data|, nrSects * SECTOR_SIZE, Room());
      r := Write(data);
      FullYield(start, at, |data|, size, Room());
      SamePlan(start, at, |data|, nrSects * SECTOR_SIZE, size, Room());
      pos := at;
      out := Read(|data|);
    }
  }

  /** A transfer that its limit does not cut short yields all its bytes. */
  lemma FullYield(start: nat, pos: nat, n: nat, limit: nat, room: nat)
    requires pos + n <= limit && 0 < room
    ensures Yield(start, pos, n, limit, room) == n
  {
  }

  lemma SamePlan(start: nat, pos: nat, n: nat, limit: nat, limit': nat, room: nat)
    requires pos + n <= limit && pos + n <= limit'
    ensures Planned(start, pos, n, limit, room) == Planned(start, pos, n, limit', room)
  {
  }

  // ---------------------------------------------------------------- where the code departs from its intent

  /** A read stops at the end of the file exactly if it asks for nothing, ends there anyway, or begins in a later
      sector: otherwise it runs on to the end of a chunk. */
  lemma ReadsRunOn(start: nat, pos: nat, n: nat, size: nat, room: nat)
    requires 0 < room
    ensures Yield(start, pos, n, size, room) == Max(0, Min(n, size - pos))
            <==> n == 0 || pos + n <= size || size / SECTOR_SIZE < pos / SECTOR_SIZE
    ensures Yield(start, pos, n, size, room) >= Max(0, Min(n, size - pos))
  {
    var p := Planned(start, pos, n, size, room);
    if p.first <= p.last {
      assert Beyond(p) > p.last;
    }
  }

  /** A read leaves a larger file exactly if what was asked for, from the position on, reaches beyond its end. */
  lemma ReadsEnlarge(start: nat, pos: nat, n: nat, size: nat, room: nat)
    requires 0 < room
    ensures Max(size, pos + Yield(start, pos, n, size, room)) > size <==> size < pos + n
  {
    ReadsRunOn(start, pos, n, size, room);
  }

  /** How many chunks of c sectors n sectors make, the last one counted as a whole. */
  function Chunks(n: int, c: int): int
    requires 0 < c
  {
    (n + c - 1) / c
  }

  lemma Times(c: int, a: int, b: int)
    requires 0 < c && a < b
    ensures c * a + c <= c * b
  {
    assert c * (b - a - 1) >= 0;
    assert c * b == c * a + c + c * (b - a - 1);
  }

  lemma QuotientIs(m: int, c: int, q: int)
    requires 0 < c && c * q <= m < c * q + c
    ensures m / c == q
  {
    var d := m / c;
    assert c * d <= m < c * d + c;
    if d < q {
      Times(c, d, q);
    } else if q < d {
      Times(c, q, d);
    }
  }

  lemma OneChunkLess(n: int, c: int)
    requires 0 < c
    ensures Chunks(n, c) == Chunks(n - c, c) + 1
    ensures 0 < n <= c ==> Chunks(n, c) == 1
  {
    var q := (n - 1) / c;
    assert c * q <= n - 1 < c * q + c;
    assert c * (q + 1) == c * q + c;
    QuotientIs(n - 1 + c, c, q + 1);
    assert n - c + c - 1 == n - 1 && n + c - 1 == n - 1 + c;
    if 0 < n <= c {
      QuotientIs(n + c - 1, c, 1);
    }
  }

  /** The loop passes over whole chunks only. */
  lemma {:induction false} CoveredIsWholeChunks(first: int, last: int, chunk: int)
    requires 0 < chunk && first <= last
    ensures Covered(first, last, chunk) == chunk * Chunks(last - first + 1, chunk)
    decreases last - first
  {
    OneChunkLess(last - first + 1, chunk);
    if first + chunk <= last {
      var rest := Chunks(last - (first + chunk) + 1, chunk);
      CoveredIsWholeChunks(first + chunk, last, chunk);
      assert chunk + chunk * rest == chunk * (rest + 1);
    }
  }

  /** The sectors behind the file's last one that a write passes over. */
  function Spilled(start: nat, pos: nat, n: nat, nrSects: nat, room: nat): (r: nat) {
    var p := Planned(start, pos, n, nrSects * SECTOR_SIZE, room);
    if p.last < p.first then 0 else Max(0, Beyond(p) - (start + nrSects))
  }

  /** A write is rounded up to whole chunks. It goes on behind the file exactly if it reaches the end of the file's
      sectors, or takes several chunks and the last one does not end within them. */
  lemma WritesSpillOver(start: nat, pos: nat, n: nat, nrSects: nat, room: nat)
    requires 0 < room
    ensures var first, last := pos / SECTOR_SIZE, Min(pos + n, nrSects * SECTOR_SIZE) / SECTOR_SIZE;
            var sects := last - first + 1;
            && (sects <= 0 ==> Spilled(start, pos, n, nrSects, room) == 0)
            && (0 < sects <= room ==> Spilled(start, pos, n, nrSects, room) == Max(0, last + 1 - nrSects))
            && (room < sects ==>
                  Spilled(start, pos, n, nrSects, room) == Max(0, first + room * Chunks(sects, room) - nrSects))
            && (Spilled(start, pos, n, nrSects, room) > 0 <==>
                  0 < sects && (nrSects * SECTOR_SIZE <= pos + n
                                || (room < sects && nrSects < first + room * Chunks(sects, room))))
  {
    var p := Planned(start, pos, n, nrSects * SECTOR_SIZE, room);
    if p.first <= p.last {
      CoveredIsWholeChunks(p.first, p.last, p.chunk);
      OneChunkLess(p.last - p.first + 1, p.chunk);
    }
  }

  /** With a buffer as large as a file of the default size, a write that ends before the file does touches nothing
      behind it; one that ends with the file or later writes one sector behind it, and all of the next file if it begins
      in the first sector. */
  lemma DefaultWritesSpillOver(start: nat, pos: nat, n: nat)
    requires pos <= 2048 * SECTOR_SIZE
    ensures Spilled(start, pos, n, 2048, 2048)
            == if pos + n < 2048 * SECTOR_SIZE then 0 else if pos < SECTOR_SIZE then 2048 else 1
  {
    WritesSpillOver(start, pos, n, 2048, 2048);
  }
}
