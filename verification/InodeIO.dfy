/** Reading and writing a file's bytes through 512-byte sectors (inode_read_at and inode_write_at of filesys/inode.c).
    ROOM says whether malloc finds memory for the bounce buffer, which a call asks for at most once. */
module InodeIO {
  import opened Collections

  const SECTOR: int := 512

  /** The file's first data sector and its length in bytes, from the inode. */
  datatype InodeDisk = InodeDisk(start: int, length: int)

  ghost predicate DiskOk(sectors: seq<seq<int>>) {
    forall i :: 0 <= i < |sectors| ==> |sectors[i]| == SECTOR
  }

  /** The data sectors of the file are on the disk. */
  ghost predicate OnDisk(sectors: seq<seq<int>>, f: InodeDisk) {
    DiskOk(sectors) && 0 <= f.start && 0 <= f.length && f.start + (f.length + 511) / 512 <= |sectors|
  }

  /** Byte A of the disk. */
  ghost function DiskByte(sectors: seq<seq<int>>, a: int): int
    requires DiskOk(sectors) && 0 <= a < |sectors| * SECTOR
  {
    sectors[a / 512][a % 512]
  }

  /** Byte K of the file. */
  ghost function FileByte(sectors: seq<seq<int>>, f: InodeDisk, k: int): int
    requires OnDisk(sectors, f) && 0 <= k < f.length
  {
    DiskByte(sectors, f.start * SECTOR + k)
  }

  /** The file as a flat sequence of bytes. */
  ghost function Flat(sectors: seq<seq<int>>, f: InodeDisk): (s: seq<int>)
    requires OnDisk(sectors, f)
    ensures |s| == f.length && forall k :: 0 <= k < f.length ==> s[k] == FileByte(sectors, f, k)
  {
    seq(f.length, k requires 0 <= k < f.length => FileByte(sectors, f, k))
  }

  /** How many bytes a call transfers: all up to the end of the file; without a bounce buffer only whole sectors, and
      none if the offset is inside a sector. */
  function Transferred(length: int, size: int, offset: int, room: bool): (n: int)
    requires 0 <= offset
    ensures n <= size || n == 0
    ensures n > 0 ==> offset + n <= length
    ensures 0 <= n
  {
    var n := if size <= 0 || length <= offset then 0 else Min(size, length - offset);
    if room then n else if offset % 512 == 0 then n / 512 * 512 else 0
  }

  /** With a bounce buffer everything up to the end of the file; without one every whole sector of that, and nothing
      from inside a sector on. */
  lemma TransferredIs(length: int, size: int, offset: int, room: bool)
    requires 0 <= offset
    ensures var n := Transferred(length, size, offset, room);
            && (size <= 0 || length <= offset ==> n == 0)
            && (room && size > 0 && offset < length ==> (n == size || offset + n == length) && offset + n <= length)
            && (!room && offset % 512 != 0 ==> n == 0)
            && (!room && offset % 512 == 0 ==> n % 512 == 0 && (size - n < 512 || length - (offset + n) < 512))
  {
  }

  /** byte_to_sector. */
  function ByteToSector(f: InodeDisk, pos: int): int
    requires 0 <= pos
  {
    if pos < f.length then f.start + pos / SECTOR else -1
  }

  /** The bytes of this sector to copy next. */
  function Chunk(length: int, size: int, offset: int): int
    requires 0 <= offset
  {
    Min(size, Min(length - offset, SECTOR - offset % 512))
  }

  /** One chunk less to do. */
  lemma ChunkStep(length: int, size: int, offset: int, room: bool)
    requires 0 <= offset && size > 0
    ensures var c := Chunk(length, size, offset);
            if c <= 0 || (!room && !(offset % 512 == 0 && c == 512)) then Transferred(length, size, offset, room) == 0
            else Transferred(length, size, offset, room) == c + Transferred(length, size - c, offset + c, room)
  {
  }

  /** The disk NOW differs from WAS exactly in the first N bytes of BUFFER, from byte BASE on. */
  ghost predicate Written(was: seq<seq<int>>, now: seq<seq<int>>, base: int, buffer: seq<int>, n: int) {
    && DiskOk(was) && DiskOk(now) && |now| == |was| && 0 <= n <= |buffer|
    && forall a :: 0 <= a < |now| * SECTOR ==>
         DiskByte(now, a) == if base <= a < base + n then buffer[a - base] else DiskByte(was, a)
  }

  /** DATA is BEFORE with CHUNK bytes of BUFFER, from N on, put in at OFS. */
  ghost predicate Patched(before: seq<int>, data: seq<int>, ofs: int, buffer: seq<int>, n: int, chunk: int) {
    && |before| == |data| == SECTOR && 0 <= n && 0 <= chunk && n + chunk <= |buffer|
    && 0 <= ofs && ofs + chunk <= SECTOR
    && forall i :: 0 <= i < SECTOR ==> data[i] == if ofs <= i < ofs + chunk then buffer[n + i - ofs] else before[i]
  }

  lemma SectorWritten(was: seq<seq<int>>, now: seq<seq<int>>, base: int, buffer: seq<int>, n: int, sector: int,
                      ofs: int, chunk: int, data: seq<int>)
    requires Written(was, now, base, buffer, n) && 0 <= sector < |now| && base + n == sector * SECTOR + ofs
    requires Patched(now[sector], data, ofs, buffer, n, chunk)
    ensures Written(was, now[sector := data], base, buffer, n + chunk)
  {
    var next := now[sector := data];
    forall a | 0 <= a < |now| * SECTOR
      ensures DiskByte(next, a) == if base <= a < base + n + chunk then buffer[a - base] else DiskByte(was, a)
    {
      assert a == a / 512 * 512 + a % 512 && DiskByte(now, a) == now[a / 512][a % 512];
      assert DiskByte(next, a) == if a / 512 == sector then data[a % 512] else DiskByte(now, a);
    }
  }

  /** In terms of the file alone: the written bytes replace those from OFFSET on. */
  lemma FlatWritten(was: seq<seq<int>>, now: seq<seq<int>>, f: InodeDisk, offset: int, buffer: seq<int>, n: int)
    requires OnDisk(was, f) && Written(was, now, f.start * SECTOR + offset, buffer, n)
    requires 0 <= offset && (n > 0 ==> offset + n <= f.length)
    ensures OnDisk(now, f)
    ensures n > 0 ==> Flat(now, f) == Flat(was, f)[..offset] + buffer[..n] + Flat(was, f)[offset + n..]
    ensures n == 0 ==> Flat(now, f) == Flat(was, f)
  {
    forall k | 0 <= k < f.length
      ensures FileByte(now, f, k) == if offset <= k < offset + n then buffer[k - offset] else FileByte(was, f, k)
    {
    }
  }

  /** A sector outside the bytes written stays as it was. */
  lemma SectorKept(was: seq<seq<int>>, now: seq<seq<int>>, base: int, buffer: seq<int>, n: int, k: int)
    requires Written(was, now, base, buffer, n) && 0 <= k < |was|
    requires n == 0 || base + n <= k * SECTOR || (k + 1) * SECTOR <= base
    ensures now[k] == was[k]
  {
    forall i | 0 <= i < SECTOR ensures now[k][i] == was[k][i] {
      var a := k * 512 + i;
      assert a / 512 == k && a % 512 == i;
      assert DiskByte(now, a) == DiskByte(was, a);
    }
  }

  /** Where a chunk lies. */
  lemma ChunkPlace(sectors: seq<seq<int>>, f: InodeDisk, left: int, pos: int)
    requires OnDisk(sectors, f) && 0 <= pos && Chunk(f.length, left, pos) > 0
    ensures var s, o, c := ByteToSector(f, pos), pos % SECTOR, Chunk(f.length, left, pos);
            && 0 <= s < |sectors| && |sectors[s]| == SECTOR && f.start * SECTOR + pos == s * SECTOR + o
            && c <= left && o + c <= SECTOR && pos + c <= f.length
  {
  }

  /** The sector a write puts on the disk: the chunk alone if it is a whole sector, else the chunk in what was there. */
  function NewSector(before: seq<int>, ofs: int, piece: seq<int>): seq<int>
    requires |before| == SECTOR && 0 <= ofs && ofs + |piece| <= SECTOR
  {
    before[..ofs] + piece + before[ofs + |piece|..]
  }

  lemma NewSectorPatched(before: seq<int>, ofs: int, buffer: seq<int>, n: int, chunk: int)
    requires |before| == SECTOR && 0 <= n && 0 <= chunk && n + chunk <= |buffer| && 0 <= ofs && ofs + chunk <= SECTOR
    ensures Patched(before, NewSector(before, ofs, buffer[n..n + chunk]), ofs, buffer, n, chunk)
    ensures ofs == 0 && chunk == SECTOR ==> buffer[n..n + chunk] == NewSector(before, ofs, buffer[n..n + chunk])
  {
  }

  const ZEROS: seq<int> := seq(512, _ => 0)

  /** The disk NOW differs from WAS in that the N sectors from START on are zero. */
  ghost predicate Zeroed(was: seq<seq<int>>, now: seq<seq<int>>, start: int, n: int) {
    && DiskOk(was) && DiskOk(now) && |now| == |was| && 0 <= start && 0 <= n && start + n <= |now|
    && (forall k :: start <= k < start + n ==> IsZero(now[k]))
    && (forall k :: 0 <= k < |now| && !(start <= k < start + n) ==> now[k] == was[k])
  }

  ghost predicate IsZero(data: seq<int>) {
    forall i :: 0 <= i < |data| ==> data[i] == 0
  }

  /** A file whose data sectors are zeroed reads as zeros. */
  lemma ZeroedFile(was: seq<seq<int>>, now: seq<seq<int>>, f: InodeDisk)
    requires OnDisk(was, f) && Zeroed(was, now, f.start, (f.length + 511) / 512)
    ensures OnDisk(now, f) && forall k :: 0 <= k < f.length ==> Flat(now, f)[k] == 0
  {
    forall k | 0 <= k < f.length ensures FileByte(now, f, k) == 0 {
      assert (f.start * 512 + k) / 512 == f.start + k / 512;
    }
  }

  /** K is a data sector of the file. */
  ghost predicate HasData(f: InodeDisk, k: int) {
    f.start <= k < f.start + (f.length + 511) / 512
  }

  /** A file with no data sector among those zeroed reads as before. */
  lemma ZeroedOther(was: seq<seq<int>>, now: seq<seq<int>>, start: int, n: int, g: InodeDisk)
    requires OnDisk(was, g) && Zeroed(was, now, start, n)
    requires forall k :: HasData(g, k) ==> !(start <= k < start + n)
    ensures OnDisk(now, g) && Flat(now, g) == Flat(was, g)
  {
    forall k | 0 <= k < g.length ensures FileByte(now, g, k) == FileByte(was, g, k) {
      assert (g.start * 512 + k) / 512 == g.start + k / 512 && HasData(g, g.start + k / 512);
    }
  }

  /** The file's bytes that a chunk holds. */
  lemma ChunkBytes(sectors: seq<seq<int>>, f: InodeDisk, left: int, pos: int)
    requires OnDisk(sectors, f) && 0 <= pos && Chunk(f.length, left, pos) > 0
    ensures forall k :: pos <= k < pos + Chunk(f.length, left, pos) ==>
              && 0 <= ByteToSector(f, pos) < |sectors| && 0 <= pos % SECTOR + k - pos < |sectors[ByteToSector(f, pos)]|
              && FileByte(sectors, f, k) == sectors[ByteToSector(f, pos)][pos % SECTOR + k - pos]
  {
    ChunkPlace(sectors, f, left, pos);
  }

  /** memcpy or block_read into a part of the caller's buffer. */
  method CopyInto(buffer: array<int>, n: int, data: seq<int>, ofs: int, chunk: int)
    requires 0 <= n && 0 <= chunk && n + chunk <= buffer.Length && 0 <= ofs && ofs + chunk <= |data|
    modifies buffer
    ensures forall i :: 0 <= i < buffer.Length ==>
              buffer[i] == if n <= i < n + chunk then data[ofs + i - n] else old(buffer[i])
  {
    forall i | 0 <= i < chunk {
      buffer[n + i] := data[ofs + i];
    }
  }

  class Disk {
    var sectors: seq<seq<int>>

    method ReadAt(f: InodeDisk, buffer: array<int>, size: int, offset: int, room: bool) returns (n: int)
      requires OnDisk(sectors, f) && 0 <= offset && size <= buffer.Length
      modifies buffer
      ensures n == Transferred(f.length, size, offset, room)
      ensures n > 0 ==> buffer[..n] == Flat(sectors, f)[offset..offset + n]
      ensures buffer[n..] == old(buffer[n..])
    {
      n := 0;
      var left, pos := size, offset;
      while left > 0
        invariant 0 <= n && pos == offset + n && left == size - n && n <= buffer.Length
        invariant n > 0 ==> n <= size && pos <= f.length
        invariant Transferred(f.length, size, offset, room) == n + Transferred(f.length, left, pos, room)
        invariant forall i :: 0 <= i < n ==> buffer[i] == FileByte(sectors, f, offset + i)
        invariant forall i :: n <= i < buffer.Length ==> buffer[i] == old(buffer[i])
        decreases left
      {
        ChunkStep(f.length, left, pos, room);
        var chunk := Chunk(f.length, left, pos);
        if chunk <= 0 {
          break;
        }
        var ok := ReadChunk(f, left, pos, buffer, n, room);
        if !ok {
          break;
        }
        left, pos, n := left - chunk, pos + chunk, n + chunk;
      }
    }

    /** One round of the loop of inode_read_at. */
    method ReadChunk(f: InodeDisk, left: int, pos: int, buffer: array<int>, n: int, room: bool) returns (ok: bool)
      requires OnDisk(sectors, f) && 0 <= pos && 0 < Chunk(f.length, left, pos) && 0 <= n && n + left <= buffer.Length
      modifies buffer
      ensures ok <==> room || (pos % 512 == 0 && Chunk(f.length, left, pos) == 512)
      ensures pos + Chunk(f.length, left, pos) <= f.length && Chunk(f.length, left, pos) <= left
      ensures forall i :: 0 <= i < buffer.Length ==>
                buffer[i] == if ok && n <= i < n + Chunk(f.length, left, pos) then FileByte(sectors, f, pos + i - n)
                             else old(buffer[i])
    {
      var sector := ByteToSector(f, pos);
      var ofs := pos % SECTOR;
      var chunk := Chunk(f.length, left, pos);
      ChunkPlace(sectors, f, left, pos);
      ChunkBytes(sectors, f, left, pos);
      if ofs == 0 && chunk == SECTOR {
        CopyInto(buffer, n, sectors[sector], 0, SECTOR);
      } else {
        if !room {
          return false;
        }
        var bounce := sectors[sector];
        CopyInto(buffer, n, bounce, ofs, chunk);
      }
      ok := true;
    }

    method WriteAt(f: InodeDisk, buffer: seq<int>, size: int, offset: int, denied: bool, room: bool) returns (n: int)
      requires OnDisk(sectors, f) && 0 <= offset && size <= |buffer|
      modifies this
      ensures n == if denied then 0 else Transferred(f.length, size, offset, room)
      ensures Written(old(sectors), sectors, f.start * SECTOR + offset, buffer, n) && OnDisk(sectors, f)
    {
      n := 0;
      ghost var base := f.start * SECTOR + offset;
      if denied {
        return;
      }
      var left, pos := size, offset;
      while left > 0
        invariant 0 <= n && pos == offset + n && left == size - n && OnDisk(sectors, f)
        invariant n > 0 ==> n <= size && pos <= f.length
        invariant Transferred(f.length, size, offset, room) == n + Transferred(f.length, left, pos, room)
        invariant Written(old(sectors), sectors, base, buffer, n)
        decreases left
      {
        ChunkStep(f.length, left, pos, room);
        var chunk := Chunk(f.length, left, pos);
        if chunk <= 0 {
          break;
        }
        var ok := WriteChunk(f, left, pos, buffer, n, room, old(sectors), base);
        if !ok {
          break;
        }
        left, pos, n := left - chunk, pos + chunk, n + chunk;
      }
    }

    /** The loop of inode_create that clears the data sectors. */
    method WriteZeros(start: nat, n: nat)
      requires DiskOk(sectors) && start + n <= |sectors|
      modifies this
      ensures Zeroed(old(sectors), sectors, start, n)
    {
      var i := 0;
      while i < n
        invariant i <= n && Zeroed(old(sectors), sectors, start, i)
      {
        sectors := sectors[start + i := ZEROS];
        i := i + 1;
      }
    }

    /** One round of the loop of inode_write_at. */
    method WriteChunk(f: InodeDisk, left: int, pos: int, buffer: seq<int>, n: int, room: bool, ghost was: seq<seq<int>>,
                      ghost base: int)
      returns (ok: bool)
      requires OnDisk(sectors, f) && 0 <= pos && 0 < Chunk(f.length, left, pos) && n + left <= |buffer|
      requires base + n == f.start * SECTOR + pos && Written(was, sectors, base, buffer, n)
      modifies this
      ensures ok <==> room || (pos % 512 == 0 && Chunk(f.length, left, pos) == 512)
      ensures OnDisk(sectors, f)
      ensures Written(was, sectors, base, buffer, if ok then n + Chunk(f.length, left, pos) else n)
    {
      var sector := ByteToSector(f, pos);
      var ofs := pos % SECTOR;
      var chunk := Chunk(f.length, left, pos);
      ChunkPlace(sectors, f, left, pos);
      NewSectorPatched(sectors[sector], ofs, buffer, n, chunk);
      var data;
      if ofs == 0 && chunk == SECTOR {
        data := buffer[n..n + chunk];
      } else {
        if !room {
          return false;
        }
        var bounce := if ofs > 0 || chunk < SECTOR - ofs then sectors[sector] else ZEROS;
        data := NewSector(bounce, ofs, buffer[n..n + chunk]);
      }
      SectorWritten(was, sectors, base, buffer, n, sector, ofs, chunk, data);
      sectors := sectors[sector := data];
      ok := true;
    }
  }
}
