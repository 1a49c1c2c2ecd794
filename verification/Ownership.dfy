/** Which sectors a file owns: its inode's sector and its data sectors (filesys/inode.c, filesys/free-map.c). */
module Ownership {
  import opened Bitmap
  import opened InodeIO

  /** bytes_to_sectors. */
  function SectorCnt(length: int): (n: int)
    ensures length >= 0 ==> n >= 0
  {
    (length + 511) / 512
  }

  /** The file whose inode D is in sector S owns sector K. */
  ghost predicate Owns(s: int, d: InodeDisk, k: int) {
    k == s || d.start <= k < d.start + SectorCnt(d.length)
  }

  /** All sectors of the file are marked used, and its inode is not among its data. */
  ghost predicate FileOk(used: seq<bool>, s: int, d: InodeDisk) {
    && 0 <= d.start && 0 <= d.length && d.start + SectorCnt(d.length) <= |used|
    && !(d.start <= s < d.start + SectorCnt(d.length))
    && forall k :: Owns(s, d, k) ==> 0 <= k < |used| && used[k]
  }

  ghost predicate Apart(s: int, d: InodeDisk, t: int, e: InodeDisk) {
    forall k :: Owns(s, d, k) ==> !Owns(t, e, k)
  }

  /** FILES maps inode sectors to inodes: no two files share a sector, and what they own is marked used. */
  ghost predicate Own(used: seq<bool>, files: map<int, InodeDisk>) {
    && (forall s :: s in files ==> FileOk(used, s, files[s]))
    && (forall s, t :: s in files && t in files && s != t ==> Apart(s, files[s], t, files[t]))
  }

  /** The free map with the sectors of a file given back. */
  ghost function Released(used: seq<bool>, s: int, d: InodeDisk): seq<bool>
    requires FileOk(used, s, d)
  {
    assert Owns(s, d, s);
    Fill(Fill(used, s, 1, false), d.start, SectorCnt(d.length), false)
  }

  lemma FileStays(used: seq<bool>, used': seq<bool>, s: int, d: InodeDisk)
    requires FileOk(used, s, d) && |used'| == |used|
    requires forall k :: Owns(s, d, k) && 0 <= k < |used| && used[k] ==> used'[k]
    ensures FileOk(used', s, d)
  {
  }

  /** Marking more sectors used does no harm. */
  lemma OwnMore(used: seq<bool>, files: map<int, InodeDisk>, start: nat, n: nat)
    requires Own(used, files) && start + n <= |used|
    ensures Own(Fill(used, start, n, true), files)
  {
    forall s | s in files ensures FileOk(Fill(used, start, n, true), s, files[s]) {
      FileStays(used, Fill(used, start, n, true), s, files[s]);
    }
  }

  /** Neither does giving back sectors that no file owns. */
  lemma OwnLess(used: seq<bool>, files: map<int, InodeDisk>, start: nat, n: nat)
    requires Own(used, files) && start + n <= |used|
    requires forall s, k :: s in files && start <= k < start + n ==> !Owns(s, files[s], k)
    ensures Own(Fill(used, start, n, false), files)
  {
    forall s | s in files ensures FileOk(Fill(used, start, n, false), s, files[s]) {
      FileStays(used, Fill(used, start, n, false), s, files[s]);
    }
  }

  lemma OwnFewer(used: seq<bool>, files: map<int, InodeDisk>, s: int)
    requires Own(used, files)
    ensures Own(used, files - {s})
  {
  }

  /** A file on sectors that were free. */
  lemma OwnAdd(used: seq<bool>, files: map<int, InodeDisk>, s: int, d: InodeDisk)
    requires Own(used, files) && 0 <= s < |used| && !used[s]
    requires 0 <= d.start && 0 <= d.length && AllAre(Fill(used, s, 1, true), d.start, SectorCnt(d.length), false)
    ensures s !in files
    ensures Own(Fill(Fill(used, s, 1, true), d.start, SectorCnt(d.length), true), files[s := d])
  {
    var used1 := Fill(used, s, 1, true);
    var used2 := Fill(used1, d.start, SectorCnt(d.length), true);
    assert s in files ==> Owns(s, files[s], s);
    OwnMore(used, files, s, 1);
    OwnMore(used1, files, d.start, SectorCnt(d.length));
    assert used1[s];
    forall t | t in files ensures Apart(t, files[t], s, d) && Apart(s, d, t, files[t]) {
      FreeApart(used, t, files[t], s, d);
    }
  }

  lemma FreeApart(used: seq<bool>, t: int, e: InodeDisk, s: int, d: InodeDisk)
    requires FileOk(used, t, e) && 0 <= s < |used| && !used[s]
    requires 0 <= d.start && 0 <= d.length && AllAre(Fill(used, s, 1, true), d.start, SectorCnt(d.length), false)
    ensures Apart(t, e, s, d) && Apart(s, d, t, e)
  {
    forall k | Owns(t, e, k) ensures !Owns(s, d, k) {
      assert used[k] && Fill(used, s, 1, true)[k];
    }
  }

  /** A file goes, and its sectors are free. */
  lemma OwnDrop(used: seq<bool>, files: map<int, InodeDisk>, s: int)
    requires Own(used, files) && s in files
    ensures Owns(s, files[s], s) && 0 <= s < |used|
    ensures AllAre(used, s, 1, true)
    ensures AllAre(Fill(used, s, 1, false), files[s].start, SectorCnt(files[s].length), true)
    ensures Own(Released(used, s, files[s]), files - {s})
    ensures forall k :: 0 <= k < |used| ==> (Released(used, s, files[s])[k] <==> used[k] && !Owns(s, files[s], k))
  {
    var d := files[s];
    assert Owns(s, d, s);
    forall k | d.start <= k < d.start + SectorCnt(d.length) ensures Owns(s, d, k) {
    }
    forall t | t in files && t != s ensures FileOk(Released(used, s, d), t, files[t]) {
      assert Apart(t, files[t], s, d);
      FileStays(used, Released(used, s, d), t, files[t]);
    }
  }
}
