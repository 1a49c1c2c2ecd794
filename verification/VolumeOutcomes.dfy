/** When creating, opening and removing a file succeed, and what a call that succeeds or fails leaves (filesys.c,
    directory.c, inode.c). */
module VolumeOutcomes {
  import opened Bitmap
  import opened Collections
  import opened InodeIO
  import opened Ownership
  import opened Volume
  import opened VolumeRuns

  // ---------- names ----------

  /** Entry I is the first one of that name, and it lies before the first that cannot be read. */
  ghost predicate FirstNamed(dir: seq<Entry>, name: string, limit: nat, i: int) {
    && 0 <= i < |dir| && i < limit && dir[i].inUse && dir[i].name == name
    && forall j :: 0 <= j < i ==> !(dir[j].inUse && dir[j].name == name)
  }

  lemma FindNameIs(dir: seq<Entry>, name: string, limit: nat, i: int)
    ensures FirstNamed(dir, name, limit, i) <==> i >= 0 && FindName(dir, name, limit) == Some(i)
  {
  }

  /** Name leads to entry I, and the inode there is open already or there is room for it. */
  ghost predicate Reaches(v: Vol, name: string, dirOpens: bool, lookup: nat, room: bool, i: int) {
    dirOpens && FirstNamed(v.dir, name, lookup, i) && (v.dir[i].sector in v.open || room)
  }

  // ---------- open ----------

  /** R is V with one more opener of the inode at S, which is read from disk if it was not open. */
  ghost predicate OneMoreOpener(v: Vol, r: Vol, s: int) {
    && s in v.inodes && s in r.open && r == v.(open := r.open)
    && (s in v.open ==> r.open[s] == Open(v.open[s].count + 1, v.open[s].removed, v.open[s].data))
    && (s !in v.open ==> r.open[s] == Open(1, false, v.inodes[s]))
    && (forall t :: t in r.open <==> t in v.open || t == s)
    && (forall t :: t in v.open && t != s ==> r.open[t] == v.open[t])
  }

  /** An inode that is opened and closed again is as it was. */
  lemma OpenedAndClosed(v: Vol, s: int)
    requires Inv(v) && s in v.files && s != 0 && Linked(v.dir, s)
    ensures s in v.inodes && s in Opened(v, s).open && FileOk(v.used, s, Opened(v, s).open[s].data)
    ensures Closed(Opened(v, s), s) == v
  {
    OpenedKeeps(v, s);
    OpenFileOk(Opened(v, s), s);
    var r := Closed(Opened(v, s), s);
    if s in v.open {
      assert OneLess(OneMore(v.open[s])) == v.open[s];
    }
    assert r.open == v.open;
  }

  /** filesys_open succeeds exactly if the directory can be opened, it has the name among the entries it can read, the
      inode there is open already or there is memory for it, and there is memory for the file.  Then the file has one
      more opener; otherwise nothing has changed. */
  lemma OpenSucceedsIff(v: Vol, name: string, dirOpens: bool, lookup: nat, room: bool, fileRoom: bool)
    requires Inv(v)
    ensures var r := OpenFile(v, name, dirOpens, lookup, room, fileRoom);
            && (r.value.Some? <==> fileRoom && exists i :: Reaches(v, name, dirOpens, lookup, room, i))
            && (r.value.None? ==> r.vol == v)
            && (r.value.Some? ==>
                  exists i :: Reaches(v, name, dirOpens, lookup, room, i) && r.value.value == v.dir[i].sector &&
                              OneMoreOpener(v, r.vol, v.dir[i].sector))
  {
    var f := if dirOpens then FindName(v.dir, name, lookup) else None;
    if f.Some? {
      var s := v.dir[f.value].sector;
      FindNameIs(v.dir, name, lookup, f.value);
      OpenedKeeps(v, s);
      OpenedAndClosed(v, s);
      assert Reaches(v, name, dirOpens, lookup, room, f.value) <==> s in v.open || room;
      assert OneMoreOpener(v, Opened(v, s), s);
      forall i | Reaches(v, name, dirOpens, lookup, room, i) ensures i == f.value {
        FindNameIs(v.dir, name, lookup, i);
      }
    } else {
      forall i ensures !Reaches(v, name, dirOpens, lookup, room, i) {
        FindNameIs(v.dir, name, lookup, i);
      }
    }
  }

  // ---------- remove ----------

  /** R is V without entry I: if somebody has the file open it is marked and keeps its sectors. */
  ghost predicate NameGone(v: Vol, r: Vol, i: int) {
    && 0 <= i < |v.dir| && r.inodes == v.inodes && r.dir == v.dir[i := v.dir[i].(inUse := false)]
    && var s := v.dir[i].sector;
    && (s in v.open ==> r.open == v.open[s := v.open[s].(removed := true)] && r.used == v.used)
    && (s !in v.open ==> r.open == v.open)
  }

  lemma MarkedAndClosed(v: Vol, i: nat)
    requires Inv(v) && i < |v.dir| && v.dir[i].inUse
    ensures var s := v.dir[i].sector;
            && s in v.inodes && s in Opened(v, s).open
            && FileOk(v.used, s, Marked(Opened(v, s), i).open[s].data)
            && NameGone(v, Closed(Marked(Opened(v, s), i), s), i)
  {
    var s := v.dir[i].sector;
    OpenedKeeps(v, s);
    MarkedKeeps(Opened(v, s), i);
    OpenFileOk(Marked(Opened(v, s), i), s);
    var r := Closed(Marked(Opened(v, s), i), s);
    if s in v.open {
      assert OneLess(Doomed(OneMore(v.open[s]))) == v.open[s].(removed := true);
    } else {
      assert r.open == v.open;
    }
  }

  /** filesys_remove succeeds exactly if the directory can be opened, it has the name among the entries it can read, the
      inode there is open already or there is memory for it, and the entry can be erased.  Then the name is gone;
      otherwise nothing has changed. */
  lemma RemoveSucceedsIff(v: Vol, name: string, dirOpens: bool, lookup: nat, room: bool, erased: bool)
    requires Inv(v)
    ensures var r := Remove(v, name, dirOpens, lookup, room, erased);
            && (r.value <==> erased && exists i :: Reaches(v, name, dirOpens, lookup, room, i))
            && (!r.value ==> r.vol == v)
            && (r.value ==> exists i :: Reaches(v, name, dirOpens, lookup, room, i) && NameGone(v, r.vol, i))
  {
    var f := if dirOpens then FindName(v.dir, name, lookup) else None;
    if f.Some? {
      var s := v.dir[f.value].sector;
      FindNameIs(v.dir, name, lookup, f.value);
      OpenedAndClosed(v, s);
      MarkedAndClosed(v, f.value);
      assert Reaches(v, name, dirOpens, lookup, room, f.value) <==> s in v.open || room;
      forall i | Reaches(v, name, dirOpens, lookup, room, i) ensures i == f.value {
        FindNameIs(v.dir, name, lookup, i);
      }
    } else {
      forall i ensures !Reaches(v, name, dirOpens, lookup, room, i) {
        FindNameIs(v.dir, name, lookup, i);
      }
    }
  }

  // ---------- create ----------

  /** S is the first free sector. */
  ghost predicate FirstFree(used: seq<bool>, s: int) {
    0 <= s < |used| && !used[s] && forall k :: 0 <= k < s ==> used[k]
  }

  /** The N sectors from START on are free, without S. */
  ghost predicate FreeBeside(used: seq<bool>, s: int, start: int, n: nat) {
    && 0 <= start && start + n <= |used|
    && forall k :: start <= k < start + n ==> !used[k] && k != s
  }

  /** There is room on the disk for a file of N data sectors. */
  ghost predicate DiskRoom(used: seq<bool>, n: nat) {
    exists s, start :: FirstFree(used, s) && FreeBeside(used, s, start, n)
  }

  /** The name can be added: it has 1 to 14 characters, no entry that is read has it, and the scan for a slot ends
      inside the directory, at a free entry or one that it cannot read. */
  ghost predicate CanAdd(dir: seq<Entry>, name: string, lookup: nat, slot: nat) {
    && 1 <= |name| <= 14
    && (forall j :: 0 <= j < |dir| && j < lookup ==> !(dir[j].inUse && dir[j].name == name))
    && exists i :: EndsScan(dir, slot, i)
  }

  ghost predicate EndsScan(dir: seq<Entry>, slot: nat, i: int) {
    0 <= i < |dir| && (!dir[i].inUse || i == slot)
  }

  lemma {:induction false} SlotFromIs(dir: seq<Entry>, slot: nat, i: nat)
    requires i <= |dir|
    ensures var r := SlotFrom(dir, slot, i);
            && (forall j :: i <= j < r ==> !EndsScan(dir, slot, j))
            && (r < |dir| ==> EndsScan(dir, slot, r))
    decreases |dir| - i
  {
    if i < |dir| && i != slot && dir[i].inUse {
      SlotFromIs(dir, slot, i + 1);
    }
  }

  lemma AddSlotIff(dir: seq<Entry>, name: string, lookup: nat, slot: nat, written: bool)
    ensures AddSlot(dir, name, lookup, slot, written).Some? <==> CanAdd(dir, name, lookup, slot) && written
    ensures AddSlot(dir, name, lookup, slot, written).Some? ==>
              var i := AddSlot(dir, name, lookup, slot, written).value;
              EndsScan(dir, slot, i) && forall j :: 0 <= j < i ==> !EndsScan(dir, slot, j)
  {
    SlotFromIs(dir, slot, 0);
  }

  lemma FirstFreeIs(used: seq<bool>)
    ensures FirstFit(used, 1, 0).Some? ==> FirstFree(used, FirstFit(used, 1, 0).value)
    ensures forall s :: FirstFree(used, s) ==> FirstFit(used, 1, 0) == Some(s)
  {
    var r := FirstFit(used, 1, 0);
    if r.Some? {
      forall k | 0 <= k < r.value ensures used[k] {
        assert !AllAre(used, k, 1, false);
      }
    }
    forall s | FirstFree(used, s) ensures r == Some(s) {
      assert AllAre(used, s, 1, false) && !used[r.value];
    }
  }

  lemma FreeBesideIs(used: seq<bool>, s: nat, n: nat)
    requires s < |used|
    ensures FirstFit(Fill(used, s, 1, true), n, 0).Some? <==> exists start :: FreeBeside(used, s, start, n)
    ensures FirstFit(Fill(used, s, 1, true), n, 0).Some? ==>
              FreeBeside(used, s, FirstFit(Fill(used, s, 1, true), n, 0).value, n)
  {
    var filled := Fill(used, s, 1, true);
    forall start: nat ensures FreeBeside(used, s, start, n) <==> AllAre(filled, start, n, false) {
      FreeBesideAt(used, filled, s, start, n);
    }
    if start :| FreeBeside(used, s, start, n) {
      assert AllAre(filled, start, n, false);
    }
  }

  lemma FreeBesideAt(used: seq<bool>, filled: seq<bool>, s: nat, start: nat, n: nat)
    requires s < |used| && filled == Fill(used, s, 1, true)
    ensures FreeBeside(used, s, start, n) <==> AllAre(filled, start, n, false)
  {
    if AllAre(filled, start, n, false) {
      forall k | start <= k < start + n ensures !used[k] && k != s {
        assert !filled[k];
      }
    }
    if FreeBeside(used, s, start, n) {
      forall k | start <= k < start + n ensures !filled[k] {
        assert !used[k];
      }
    }
  }

  /** filesys_create gets as far as an inode on disk exactly if nothing that it needs fails and there is disk room. */
  lemma MadeIff(v: Vol, size: nat, c: Luck)
    ensures Made(v, size, c).Some? <==>
            c.dirOpens && c.mapWritten && c.room && c.mapWritten2 && DiskRoom(v.used, SectorCnt(size))
    ensures Made(v, size, c).Some? ==>
              var (s, d) := Made(v, size, c).value;
              && FirstFree(v.used, s) && FreeBeside(v.used, s, d.start, SectorCnt(size)) && d.length == size
  {
    FirstFreeIs(v.used);
    var s := FirstFit(v.used, 1, 0);
    if s.Some? {
      FreeBesideIs(v.used, s.value, SectorCnt(size));
    }
  }

  /** filesys_create succeeds exactly if the directory can be opened, there is memory, the free map can be written,
      there is a free sector and beside it room for the data, the name can be added and the entry written.  Then the
      entry is in the first place where the scan can end, and its inode in the first free sector; otherwise directory,
      files and open inodes are as they were. */
  lemma CreateSucceedsIff(v: Vol, name: string, size: nat, c: Luck)
    requires Inv(v)
    ensures var r := Create(v, name, size, c);
            && (r.value <==>
                  && c.dirOpens && c.mapWritten && c.room && c.mapWritten2 && c.slotWritten
                  && DiskRoom(v.used, SectorCnt(size)) && CanAdd(v.dir, name, c.lookup, c.slot))
            && (!r.value ==> r.vol.dir == v.dir && r.vol.files == v.files)
            && r.vol.open == v.open
            && (r.value ==>
                  exists i, s ::
                    && EndsScan(v.dir, c.slot, i) && (forall j :: 0 <= j < i ==> !EndsScan(v.dir, c.slot, j))
                    && FirstFree(v.used, s) && r.vol.dir == v.dir[i := Entry(true, name, s)])
  {
    MadeIff(v, size, c);
    AddSlotIff(v.dir, name, c.lookup, c.slot, c.slotWritten);
    CreateDir(v, name, size, c);
    CreateLeavesOpen(v, name, size, c);
    CreateValue(v, name, size, c);
  }

  /** A file just created reads as zeros, and every other file as before, on the disk NOW whose data sectors for the new
      file inode_create has cleared. */
  lemma CreatedIsZero(v: Vol, name: string, size: nat, c: Luck, was: seq<seq<int>>, now: seq<seq<int>>, s: int, t: int)
    requires Inv(v) && Create(v, name, size, c).value && |was| == |v.used| && DiskOk(was)
    requires var r := Create(v, name, size, c).vol;
             s in r.files && s !in v.files && Zeroed(was, now, r.files[s].start, SectorCnt(size))
    requires t in v.files
    ensures var d := Create(v, name, size, c).vol.files[s];
            OnDisk(now, d) && |Flat(now, d)| == size && forall k :: 0 <= k < size ==> Flat(now, d)[k] == 0
    ensures OnDisk(was, v.files[t]) && OnDisk(now, v.files[t]) && Flat(now, v.files[t]) == Flat(was, v.files[t])
  {
    CreateValue(v, name, size, c);
    MadeIff(v, size, c);
    var (s1, d) := Made(v, size, c).value;
    assert s == s1 && Create(v, name, size, c).vol.files[s] == d;
    ZeroedFile(was, now, d);
    assert FileOk(v.used, t, v.files[t]);
    assert forall k :: HasData(v.files[t], k) ==> Owns(t, v.files[t], k);
    ZeroedOther(was, now, d.start, SectorCnt(size), v.files[t]);
  }

  lemma CreateValue(v: Vol, name: string, size: nat, c: Luck)
    ensures Create(v, name, size, c).value <==>
            Made(v, size, c).Some? && AddSlot(v.dir, name, c.lookup, c.slot, c.slotWritten).Some?
    ensures !Create(v, name, size, c).value ==> Create(v, name, size, c).vol.files == v.files
  {
  }
}
