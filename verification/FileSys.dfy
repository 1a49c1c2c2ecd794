/** The file system's calls as they change its variables (filesys/filesys.c, directory.c, inode.c, free-map.c); each is
    proved to do what module Volume says.  The root directory is opened and closed within a call, and a failure to open
    it is an argument. */
module FileSys {
  import opened Bitmap
  import opened Collections
  import opened InodeIO
  import opened Ownership
  import opened Volume
  import opened VolumeRuns
  import opened VolumeOutcomes

  class FileSystem {
    const freeMap: Map
    var inodes: map<int, InodeDisk>
    var dir: seq<Entry>
    var open: map<int, Open>
    ghost var files: map<int, InodeDisk>

    ghost function Now(): Vol
      requires freeMap.Valid()
      reads this, freeMap.bits
    {
      Vol(freeMap.Contents(), inodes, dir, open, files)
    }

    ghost predicate Valid()
      reads this, freeMap.bits
    {
      freeMap.Valid() && Inv(Now())
    }

    /** A volume as another leaves it, say do_format. */
    constructor (freeMap: Map, inodes: map<int, InodeDisk>, dir: seq<Entry>, open: map<int, Open>,
                 ghost files: map<int, InodeDisk>)
      requires freeMap.Valid() && Inv(Vol(freeMap.Contents(), inodes, dir, open, files))
      ensures Valid() && Now() == Vol(freeMap.Contents(), inodes, dir, open, files) && this.freeMap == freeMap
    {
      this.freeMap, this.inodes, this.dir, this.open, this.files := freeMap, inodes, dir, open, files;
    }

    // ---------- free map ----------

    method FreeMapAllocate(n: nat, written: bool) returns (r: Option<nat>)
      requires freeMap.Valid()
      modifies freeMap.bits
      ensures freeMap.Valid() && r == Allocate(old(freeMap.Contents()), n, written)
      ensures freeMap.Contents() ==
              if r.Some? then Fill(old(freeMap.Contents()), r.value, n, true) else old(freeMap.Contents())
    {
      ghost var c := freeMap.Contents();
      r := freeMap.ScanAndFlip(0, n, false);
      FirstGroupUnique(c, 0, n, false, r, FirstFit(c, n, 0));
      if r.Some? && !written {
        FillBack(c, r.value, n, false);
        freeMap.SetMultiple(r.value, n, false);
        r := None;
      }
    }

    method FreeMapRelease(start: nat, n: nat)
      requires freeMap.Valid() && AllAre(freeMap.Contents(), start, n, true)
      modifies freeMap.bits
      ensures freeMap.Valid() && freeMap.Contents() == Fill(old(freeMap.Contents()), start, n, false)
    {
      freeMap.SetMultiple(start, n, false);
    }

    // ---------- inodes ----------

    /** inode_create. */
    method InodeCreate(s: nat, length: nat, room: bool, written: bool) returns (r: Option<InodeDisk>)
      requires freeMap.Valid()
      modifies this`inodes, freeMap.bits
      ensures freeMap.Valid()
      ensures var a := if room then Allocate(old(freeMap.Contents()), SectorCnt(length), written) else None;
              && (r.Some? <==> a.Some?)
              && (r.Some? ==>
                    && r.value == InodeDisk(a.value, length) && inodes == NewInode(old(inodes), s, r.value)
                    && freeMap.Contents() == Fill(old(freeMap.Contents()), a.value, SectorCnt(length), true))
              && (r.None? ==> inodes == old(inodes) && freeMap.Contents() == old(freeMap.Contents()))
    {
      if !room {
        return None;
      }
      var a := FreeMapAllocate(SectorCnt(length), written);
      if a.None? {
        return None;
      }
      var d := InodeDisk(a.value, length);
      WriteInode(s, d);
      r := Some(d);
    }

    /** The writes of inode_create: the inode goes to sector S and zeros to the sectors of the data. */
    method WriteInode(s: nat, d: InodeDisk)
      modifies this`inodes
      ensures inodes == NewInode(old(inodes), s, d)
    {
      inodes := (map t | t in inodes && !(d.start <= t < d.start + SectorCnt(d.length)) :: inodes[t])[s := d];
    }

    /** inode_open. */
    method InodeOpen(s: int, room: bool) returns (ok: bool)
      requires freeMap.Valid() && s in inodes
      modifies this`open
      ensures ok <==> s in old(open) || room
      ensures Now() == if ok then Opened(old(Now()), s) else old(Now())
    {
      if s in open {
        open := open[s := OneMore(open[s])];
        return true;
      }
      if !room {
        return false;
      }
      open := open[s := Open(1, false, inodes[s])];
      return true;
    }

    /** inode_close. */
    method InodeClose(s: int)
      requires Valid() && s in open && s != 0
      modifies this`open, this`files, freeMap.bits
      ensures Valid() && FileOk(old(freeMap.Contents()), s, old(open[s].data)) && Now() == Closed(old(Now()), s)
    {
      ClosedKeeps(Now(), s);
      OpenFileOk(Now(), s);
      if open[s].count > 1 {
        open := open[s := OneLess(open[s])];
      } else {
        var o := open[s];
        if o.removed {
          OwnDrop(freeMap.Contents(), files, s);
          FreeMapRelease(s, 1);
          FreeMapRelease(o.data.start, SectorCnt(o.data.length));
        }
        open := open - {s};
        files := if s <= 1 || Linked(dir, s) then files else files - {s};
      }
    }

    // ---------- the directory ----------

    /** lookup. */
    method Lookup(name: string, limit: nat) returns (r: Option<nat>)
      ensures r == FindName(dir, name, limit)
    {
      var i := 0;
      while i < |dir| && i < limit
        invariant i <= |dir|
        invariant forall j :: 0 <= j < i ==> !(dir[j].inUse && dir[j].name == name)
        invariant FindFrom(dir, name, limit, i) == FindName(dir, name, limit)
      {
        if dir[i].inUse && dir[i].name == name {
          return Some(i);
        }
        i := i + 1;
      }
      return None;
    }

    /** dir_add. */
    method DirAdd(name: string, s: int, lookup: nat, slot: nat, written: bool) returns (r: Option<nat>)
      modifies this`dir
      ensures r == AddSlot(old(dir), name, lookup, slot, written)
      ensures dir == if r.Some? then old(dir)[r.value := Entry(true, name, s)] else old(dir)
    {
      if name == "" || |name| > NAME_MAX {
        return None;
      }
      var found := Lookup(name, lookup);
      if found.Some? {
        return None;
      }
      var i := 0;
      while i < |dir| && i != slot && dir[i].inUse
        invariant i <= |dir| && SlotFrom(dir, slot, i) == SlotFrom(dir, slot, 0)
      {
        i := i + 1;
      }
      if i < |dir| && written {
        dir := dir[i := Entry(true, name, s)];
        return Some(i);
      }
      return None;
    }

    // ---------- files ----------

    /** filesys_create. */
    method FilesysCreate(name: string, size: nat, c: Luck) returns (ok: bool)
      requires Valid()
      modifies this, freeMap.bits
      ensures Valid() && Result(Now(), ok) == Create(old(Now()), name, size, c)
      ensures ok <==>
              && c.dirOpens && c.mapWritten && c.room && c.mapWritten2 && c.slotWritten
              && DiskRoom(old(freeMap.Contents()), SectorCnt(size)) && CanAdd(old(dir), name, c.lookup, c.slot)
    {
      ghost var v := Now();
      CreateKeeps(v, name, size, c);
      CreateSucceedsIff(v, name, size, c);
      ok := CreateFile(name, size, c);
    }

    method CreateFile(name: string, size: nat, c: Luck) returns (ok: bool)
      requires freeMap.Valid()
      modifies this, freeMap.bits
      ensures freeMap.Valid() && Result(Now(), ok) == Create(old(Now()), name, size, c)
    {
      ghost var v := Now();
      if !c.dirOpens {
        return false;
      }
      var s := FreeMapAllocate(1, c.mapWritten);
      if s.None? {
        return false;
      }
      var d := InodeCreate(s.value, size, c.room, c.mapWritten2);
      var slot := None;
      if d.Some? {
        slot := DirAdd(name, s.value, c.lookup, c.slot, c.slotWritten);
      }
      if slot.None? {
        FreeMapRelease(s.value, 1);
        return false;
      }
      files := WithoutEntry(v, slot.value)[s.value := d.value];
      return true;
    }

    /** filesys_open: the file is named by its inode's sector. */
    method FilesysOpen(name: string, dirOpens: bool, lookup: nat, room: bool, fileRoom: bool)
      returns (r: Option<int>)
      requires Valid()
      modifies this`open, this`files, freeMap.bits
      ensures Valid() && Result(Now(), r) == OpenFile(old(Now()), name, dirOpens, lookup, room, fileRoom)
      ensures r.Some? <==> fileRoom && exists i :: Reaches(old(Now()), name, dirOpens, lookup, room, i)
    {
      ghost var v := Now();
      OpenSucceedsIff(v, name, dirOpens, lookup, room, fileRoom);
      OpenFileKeeps(v, name, dirOpens, lookup, room, fileRoom);
      if !dirOpens {
        return None;
      }
      var i := Lookup(name, lookup);
      if i.None? {
        return None;
      }
      var s := dir[i.value].sector;
      OpenedKeeps(v, s);
      var ok := InodeOpen(s, room);
      if !ok {
        return None;
      }
      if !fileRoom {
        InodeClose(s);
        return None;
      }
      return Some(s);
    }

    /** filesys_remove, with dir_remove. */
    method FilesysRemove(name: string, dirOpens: bool, lookup: nat, room: bool, erased: bool) returns (ok: bool)
      requires Valid()
      modifies this, freeMap.bits
      ensures Valid() && Result(Now(), ok) == Remove(old(Now()), name, dirOpens, lookup, room, erased)
      ensures ok <==> erased && exists i :: Reaches(old(Now()), name, dirOpens, lookup, room, i)
    {
      ghost var v := Now();
      RemoveSucceedsIff(v, name, dirOpens, lookup, room, erased);
      RemoveKeeps(v, name, dirOpens, lookup, room, erased);
      if !dirOpens {
        return false;
      }
      var i := Lookup(name, lookup);
      if i.None? {
        return false;
      }
      var s := dir[i.value].sector;
      OpenedKeeps(v, s);
      ok := InodeOpen(s, room);
      if !ok {
        return false;
      }
      if erased {
        EraseEntry(i.value);
      }
      InodeClose(s);
      return erased;
    }

    /** The entry is erased, and then the inode is marked: inode_remove. */
    method EraseEntry(i: nat)
      requires Valid() && i < |dir| && dir[i].inUse && dir[i].sector in open
      modifies this`dir, this`open
      ensures Valid() && Now() == Marked(old(Now()), i)
    {
      MarkedKeeps(Now(), i);
      var s := dir[i].sector;
      dir := dir[i := dir[i].(inUse := false)];
      open := open[s := Doomed(open[s])];
    }
  }
}
