/** The file system as a state: free map, inodes on disk, root directory and open inodes, and what creating, opening,
    removing and closing files does to it (filesys.c, directory.c, inode.c, free-map.c).  Where memory may be short, an
    argument says whether it is. */
module Volume {
  import opened Bitmap
  import opened Collections
  import opened InodeIO
  import opened Ownership

  const NAME_MAX: nat := 14

  /** struct dir_entry. */
  datatype Entry = Entry(inUse: bool, name: string, sector: int)

  /** struct inode. */
  datatype Open = Open(count: int, removed: bool, data: InodeDisk)

  /** FILES is the inodes that are linked or open; the rest is what the kernel keeps.  Sectors 0 and 1 are the free
      map's and the root directory's. */
  datatype Vol = Vol(used: seq<bool>, inodes: map<int, InodeDisk>, dir: seq<Entry>, open: map<int, Open>,
                     files: map<int, InodeDisk>)

  // ---------- what holds between calls ----------

  ghost predicate Linked(dir: seq<Entry>, s: int) {
    exists i :: 0 <= i < |dir| && dir[i].inUse && dir[i].sector == s
  }

  ghost predicate InodesOk(inodes: map<int, InodeDisk>, files: map<int, InodeDisk>) {
    forall s :: s in files ==> s in inodes && inodes[s] == files[s]
  }

  ghost predicate OpenOk(open: map<int, Open>, files: map<int, InodeDisk>) {
    forall s :: s in open ==> s in files && open[s].data == files[s] && open[s].count >= 1
  }

  /** A name leads to a file that is not to be deleted, and no two names to the same. */
  ghost predicate LinksOk(dir: seq<Entry>, open: map<int, Open>, files: map<int, InodeDisk>) {
    && (forall i :: 0 <= i < |dir| && dir[i].inUse ==>
          && dir[i].sector > 1 && dir[i].sector in files
          && (dir[i].sector in open ==> !open[dir[i].sector].removed))
    && (forall i, j :: 0 <= i < j < |dir| && dir[i].inUse && dir[j].inUse ==> dir[i].sector != dir[j].sector)
  }

  ghost predicate SystemOk(open: map<int, Open>, files: map<int, InodeDisk>) {
    0 in files && 1 in files && 0 in open && !open[0].removed && (1 in open ==> !open[1].removed)
  }

  ghost predicate Exact(dir: seq<Entry>, open: map<int, Open>, files: map<int, InodeDisk>) {
    forall s :: s in files ==> s <= 1 || s in open || Linked(dir, s)
  }

  ghost predicate Inv(v: Vol) {
    && Own(v.used, v.files) && InodesOk(v.inodes, v.files) && OpenOk(v.open, v.files)
    && LinksOk(v.dir, v.open, v.files) && SystemOk(v.open, v.files) && Exact(v.dir, v.open, v.files)
  }

  // ---------- open and closed inodes ----------

  function OneMore(o: Open): Open {
    o.(count := o.count + 1)
  }

  function OneLess(o: Open): Open {
    o.(count := o.count - 1)
  }

  function Doomed(o: Open): Open {
    o.(removed := true)
  }

  /** inode_open, when it does not run out of memory. */
  ghost function Opened(v: Vol, s: int): Vol
    requires s in v.inodes
  {
    v.(open := v.open[s := if s in v.open then OneMore(v.open[s]) else Open(1, false, v.inodes[s])])
  }

  /** The last opener of an inode closes it. */
  ghost function LastClosed(v: Vol, s: int): Vol
    requires s in v.open && FileOk(v.used, s, v.open[s].data)
  {
    Vol(if v.open[s].removed then Released(v.used, s, v.open[s].data) else v.used, v.inodes, v.dir, v.open - {s},
        if s <= 1 || Linked(v.dir, s) then v.files else v.files - {s})
  }

  /** inode_close. */
  ghost function Closed(v: Vol, s: int): Vol
    requires s in v.open && FileOk(v.used, s, v.open[s].data)
  {
    if v.open[s].count > 1 then v.(open := v.open[s := OneLess(v.open[s])]) else LastClosed(v, s)
  }

  lemma OpenedKeeps(v: Vol, s: int)
    requires Inv(v) && s in v.files
    ensures s in v.inodes && Inv(Opened(v, s)) && s in Opened(v, s).open
  {
  }

  lemma OpenFileOk(v: Vol, s: int)
    requires Inv(v) && s in v.open
    ensures FileOk(v.used, s, v.open[s].data)
  {
  }

  lemma LastClosedKeeps(v: Vol, s: int)
    requires Inv(v) && s in v.open && s != 0
    ensures FileOk(v.used, s, v.open[s].data) && Inv(LastClosed(v, s))
  {
    var r := LastClosed(v, s);
    if v.open[s].removed {
      OwnDrop(v.used, v.files, s);
    } else {
      OwnFewer(v.used, v.files, s);
    }
  }

  lemma ClosedKeeps(v: Vol, s: int)
    requires Inv(v) && s in v.open && s != 0
    ensures FileOk(v.used, s, v.open[s].data) && Inv(Closed(v, s))
  {
    if v.open[s].count == 1 {
      LastClosedKeeps(v, s);
    }
  }

  // ---------- the directory ----------

  /** lookup, when the read of entry LIMIT is the first that fails: an entry before it with the name. */
  function FindName(dir: seq<Entry>, name: string, limit: nat): (r: Option<nat>)
    ensures r.Some? ==> r.value < |dir| && r.value < limit && dir[r.value].inUse && dir[r.value].name == name
    ensures forall i :: 0 <= i < |dir| && i < (if r.Some? then r.value else limit) ==>
              !(dir[i].inUse && dir[i].name == name)
  {
    FindFrom(dir, name, limit, 0)
  }

  function FindFrom(dir: seq<Entry>, name: string, limit: nat, i: nat): (r: Option<nat>)
    requires forall j :: 0 <= j < i && j < |dir| ==> !(dir[j].inUse && dir[j].name == name)
    ensures r.Some? ==> r.value < |dir| && r.value < limit && dir[r.value].inUse && dir[r.value].name == name
    ensures forall j :: 0 <= j < |dir| && j < (if r.Some? then r.value else limit) ==>
              !(dir[j].inUse && dir[j].name == name)
    decreases |dir| - i
  {
    if i >= |dir| || i >= limit then None
    else if dir[i].inUse && dir[i].name == name then Some(i)
    else FindFrom(dir, name, limit, i + 1)
  }

  /** The slot dir_add settles on: the first free one, or where a read fails or the directory ends. */
  function SlotFrom(dir: seq<Entry>, limit: nat, i: nat): (r: nat)
    requires i <= |dir|
    ensures i <= r <= |dir|
    ensures r < |dir| && r != limit ==> !dir[r].inUse
    decreases |dir| - i
  {
    if i == |dir| || i == limit || !dir[i].inUse then i else SlotFrom(dir, limit, i + 1)
  }

  /** dir_add: the slot it writes, if it succeeds.  LOOKUP and SLOT are the first reads to fail, and WRITTEN says
      whether the write succeeds inside the directory; the directory does not grow. */
  function AddSlot(dir: seq<Entry>, name: string, lookup: nat, slot: nat, written: bool): (r: Option<nat>)
    ensures r.Some? ==> r.value < |dir|
  {
    if name == "" || |name| > NAME_MAX then None
    else if FindName(dir, name, lookup).Some? then None
    else
      var i := SlotFrom(dir, slot, 0);
      if i < |dir| && written then Some(i) else None
  }

  ghost predicate UniqueNames(dir: seq<Entry>) {
    forall i, j :: 0 <= i < j < |dir| && dir[i].inUse && dir[j].inUse ==> dir[i].name != dir[j].name
  }

  /** Names stay unique exactly if no entry that lookup could not read, other than the one overwritten, has the name. */
  lemma AddedNames(dir: seq<Entry>, name: string, s: int, lookup: nat, slot: nat)
    requires UniqueNames(dir) && AddSlot(dir, name, lookup, slot, true).Some?
    ensures var i := AddSlot(dir, name, lookup, slot, true).value;
            UniqueNames(dir[i := Entry(true, name, s)]) <==>
            forall j :: lookup <= j < |dir| && j != i && dir[j].inUse ==> dir[j].name != name
  {
    var i := AddSlot(dir, name, lookup, slot, true).value;
    var dir' := dir[i := Entry(true, name, s)];
    if UniqueNames(dir') {
      forall j | lookup <= j < |dir| && j != i && dir[j].inUse ensures dir[j].name != name {
        assert dir'[j] == dir[j] && dir'[i].name == name;
      }
    }
  }

  // ---------- operations ----------

  datatype Result<T> = Result(vol: Vol, value: T)

  /** free_map_allocate: WRITTEN says whether the free map can be written back. */
  ghost function Allocate(used: seq<bool>, n: nat, written: bool): (r: Option<nat>)
    ensures r.Some? ==> AllAre(used, r.value, n, false)
  {
    if written then FirstFit(used, n, 0) else None
  }

  /** The inodes on disk after inode_create: SECTOR written, N sectors from START zeroed. */
  ghost function NewInode(inodes: map<int, InodeDisk>, s: int, d: InodeDisk): map<int, InodeDisk> {
    (map t | t in inodes && !(d.start <= t < d.start + SectorCnt(d.length)) :: inodes[t])[s := d]
  }

  /** What may go wrong in filesys_create. */
  datatype Luck = Luck(dirOpens: bool, mapWritten: bool, room: bool, mapWritten2: bool, lookup: nat, slot: nat,
                       slotWritten: bool)

  /** filesys_create. */
  ghost function Create(v: Vol, name: string, size: nat, c: Luck): Result<bool> {
    match if c.dirOpens then Allocate(v.used, 1, c.mapWritten) else None
    case None => Result(v, false)
    case Some(s) =>
      var used := Fill(v.used, s, 1, true);
      match if c.room then Allocate(used, SectorCnt(size), c.mapWritten2) else None
      case None => Result(v.(used := Fill(used, s, 1, false)), false)
      case Some(start) => FinishCreate(v, name, s, InodeDisk(start, size), c)
  }

  /** filesys_create once the inode at S is on disk. */
  ghost function FinishCreate(v: Vol, name: string, s: nat, d: InodeDisk, c: Luck): Result<bool>
    requires s + 1 <= |v.used| && d.start >= 0 && d.length >= 0 && d.start + SectorCnt(d.length) <= |v.used|
  {
    var used := Fill(Fill(v.used, s, 1, true), d.start, SectorCnt(d.length), true);
    var inodes := NewInode(v.inodes, s, d);
    match AddSlot(v.dir, name, c.lookup, c.slot, c.slotWritten)
    case None => Result(v.(used := Fill(used, s, 1, false), inodes := inodes), false)
    case Some(i) =>
      Result(Vol(used, inodes, v.dir[i := Entry(true, name, s)], v.open, WithoutEntry(v, i)[s := d]), true)
  }

  /** The files left when entry I is overwritten. */
  ghost function WithoutEntry(v: Vol, i: nat): map<int, InodeDisk>
    requires i < |v.dir|
  {
    if v.dir[i].inUse && v.dir[i].sector !in v.open then v.files - {v.dir[i].sector} else v.files
  }

  ghost function NotEnough(v: Vol, s: int, room: bool): bool {
    s !in v.open && !room
  }

  /** filesys_open: the inode sector of the file opened. */
  ghost function OpenFile(v: Vol, name: string, dirOpens: bool, lookup: nat, room: bool, fileRoom: bool)
    : Result<Option<int>>
    requires Inv(v)
  {
    match if dirOpens then FindName(v.dir, name, lookup) else None
    case None => Result(v, None)
    case Some(i) =>
      var s := v.dir[i].sector;
      if NotEnough(v, s, room) then Result(v, None)
      else
        OpenedKeeps(v, s);
        ClosedKeeps(Opened(v, s), s);
        if fileRoom then Result(Opened(v, s), Some(s)) else Result(Closed(Opened(v, s), s), None)
  }

  /** The entry is erased and the inode marked. */
  ghost function Marked(v: Vol, i: nat): Vol
    requires i < |v.dir| && v.dir[i].sector in v.open
  {
    v.(dir := v.dir[i := v.dir[i].(inUse := false)],
       open := v.open[v.dir[i].sector := Doomed(v.open[v.dir[i].sector])])
  }

  lemma MarkedKeeps(v: Vol, i: nat)
    requires Inv(v) && i < |v.dir| && v.dir[i].inUse && v.dir[i].sector in v.open
    ensures Inv(Marked(v, i)) && v.dir[i].sector in Marked(v, i).open && v.dir[i].sector != 0
  {
    var s, r := v.dir[i].sector, Marked(v, i);
    forall t | t in r.files ensures t <= 1 || t in r.open || Linked(r.dir, t) {
      if t > 1 && t !in v.open {
        var j :| 0 <= j < |v.dir| && v.dir[j].inUse && v.dir[j].sector == t;
        assert r.dir[j] == v.dir[j];
      }
    }
  }

  /** filesys_remove. */
  ghost function Remove(v: Vol, name: string, dirOpens: bool, lookup: nat, room: bool, erased: bool): Result<bool>
    requires Inv(v)
  {
    match if dirOpens then FindName(v.dir, name, lookup) else None
    case None => Result(v, false)
    case Some(i) =>
      var s := v.dir[i].sector;
      if NotEnough(v, s, room) then Result(v, false)
      else
        OpenedKeeps(v, s);
        MarkedKeeps(Opened(v, s), i);
        ClosedKeeps(Opened(v, s), s);
        ClosedKeeps(Marked(Opened(v, s), i), s);
        if erased then Result(Closed(Marked(Opened(v, s), i), s), true) else Result(Closed(Opened(v, s), s), false)
  }
}
