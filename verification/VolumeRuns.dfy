/** What every run of file-system calls from a formatted disk keeps. */
module VolumeRuns {
  import opened Bitmap
  import opened Collections
  import opened InodeIO
  import opened Ownership
  import opened Volume

  // ---------- create ----------

  /** A file's sectors are not among those just found free. */
  lemma NotZeroed(used: seq<bool>, files: map<int, InodeDisk>, inodes: map<int, InodeDisk>, s: int, d: InodeDisk)
    requires Own(used, files) && InodesOk(inodes, files) && 0 <= s < |used| && !used[s]
    requires 0 <= d.start && 0 <= d.length && AllAre(Fill(used, s, 1, true), d.start, SectorCnt(d.length), false)
    ensures s !in files && InodesOk(NewInode(inodes, s, d), files)
  {
    assert s in files ==> Owns(s, files[s], s);
    forall t | t in files ensures t != s && !(d.start <= t < d.start + SectorCnt(d.length)) {
      assert Owns(t, files[t], t) && used[t] && Fill(used, s, 1, true)[t];
    }
  }

  lemma FailedAddOwn(used: seq<bool>, files: map<int, InodeDisk>, s: nat, d: InodeDisk)
    requires Own(used, files) && s < |used| && !used[s] && 0 <= d.start && 0 <= d.length
    requires d.start + SectorCnt(d.length) <= |used|
    ensures Own(Fill(Fill(Fill(used, s, 1, true), d.start, SectorCnt(d.length), true), s, 1, false), files)
  {
    var used1 := Fill(used, s, 1, true);
    OwnMore(used, files, s, 1);
    OwnMore(used1, files, d.start, SectorCnt(d.length));
    forall t, k | t in files && s <= k < s + 1 ensures !Owns(t, files[t], k) {
      assert FileOk(used, t, files[t]);
    }
    OwnLess(Fill(used1, d.start, SectorCnt(d.length), true), files, s, 1);
  }

  lemma WithoutEntryKeeps(v: Vol, i: nat)
    requires Inv(v) && i < |v.dir|
    ensures var f := WithoutEntry(v, i);
            && Own(v.used, f) && InodesOk(v.inodes, f) && OpenOk(v.open, f) && SystemOk(v.open, f)
            && (forall j :: 0 <= j < |v.dir| && j != i && v.dir[j].inUse ==> v.dir[j].sector in f)
            && (forall t :: t in f ==> t in v.files)
            && (v.dir[i].inUse && v.dir[i].sector in f ==> v.dir[i].sector in v.open)
  {
    OwnFewer(v.used, v.files, v.dir[i].sector);
  }

  lemma AddedLinks(v: Vol, name: string, s: int, d: InodeDisk, i: nat)
    requires Inv(v) && i < |v.dir| && s !in v.files && s > 1
    ensures var dir, f := v.dir[i := Entry(true, name, s)], WithoutEntry(v, i)[s := d];
            LinksOk(dir, v.open, f) && Exact(dir, v.open, f)
  {
    var dir, f := v.dir[i := Entry(true, name, s)], WithoutEntry(v, i)[s := d];
    WithoutEntryKeeps(v, i);
    forall t | t in f ensures t <= 1 || t in v.open || Linked(dir, t) {
      if t == s {
        assert dir[i].inUse && dir[i].sector == s;
      } else if t > 1 && t !in v.open {
        var j :| 0 <= j < |v.dir| && v.dir[j].inUse && v.dir[j].sector == t;
        assert dir[j] == v.dir[j];
      }
    }
  }

  lemma FinishCreateKeeps(v: Vol, name: string, s: nat, d: InodeDisk, c: Luck)
    requires Inv(v) && s < |v.used| && !v.used[s]
    requires 0 <= d.start && 0 <= d.length && AllAre(Fill(v.used, s, 1, true), d.start, SectorCnt(d.length), false)
    ensures Inv(FinishCreate(v, name, s, d, c).vol)
  {
    NotZeroed(v.used, v.files, v.inodes, s, d);
    match AddSlot(v.dir, name, c.lookup, c.slot, c.slotWritten)
    case None => FailedAddOwn(v.used, v.files, s, d);
    case Some(i) =>
      assert Owns(0, v.files[0], 0) && Owns(1, v.files[1], 1);
      WithoutEntryKeeps(v, i);
      OwnAdd(v.used, WithoutEntry(v, i), s, d);
      AddedLinks(v, name, s, d, i);
  }

  lemma CreateKeeps(v: Vol, name: string, size: nat, c: Luck)
    requires Inv(v)
    ensures Inv(Create(v, name, size, c).vol)
  {
    var a := if c.dirOpens then Allocate(v.used, 1, c.mapWritten) else None;
    if a.Some? {
      var used := Fill(v.used, a.value, 1, true);
      var b := if c.room then Allocate(used, SectorCnt(size), c.mapWritten2) else None;
      if b.Some? {
        FinishCreateKeeps(v, name, a.value, InodeDisk(b.value, size), c);
      } else {
        FillBack(v.used, a.value, 1, false);
      }
    }
  }

  // ---------- runs ----------

  datatype Action =
    | ACreate(name: string, size: nat, luck: Luck)
    | AOpen(name: string, dirOpens: bool, lookup: nat, room: bool, fileRoom: bool)
    | ARemove(name: string, dirOpens: bool, lookup: nat, room: bool, erased: bool)
    | AClose(sector: int)

  /** Only an open file can be closed, and the free map's is not. */
  ghost predicate May(v: Vol, a: Action) {
    a.AClose? ==> a.sector in v.open && a.sector != 0
  }

  ghost function Apply(v: Vol, a: Action): (r: Vol)
    requires Inv(v) && May(v, a)
    ensures Inv(r)
  {
    match a
    case ACreate(name, size, luck) => CreateKeeps(v, name, size, luck); Create(v, name, size, luck).vol
    case AOpen(name, dirOpens, lookup, room, fileRoom) =>
      OpenFileKeeps(v, name, dirOpens, lookup, room, fileRoom);
      OpenFile(v, name, dirOpens, lookup, room, fileRoom).vol
    case ARemove(name, dirOpens, lookup, room, erased) =>
      RemoveKeeps(v, name, dirOpens, lookup, room, erased);
      Remove(v, name, dirOpens, lookup, room, erased).vol
    case AClose(s) => ClosedKeeps(v, s); Closed(v, s)
  }

  lemma OpenFileKeeps(v: Vol, name: string, dirOpens: bool, lookup: nat, room: bool, fileRoom: bool)
    requires Inv(v)
    ensures Inv(OpenFile(v, name, dirOpens, lookup, room, fileRoom).vol)
  {
    var f := if dirOpens then FindName(v.dir, name, lookup) else None;
    if f.Some? {
      var s := v.dir[f.value].sector;
      OpenedKeeps(v, s);
      ClosedKeeps(Opened(v, s), s);
    }
  }

  lemma RemoveKeeps(v: Vol, name: string, dirOpens: bool, lookup: nat, room: bool, erased: bool)
    requires Inv(v)
    ensures Inv(Remove(v, name, dirOpens, lookup, room, erased).vol)
  {
    var f := if dirOpens then FindName(v.dir, name, lookup) else None;
    if f.Some? {
      var s := v.dir[f.value].sector;
      OpenedKeeps(v, s);
      MarkedKeeps(Opened(v, s), f.value);
      ClosedKeeps(Opened(v, s), s);
      ClosedKeeps(Marked(Opened(v, s), f.value), s);
    }
  }

  ghost predicate Legal(v: Vol, acts: seq<Action>)
    requires Inv(v)
    decreases |acts|
  {
    acts == [] || (May(v, acts[0]) && Legal(Apply(v, acts[0]), acts[1..]))
  }

  ghost function Exec(v: Vol, acts: seq<Action>): (r: Vol)
    requires Inv(v) && Legal(v, acts)
    ensures Inv(r)
    decreases |acts|
  {
    if acts == [] then v else Exec(Apply(v, acts[0]), acts[1..])
  }

  /** A run with one more permitted step. */
  lemma {:induction false} LegalSnoc(v: Vol, acts: seq<Action>, a: Action)
    requires Inv(v) && Legal(v, acts) && May(Exec(v, acts), a)
    ensures Legal(v, acts + [a]) && Exec(v, acts + [a]) == Apply(Exec(v, acts), a)
    decreases |acts|
  {
    var more := acts + [a];
    assert more[0] == if acts == [] then a else acts[0];
    if acts == [] {
      assert more[1..] == [];
      assert Legal(Apply(v, a), []) && Exec(Apply(v, a), []) == Apply(v, a);
    } else {
      assert more[1..] == acts[1..] + [a];
      LegalSnoc(Apply(v, acts[0]), acts[1..], a);
    }
  }

  /** R is the volume after the steps ACTS from START. */
  ghost predicate After(start: Vol, acts: seq<Action>, r: Vol) {
    Inv(start) && Legal(start, acts) && r == Exec(start, acts)
  }

  lemma Grow(start: Vol, acts: seq<Action>, v: Vol, a: Action) returns (more: seq<Action>, r: Vol)
    requires After(start, acts, v) && May(v, a)
    ensures more == acts + [a] && After(start, more, r) && r == Apply(v, a)
  {
    LegalSnoc(start, acts, a);
    more, r := acts + [a], Apply(v, a);
  }

  /** Where do_format puts, on a disk of N sectors, the free map's file of M bytes and the root directory. */
  ghost predicate Places(n: nat, m: nat, a: nat, b: nat) {
    n >= 2 &&
    var used := Fill(seq(n, _ => false), 0, 2, true);
    && FirstFit(used, SectorCnt(m), 0) == Some(a) && FirstFit(Fill(used, a, SectorCnt(m), true), 1, 0) == Some(b)
  }

  /** A disk as do_format leaves it, with the root directory's 16 entries; the free map is open. */
  ghost function Formatted(n: nat, m: nat, a: nat, b: nat): Vol
    requires Places(n, m, a, b)
  {
    var inodes := map[0 := InodeDisk(a, m), 1 := InodeDisk(b, 320)];
    Vol(Fill(Fill(Fill(seq(n, _ => false), 0, 2, true), a, SectorCnt(m), true), b, 1, true), inodes,
        seq(16, _ => Entry(false, "", 0)), map[0 := Open(1, false, InodeDisk(a, m))], inodes)
  }

  lemma FormattedInv(n: nat, m: nat, a: nat, b: nat)
    requires Places(n, m, a, b)
    ensures Inv(Formatted(n, m, a, b))
  {
    var used := Fill(seq(n, _ => false), 0, 2, true);
    var used1 := Fill(used, a, SectorCnt(m), true);
    var used2 := Fill(used1, b, 1, true);
    var f, g := InodeDisk(a, m), InodeDisk(b, 320);
    assert used[0] && used[1] && used1[0] && used1[1];
    assert AllAre(used, a, SectorCnt(m), false) && AllAre(used1, b, 1, false) && SectorCnt(320) == 1;
    forall k | a <= k < a + SectorCnt(m) ensures k > 1 && k != b && used2[k] {
      assert used1[k] && !used[k];
    }
    assert b > 1 && used2[b] && used2[0] && used2[1];
    assert FileOk(used2, 0, f) && FileOk(used2, 1, g) && Apart(0, f, 1, g) && Apart(1, g, 0, f);
  }

  // ---------- what the invariant means ----------

  /** Two names, or a name and an open file, or two open files, never share a sector; and their sectors are in use. */
  lemma NoSharing(v: Vol, s: int, t: int, k: int)
    requires Inv(v) && (s in v.open || Linked(v.dir, s)) && (t in v.open || Linked(v.dir, t))
    requires s in v.inodes && Owns(s, v.inodes[s], k)
    ensures 0 <= k < |v.used| && v.used[k]
    ensures s != t ==> t in v.inodes && !Owns(t, v.inodes[t], k)
  {
    assert s in v.files && t in v.files;
    assert FileOk(v.used, s, v.files[s]);
    assert s != t ==> Apart(s, v.files[s], t, v.files[t]);
  }

  /** inode_write_at through an open file S has put N bytes on the disk. */
  ghost predicate WroteTo(v: Vol, s: int, was: seq<seq<int>>, now: seq<seq<int>>, offset: int, buffer: seq<int>, n: int)
  {
    && s in v.open && |was| == |v.used| && 0 <= offset && (n > 0 ==> offset + n <= v.open[s].data.length)
    && Written(was, now, v.open[s].data.start * SECTOR + offset, buffer, n)
  }

  /** It changes only data sectors of the file. */
  lemma WriteStaysInFile(v: Vol, s: int, was: seq<seq<int>>, now: seq<seq<int>>, offset: int, buffer: seq<int>, n: int,
                         k: int)
    requires Inv(v) && WroteTo(v, s, was, now, offset, buffer, n) && 0 <= k < |was|
    requires var d := v.open[s].data;
             !(d.start <= k < d.start + SectorCnt(d.length))
    ensures now[k] == was[k]
  {
    var d := v.open[s].data;
    SectorKept(was, now, d.start * SECTOR + offset, buffer, n, k);
  }

  /** It changes no byte of another linked or open file, and no inode. */
  lemma WriteTouchesNoOther(v: Vol, s: int, was: seq<seq<int>>, now: seq<seq<int>>, offset: int, buffer: seq<int>,
                            n: int, t: int)
    requires Inv(v) && WroteTo(v, s, was, now, offset, buffer, n) && t in v.files
    ensures OnDisk(was, v.files[t]) && OnDisk(now, v.files[t]) && 0 <= t < |was|
    ensures t != s ==> Flat(now, v.files[t]) == Flat(was, v.files[t])
    ensures now[t] == was[t]
  {
    var d, g := v.open[s].data, v.files[t];
    assert Owns(t, g, t) && FileOk(v.used, s, d) && FileOk(v.used, t, g);
    assert !(d.start <= t < d.start + SectorCnt(d.length)) by {
      assert t != s ==> Apart(t, g, s, d);
    }
    WriteStaysInFile(v, s, was, now, offset, buffer, n, t);
    if t != s {
      forall k | 0 <= k < g.length ensures FileByte(now, g, k) == FileByte(was, g, k) {
        var a := g.start + k / 512;
        assert Owns(t, g, a) && !Owns(s, d, a);
        WriteStaysInFile(v, s, was, now, offset, buffer, n, a);
        assert (g.start * 512 + k) / 512 == a;
      }
    }
  }

  /** Closing a file frees its sectors exactly if it was removed and this is the last close, and frees no other. */
  lemma CloseFrees(v: Vol, s: int, k: int)
    requires Inv(v) && s in v.open && s != 0 && 0 <= k < |v.used|
    ensures FileOk(v.used, s, v.open[s].data) && |Closed(v, s).used| == |v.used|
    ensures Closed(v, s).used[k] <==>
            v.used[k] && !(v.open[s].count == 1 && v.open[s].removed && Owns(s, v.open[s].data, k))
  {
    OpenFileOk(v, s);
    OwnDrop(v.used, v.files, s);
  }

  /** A file that filesys_create has made is found by its name, has the size asked for, and is new. */
  lemma CreatedIsFound(v: Vol, name: string, size: nat, c: Luck)
    requires Inv(v) && Create(v, name, size, c).value
    ensures var r := Create(v, name, size, c).vol;
            exists i :: 0 <= i < |r.dir| && r.dir[i].inUse && r.dir[i].name == name && r.dir[i].sector !in v.files
                        && r.dir[i].sector in r.inodes && r.inodes[r.dir[i].sector].length == size
  {
    var s := Allocate(v.used, 1, c.mapWritten).value;
    var d := InodeDisk(Allocate(Fill(v.used, s, 1, true), SectorCnt(size), c.mapWritten2).value, size);
    var i := AddSlot(v.dir, name, c.lookup, c.slot, c.slotWritten).value;
    NotZeroed(v.used, v.files, v.inodes, s, d);
    assert Create(v, name, size, c).vol.dir[i] == Entry(true, name, s);
  }

  /** filesys_open opens the file of that name. */
  lemma OpenedIsNamed(v: Vol, name: string, dirOpens: bool, lookup: nat, room: bool, fileRoom: bool)
    requires Inv(v) && OpenFile(v, name, dirOpens, lookup, room, fileRoom).value.Some?
    ensures var r := OpenFile(v, name, dirOpens, lookup, room, fileRoom);
            && r.value.value in r.vol.open && r.vol.open[r.value.value].data == v.inodes[r.value.value]
            && exists i :: 0 <= i < |v.dir| && v.dir[i].inUse && v.dir[i].name == name &&
                           v.dir[i].sector == r.value.value
  {
    var i := FindName(v.dir, name, lookup).value;
    assert v.dir[i].inUse && v.dir[i].name == name;
    OpenedKeeps(v, v.dir[i].sector);
  }

  /** filesys_remove takes the name away.  The sectors are given back at once if nobody has the file open, and otherwise
      the file is marked, so that its last close gives them back. */
  lemma RemoveFrees(v: Vol, name: string, lookup: nat, room: bool, k: int)
    requires Inv(v) && Remove(v, name, true, lookup, room, true).value && 0 <= k < |v.used|
    ensures FindName(v.dir, name, lookup).Some?
    ensures var r := Remove(v, name, true, lookup, room, true).vol;
            var s := v.dir[FindName(v.dir, name, lookup).value].sector;
            && s in v.files && !Linked(r.dir, s) && |r.used| == |v.used|
            && (r.used[k] <==> v.used[k] && (s in v.open || !Owns(s, v.files[s], k)))
            && (s in v.open ==> s in r.open && r.open[s].removed) && (s !in v.open ==> s !in r.open)
  {
    var i := FindName(v.dir, name, lookup).value;
    var s := v.dir[i].sector;
    OpenedKeeps(v, s);
    var m := Marked(Opened(v, s), i);
    MarkedKeeps(Opened(v, s), i);
    CloseFrees(m, s, k);
    assert forall j :: 0 <= j < |v.dir| && j != i && v.dir[j].inUse ==> v.dir[j].sector != s;
  }

  /** File S is open in R as in V, N times more, and if it was to be deleted it still is. */
  ghost predicate StillOpen(v: Vol, r: Vol, s: int, n: int) {
    && s in v.open && s in r.open
    && r.open[s].data == v.open[s].data && r.open[s].count == v.open[s].count + n
    && (v.open[s].removed ==> r.open[s].removed)
  }

  /** The last opener of file S closes it. */
  ghost predicate LastClose(v: Vol, a: Action, s: int) {
    a == AClose(s) && s in v.open && v.open[s].count == 1
  }

  /** Until its last close an open file keeps its inode, its sectors and its mark, whatever happens to its name. */
  lemma StepStaysOpen(v: Vol, a: Action, s: int)
    requires Inv(v) && May(v, a) && s in v.open && !LastClose(v, a, s)
    ensures StillOpen(v, Apply(v, a), s, Openings(v, a, s))
  {
    match a
    case ACreate(name, size, luck) => CreateLeavesOpen(v, name, size, luck);
    case AOpen(name, dirOpens, lookup, room, fileRoom) => OpenStays(v, name, dirOpens, lookup, room, fileRoom, s);
    case ARemove(name, dirOpens, lookup, room, erased) => RemoveStays(v, name, dirOpens, lookup, room, erased, s);
    case AClose(t) =>
  }

  lemma CreateLeavesOpen(v: Vol, name: string, size: nat, c: Luck)
    ensures Create(v, name, size, c).vol.open == v.open
  {
  }

  lemma OpenStays(v: Vol, name: string, dirOpens: bool, lookup: nat, room: bool, fileRoom: bool, s: int)
    requires Inv(v) && s in v.open
    ensures var r := OpenFile(v, name, dirOpens, lookup, room, fileRoom);
            StillOpen(v, r.vol, s, if r.value == Some(s) then 1 else 0)
  {
    var f := if dirOpens then FindName(v.dir, name, lookup) else None;
    if f.Some? {
      OpenClose(v, v.dir[f.value].sector, s);
    }
  }

  lemma RemoveStays(v: Vol, name: string, dirOpens: bool, lookup: nat, room: bool, erased: bool, s: int)
    requires Inv(v) && s in v.open
    ensures StillOpen(v, Remove(v, name, dirOpens, lookup, room, erased).vol, s, 0)
  {
    var f := if dirOpens then FindName(v.dir, name, lookup) else None;
    if f.Some? {
      OpenClose(v, v.dir[f.value].sector, s);
      MarkClose(v, f.value, s);
    }
  }

  /** Opening and closing file T leaves another's count, and its own, as they were. */
  lemma OpenClose(v: Vol, t: int, s: int)
    requires Inv(v) && t in v.files && t != 0 && s in v.open
    ensures t in v.inodes && t in Opened(v, t).open && FileOk(v.used, t, Opened(v, t).open[t].data)
    ensures StillOpen(v, Closed(Opened(v, t), t), s, 0)
    ensures StillOpen(v, Opened(v, t), s, if s == t then 1 else 0)
  {
    OpenedKeeps(v, t);
    OpenFileOk(Opened(v, t), t);
  }

  lemma MarkClose(v: Vol, i: nat, s: int)
    requires Inv(v) && i < |v.dir| && v.dir[i].inUse && s in v.open
    ensures var t := v.dir[i].sector;
            && t in v.inodes && t in Opened(v, t).open
            && FileOk(v.used, t, Marked(Opened(v, t), i).open[t].data)
            && StillOpen(v, Closed(Marked(Opened(v, t), i), t), s, 0)
  {
    OpenedKeeps(v, v.dir[i].sector);
    OpenFileOk(Opened(v, v.dir[i].sector), v.dir[i].sector);
  }

  /** How often the action opens file S, less how often it closes it. */
  ghost function Openings(v: Vol, a: Action, s: int): int
    requires Inv(v)
  {
    if a == AClose(s) then -1
    else if a.AOpen? && OpenFile(v, a.name, a.dirOpens, a.lookup, a.room, a.fileRoom).value == Some(s) then 1
    else 0
  }

  /** The same over a run. */
  ghost function Balance(v: Vol, acts: seq<Action>, s: int): int
    requires Inv(v) && Legal(v, acts)
    decreases |acts|
  {
    if acts == [] then 0 else Openings(v, acts[0], s) + Balance(Apply(v, acts[0]), acts[1..], s)
  }

  /** No step of the run is the last close of S. */
  ghost predicate NoLastClose(v: Vol, acts: seq<Action>, s: int)
    requires Inv(v) && Legal(v, acts)
    decreases |acts|
  {
    acts == [] || (!LastClose(v, acts[0], s) && NoLastClose(Apply(v, acts[0]), acts[1..], s))
  }

  /** Over every run up to the last close an open file keeps its inode, its mark and its sectors, and its count is what
      the openings and closings of the run make it. */
  lemma {:induction false} StaysOpen(v: Vol, acts: seq<Action>, s: int, k: int)
    requires Inv(v) && Legal(v, acts) && s in v.open && NoLastClose(v, acts, s) && Owns(s, v.open[s].data, k)
    ensures var r := Exec(v, acts);
            StillOpen(v, r, s, Balance(v, acts, s)) && 0 <= k < |r.used| && r.used[k]
    decreases |acts|
  {
    if acts == [] {
      OpenFileOk(v, s);
    } else {
      StepStaysOpen(v, acts[0], s);
      StaysOpen(Apply(v, acts[0]), acts[1..], s, k);
    }
  }

  /** A close after such a run gives the sectors back exactly if the file is marked and the openings and closings so far
      leave one opener. */
  lemma NextCloseFrees(v: Vol, acts: seq<Action>, s: int, k: int)
    requires Inv(v) && Legal(v, acts) && s in v.open && s != 0 && NoLastClose(v, acts, s)
    requires Owns(s, v.open[s].data, k)
    ensures var r := Exec(v, acts);
            && s in r.open && 0 <= k < |r.used| && |Apply(r, AClose(s)).used| == |r.used|
            && (Apply(r, AClose(s)).used[k] <==>
                  !(r.open[s].removed && v.open[s].count + Balance(v, acts, s) == 1))
  {
    StaysOpen(v, acts, s, k);
    CloseFrees(Exec(v, acts), s, k);
  }

  /** How often file S is closed. */
  ghost function Closes(acts: seq<Action>, s: int): nat {
    if acts == [] then 0 else (if acts[0] == AClose(s) then 1 else 0) + Closes(acts[1..], s)
  }

  /** No name leads to a file that is to be deleted, so nobody opens it again. */
  lemma RemovedNotOpened(v: Vol, a: Action, s: int)
    requires Inv(v) && May(v, a) && s in v.open && v.open[s].removed
    ensures Openings(v, a, s) == if a == AClose(s) then -1 else 0
  {
    if a.AOpen? && a.dirOpens && FindName(v.dir, a.name, a.lookup).Some? {
      assert v.dir[FindName(v.dir, a.name, a.lookup).value].sector != s;
    }
  }

  lemma {:induction false} RemovedCounts(v: Vol, acts: seq<Action>, s: int)
    requires Inv(v) && Legal(v, acts) && s in v.open && v.open[s].removed && Closes(acts, s) < v.open[s].count
    ensures NoLastClose(v, acts, s) && Balance(v, acts, s) + Closes(acts, s) == 0
    decreases |acts|
  {
    if acts != [] {
      RemovedNotOpened(v, acts[0], s);
      StepStaysOpen(v, acts[0], s);
      RemovedCounts(Apply(v, acts[0]), acts[1..], s);
    }
  }

  /** A removed file that N openers have: over every run with fewer than N closes of it, by whomever, it keeps its
      inode and all its sectors, and the close after such a run gives them back if and only if it is the N-th. */
  lemma ReleasedAtLastClose(v: Vol, acts: seq<Action>, s: int, k: int)
    requires Inv(v) && Legal(v, acts) && s in v.open && v.open[s].removed && Closes(acts, s) < v.open[s].count
    requires Owns(s, v.open[s].data, k)
    ensures var r := Exec(v, acts);
            && s != 0 && s in r.open && r.open[s] == Open(v.open[s].count - Closes(acts, s), true, v.open[s].data)
            && 0 <= k < |r.used| && r.used[k] && |Apply(r, AClose(s)).used| == |r.used|
            && (Apply(r, AClose(s)).used[k] <==> Closes(acts, s) + 1 < v.open[s].count)
            && (s in Apply(r, AClose(s)).open <==> Closes(acts, s) + 1 < v.open[s].count)
  {
    RemovedCounts(v, acts, s);
    StaysOpen(v, acts, s, k);
    NextCloseFrees(v, acts, s, k);
  }

  // ---------- names ----------

  /** Every read of the directory in A succeeds. */
  ghost predicate ReadsAll(a: Action, n: nat) {
    a.ACreate? ==> a.luck.lookup >= n
  }

  /** The inode that filesys_create puts on disk, and its sector, if it gets so far. */
  ghost function Made(v: Vol, size: nat, c: Luck): Option<(nat, InodeDisk)> {
    match if c.dirOpens then Allocate(v.used, 1, c.mapWritten) else None
    case None => None
    case Some(s) =>
      match if c.room then Allocate(Fill(v.used, s, 1, true), SectorCnt(size), c.mapWritten2) else None
      case None => None
      case Some(start) => Some((s, InodeDisk(start, size)))
  }

  /** The directory after an action. */
  ghost function DirAfter(v: Vol, a: Action): seq<Entry> {
    match a
    case ACreate(name, size, c) =>
      var i := AddSlot(v.dir, name, c.lookup, c.slot, c.slotWritten);
      if Made(v, size, c).Some? && i.Some? then v.dir[i.value := Entry(true, name, Made(v, size, c).value.0)] else v.dir
    case ARemove(name, dirOpens, lookup, room, erased) =>
      var f := if dirOpens then FindName(v.dir, name, lookup) else None;
      if f.Some? && !NotEnough(v, v.dir[f.value].sector, room) && erased
      then v.dir[f.value := v.dir[f.value].(inUse := false)] else v.dir
    case _ => v.dir
  }

  lemma CreateDir(v: Vol, name: string, size: nat, c: Luck)
    ensures Create(v, name, size, c).vol.dir == DirAfter(v, ACreate(name, size, c))
  {
  }

  lemma OpenDir(v: Vol, name: string, dirOpens: bool, lookup: nat, room: bool, fileRoom: bool)
    requires Inv(v)
    ensures OpenFile(v, name, dirOpens, lookup, room, fileRoom).vol.dir == v.dir
  {
  }

  lemma RemoveDir(v: Vol, name: string, dirOpens: bool, lookup: nat, room: bool, erased: bool)
    requires Inv(v)
    ensures Remove(v, name, dirOpens, lookup, room, erased).vol.dir ==
            DirAfter(v, ARemove(name, dirOpens, lookup, room, erased))
  {
    var f := if dirOpens then FindName(v.dir, name, lookup) else None;
    if f.Some? {
      var s := v.dir[f.value].sector;
      OpenedKeeps(v, s);
      OpenFileOk(Opened(v, s), s);
    }
  }

  lemma ApplyDir(v: Vol, a: Action)
    requires Inv(v) && May(v, a)
    ensures Apply(v, a).dir == DirAfter(v, a)
  {
    match a
    case ACreate(name, size, luck) => CreateDir(v, name, size, luck);
    case AOpen(name, dirOpens, lookup, room, fileRoom) => OpenDir(v, name, dirOpens, lookup, room, fileRoom);
    case ARemove(name, dirOpens, lookup, room, erased) => RemoveDir(v, name, dirOpens, lookup, room, erased);
    case AClose(t) =>
  }

  lemma StepUnique(v: Vol, a: Action)
    requires Inv(v) && May(v, a) && UniqueNames(v.dir) && ReadsAll(a, |v.dir|)
    ensures UniqueNames(Apply(v, a).dir) && |Apply(v, a).dir| == |v.dir|
  {
    ApplyDir(v, a);
    AfterUnique(v, a);
  }

  lemma AfterUnique(v: Vol, a: Action)
    requires UniqueNames(v.dir) && ReadsAll(a, |v.dir|)
    ensures UniqueNames(DirAfter(v, a)) && |DirAfter(v, a)| == |v.dir|
  {
    if a.ACreate? && Made(v, a.size, a.luck).Some? {
      var i := AddSlot(v.dir, a.name, a.luck.lookup, a.luck.slot, a.luck.slotWritten);
      if i.Some? {
        AddedNames(v.dir, a.name, Made(v, a.size, a.luck).value.0, a.luck.lookup, a.luck.slot);
      }
    }
  }

  /** Names stay unique over every run whose directory reads all succeed. */
  lemma {:induction false} NamesStayUnique(v: Vol, acts: seq<Action>)
    requires Inv(v) && Legal(v, acts) && UniqueNames(v.dir)
    requires forall a :: a in acts ==> ReadsAll(a, |v.dir|)
    ensures UniqueNames(Exec(v, acts).dir)
    decreases |acts|
  {
    if acts != [] {
      StepUnique(v, acts[0]);
      NamesStayUnique(Apply(v, acts[0]), acts[1..]);
    }
  }

  /** An empty file is created; the first directory reads to fail are those at LOOKUP and SLOT, and nothing else
      fails. */
  function CreateEmpty(name: string, lookup: nat, slot: nat): Action {
    ACreate(name, 0, Luck(true, true, true, true, lookup, slot, true))
  }

  lemma CreatesEmpty(v: Vol, name: string, lookup: nat, slot: nat, i: nat) returns (s: nat, r: Vol)
    requires Inv(v) && FirstFit(v.used, 1, 0).Some? && AddSlot(v.dir, name, lookup, slot, true) == Some(i)
    ensures r == Apply(v, CreateEmpty(name, lookup, slot)) && FirstFit(v.used, 1, 0) == Some(s)
    ensures r.dir == v.dir[i := Entry(true, name, s)] && r.used == Fill(v.used, s, 1, true) && r.open == v.open
  {
    s := FirstFit(v.used, 1, 0).value;
    r := Apply(v, CreateEmpty(name, lookup, slot));
    var used := Fill(v.used, s, 1, true);
    assert SectorCnt(0) == 0 && FirstFit(used, 0, 0) == Some(0);
    assert Fill(used, 0, 0, true) == used;
  }

  /** From a formatted disk with two free sectors, two creations of the same name both succeed if the second cannot read
      the directory, and then the name is there twice. */
  lemma NameCreatedTwice(n: nat, m: nat, a: nat, b: nat) returns (acts: seq<Action>)
    requires Places(n, m, a, b)
    requires var used := Formatted(n, m, a, b).used;
             var s := FirstFit(used, 1, 0);
             s.Some? && FirstFit(Fill(used, s.value, 1, true), 1, 0).Some?
    ensures acts == [CreateEmpty("a", 16, 16), CreateEmpty("a", 0, 16)]
    ensures var v := Formatted(n, m, a, b);
            Inv(v) && UniqueNames(v.dir) && Legal(v, acts) && !UniqueNames(Exec(v, acts).dir)
  {
    FormattedInv(n, m, a, b);
    acts := TwiceFrom(Formatted(n, m, a, b));
  }

  lemma TwiceFrom(v: Vol) returns (acts: seq<Action>)
    requires Inv(v) && |v.dir| == 16 && forall i :: 0 <= i < 16 ==> !v.dir[i].inUse
    requires FirstFit(v.used, 1, 0).Some? && FirstFit(Fill(v.used, FirstFit(v.used, 1, 0).value, 1, true), 1, 0).Some?
    ensures acts == [CreateEmpty("a", 16, 16), CreateEmpty("a", 0, 16)]
    ensures Legal(v, acts) && !UniqueNames(Exec(v, acts).dir)
  {
    var s, v1 := CreatesEmpty(v, "a", 16, 16, 0);
    assert SlotFrom(v1.dir, 16, 0) == SlotFrom(v1.dir, 16, 1) == 1;
    var s', v2 := CreatesEmpty(v1, "a", 0, 16, 1);
    assert v2.dir[0].name == v2.dir[1].name;
    acts, v1 := Grow(v, [], v, CreateEmpty("a", 16, 16));
    acts, v2 := Grow(v, acts, v1, CreateEmpty("a", 0, 16));
  }
}
