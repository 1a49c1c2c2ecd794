/** When is a sector marked used that no file owns, and when is a name gone that nobody removed?  Three failures of the
    file system lose sectors, a sector that is lost stays lost, and one loses names (filesys/filesys.c,
    filesys/directory.c, filesys/inode.c). */
module VolumeLosses {
  import opened Bitmap
  import opened Collections
  import opened InodeIO
  import opened Ownership
  import opened Volume
  import opened VolumeRuns

  ghost predicate Owned(files: map<int, InodeDisk>, k: int) {
    exists s :: s in files && Owns(s, files[s], k)
  }

  /** Sector K is marked used, and no file that is linked or open owns it. */
  ghost predicate Lost(v: Vol, k: int) {
    0 <= k < |v.used| && v.used[k] && !Owned(v.files, k)
  }

  ghost predicate NoLeak(v: Vol) {
    forall k :: 0 <= k < |v.used| && v.used[k] ==> Owned(v.files, k)
  }

  /** Entry I is in use, and the file it leads to is not open. */
  ghost predicate OnlyByName(v: Vol, i: int) {
    0 <= i < |v.dir| && v.dir[i].inUse && v.dir[i].sector !in v.open
  }

  /** The last opener of file S closes it, and neither is it to be deleted nor does a name lead to it. */
  ghost predicate Forgotten(v: Vol, s: int) {
    s in v.open && v.open[s].count == 1 && !v.open[s].removed && s > 1 && !Linked(v.dir, s)
  }

  /** The sectors that an action loses: the data of a new file whose entry cannot be added; a file whose entry is
      written over, and that nobody has open; and a file that is closed after that. */
  ghost predicate Loses(v: Vol, a: Action, k: int)
    requires Inv(v)
  {
    match a
    case ACreate(name, size, c) =>
      && Made(v, size, c).Some?
      && (match AddSlot(v.dir, name, c.lookup, c.slot, c.slotWritten)
          case None =>
            var d := Made(v, size, c).value.1;
            d.start <= k < d.start + SectorCnt(d.length)
          case Some(i) => OnlyByName(v, i) && Owns(v.dir[i].sector, v.files[v.dir[i].sector], k))
    case AClose(s) => Forgotten(v, s) && Owns(s, v.open[s].data, k)
    case _ => false
  }

  /** When it loses any. */
  ghost predicate Leaks(v: Vol, a: Action) {
    match a
    case ACreate(name, size, c) =>
      && Made(v, size, c).Some?
      && (match AddSlot(v.dir, name, c.lookup, c.slot, c.slotWritten)
          case None => size > 0
          case Some(i) => OnlyByName(v, i))
    case AClose(s) => Forgotten(v, s)
    case _ => false
  }

  // ---------- steps ----------

  lemma OwnedOther(files: map<int, InodeDisk>, s: int, k: int)
    requires s in files && !Owns(s, files[s], k)
    ensures Owned(files - {s}, k) <==> Owned(files, k)
  {
    if Owned(files, k) {
      var t :| t in files && Owns(t, files[t], k);
      assert t in files - {s};
    }
    if t :| t in files - {s} && Owns(t, (files - {s})[t], k) {
      assert t in files && Owns(t, files[t], k);
    }
  }

  /** What only file S owns nobody owns when it goes. */
  lemma OwnedNoMore(used: seq<bool>, files: map<int, InodeDisk>, s: int, k: int)
    requires Own(used, files) && s in files && Owns(s, files[s], k)
    ensures Owned(files, k) && !Owned(files - {s}, k)
  {
    forall t | t in files - {s} ensures !Owns(t, files[t], k) {
      assert Apart(s, files[s], t, files[t]);
    }
  }

  lemma OwnedWithout(used: seq<bool>, files: map<int, InodeDisk>, s: int, k: int)
    requires Own(used, files) && s in files
    ensures Owned(files - {s}, k) <==> Owned(files, k) && !Owns(s, files[s], k)
  {
    if Owns(s, files[s], k) {
      OwnedNoMore(used, files, s, k);
    } else {
      OwnedOther(files, s, k);
    }
  }

  lemma CloseLoses(v: Vol, s: int, k: int)
    requires Inv(v) && s in v.open && s != 0
    ensures FileOk(v.used, s, v.open[s].data)
    ensures Lost(Closed(v, s), k) <==> Lost(v, k) || (Forgotten(v, s) && Owns(s, v.open[s].data, k))
  {
    ClosedKeeps(v, s);
    if v.open[s].count == 1 && 0 <= k < |v.used| {
      CloseFrees(v, s, k);
      OwnedWithout(v.used, v.files, s, k);
    }
    if Owns(s, v.open[s].data, k) {
      assert 0 <= k < |v.used| && v.used[k];
    }
  }

  lemma FailedAddLoses(v: Vol, s: nat, d: InodeDisk, r: Vol, k: int)
    requires Inv(v) && s < |v.used| && !v.used[s]
    requires 0 <= d.start && 0 <= d.length && AllAre(Fill(v.used, s, 1, true), d.start, SectorCnt(d.length), false)
    requires r.files == v.files
    requires r.used == Fill(Fill(Fill(v.used, s, 1, true), d.start, SectorCnt(d.length), true), s, 1, false)
    ensures Lost(r, k) <==> Lost(v, k) || d.start <= k < d.start + SectorCnt(d.length)
  {
    var used := Fill(v.used, s, 1, true);
    assert used[s];
    if d.start <= k < d.start + SectorCnt(d.length) {
      assert !used[k] && !v.used[k] && k != s;
      forall t | t in v.files ensures !Owns(t, v.files[t], k) {
        assert FileOk(v.used, t, v.files[t]);
      }
    }
  }

  lemma OwnedMore(files: map<int, InodeDisk>, s: int, d: InodeDisk, k: int)
    requires s !in files
    ensures Owned(files[s := d], k) <==> Owned(files, k) || Owns(s, d, k)
  {
    var f := files[s := d];
    if t :| t in f && Owns(t, f[t], k) {
      assert t == s || (t in files && Owns(t, files[t], k));
    }
    if t :| t in files && Owns(t, files[t], k) {
      assert t in f && f[t] == files[t];
    }
    if Owns(s, d, k) {
      assert s in f;
    }
  }

  lemma WithoutEntryLoses(v: Vol, i: nat, k: int)
    requires Inv(v) && i < |v.dir|
    ensures Owned(WithoutEntry(v, i), k) <==>
            Owned(v.files, k) && !(OnlyByName(v, i) && Owns(v.dir[i].sector, v.files[v.dir[i].sector], k))
  {
    if OnlyByName(v, i) {
      OwnedWithout(v.used, v.files, v.dir[i].sector, k);
    }
  }

  lemma AddedLoses(v: Vol, s: nat, d: InodeDisk, i: nat, r: Vol, k: int)
    requires Inv(v) && s < |v.used| && !v.used[s] && s !in v.files && i < |v.dir|
    requires 0 <= d.start && 0 <= d.length && AllAre(Fill(v.used, s, 1, true), d.start, SectorCnt(d.length), false)
    requires r.files == WithoutEntry(v, i)[s := d]
    requires r.used == Fill(Fill(v.used, s, 1, true), d.start, SectorCnt(d.length), true)
    ensures Lost(r, k) <==>
            Lost(v, k) || (OnlyByName(v, i) && Owns(v.dir[i].sector, v.files[v.dir[i].sector], k))
  {
    WithoutEntryLoses(v, i, k);
    OwnedMore(WithoutEntry(v, i), s, d, k);
    if OnlyByName(v, i) && Owns(v.dir[i].sector, v.files[v.dir[i].sector], k) {
      var t := v.dir[i].sector;
      assert FileOk(v.used, t, v.files[t]) && v.used[k] && Fill(v.used, s, 1, true)[k];
    }
  }

  lemma CreateLoses(v: Vol, name: string, size: nat, c: Luck, k: int)
    requires Inv(v)
    ensures Lost(Create(v, name, size, c).vol, k) <==> Lost(v, k) || Loses(v, ACreate(name, size, c), k)
  {
    var a := if c.dirOpens then Allocate(v.used, 1, c.mapWritten) else None;
    if Made(v, size, c).Some? {
      var s, d := Made(v, size, c).value.0, Made(v, size, c).value.1;
      var r := FinishCreate(v, name, s, d, c).vol;
      NotZeroed(v.used, v.files, v.inodes, s, d);
      match AddSlot(v.dir, name, c.lookup, c.slot, c.slotWritten)
      case None => FailedAddLoses(v, s, d, r, k);
      case Some(i) => AddedLoses(v, s, d, i, r, k);
    } else if a.Some? {
      FillBack(v.used, a.value, 1, false);
    }
  }

  lemma OpenLoses(v: Vol, name: string, dirOpens: bool, lookup: nat, room: bool, fileRoom: bool, k: int)
    requires Inv(v)
    ensures Lost(OpenFile(v, name, dirOpens, lookup, room, fileRoom).vol, k) <==> Lost(v, k)
  {
    var f := if dirOpens then FindName(v.dir, name, lookup) else None;
    if f.Some? {
      var s := v.dir[f.value].sector;
      OpenedKeeps(v, s);
      CloseLoses(Opened(v, s), s, k);
      assert Linked(v.dir, s);
    }
  }

  lemma RemoveLoses(v: Vol, name: string, dirOpens: bool, lookup: nat, room: bool, erased: bool, k: int)
    requires Inv(v)
    ensures Lost(Remove(v, name, dirOpens, lookup, room, erased).vol, k) <==> Lost(v, k)
  {
    var f := if dirOpens then FindName(v.dir, name, lookup) else None;
    if f.Some? {
      var s := v.dir[f.value].sector;
      OpenedKeeps(v, s);
      MarkedKeeps(Opened(v, s), f.value);
      CloseLoses(Opened(v, s), s, k);
      CloseLoses(Marked(Opened(v, s), f.value), s, k);
      assert Linked(v.dir, s);
    }
  }

  /** A sector is lost after a step exactly if it was before or the step loses it. */
  lemma StepLoses(v: Vol, a: Action, k: int)
    requires Inv(v) && May(v, a)
    ensures Lost(Apply(v, a), k) <==> Lost(v, k) || Loses(v, a, k)
  {
    match a
    case ACreate(name, size, luck) => CreateLoses(v, name, size, luck, k);
    case AOpen(name, dirOpens, lookup, room, fileRoom) => OpenLoses(v, name, dirOpens, lookup, room, fileRoom, k);
    case ARemove(name, dirOpens, lookup, room, erased) => RemoveLoses(v, name, dirOpens, lookup, room, erased, k);
    case AClose(s) => CloseLoses(v, s, k);
  }

  lemma LeaksLoses(v: Vol, a: Action) returns (k: int)
    requires Inv(v) && May(v, a)
    ensures Leaks(v, a) <==> Loses(v, a, k)
    ensures !Leaks(v, a) ==> forall j :: !Loses(v, a, j)
  {
    k := 0;
    if Leaks(v, a) {
      if a.ACreate? {
        var slot := AddSlot(v.dir, a.name, a.luck.lookup, a.luck.slot, a.luck.slotWritten);
        k := if slot.None? then Made(v, a.size, a.luck).value.1.start else v.dir[slot.value].sector;
      } else {
        k := a.sector;
      }
    }
  }

  /** Every used sector is owned after a step exactly if it was before and the step does not leak. */
  lemma StepLeaksIff(v: Vol, a: Action)
    requires Inv(v) && May(v, a)
    ensures NoLeak(Apply(v, a)) <==> NoLeak(v) && !Leaks(v, a)
  {
    var r := Apply(v, a);
    var k := LeaksLoses(v, a);
    StepLoses(v, a, k);
    assert Lost(r, k) ==> !NoLeak(r);
    if !NoLeak(v) {
      var j :| 0 <= j < |v.used| && v.used[j] && !Owned(v.files, j);
      StepLoses(v, a, j);
    }
    if NoLeak(v) && !Leaks(v, a) {
      forall j | 0 <= j < |r.used| && r.used[j] ensures Owned(r.files, j) {
        StepLoses(v, a, j);
      }
    }
  }

  // ---------- runs ----------

  ghost predicate NeverLeaks(v: Vol, acts: seq<Action>)
    requires Inv(v) && Legal(v, acts)
    decreases |acts|
  {
    acts == [] || (!Leaks(v, acts[0]) && NeverLeaks(Apply(v, acts[0]), acts[1..]))
  }

  lemma {:induction false} RunLeaksIff(v: Vol, acts: seq<Action>)
    requires Inv(v) && Legal(v, acts)
    ensures NoLeak(Exec(v, acts)) <==> NoLeak(v) && NeverLeaks(v, acts)
    decreases |acts|
  {
    if acts != [] {
      StepLeaksIff(v, acts[0]);
      RunLeaksIff(Apply(v, acts[0]), acts[1..]);
    }
  }

  /** Over every run from a formatted disk every used sector is owned at the end exactly if no step has leaked. */
  lemma FormattedLeaksIff(n: nat, m: nat, a: nat, b: nat, acts: seq<Action>)
    requires Places(n, m, a, b) && Inv(Formatted(n, m, a, b)) && Legal(Formatted(n, m, a, b), acts)
    ensures NoLeak(Exec(Formatted(n, m, a, b), acts)) <==> NeverLeaks(Formatted(n, m, a, b), acts)
  {
    FormattedNoLeak(n, m, a, b);
    RunLeaksIff(Formatted(n, m, a, b), acts);
  }

  lemma FormattedNoLeak(n: nat, m: nat, a: nat, b: nat)
    requires Places(n, m, a, b)
    ensures NoLeak(Formatted(n, m, a, b))
  {
    var v := Formatted(n, m, a, b);
    assert SectorCnt(320) == 1;
    forall k | 0 <= k < |v.used| && v.used[k] ensures Owned(v.files, k) {
      var s := if k == 0 || a <= k < a + SectorCnt(m) then 0 else 1;
      assert s in v.files && Owns(s, v.files[s], k);
    }
  }

  // ---------- names ----------

  /** Entry J is written over by a new file's. */
  ghost predicate Overwrites(v: Vol, a: Action, j: int) {
    && a.ACreate? && Made(v, a.size, a.luck).Some?
    && AddSlot(v.dir, a.name, a.luck.lookup, a.luck.slot, a.luck.slotWritten) == Some(j)
  }

  /** Entry J is the one that filesys_remove erases. */
  ghost predicate Unlinks(v: Vol, a: Action, j: int) {
    && a.ARemove? && a.dirOpens && a.erased && FindName(v.dir, a.name, a.lookup) == Some(j)
    && !NotEnough(v, v.dir[j].sector, a.room)
  }

  /** An entry in use stays as it is exactly if it is neither removed nor written over, and it is written over only if
      the scan for a free slot cannot read it. */
  lemma EntryStaysIff(v: Vol, a: Action, j: nat)
    requires Inv(v) && May(v, a) && j < |v.dir| && v.dir[j].inUse
    ensures |Apply(v, a).dir| == |v.dir|
    ensures Apply(v, a).dir[j] == v.dir[j] <==> !Overwrites(v, a, j) && !Unlinks(v, a, j)
    ensures Overwrites(v, a, j) ==> a.luck.slot == j
  {
    ApplyDir(v, a);
    if Overwrites(v, a, j) {
      var s, d := Made(v, a.size, a.luck).value.0, Made(v, a.size, a.luck).value.1;
      NotZeroed(v.used, v.files, v.inodes, s, d);
      assert v.dir[j].sector in v.files;
    }
  }

  /** A file that is linked or open before and after a step has the same inode. */
  lemma StepKeepsFile(v: Vol, a: Action, s: int)
    requires Inv(v) && May(v, a) && s in v.files && s in Apply(v, a).files
    ensures Apply(v, a).files[s] == v.files[s]
  {
    if a.ACreate? && Made(v, a.size, a.luck).Some? {
      var t, d := Made(v, a.size, a.luck).value.0, Made(v, a.size, a.luck).value.1;
      NotZeroed(v.used, v.files, v.inodes, t, d);
    }
  }

  /** Entry J keeps its name and its file before and after every step. */
  ghost predicate NamedThroughout(v: Vol, acts: seq<Action>, j: nat, e: Entry)
    requires Inv(v) && Legal(v, acts)
    decreases |acts|
  {
    && j < |v.dir| && v.dir[j] == e
    && (acts == [] || NamedThroughout(Apply(v, acts[0]), acts[1..], j, e))
  }

  /** No step removes entry J or writes over it. */
  ghost predicate NeverUnnamed(v: Vol, acts: seq<Action>, j: int)
    requires Inv(v) && Legal(v, acts)
    decreases |acts|
  {
    acts == [] ||
    (!Overwrites(v, acts[0], j) && !Unlinks(v, acts[0], j) && NeverUnnamed(Apply(v, acts[0]), acts[1..], j))
  }

  /** Over every run a linked file keeps its name, and with it its inode, until the name is removed or written over. */
  lemma {:induction false} NameStaysIff(v: Vol, acts: seq<Action>, j: nat)
    requires Inv(v) && Legal(v, acts) && j < |v.dir| && v.dir[j].inUse
    ensures NamedThroughout(v, acts, j, v.dir[j]) <==> NeverUnnamed(v, acts, j)
    ensures var s, r := v.dir[j].sector, Exec(v, acts);
            NeverUnnamed(v, acts, j) ==>
              && j < |r.dir| && r.dir[j] == v.dir[j] && s in v.files && s in r.files && r.files[s] == v.files[s]
    decreases |acts|
  {
    if acts != [] {
      EntryStaysIff(v, acts[0], j);
      var r := Apply(v, acts[0]);
      if r.dir[j] == v.dir[j] {
        StepKeepsFile(v, acts[0], v.dir[j].sector);
        NameStaysIff(r, acts[1..], j);
      }
    }
  }

  // ---------- runs that leak ----------

  lemma FirstFree(used: seq<bool>, k: nat)
    requires k < |used| && !used[k] && forall i :: 0 <= i < k ==> used[i]
    ensures FirstFit(used, 1, 0) == Some(k)
  {
    assert AllAre(used, k, 1, false);
    forall i: nat | i < k ensures !AllAre(used, i, 1, false) {
      assert used[i];
    }
    FirstGroupUnique(used, 0, 1, false, FirstFit(used, 1, 0), Some(k));
  }

  /** A formatted disk of 8 sectors: the first 4 are in use. */
  lemma SmallDisk() returns (v: Vol, n: nat, m: nat, a: nat, b: nat)
    ensures Places(n, m, a, b) && v == Formatted(n, m, a, b) && Inv(v) && NoLeak(v)
    ensures |v.dir| == 16 && (forall i :: 0 <= i < 16 ==> !v.dir[i].inUse) && v.open.Keys == {0}
    ensures |v.used| == 8 && forall i :: 0 <= i < 8 ==> (v.used[i] <==> i < 4)
  {
    n, m, a, b := 8, 4, 2, 3;
    assert SectorCnt(m) == 1;
    var used := Fill(seq(n, _ => false), 0, 2, true);
    FirstFree(used, 2);
    FirstFree(Fill(used, 2, 1, true), 3);
    v := Formatted(n, m, a, b);
    FormattedInv(n, m, a, b);
    FormattedNoLeak(n, m, a, b);
  }

  /** A run from a formatted disk, where no sector is lost, after which one is. */
  ghost predicate LeakingRun(v: Vol, n: nat, m: nat, a: nat, b: nat, acts: seq<Action>) {
    && Places(n, m, a, b) && v == Formatted(n, m, a, b) && Inv(v) && NoLeak(v)
    && Legal(v, acts) && !NoLeak(Exec(v, acts))
  }

  lemma GrowLeaks(start: Vol, acts: seq<Action>, v: Vol, a: Action) returns (more: seq<Action>)
    requires After(start, acts, v) && Inv(v) && May(v, a) && Leaks(v, a)
    ensures more == acts + [a] && Legal(start, more) && !NoLeak(Exec(start, more))
  {
    StepLeaksIff(v, a);
    var r;
    more, r := Grow(start, acts, v, a);
  }

  /** A file of one byte cannot get the empty name: its data sector is lost. */
  lemma FailedAddLeaks() returns (v: Vol, n: nat, m: nat, a: nat, b: nat, acts: seq<Action>)
    ensures LeakingRun(v, n, m, a, b, acts) && acts == [ACreate("", 1, Luck(true, true, true, true, 16, 16, true))]
  {
    v, n, m, a, b := SmallDisk();
    var x := ACreate("", 1, Luck(true, true, true, true, 16, 16, true));
    FirstFree(v.used, 4);
    FirstFree(Fill(v.used, 4, 1, true), 5);
    assert SectorCnt(1) == 1;
    acts := GrowLeaks(v, [], v, x);
  }

  /** The first entry is NAME's, with inode sector S, and the only one in use; the first K of 8 sectors are used; and
      file 4 is open, if HELD says so, once. */
  ghost predicate Picture(v: Vol, name: string, s: int, k: int, held: bool) {
    && |v.dir| == 16 && v.dir[0] == Entry(true, name, s) && (forall i :: 0 < i < 16 ==> !v.dir[i].inUse)
    && |v.used| == 8 && (forall i :: 0 <= i < 8 ==> (v.used[i] <==> i < k))
    && (4 in v.open <==> held) && (held ==> v.open[4].count == 1 && !v.open[4].removed)
  }

  /** "a" is created. */
  lemma CreatedA(start: Vol) returns (acts: seq<Action>, v: Vol)
    requires Inv(start) && |start.dir| == 16 && (forall i :: 0 <= i < 16 ==> !start.dir[i].inUse) && 4 !in start.open
    requires |start.used| == 8 && forall i :: 0 <= i < 8 ==> (start.used[i] <==> i < 4)
    ensures acts == [CreateEmpty("a", 16, 16)] && After(start, acts, v) && Inv(v) && Picture(v, "a", 4, 5, false)
  {
    FirstFree(start.used, 4);
    var s;
    s, v := CreatesEmpty(start, "a", 16, 16, 0);
    acts, v := Grow(start, [], start, CreateEmpty("a", 16, 16));
  }

  /** "b" is written over it. */
  lemma WrittenOver(start: Vol, acts: seq<Action>, v: Vol, held: bool) returns (more: seq<Action>, r: Vol)
    requires After(start, acts, v) && Inv(v) && Picture(v, "a", 4, 5, held)
    ensures more == acts + [CreateEmpty("b", 16, 0)] && After(start, more, r) && Inv(r) && Picture(r, "b", 5, 6, held)
  {
    FirstFree(v.used, 5);
    assert SlotFrom(v.dir, 0, 0) == 0;
    var s;
    s, r := CreatesEmpty(v, "b", 16, 0, 0);
    more, r := Grow(start, acts, v, CreateEmpty("b", 16, 0));
  }

  lemma MadeEmpty(v: Vol, name: string, lookup: nat, slot: nat)
    requires FirstFit(v.used, 1, 0).Some?
    ensures Made(v, 0, CreateEmpty(name, lookup, slot).luck).Some?
  {
    var used := Fill(v.used, FirstFit(v.used, 1, 0).value, 1, true);
    assert SectorCnt(0) == 0 && FirstFit(used, 0, 0) == Some(0);
  }

  /** Nobody has "a" open when "b" is written over its entry, which cannot be read: the inode of "a" is lost. */
  lemma OverwriteLeaks() returns (v: Vol, n: nat, m: nat, a: nat, b: nat, acts: seq<Action>)
    ensures LeakingRun(v, n, m, a, b, acts)
    ensures acts == [CreateEmpty("a", 16, 16), CreateEmpty("b", 16, 0)]
  {
    var v1;
    v, n, m, a, b := SmallDisk();
    acts, v1 := CreatedA(v);
    FirstFree(v1.used, 5);
    MadeEmpty(v1, "b", 16, 0);
    assert SlotFrom(v1.dir, 0, 0) == 0;
    acts := GrowLeaks(v, acts, v1, CreateEmpty("b", 16, 0));
  }

  lemma OpenedA(start: Vol, acts: seq<Action>, v: Vol) returns (more: seq<Action>, r: Vol)
    requires After(start, acts, v) && Inv(v) && Picture(v, "a", 4, 5, false)
    ensures more == acts + [AOpen("a", true, 16, true, true)]
    ensures After(start, more, r) && Inv(r) && Picture(r, "a", 4, 5, true)
  {
    more, r := Grow(start, acts, v, AOpen("a", true, 16, true, true));
  }

  lemma HeldAndWrittenOver(start: Vol) returns (acts: seq<Action>, v: Vol)
    requires Inv(start) && |start.dir| == 16 && (forall i :: 0 <= i < 16 ==> !start.dir[i].inUse) && 4 !in start.open
    requires |start.used| == 8 && forall i :: 0 <= i < 8 ==> (start.used[i] <==> i < 4)
    ensures acts == [CreateEmpty("a", 16, 16), AOpen("a", true, 16, true, true), CreateEmpty("b", 16, 0)]
    ensures After(start, acts, v) && Inv(v) && Picture(v, "b", 5, 6, true)
  {
    acts, v := CreatedA(start);
    acts, v := OpenedA(start, acts, v);
    acts, v := WrittenOver(start, acts, v, true);
  }

  lemma PictureForgotten(v: Vol)
    requires Picture(v, "b", 5, 6, true)
    ensures Forgotten(v, 4)
  {
  }

  /** Somebody has it open, and closes it: then it is lost. */
  lemma CloseLeaks() returns (v: Vol, n: nat, m: nat, a: nat, b: nat, acts: seq<Action>)
    ensures LeakingRun(v, n, m, a, b, acts)
    ensures acts == [CreateEmpty("a", 16, 16), AOpen("a", true, 16, true, true), CreateEmpty("b", 16, 0), AClose(4)]
  {
    var v1;
    v, n, m, a, b := SmallDisk();
    acts, v1 := HeldAndWrittenOver(v);
    PictureForgotten(v1);
    acts := GrowLeaks(v, acts, v1, AClose(4));
  }
}
