/** What holds of locks, lock records, priorities and semaphores at every scheduling point
    (threads/synch.c). */
module KernelLocks {
  import opened Collections
  import opened KernelTypes
  import opened KernelState
  import opened Donation

  // ---------- locks and records ----------

  /** The semaphore of a lock is 1 when nobody holds it and 0 otherwise. */
  ghost predicate ValueOk(holder: map<Sid, Option<Tid>>, value: map<Sid, nat>) {
    forall l :: l in holder ==> l in value && value[l] == if holder[l].None? then 1 else 0
  }

  ghost predicate DistinctLocks(rs: seq<Rec>) {
    forall i, j :: 0 <= i < j < |rs| ==> rs[i].lock != rs[j].lock
  }

  /** The records of thread T: at most one per lock; a waiting record only in front and only inside
      lock_acquire; any other record exactly for a lock T holds. */
  ghost predicate RecsOk(t: Tid, rs: seq<Rec>, pc: Pc, holder: map<Sid, Option<Tid>>) {
    && DistinctLocks(rs)
    && (forall i :: 0 <= i < |rs| ==> rs[i].lock in holder)
    && (forall i :: 0 <= i < |rs| && rs[i].waiting ==> i == 0 && pc == Downing(rs[i].lock))
    && (forall i :: 0 <= i < |rs| && !rs[i].waiting ==> holder[rs[i].lock] == Some(t))
    && (pc.Downing? && pc.s in holder ==> rs != [] && rs[0].waiting)
  }

  ghost predicate HoldsRecord(recs: map<Tid, seq<Rec>>, l: Sid, h: Tid) {
    h in recs && FindRec(recs[h], l) < |recs[h]| && !recs[h][FindRec(recs[h], l)].waiting
  }

  ghost predicate HoldersOk(holder: map<Sid, Option<Tid>>, recs: map<Tid, seq<Rec>>) {
    forall l :: l in holder && holder[l].Some? ==> HoldsRecord(recs, l, holder[l].value)
  }

  ghost predicate LocksOk(holder: map<Sid, Option<Tid>>, value: map<Sid, nat>, recs: map<Tid, seq<Rec>>,
                          pc: map<Tid, Pc>)
  {
    && ValueOk(holder, value)
    && HoldersOk(holder, recs)
    && (forall t :: t in recs ==> t in pc && RecsOk(t, recs[t], pc[t], holder))
  }

  ghost predicate Locks(st: State) {
    LocksOk(st.mem.holder, st.mem.value, st.mem.recs, st.mem.pc)
  }

  /** With distinct locks, the search finds the one record there is. */
  lemma FindRecAt(rs: seq<Rec>, i: nat)
    requires i < |rs| && DistinctLocks(rs)
    ensures FindRec(rs, rs[i].lock) == i
  {
  }

  /** A thread has a non-waiting record of a lock exactly if it holds the lock, and its waiting record, if any,
      is the front one. */
  lemma RecordsMirrorLocks(st: State, t: Tid, l: Sid)
    requires Locks(st) && t in st.mem.recs && l in st.mem.holder
    ensures st.mem.holder[l] == Some(t) <==>
            exists i :: 0 <= i < |st.mem.recs[t]| && st.mem.recs[t][i].lock == l && !st.mem.recs[t][i].waiting
    ensures st.mem.holder[l].None? <==> st.mem.value[l] == 1
    ensures st.mem.holder[l].Some? <==> st.mem.value[l] == 0
    ensures st.mem.pc[t] == Downing(l) <==>
            exists i :: 0 <= i < |st.mem.recs[t]| && st.mem.recs[t][i].lock == l && st.mem.recs[t][i].waiting
    ensures forall i :: 0 <= i < |st.mem.recs[t]| && st.mem.recs[t][i].waiting ==> i == 0
  {
    var rs := st.mem.recs[t];
    assert RecsOk(t, rs, st.mem.pc[t], st.mem.holder);
    if st.mem.holder[l] == Some(t) {
      assert HoldsRecord(st.mem.recs, l, t);
      var i := FindRec(rs, l);
      assert rs[i].lock == l && !rs[i].waiting;
    }
    if st.mem.pc[t] == Downing(l) {
      assert rs[0].lock == l;
    }
  }

  lemma LocksGiveHolders(st: State)
    requires WF(st) && Locks(st)
    requires forall t :: t in st.mem.recs ==> t in st.mem.prio
    ensures HoldersRecorded(GraphOf(st))
  {
    var g := GraphOf(st);
    forall l | Held(g, l)
      ensures var h := g.holder[l].value;
              h in g.prio && h in g.recs && FindRec(g.recs[h], l) < |g.recs[h]|
    {
      assert HoldsRecord(st.mem.recs, l, g.holder[l].value);
    }
  }

  // ---------- lock_acquire ----------

  /** A waiting record for L, which T does not hold, goes in front; from then on T is inside lock_acquire. */
  lemma AddRecsOk(t: Tid, rs: seq<Rec>, holder: map<Sid, Option<Tid>>, l: Sid, p: int)
    requires RecsOk(t, rs, Active, holder) && l in holder && holder[l] != Some(t)
    ensures RecsOk(t, [Rec(l, p, true)] + rs, Downing(l), holder)
  {
    var r := [Rec(l, p, true)] + rs;
    assert forall i :: 0 <= i < |rs| ==> !rs[i].waiting && rs[i].lock != l;
    assert forall i :: 0 < i < |r| ==> r[i] == rs[i - 1];
  }

  lemma AddHoldsRecord(recs: map<Tid, seq<Rec>>, t: Tid, rec: Rec, k: Sid, h: Tid)
    requires t in recs && HoldsRecord(recs, k, h) && (h == t ==> rec.lock != k)
    ensures HoldsRecord(recs[t := [rec] + recs[t]], k, h)
  {
    if h == t {
      var r := [rec] + recs[t];
      assert r[1..] == recs[t];
    }
  }

  lemma AddRecordLocks(holder: map<Sid, Option<Tid>>, value: map<Sid, nat>, recs: map<Tid, seq<Rec>>,
                       pc: map<Tid, Pc>, t: Tid, l: Sid, p: int)
    requires LocksOk(holder, value, recs, pc) && t in recs && pc[t] == Active
    requires l in holder && holder[l] != Some(t)
    ensures LocksOk(holder, value, recs[t := [Rec(l, p, true)] + recs[t]], pc[t := Downing(l)])
  {
    AddRecsOk(t, recs[t], holder, l, p);
    var r := recs[t := [Rec(l, p, true)] + recs[t]];
    forall k | k in holder && holder[k].Some?
      ensures HoldsRecord(r, k, holder[k].value)
    {
      AddHoldsRecord(recs, t, Rec(l, p, true), k, holder[k].value);
    }
  }

  /** Records of the same shape are as good. */
  lemma ShapeRecsOk(t: Tid, rs: seq<Rec>, r: seq<Rec>, pc: Pc, holder: map<Sid, Option<Tid>>)
    requires RecsOk(t, rs, pc, holder) && SameShape(rs, r)
    ensures RecsOk(t, r, pc, holder)
  {
  }

  lemma ShapeHoldsRecord(recs: map<Tid, seq<Rec>>, r: map<Tid, seq<Rec>>, l: Sid, h: Tid)
    requires HoldsRecord(recs, l, h) && h in r && SameShape(recs[h], r[h])
    ensures HoldsRecord(r, l, h)
  {
    FindRecSame(recs[h], r[h], l);
  }

  lemma ShapeLocks(holder: map<Sid, Option<Tid>>, value: map<Sid, nat>, recs: map<Tid, seq<Rec>>,
                   pc: map<Tid, Pc>, r: map<Tid, seq<Rec>>)
    requires LocksOk(holder, value, recs, pc) && r.Keys == recs.Keys
    requires forall t :: t in recs ==> SameShape(recs[t], r[t])
    ensures LocksOk(holder, value, r, pc)
  {
    forall k | k in holder && holder[k].Some?
      ensures HoldsRecord(r, k, holder[k].value)
    {
      ShapeHoldsRecord(recs, r, k, holder[k].value);
    }
    forall t | t in r
      ensures t in pc && RecsOk(t, r[t], pc[t], holder)
    {
      ShapeRecsOk(t, recs[t], r[t], pc[t], holder);
    }
  }

  /** Taking the lock: the front record turns from waiting to owned. */
  lemma TakeRecsOk(t: Tid, rs: seq<Rec>, holder: map<Sid, Option<Tid>>, l: Sid)
    requires RecsOk(t, rs, Downing(l), holder) && l in holder
    ensures rs != [] && FindRec(rs, l) == 0 && SetOwned(rs, l) == rs[0 := rs[0].(waiting := false)]
    ensures RecsOk(t, SetOwned(rs, l), Active, holder[l := Some(t)])
    ensures FindRec(SetOwned(rs, l), l) == 0 && !SetOwned(rs, l)[0].waiting
  {
  }

  lemma OtherRecsOk(t: Tid, rs: seq<Rec>, pc: Pc, holder: map<Sid, Option<Tid>>, l: Sid, h: Option<Tid>)
    requires RecsOk(t, rs, pc, holder) && l in holder
    requires holder[l] != Some(t)
    ensures RecsOk(t, rs, pc, holder[l := h])
  {
  }

  lemma TakeHoldsRecord(recs: map<Tid, seq<Rec>>, t: Tid, l: Sid, k: Sid, h: Tid)
    requires t in recs && HoldsRecord(recs, k, h) && k != l
    ensures HoldsRecord(recs[t := SetOwned(recs[t], l)], k, h)
  {
    FindRecSame(recs[t], SetOwned(recs[t], l), k);
  }

  /** PC' is PC but for thread T. */
  ghost predicate SamePcBut(pc: map<Tid, Pc>, pc': map<Tid, Pc>, t: Tid) {
    forall x :: x in pc && x != t ==> x in pc' && pc'[x] == pc[x]
  }

  lemma TakeLocks(holder: map<Sid, Option<Tid>>, value: map<Sid, nat>, recs: map<Tid, seq<Rec>>,
                  pc: map<Tid, Pc>, pc': map<Tid, Pc>, t: Tid, l: Sid)
    requires LocksOk(holder, value, recs, pc) && t in recs && pc[t] == Downing(l)
    requires l in holder && value[l] > 0 && SamePcBut(pc, pc', t) && t in pc' && pc'[t] == Active
    ensures LocksOk(holder[l := Some(t)], value[l := value[l] - 1], recs[t := SetOwned(recs[t], l)], pc')
  {
    var holder', r := holder[l := Some(t)], recs[t := SetOwned(recs[t], l)];
    assert holder[l].None?;
    TakeRecsOk(t, recs[t], holder, l);
    forall k | k in holder' && holder'[k].Some?
      ensures HoldsRecord(r, k, holder'[k].value)
    {
      if k != l {
        TakeHoldsRecord(recs, t, l, k, holder[k].value);
      }
    }
    forall x | x in r && x != t
      ensures x in pc' && RecsOk(x, r[x], pc'[x], holder')
    {
      OtherRecsOk(x, recs[x], pc[x], holder, l, Some(t));
    }
  }

  // ---------- lock_release ----------

  lemma DropRecsOk(t: Tid, rs: seq<Rec>, holder: map<Sid, Option<Tid>>, l: Sid)
    requires RecsOk(t, rs, Active, holder) && l in holder && FindRec(rs, l) < |rs|
    ensures RecsOk(t, DropRec(rs, l), Active, holder[l := None])
  {
    var i := FindRec(rs, l);
    var r := DropRec(rs, l);
    DropDistinct(rs, i);
    forall j | 0 <= j < |r|
      ensures r[j].lock in holder && r[j].lock != l && !r[j].waiting && holder[r[j].lock] == Some(t)
    {
      LeftRecord(rs, i, j);
    }
  }

  /** A record left when record I is dropped was there, and is of another lock. */
  lemma LeftRecord(rs: seq<Rec>, i: nat, j: nat)
    requires i < |rs| && DistinctLocks(rs) && j < |rs| - 1
    ensures RemoveAt(rs, i)[j] == rs[if j < i then j else j + 1]
    ensures RemoveAt(rs, i)[j].lock != rs[i].lock
  {
    assert rs[if j < i then j else j + 1].lock != rs[i].lock;
  }

  lemma DropHoldsRecord(recs: map<Tid, seq<Rec>>, t: Tid, l: Sid, k: Sid, h: Tid)
    requires t in recs && HoldsRecord(recs, k, h) && k != l && DistinctLocks(recs[t])
    ensures HoldsRecord(recs[t := DropRec(recs[t], l)], k, h)
  {
    if h == t {
      var rs, i, j := recs[t], FindRec(recs[t], l), FindRec(recs[t], k);
      if i < |rs| {
        var r := DropRec(rs, l);
        var j' := if j < i then j else j - 1;
        assert r[j'] == rs[j];
        DropDistinct(rs, i);
        FindRecAt(r, j');
      }
    }
  }

  lemma DropDistinct(rs: seq<Rec>, i: nat)
    requires i < |rs| && DistinctLocks(rs)
    ensures DistinctLocks(RemoveAt(rs, i))
  {
    var r := RemoveAt(rs, i);
    assert forall j :: 0 <= j < |r| ==> r[j] == if j < i then rs[j] else rs[j + 1];
  }

  lemma DropLocks(holder: map<Sid, Option<Tid>>, value: map<Sid, nat>, recs: map<Tid, seq<Rec>>,
                  pc: map<Tid, Pc>, t: Tid, l: Sid)
    requires LocksOk(holder, value, recs, pc) && t in recs && pc[t] == Active
    requires l in holder && holder[l] == Some(t)
    ensures LocksOk(holder[l := None], value[l := value[l] + 1], recs[t := DropRec(recs[t], l)], pc)
  {
    var holder', r := holder[l := None], recs[t := DropRec(recs[t], l)];
    assert HoldsRecord(recs, l, t);
    DropRecsOk(t, recs[t], holder, l);
    forall k | k in holder' && holder'[k].Some?
      ensures HoldsRecord(r, k, holder'[k].value)
    {
      DropHoldsRecord(recs, t, l, k, holder[k].value);
    }
    forall x | x in r && x != t
      ensures x in pc && RecsOk(x, r[x], pc[x], holder')
    {
      OtherRecsOk(x, recs[x], pc[x], holder, l, None);
    }
  }

  /** A program point outside lock_acquire for another. */
  lemma PcLocks(holder: map<Sid, Option<Tid>>, value: map<Sid, nat>, recs: map<Tid, seq<Rec>>,
                pc: map<Tid, Pc>, pc': map<Tid, Pc>, t: Tid)
    requires LocksOk(holder, value, recs, pc) && t in pc && SamePcBut(pc, pc', t) && t in pc'
    requires pc[t].Downing? ==> pc[t].s !in holder
    requires pc'[t].Downing? ==> pc'[t].s !in holder
    ensures LocksOk(holder, value, recs, pc')
  {
    if t in recs {
      assert RecsOk(t, recs[t], pc[t], holder);
      PcRecsOk(t, recs[t], pc[t], pc'[t], holder);
    }
  }

  lemma PcRecsOk(t: Tid, rs: seq<Rec>, pc: Pc, p: Pc, holder: map<Sid, Option<Tid>>)
    requires RecsOk(t, rs, pc, holder)
    requires pc.Downing? ==> pc.s !in holder
    requires p.Downing? ==> p.s !in holder
    ensures RecsOk(t, rs, p, holder)
  {
    assert forall i :: 0 <= i < |rs| ==> rs[i].lock in holder;
  }

  /** The value of a plain semaphore does not concern the locks. */
  lemma ValueLocks(holder: map<Sid, Option<Tid>>, value: map<Sid, nat>, recs: map<Tid, seq<Rec>>,
                   pc: map<Tid, Pc>, s: Sid, v: nat)
    requires LocksOk(holder, value, recs, pc) && s !in holder
    ensures LocksOk(holder, value[s := v], recs, pc)
  {
  }
}
