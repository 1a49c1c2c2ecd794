/** When is a thread's priority exactly the greatest of its own and the donated ones?  thread_set_priority keeps the
    old priority of a thread that has lock records, although nobody may have donated it (threads/thread.c).  This is the
    only way to lose it, outside of lock_release. */
module KernelExact {
  import opened Collections
  import opened KernelTypes
  import opened KernelState
  import opened KernelPlacement
  import opened KernelLocks
  import opened KernelCounts
  import opened KernelInvariant
  import opened KernelRuns
  import opened Donation

  // ---------- the greatest of a base priority and the records ----------

  lemma MaxIs(b: int, rs: seq<Rec>, m: int)
    requires b <= m && (forall i :: 0 <= i < |rs| ==> rs[i].priority <= m)
    requires m == b || exists i :: 0 <= i < |rs| && rs[i].priority == m
    ensures MaxPriority(b, rs) == m
  {
  }

  lemma MaxOfOne(b: int, r: Rec)
    ensures MaxPriority(b, [r]) == Max(b, r.priority)
  {
    assert [r][0] == r;
    MaxIs(b, [r], Max(b, r.priority));
  }

  lemma MaxAdded(b: int, rs: seq<Rec>, l: Sid)
    ensures MaxPriority(b, [Rec(l, MaxPriority(b, rs), true)] + rs) == MaxPriority(b, rs)
  {
    var m, r := MaxPriority(b, rs), [Rec(l, MaxPriority(b, rs), true)] + rs;
    assert r[0].priority == m;
    assert forall i :: 0 < i < |r| ==> r[i] == rs[i - 1];
    MaxIs(b, r, m);
  }

  lemma MaxSame(b: int, rs: seq<Rec>, r: seq<Rec>)
    requires |r| == |rs| && forall i :: 0 <= i < |rs| ==> r[i].priority == rs[i].priority
    ensures MaxPriority(b, r) == MaxPriority(b, rs)
  {
    var m := MaxPriority(b, rs);
    if m != b {
      var i :| 0 <= i < |rs| && rs[i].priority == m;
      assert r[i].priority == m;
    }
    MaxIs(b, r, m);
  }

  lemma MaxRaised(b: int, rs: seq<Rec>, l: Sid, p: int)
    requires FindRec(rs, l) < |rs|
    ensures MaxPriority(b, RaiseRec(rs, l, p)) == Max(MaxPriority(b, rs), p)
  {
    var m, r, k := MaxPriority(b, rs), RaiseRec(rs, l, p), FindRec(rs, l);
    if p > m {
      assert r[k].priority == p;
    } else if m != b {
      var i :| 0 <= i < |rs| && rs[i].priority == m;
      assert r[i].priority == m;
    }
    MaxIs(b, r, Max(m, p));
  }

  // ---------- donation ----------

  ghost predicate ExactIn(g: Graph, t: Tid, b: int) {
    t in g.prio && t in g.recs && g.prio[t] == MaxPriority(b, g.recs[t])
  }

  lemma {:induction false} DonationExact(g: Graph, l: Sid, p: int, t: Tid, b: int)
    requires HoldersRecorded(g) && Held(g, l) && ExactIn(g, t, b)
    ensures ExactIn(DonateRec(g, l, p), t, b)
    decreases Below(g.prio, p)
  {
    RaiseKeepsShape(g, l, p);
    if t == g.holder[l].value {
      MaxRaised(b, g.recs[t], l, p);
    }
    if Donates(g, l, p) && NextLock(g, l).Some? {
      DonationProgress(g, l, p);
      DonationExact(Raise(g, l, p), NextLock(g, l).value, p, t, b);
    }
  }

  // ---------- steps ----------

  /** T's priority is the greatest of its own and the donated ones, unless T is on its way out of lock_release. */
  ghost predicate ExactAt(m: Mem, t: Tid) {
    t in m.prio && t in m.base && t in m.recs && t in m.pc && m.pc[t] != Releasing ==>
      m.prio[t] == MaxPriority(m.base[t], m.recs[t])
  }

  ghost predicate Exact(m: Mem) {
    forall t :: t in m.recs ==> ExactAt(m, t)
  }

  /** thread_set_priority keeps a priority that no record has: there are records, the new priority is below the
      old one, and so is every record. */
  ghost predicate KeepsStale(st: State, a: Action)
    requires WF(st)
  {
    var t := st.run.cur;
    && a.ASetPriority? && a.p < st.mem.prio[t] && st.mem.recs[t] != []
    && forall i :: 0 <= i < |st.mem.recs[t]| ==> st.mem.recs[t][i].priority != st.mem.prio[t]
  }

  /** The new priority is the greatest of the new base and the donations exactly if it is not below the old one, there
      are no records, or a record has the old one. */
  lemma RebaseExactIff(st: State, p: int)
    requires Inv(st) && May(st, ASetPriority(p))
    ensures var t := st.run.cur;
            Rebase(st, p).mem.prio[t] == MaxPriority(p, st.mem.recs[t]) <==>
              || st.mem.prio[t] <= p || st.mem.recs[t] == []
              || exists i :: 0 <= i < |st.mem.recs[t]| && st.mem.recs[t][i].priority == st.mem.prio[t]
  {
    var t := st.run.cur;
    var rs := st.mem.recs[t];
    assert PrioOk(st.mem.prio[t], st.mem.base[t], rs, st.mem.pc[t]);
    if st.mem.prio[t] <= p || rs == [] {
      MaxIs(p, rs, p);
    } else if i :| 0 <= i < |rs| && rs[i].priority == st.mem.prio[t] {
      MaxIs(p, rs, st.mem.prio[t]);
    }
  }

  lemma SetPriorityExact(st: State, p: int)
    requires Inv(st) && May(st, ASetPriority(p)) && Exact(st.mem)
    ensures Exact(Rebase(st, p).mem) <==> !KeepsStale(st, ASetPriority(p))
  {
    var m, t := Rebase(st, p).mem, st.run.cur;
    RebaseExactIff(st, p);
    forall x | x in m.recs && x != t ensures ExactAt(m, x) {
      assert ExactAt(st.mem, x);
    }
    assert ExactAt(m, t) <==> m.prio[t] == MaxPriority(p, st.mem.recs[t]);
  }

  lemma AddRecordExact(st: State, l: Sid, t: Tid)
    requires WF(st) && ExactAt(st.mem, t) && st.mem.pc[st.run.cur] != Releasing
    ensures ExactAt(AddRecord(st, l).mem, t)
  {
    if t == st.run.cur {
      MaxAdded(st.mem.base[t], st.mem.recs[t], l);
    }
  }

  lemma DonateCurrentExact(st: State, l: Sid, t: Tid)
    requires WF(st) && HoldersRecorded(GraphOf(st)) && ExactAt(st.mem, t)
    ensures ExactAt(DonateCurrent(st, l).mem, t)
  {
    if Held(GraphOf(st), l) && t in st.mem.base && ExactIn(GraphOf(st), t, st.mem.base[t]) {
      DonationExact(GraphOf(st), l, st.mem.prio[st.run.cur], t, st.mem.base[t]);
    }
  }

  lemma DownExact(st: State, s: Sid, t: Tid)
    requires WF(st) && s in st.mem.value && ExactAt(st.mem, t) && st.mem.pc[st.run.cur] != Releasing
    ensures ExactAt(DownMem(st, s), t)
  {
    if t == st.run.cur {
      MaxSame(st.mem.base[t], st.mem.recs[t], SetOwned(st.mem.recs[t], s));
    }
  }

  lemma AcquireExact(st: State, l: Sid, t: Tid)
    requires Inv(st) && May(st, AAcquire(l)) && HoldersRecorded(GraphOf(st)) && ExactAt(st.mem, t)
    ensures ExactAt(MemAfter(st, AAcquire(l)), t)
  {
    AddRecordKeepsHolders(st, l);
    var a := AddRecord(st, l);
    AddRecordExact(st, l, t);
    DonateCurrentExact(a, l, t);
    DownExact(DonateCurrent(a, l), l, t);
  }

  /** Nobody on its way out of lock_release sleeps. */
  lemma TickExact(st: State, t: Tid)
    requires Inv(st) && ExactAt(st.mem, t)
    ensures ExactAt(WakeDue(Advance(st)).mem, t)
  {
    if t in st.mem.sleepers {
      assert InPlace(ViewOf(st), t);
    }
  }

  lemma ResumeExact(st: State, t: Tid)
    requires Inv(st) && May(st, AResume) && ExactAt(st.mem, t)
    ensures ExactAt(MemAfter(st, AResume), t)
  {
    assert InPlace(ViewOf(st), st.run.cur);
    if st.mem.pc[st.run.cur].Downing? {
      DownExact(st, st.mem.pc[st.run.cur].s, t);
    }
  }

  lemma ReleaseExact(st: State, l: Sid, t: Tid)
    requires Inv(st) && May(st, ARelease(l)) && ExactAt(st.mem, t)
    ensures ExactAt(ReleaseMem(st, l), t)
  {
    var w := Wake(DropHolder(st, l), l);
    HalfReleaseExact(st, l, t);
    ReprioritizeExact(w, t);
  }

  lemma HalfReleaseExact(st: State, l: Sid, t: Tid)
    requires WF(st) && l in st.mem.holder && ExactAt(st.mem, t)
    ensures t == st.run.cur || ExactAt(Wake(DropHolder(st, l), l).mem, t)
  {
  }

  lemma ReprioritizeExact(st: State, t: Tid)
    requires WF(st) && (t == st.run.cur || ExactAt(st.mem, t))
    ensures ExactAt(Reprioritize(st).mem, t) && ExactAt(SetPc(st, Releasing).mem, t)
  {
  }

  lemma ExitExact(st: State, t: Tid)
    requires Inv(st) && May(st, AExit) && ExactAt(st.mem, t)
    ensures ExactAt(MemAfter(st, AExit), t)
  {
  }

  lemma OtherExact(st: State, a: Action, t: Tid)
    requires Inv(st) && May(st, a) && (a.AUp? || a.AYield? || a.ASleep? || a.AIdle? || a.ACreate?)
    requires t in MemAfter(st, a).recs && (t in st.mem.recs ==> ExactAt(st.mem, t))
    ensures ExactAt(MemAfter(st, a), t)
  {
  }

  lemma StepExactAt(st: State, a: Action, t: Tid)
    requires Inv(st) && May(st, a) && !a.ASetPriority? && t in MemAfter(st, a).recs
    requires t in st.mem.recs ==> ExactAt(st.mem, t)
    ensures ExactAt(MemAfter(st, a), t)
  {
    if a.AAcquire? || a.ARelease? || a.AResume? {
      LockStepExact(st, a, t);
    } else if a.ATick? {
      TickExact(st, t);
    } else if a.ADown? {
      DownExact(st, a.s, t);
    } else if a.AExit? {
      ExitExact(st, t);
    } else {
      OtherExact(st, a, t);
    }
  }

  lemma LockStepExact(st: State, a: Action, t: Tid)
    requires Inv(st) && May(st, a) && (a.AAcquire? || a.ARelease? || a.AResume?) && ExactAt(st.mem, t)
    ensures ExactAt(MemAfter(st, a), t)
  {
    match a
    case AAcquire(l) => LocksGiveHolders(st); AcquireExact(st, l, t);
    case ARelease(l) => ReleaseExact(st, l, t);
    case AResume => ResumeExact(st, t);
  }

  /** Every step keeps priorities exact, but for a thread_set_priority that keeps a stale one. */
  lemma StepExactIff(st: State, a: Action)
    requires Inv(st) && May(st, a) && Exact(st.mem)
    ensures Exact(Apply(st, a).mem) <==> !KeepsStale(st, a)
  {
    ApplyMem(st, a);
    if a.ASetPriority? {
      SetPriorityExact(st, a.p);
    } else {
      forall t | t in MemAfter(st, a).recs ensures ExactAt(MemAfter(st, a), t) {
        StepExactAt(st, a, t);
      }
    }
  }

  // ---------- runs ----------

  /** Priorities are exact before and after every step of the run. */
  ghost predicate ExactThroughout(st: State, acts: seq<Action>)
    requires Inv(st) && Legal(st, acts)
    decreases |acts|
  {
    && Exact(st.mem)
    && (acts == [] || (StepKeeps(st, acts[0]); ExactThroughout(Apply(st, acts[0]), acts[1..])))
  }

  /** No step of the run keeps a stale priority. */
  ghost predicate NeverStale(st: State, acts: seq<Action>)
    requires Inv(st) && Legal(st, acts)
    decreases |acts|
  {
    acts == [] ||
    (!KeepsStale(st, acts[0]) && (StepKeeps(st, acts[0]); NeverStale(Apply(st, acts[0]), acts[1..])))
  }

  lemma {:induction false} RunExactIff(st: State, acts: seq<Action>)
    requires Inv(st) && Legal(st, acts) && Exact(st.mem)
    ensures ExactThroughout(st, acts) <==> NeverStale(st, acts)
    ensures NeverStale(st, acts) ==> Exact(Exec(st, acts).mem)
    decreases |acts|
  {
    if acts != [] {
      StepKeeps(st, acts[0]);
      StepExactIff(st, acts[0]);
      if !KeepsStale(st, acts[0]) {
        RunExactIff(Apply(st, acts[0]), acts[1..]);
      } else {
        assert !ExactThroughout(Apply(st, acts[0]), acts[1..]);
      }
    }
  }

  /** From boot on, the priority of every thread outside of lock_release is exactly the greatest of its own and the
      donated ones, along a run, if and only if no thread_set_priority of the run keeps a stale one. */
  lemma PrioritiesExactIff(c: Config, acts: seq<Action>)
    requires ConfigOk(c) && Legal(Boot(c), acts)
    ensures ExactThroughout(Boot(c), acts) <==> NeverStale(Boot(c), acts)
    ensures NeverStale(Boot(c), acts) ==> Exact(Exec(Boot(c), acts).mem)
  {
    assert forall t :: t in Boot(c).mem.recs ==> Boot(c).mem.recs[t] == [];
    assert Exact(Boot(c).mem);
    RunExactIff(Boot(c), acts);
  }

  // ---------- a run that goes stale ----------

  /** Thread T runs alone, inside no primitive. */
  ghost predicate Alone(st: State, t: Tid, base: int, prio: int, recs: seq<Rec>) {
    && st.run.cur == t && st.run.ready == [] && t != st.mem.idle
    && t in st.mem.base && st.mem.base[t] == base && t in st.mem.prio && st.mem.prio[t] == prio
    && t in st.mem.recs && st.mem.recs[t] == recs && t in st.mem.pc && st.mem.pc[t] == Active
  }

  lemma TakesFree(start: State, acts: seq<Action>, st: State, l: Sid, t: Tid, p: int) returns (r: State)
    requires After(start, acts, st) && Alone(st, t, p, p, [])
    requires l in st.mem.holder && st.mem.holder[l] == None && l in st.mem.value && st.mem.value[l] == 1
    ensures After(start, acts + [AAcquire(l)], r) && Alone(r, t, p, p, [Rec(l, p, false)])
  {
    assert FindRec([Rec(l, p, true)], l) == 0;
    r := Grow(start, acts, st, AAcquire(l));
  }

  lemma Raises(start: State, acts: seq<Action>, st: State, t: Tid, b: int, p: int, q: int, rs: seq<Rec>)
    returns (r: State)
    requires After(start, acts, st) && Alone(st, t, b, p, rs) && p <= q
    ensures After(start, acts + [ASetPriority(q)], r) && Alone(r, t, q, q, rs)
  {
    r := Grow(start, acts, st, ASetPriority(q));
  }

  lemma Lowers(start: State, acts: seq<Action>, st: State, t: Tid, b: int, p: int, q: int, rs: seq<Rec>)
    returns (r: State)
    requires After(start, acts, st) && Alone(st, t, b, p, rs) && q < p && rs != []
    ensures After(start, acts + [ASetPriority(q)], r) && Alone(r, t, q, p, rs)
  {
    var l := [] + [t];
    assert FirstMax(l, st.mem.prio) == 0 && RemoveAt(l, 0) == [];
    r := Grow(start, acts, st, ASetPriority(q));
  }

  lemma Booted31() returns (c: Config)
    ensures ConfigOk(c) && Alone(Boot(c), 1, 31, 31, [])
    ensures 7 in Boot(c).mem.holder && Boot(c).mem.holder[7] == None && Boot(c).mem.value[7] == 1
  {
    c := Config(1, 0, 31, map[7 := 1], {7});
  }

  /** Main, with priority 31, takes a lock, asks for 40, and then for 5: it goes on with 40, which nobody has
      donated. */
  lemma PriorityCanBeStale() returns (c: Config, acts: seq<Action>, t: Tid)
    ensures ConfigOk(c) && Legal(Boot(c), acts)
    ensures var m := Exec(Boot(c), acts).mem;
            && t in m.base && m.base[t] == 5 && t in m.prio && m.prio[t] == 40
            && t in m.recs && m.recs[t] == [Rec(7, 31, false)] && t in m.pc && m.pc[t] == Active && !ExactAt(m, t)
  {
    c := Booted31();
    t := 1;
    var rs := [Rec(7, 31, false)];
    var st := TakesFree(Boot(c), [], Boot(c), 7, 1, 31);
    acts := [] + [AAcquire(7)];
    st := Raises(Boot(c), acts, st, 1, 31, 31, 40, rs);
    acts := acts + [ASetPriority(40)];
    st := Lowers(Boot(c), acts, st, 1, 40, 40, 5, rs);
    acts := acts + [ASetPriority(5)];
    MaxOfOne(5, Rec(7, 31, false));
  }

  // ---------- an exit with a lock ----------

  /** Main takes a lock and exits: the lock is then held by no thread. */
  lemma ExitCanBreak() returns (c: Config, acts: seq<Action>)
    ensures ConfigOk(c) && Legal(Boot(c), acts)
    ensures var st := Exec(Boot(c), acts);
            OffLists(st) && st.mem.pc[st.run.cur] == Active && !Inv(Exit(st))
  {
    c := Booted31();
    var st := TakesFree(Boot(c), [], Boot(c), 7, 1, 31);
    acts := [] + [AAcquire(7)];
    RunningOffLists(st);
    ExitKeepsIff(st);
  }
}
