/** The steps of the kernel and what each of them keeps.  Assumptions: donation is enabled from the start;
    thread_set_priority is one step; no thread exits while it holds or waits for a lock. */
module KernelInvariant {
  import opened Collections
  import opened KernelTypes
  import opened KernelState
  import opened KernelPlacement
  import opened KernelLocks
  import opened KernelCounts
  import opened Donation

  datatype Action =
    | ADown(s: Sid) | AUp(s: Sid) | AAcquire(l: Sid) | ARelease(l: Sid) | AResume
    | ASetPriority(p: int) | AYield | ASleep(n: int) | ATick | AIdle
    | ACreate(t: Tid, p: int) | AExit

  ghost predicate TidsOk(recs: map<Tid, seq<Rec>>, status: map<Tid, Status>) {
    forall t :: t in recs ==> t in status
  }

  ghost predicate Tids(st: State) {
    TidsOk(st.mem.recs, st.run.status)
  }

  ghost predicate Inv(st: State) {
    Placed(st) && Tids(st) && Locks(st) && Prios(st) && Wakes(st) && Awakes(st)
  }

  /** What the source demands: the ASSERTs of each primitive, and that a thread finishes the primitive it is
      inside of.  The idle thread does nothing but block. */
  ghost predicate May(st: State, a: Action)
    requires WF(st)
  {
    var t, m := st.run.cur, st.mem;
    var pc, busy := m.pc[t], t != m.idle;
    match a
    case AResume => pc != Active
    case ATick => pc == Active
    case AIdle => pc == Active && !busy
    case ADown(s) => pc == Active && busy && s in m.value && s !in m.holder
    case AUp(s) => pc == Active && busy && s in m.value && s !in m.holder
    case AAcquire(l) =>
      && pc == Active && busy && l in m.holder && m.holder[l] != Some(t)
      && (m.holder[l].Some? ==> PRI_MIN <= m.prio[t] <= PRI_MAX)
    case ARelease(l) => pc == Active && busy && l in m.holder && m.holder[l] == Some(t)
    case ASetPriority(p) => pc == Active && busy
    case AYield => pc == Active && busy
    case ASleep(n) => pc == Active && busy
    case ACreate(x, p) => pc == Active && busy && x !in st.run.status && PRI_MIN <= p <= PRI_MAX
    case AExit => pc == Active && busy && m.recs[t] == []
  }

  /** A thread on its way out of sema_down, or in the second half of lock_release, goes on. */
  ghost function Resume(st: State): (r: State)
    requires Placed(st) && st.mem.pc[st.run.cur] != Active
  {
    assert InPlace(ViewOf(st), st.run.cur);
    if st.mem.pc[st.run.cur].Downing? then DownLoop(st, st.mem.pc[st.run.cur].s) else FinishRelease(st)
  }

  ghost function Apply(st: State, a: Action): (r: State)
    requires Inv(st) && May(st, a)
  {
    match a
    case ADown(s) => DownLoop(st, s)
    case AUp(s) => SemaUp(st, s)
    case AAcquire(l) => LocksGiveHolders(st); Acquire(st, l)
    case ARelease(l) => Release(st, l)
    case AResume => Resume(st)
    case ASetPriority(p) => SetPriority(st, p)
    case AYield => Yield(st)
    case ASleep(n) => Sleep(st, n)
    case ATick => Tick(st)
    case AIdle => Block(st)
    case ACreate(t, p) => Create(st, t, p)
    case AExit => RunningOffLists(st); Exit(st)
  }

  // ---------- scheduling alone ----------

  /** Scheduling changes the run part only, and no set of threads. */
  lemma SameMemKeeps(st: State, r: State)
    requires Tids(st) && Locks(st) && Prios(st) && Awakes(st) && r.mem == st.mem
    requires forall t :: t in st.run.status ==> t in r.run.status
    requires Placed(r) && Wakes(r)
    ensures Inv(r)
  {
  }

  lemma YieldKeeps(st: State)
    requires Inv(st)
    ensures Inv(Yield(st))
  {
    YieldPlaces(st);
    YieldWakes(st);
    SameMemKeeps(st, Yield(st));
  }

  lemma IdleWakes(st: State)
    requires Placed(st) && Wakes(st) && st.run.cur == st.mem.idle
    ensures Wakes(Block(st))
  {
    LeaveLists(ViewOf(st), st.run.cur, Blocked, st.run.ready);
    assert InPlace(ViewOf(st), st.run.cur);
    StatusWakes(st.run.status, st.mem.pc, st.mem.waiters, st.mem.value, st.run.cur, Blocked);
    ScheduleWakes(Leave(st, Blocked, st.run.ready));
  }

  lemma IdleKeeps(st: State)
    requires Inv(st) && st.run.cur == st.mem.idle
    ensures Inv(Block(st))
  {
    IdlePlaces(st);
    IdleWakes(st);
    SameMemKeeps(st, Block(st));
  }

  // ---------- sema_down and the end of lock_acquire ----------

  /** The running thread stands at the loop of sema_down for S; if S is a lock, its record is in front. */
  ghost predicate AtDown(st: State, s: Sid) {
    && Placed(st) && Tids(st) && Prios(st) && Wakes(st) && Awakes(st)
    && LocksOk(st.mem.holder, st.mem.value, st.mem.recs, st.mem.pc[st.run.cur := Downing(s)])
    && s in st.mem.value && st.run.cur != st.mem.idle
    && (st.mem.pc[st.run.cur] == Active || st.mem.pc[st.run.cur] == Downing(s))
  }

  lemma EnqueueBlockWakes(st: State, s: Sid)
    requires Placed(st) && Wakes(st) && s in st.mem.value && st.mem.value[s] == 0 && st.run.cur != st.mem.idle
    requires st.mem.pc[st.run.cur] == Active || st.mem.pc[st.run.cur] == Downing(s)
    ensures Wakes(Block(Enqueue(st, s)))
  {
    WaitingLists(ViewOf(st), st.run.cur, s);
    EnqueueWakes(st.run.status, st.mem.pc, st.mem.waiters, st.mem.value, s, st.run.cur,
                 st.mem.waiters[s] + [st.run.cur]);
    ScheduleWakes(Leave(Enqueue(st, s), Blocked, st.run.ready));
  }

  lemma EnqueueBlockKeeps(st: State, s: Sid)
    requires AtDown(st, s) && st.mem.value[s] == 0
    ensures Inv(Block(Enqueue(st, s)))
  {
    EnqueueBlockPlaces(st, s);
    EnqueueBlockWakes(st, s);
    PcPrios(st.mem.prio, st.mem.base, st.mem.recs, st.mem.pc, st.run.cur, Downing(s));
    SameMemKeeps(Enqueue(st, s), Block(Enqueue(st, s)));
  }

  lemma FinishDownLocks(st: State, s: Sid)
    requires AtDown(st, s) && st.mem.value[s] > 0
    ensures Locks(FinishDown(st, s))
  {
    var m, t := st.mem, st.run.cur;
    var pc := m.pc[t := Downing(s)];
    if s in m.holder {
      TakeLocks(m.holder, m.value, m.recs, pc, m.pc[t := Active], t, s);
    } else {
      PcLocks(m.holder, m.value, m.recs, pc, m.pc[t := Active], t);
      ValueLocks(m.holder, m.value, m.recs, m.pc[t := Active], s, m.value[s] - 1);
    }
  }

  lemma FinishDownPrios(st: State, s: Sid)
    requires WF(st) && Prios(st) && s in st.mem.value && st.mem.value[s] > 0 && st.mem.pc[st.run.cur] != Releasing
    ensures Prios(FinishDown(st, s))
  {
    var m, t := st.mem, st.run.cur;
    PcPrios(m.prio, m.base, m.recs, m.pc, t, Active);
    OwnedPrios(m.prio, m.base, m.recs, m.pc[t := Active], t, s);
  }

  lemma FinishDownPlaces(st: State, s: Sid)
    requires Placed(st) && s in st.mem.value && st.mem.value[s] > 0
    ensures Placed(FinishDown(st, s))
  {
    PcLists(ViewOf(st), st.run.cur, Active);
  }

  lemma FinishDownKeeps(st: State, s: Sid)
    requires AtDown(st, s) && st.mem.value[s] > 0
    ensures Inv(FinishDown(st, s))
  {
    FinishDownPlaces(st, s);
    FinishDownWakes(st.run.status, st.mem.pc, st.mem.waiters, st.mem.value, s, st.run.cur);
    FinishDownLocks(st, s);
    FinishDownPrios(st, s);
  }

  lemma DownLoopKeeps(st: State, s: Sid)
    requires AtDown(st, s)
    ensures Inv(DownLoop(st, s))
  {
    if st.mem.value[s] == 0 {
      EnqueueBlockKeeps(st, s);
    } else {
      FinishDownKeeps(st, s);
    }
  }

  /** A plain semaphore, or a woken thread back in the loop. */
  lemma InvAtDown(st: State, s: Sid)
    requires Inv(st) && s in st.mem.value && st.run.cur != st.mem.idle
    requires (st.mem.pc[st.run.cur] == Active && s !in st.mem.holder) || st.mem.pc[st.run.cur] == Downing(s)
    ensures AtDown(st, s)
  {
    var m := st.mem;
    if m.pc[st.run.cur] == Downing(s) {
      assert m.pc[st.run.cur := Downing(s)] == m.pc;
    } else {
      PcLocks(m.holder, m.value, m.recs, m.pc, m.pc[st.run.cur := Downing(s)], st.run.cur);
    }
  }

  // ---------- lock_acquire ----------

  lemma AddRecordAtDown(st: State, l: Sid)
    requires Inv(st) && May(st, AAcquire(l))
    ensures AtDown(AddRecord(st, l), l)
  {
    var m, t := st.mem, st.run.cur;
    AddRecordLocks(m.holder, m.value, m.recs, m.pc, t, l, m.prio[t]);
    AddRecordPrios(m.prio, m.base, m.recs, m.pc, t, l);
  }

  lemma DonateLocks(g: Graph, value: map<Sid, nat>, pc: map<Tid, Pc>, l: Sid, p: int)
    requires HoldersRecorded(g) && Held(g, l) && LocksOk(g.holder, value, g.recs, pc)
    ensures LocksOk(g.holder, value, DonateRec(g, l, p).recs, pc)
  {
    var r := DonateRec(g, l, p);
    forall t | t in g.recs
      ensures SameShape(g.recs[t], r.recs[t])
    {
      DonationKeepsShape(g, l, p, t);
    }
    ShapeLocks(g.holder, value, g.recs, pc, r.recs);
  }

  lemma DonateAtDown(st: State, l: Sid)
    requires AtDown(st, l) && HoldersRecorded(GraphOf(st))
    ensures AtDown(DonateCurrent(st, l), l)
  {
    if Held(GraphOf(st), l) {
      var g, p := GraphOf(st), st.mem.prio[st.run.cur];
      DonatePrios(g, st.mem.base, st.mem.pc, l, p);
      DonateLocks(g, st.mem.value, st.mem.pc[st.run.cur := Downing(l)], l, p);
    }
  }

  lemma AcquireKeeps(st: State, l: Sid)
    requires Inv(st) && May(st, AAcquire(l)) && HoldersRecorded(GraphOf(st))
    ensures Inv(Acquire(st, l))
  {
    AddRecordKeepsHolders(st, l);
    AddRecordAtDown(st, l);
    DonateAtDown(AddRecord(st, l), l);
    DownLoopKeeps(DonateCurrent(AddRecord(st, l), l), l);
  }

  // ---------- sema_up ----------

  lemma WakeLocks(st: State, s: Sid)
    requires WF(st) && s in st.mem.value && s !in st.mem.holder && Locks(st)
    ensures Locks(Wake(st, s))
  {
    ValueLocks(st.mem.holder, st.mem.value, st.mem.recs, st.mem.pc, s, st.mem.value[s] + 1);
  }

  lemma WakeRest(st: State, s: Sid)
    requires WF(st) && s in st.mem.value && Tids(st) && Awakes(st)
    ensures Tids(Wake(st, s)) && Awakes(Wake(st, s))
    ensures Prios(st) ==> Prios(Wake(st, s))
  {
  }

  lemma WakeKeeps(st: State, s: Sid)
    requires Inv(st) && s in st.mem.value && s !in st.mem.holder
    ensures Inv(Wake(st, s))
  {
    WakePlaces(st, s);
    WakeWakes(st, s);
    WakeLocks(st, s);
    WakeRest(st, s);
  }

  lemma UpKeeps(st: State, s: Sid)
    requires Inv(st) && s in st.mem.value && s !in st.mem.holder
    ensures Inv(SemaUp(st, s))
  {
    WakeKeeps(st, s);
    YieldKeeps(Wake(st, s));
  }

  // ---------- lock_release ----------

  /** The running thread stands between the two halves of lock_release. */
  ghost predicate AtRelease(st: State) {
    && Placed(st) && Tids(st) && Locks(st) && Wakes(st) && Awakes(st)
    && PriosOk(st.mem.prio, st.mem.base, st.mem.recs, st.mem.pc[st.run.cur := Releasing])
    && st.run.cur != st.mem.idle
    && (st.mem.pc[st.run.cur] == Active || st.mem.pc[st.run.cur] == Releasing)
  }

  lemma ReprioritizeKeeps(st: State)
    requires AtRelease(st)
    ensures Inv(Reprioritize(st))
  {
    var m, t := st.mem, st.run.cur;
    PcLists(ViewOf(st), t, Active);
    PcLocks(m.holder, m.value, m.recs, m.pc, m.pc[t := Active], t);
    ReprioritizePrios(m.prio, m.base, m.recs, m.pc, t);
    OtherWakes(st.run.status, m.pc, m.waiters, m.value, t, Running, Active);
  }

  lemma FinishReleaseKeeps(st: State)
    requires AtRelease(st)
    ensures Inv(FinishRelease(st))
  {
    ReprioritizeKeeps(st);
    YieldKeeps(Reprioritize(st));
  }

  lemma PreemptedKeeps(st: State)
    requires AtRelease(st)
    ensures Inv(SetPc(st, Releasing))
  {
    var m, t := st.mem, st.run.cur;
    PcLists(ViewOf(st), t, Releasing);
    PcLocks(m.holder, m.value, m.recs, m.pc, m.pc[t := Releasing], t);
    OtherWakes(st.run.status, m.pc, m.waiters, m.value, t, Running, Releasing);
  }

  lemma DropPlaces(st: State, l: Sid)
    requires Placed(st) && Wakes(st) && l in st.mem.holder
    ensures Placed(Wake(DropHolder(st, l), l)) && Wakes(Wake(DropHolder(st, l), l))
  {
    WakePlaces(DropHolder(st, l), l);
    WakeWakes(DropHolder(st, l), l);
  }

  lemma DropHolderLocks(st: State, l: Sid)
    requires WF(st) && Locks(st) && l in st.mem.holder && st.mem.holder[l] == Some(st.run.cur)
    requires st.mem.pc[st.run.cur] == Active
    ensures var m := DropHolder(st, l).mem;
            l in m.value && LocksOk(m.holder, m.value[l := m.value[l] + 1], m.recs, m.pc)
  {
    DropLocks(st.mem.holder, st.mem.value, st.mem.recs, st.mem.pc, st.run.cur, l);
  }

  lemma DropLocksStep(st: State, l: Sid)
    requires WF(st) && Locks(st) && May(st, ARelease(l))
    ensures Locks(Wake(DropHolder(st, l), l))
  {
    DropHolderLocks(st, l);
    IncrementedLocks(DropHolder(st, l), l);
  }

  lemma IncrementedLocks(st: State, s: Sid)
    requires WF(st) && s in st.mem.value
    requires LocksOk(st.mem.holder, st.mem.value[s := st.mem.value[s] + 1], st.mem.recs, st.mem.pc)
    ensures Locks(Wake(st, s))
  {
  }

  lemma DropPriosStep(st: State, l: Sid)
    requires WF(st) && Prios(st) && May(st, ARelease(l))
    ensures var w := Wake(DropHolder(st, l), l);
            PriosOk(w.mem.prio, w.mem.base, w.mem.recs, w.mem.pc[w.run.cur := Releasing])
  {
    DropPrios(st.mem.prio, st.mem.base, st.mem.recs, st.mem.pc, st.run.cur, l);
  }

  lemma DropRest(st: State, l: Sid)
    requires WF(st) && Tids(st) && Awakes(st) && l in st.mem.holder
    ensures var w := Wake(DropHolder(st, l), l);
            Tids(w) && Awakes(w) && w.run.cur == st.run.cur && w.mem.pc == st.mem.pc && w.mem.idle == st.mem.idle
  {
    WakeRest(DropHolder(st, l), l);
  }

  lemma ReleaseHalfway(st: State, l: Sid)
    requires Inv(st) && May(st, ARelease(l))
    ensures AtRelease(Wake(DropHolder(st, l), l))
  {
    DropPlaces(st, l);
    DropLocksStep(st, l);
    DropPriosStep(st, l);
    DropRest(st, l);
  }

  lemma ReleaseTail(st: State)
    requires AtRelease(st)
    ensures Inv(Yield(SetPc(st, Releasing))) && Inv(FinishRelease(st))
  {
    PreemptedKeeps(st);
    YieldKeeps(SetPc(st, Releasing));
    FinishReleaseKeeps(st);
  }

  lemma ReleaseKeeps(st: State, l: Sid)
    requires Inv(st) && May(st, ARelease(l))
    ensures Inv(Release(st, l))
  {
    ReleaseHalfway(st, l);
    ReleaseTail(Wake(DropHolder(st, l), l));
  }

  // ---------- coming back ----------

  lemma ResumeKeeps(st: State)
    requires Inv(st) && st.mem.pc[st.run.cur] != Active
    ensures Inv(Resume(st))
  {
    assert InPlace(ViewOf(st), st.run.cur);
    if st.mem.pc[st.run.cur].Downing? {
      InvAtDown(st, st.mem.pc[st.run.cur].s);
      DownLoopKeeps(st, st.mem.pc[st.run.cur].s);
    } else {
      assert st.mem.pc[st.run.cur := Releasing] == st.mem.pc;
      FinishReleaseKeeps(st);
    }
  }

  // ---------- priorities, sleep, time, creation, exit ----------

  lemma SetPriorityKeeps(st: State, p: int)
    requires Inv(st) && st.mem.pc[st.run.cur] == Active
    ensures Inv(SetPriority(st, p))
  {
    RebasePrios(st.mem.prio, st.mem.base, st.mem.recs, st.mem.pc, st.run.cur, p);
    assert Inv(Rebase(st, p));
    YieldKeeps(Rebase(st, p));
  }

  lemma DozeWakes(st: State, n: int)
    requires Placed(st) && Wakes(st) && st.mem.pc[st.run.cur] == Active && st.run.cur != st.mem.idle
    ensures Wakes(Block(Doze(st, n)))
  {
    DozingLists(ViewOf(st), st.run.cur);
    OtherWakes(st.run.status, st.mem.pc, st.mem.waiters, st.mem.value, st.run.cur, Blocked, Asleep);
    ScheduleWakes(Leave(Doze(st, n), Blocked, st.run.ready));
  }

  lemma DozeSync(st: State, n: int)
    requires WF(st) && Locks(st) && Prios(st) && Awakes(st) && st.mem.pc[st.run.cur] == Active && n > 0
    requires st.run.cur !in st.mem.sleepers
    ensures Locks(Doze(st, n)) && Prios(Doze(st, n)) && Awakes(Doze(st, n))
  {
    var m := st.mem;
    PcLocks(m.holder, m.value, m.recs, m.pc, m.pc[st.run.cur := Asleep], st.run.cur);
    PcPrios(m.prio, m.base, m.recs, m.pc, st.run.cur, Asleep);
  }

  lemma SleepKeeps(st: State, n: int)
    requires Inv(st) && st.mem.pc[st.run.cur] == Active && st.run.cur != st.mem.idle && n > 0
    ensures Inv(Block(Doze(st, n)))
  {
    SleepPlaces(st, n);
    DozeWakes(st, n);
    RunningOffLists(st);
    DozeSync(st, n);
    SameMemKeeps(Doze(st, n), Block(Doze(st, n)));
  }

  /** Threads that the timer wakes are inside no lock primitive. */
  lemma WakeDuePc(t: Tid, rs: seq<Rec>, pc: Pc, pc': Pc, holder: map<Sid, Option<Tid>>, prio: int, base: int)
    requires RecsOk(t, rs, pc, holder) && PrioOk(prio, base, rs, pc)
    requires pc' == pc || (pc == Asleep && pc' == Active)
    ensures RecsOk(t, rs, pc', holder) && PrioOk(prio, base, rs, pc')
  {
    if pc != pc' {
      PcRecsOk(t, rs, pc, pc', holder);
    }
  }

  lemma WakeDueSync(st: State)
    requires Placed(st) && Tids(st) && Locks(st) && Prios(st)
    ensures Locks(WakeDue(st)) && Prios(WakeDue(st))
  {
    var r, m := WakeDue(st).mem, st.mem;
    forall t | t in r.recs
      ensures t in r.pc && RecsOk(t, r.recs[t], r.pc[t], r.holder)
      ensures t in r.prio && t in r.base && PrioOk(r.prio[t], r.base[t], r.recs[t], r.pc[t])
    {
      WakeDueMoves(st, t);
      WakeDuePc(t, m.recs[t], m.pc[t], r.pc[t], m.holder, m.prio[t], m.base[t]);
    }
  }

  lemma WakeDueMoves(st: State, t: Tid)
    requires Placed(st) && t in st.run.status
    ensures var pc := WakeDue(st).mem.pc;
            t in pc && (pc[t] == st.mem.pc[t] || (st.mem.pc[t] == Asleep && pc[t] == Active))
  {
    assert InPlace(ViewOf(st), t);
  }

  lemma WakeDueKeeps(st: State)
    requires Placed(st) && Tids(st) && Locks(st) && Prios(st) && Wakes(st)
    ensures Inv(WakeDue(st))
  {
    WakeDuePlaces(st);
    WakeDueSync(st);
    WakeDueWakes(st);
    WakeDueAwakes(st);
  }

  lemma CountSliceKeeps(st: State)
    requires Inv(st)
    ensures Inv(CountSlice(st))
  {
    assert Inv(Bump(st));
    YieldKeeps(Bump(st));
  }

  lemma TickKeeps(st: State)
    requires Inv(st)
    ensures Inv(Tick(st))
  {
    WakeDueKeeps(Advance(st));
    CountSliceKeeps(WakeDue(Advance(st)));
  }

  lemma SpawnLocks(holder: map<Sid, Option<Tid>>, value: map<Sid, nat>, recs: map<Tid, seq<Rec>>,
                   pc: map<Tid, Pc>, t: Tid)
    requires LocksOk(holder, value, recs, pc) && t !in recs
    ensures LocksOk(holder, value, recs[t := []], pc[t := Active])
  {
    forall k | k in holder && holder[k].Some?
      ensures HoldsRecord(recs[t := []], k, holder[k].value)
    {
      assert HoldsRecord(recs, k, holder[k].value);
    }
  }

  lemma SpawnPrios(prio: map<Tid, int>, base: map<Tid, int>, recs: map<Tid, seq<Rec>>, pc: map<Tid, Pc>,
                   t: Tid, p: int)
    requires PriosOk(prio, base, recs, pc)
    ensures PriosOk(prio[t := p], base[t := p], recs[t := []], pc[t := Active])
  {
  }

  lemma SpawnKeeps(st: State, t: Tid, p: int)
    requires Inv(st) && t !in st.run.status
    ensures Inv(Spawn(st, t, p))
  {
    var m := st.mem;
    SpawnPlaces(st, t, p);
    SpawnLocks(m.holder, m.value, m.recs, m.pc, t);
    SpawnPrios(m.prio, m.base, m.recs, m.pc, t, p);
    OtherWakes(st.run.status, m.pc, m.waiters, m.value, t, Ready, Active);
  }

  lemma CreateKeeps(st: State, t: Tid, p: int)
    requires Inv(st) && t !in st.run.status
    ensures Inv(Create(st, t, p))
  {
    SpawnKeeps(st, t, p);
    YieldKeeps(Spawn(st, t, p));
  }

  lemma VanishLocks(holder: map<Sid, Option<Tid>>, value: map<Sid, nat>, recs: map<Tid, seq<Rec>>,
                    pc: map<Tid, Pc>, t: Tid)
    requires LocksOk(holder, value, recs, pc) && t in recs && recs[t] == []
    ensures LocksOk(holder, value, recs - {t}, pc - {t})
  {
    forall k | k in holder && holder[k].Some?
      ensures HoldsRecord(recs - {t}, k, holder[k].value)
    {
      assert HoldsRecord(recs, k, holder[k].value);
    }
  }

  lemma VanishWakes(st: State)
    requires Placed(st) && Wakes(st) && OffLists(st) && st.mem.pc[st.run.cur] == Active
    ensures Wakes(Exit(st))
  {
    GoneWakes(st.run.status, st.mem.pc, st.mem.waiters, st.mem.value, st.run.cur);
    VanishLists(ViewOf(st), st.run.cur);
    ScheduleWakes(Vanish(st));
  }

  lemma ExitKeeps(st: State)
    requires Inv(st) && OffLists(st) && May(st, AExit)
    ensures Inv(Exit(st))
  {
    ExitPlaces(st);
    VanishWakes(st);
    VanishLocks(st.mem.holder, st.mem.value, st.mem.recs, st.mem.pc, st.run.cur);
    SameMemKeeps(Vanish(st), Exit(st));
  }

  /** An exit keeps the invariant exactly if the thread has no lock records: else it leaves a lock whose holder is no
      thread. */
  lemma ExitKeepsIff(st: State)
    requires Inv(st) && OffLists(st) && st.mem.pc[st.run.cur] == Active
    ensures Inv(Exit(st)) <==> st.mem.recs[st.run.cur] == []
  {
    var t := st.run.cur;
    if st.mem.recs[t] == [] {
      ExitKeeps(st);
    } else {
      var l := st.mem.recs[t][0].lock;
      assert RecsOk(t, st.mem.recs[t], st.mem.pc[t], st.mem.holder);
      assert l in Exit(st).mem.holder && Exit(st).mem.holder[l] == Some(t);
      assert !HoldsRecord(Exit(st).mem.recs, l, t);
    }
  }

  // ---------- every step ----------

  /** Every permitted step keeps the whole invariant. */
  lemma StepKeeps(st: State, a: Action)
    requires Inv(st) && May(st, a)
    ensures Inv(Apply(st, a))
  {
    match a
    case ADown(s) => InvAtDown(st, s); DownLoopKeeps(st, s);
    case AUp(s) => UpKeeps(st, s);
    case AAcquire(l) => LocksGiveHolders(st); AcquireKeeps(st, l);
    case ARelease(l) => ReleaseKeeps(st, l);
    case AResume => ResumeKeeps(st);
    case ASetPriority(p) => SetPriorityKeeps(st, p);
    case AYield => YieldKeeps(st);
    case ASleep(n) => if n > 0 { SleepKeeps(st, n); }
    case ATick => TickKeeps(st);
    case AIdle => IdleKeeps(st);
    case ACreate(t, p) => CreateKeeps(st, t, p);
    case AExit => RunningOffLists(st); ExitKeeps(st);
  }
}
