/** Whose turn it is: what every step does to the running thread, to the ready list and its order, and to the waiters of
    semaphores and locks (threads/thread.c, threads/synch.c). */
module KernelTurns {
  import opened Collections
  import opened KernelTypes
  import opened KernelState
  import opened KernelPlacement
  import opened KernelLocks
  import opened KernelInvariant
  import opened KernelRuns
  import opened Donation

  // ---------- picking a thread ----------

  /** No ready thread has more priority than the running one. */
  ghost predicate Unoutranked(st: State) {
    && st.run.cur in st.mem.prio
    && forall t :: t in st.run.ready ==> t in st.mem.prio && st.mem.prio[t] <= st.mem.prio[st.run.cur]
  }

  /** Nobody on list L has more priority than the one at I, and nobody in front of it has as much. */
  ghost predicate Leads(l: seq<Tid>, prio: map<Tid, int>, i: int) {
    && 0 <= i < |l| && l[i] in prio
    && (forall j :: 0 <= j < |l| ==> l[j] in prio && prio[l[j]] <= prio[l[i]])
    && (forall j :: 0 <= j < i ==> l[j] in prio && prio[l[j]] < prio[l[i]])
  }

  /** The one at I is taken off list L. */
  ghost predicate TakenOff(l: seq<Tid>, i: int, t: Tid, rest: seq<Tid>) {
    0 <= i < |l| && t == l[i] && rest == RemoveAt(l, i)
  }

  /** The leader of list L has begun a time slice, the others are ready in the same order; or nobody is ready, and the
      idle thread has. */
  ghost predicate Picked(l: seq<Tid>, st: State) {
    && st.run.slice == 0
    && if l == [] then st.run.cur == st.mem.idle && st.run.ready == []
       else exists i :: Leads(l, st.mem.prio, i) && TakenOff(l, i, st.run.cur, st.run.ready)
  }

  lemma SchedulePicks(st: State)
    requires WF(st)
    ensures Picked(st.run.ready, Schedule(st)) && Schedule(st).mem == st.mem
  {
    var l := st.run.ready;
    if l != [] {
      var i := FirstMax(l, st.mem.prio);
      assert Leads(l, st.mem.prio, i) && TakenOff(l, i, Schedule(st).run.cur, Schedule(st).run.ready);
    }
  }

  lemma YieldPicks(st: State)
    requires WF(st)
    ensures Picked(ReadyWithCurrent(st), Yield(st)) && Yield(st).mem == st.mem
  {
    SchedulePicks(Leave(st, Ready, ReadyWithCurrent(st)));
  }

  lemma BlockPicks(st: State)
    requires WF(st)
    ensures Picked(st.run.ready, Block(st)) && Block(st).mem == st.mem
  {
    SchedulePicks(Leave(st, Blocked, st.run.ready));
  }

  lemma PickedUnoutranked(l: seq<Tid>, st: State)
    requires Picked(l, st) && st.mem.idle in st.mem.prio
    ensures Unoutranked(st)
  {
    if l != [] {
      var i :| Leads(l, st.mem.prio, i) && TakenOff(l, i, st.run.cur, st.run.ready);
      forall t | t in st.run.ready ensures t in st.mem.prio && st.mem.prio[t] <= st.mem.prio[st.run.cur] {
        var j :| 0 <= j < |st.run.ready| && st.run.ready[j] == t;
        assert t == if j < i then l[j] else l[j + 1];
      }
    }
  }

  // ---------- one turn ----------

  /** The running thread goes on, and FRESH have joined the ready list at its end. */
  ghost predicate GoesOn(st: State, r: State, joined: seq<Tid>, ticks: nat) {
    r.run.cur == st.run.cur && r.run.ready == st.run.ready + joined && r.run.slice == st.run.slice + ticks
  }

  /** Step A can make T ready: T waits for what is upped or released, is created, or its tick comes. */
  ghost predicate Readies(st: State, a: Action, t: Tid) {
    match a
    case AUp(s) => s in st.mem.waiters && t in st.mem.waiters[s]
    case ARelease(l) => l in st.mem.waiters && t in st.mem.waiters[l]
    case ACreate(x, p) => t == x
    case ATick => t in st.mem.sleepers && t in st.mem.awake && st.mem.awake[t] <= st.mem.ticks + 1
    case _ => false
  }

  /** Who joins the ready list: threads that the step makes ready, then, if BACK, the running thread. */
  ghost predicate Joins(st: State, a: Action, joined: seq<Tid>, back: bool) {
    && NoDup(joined) && (forall t :: t in joined ==> t !in st.run.ready)
    && (forall i :: 0 <= i < |joined| - (if back then 1 else 0) ==>
          joined[i] != st.run.cur && Readies(st, a, joined[i]))
    && (back ==> joined != [] && joined[|joined| - 1] == st.run.cur)
  }

  /** When the running thread gives up the processor in a step that leads to R: it has to wait for a semaphore or lock
      that is taken; it wakes or creates a thread of more priority; its priority falls; it asks to sleep, yield or exit;
      or its fourth tick comes. */
  ghost predicate GivesUp(st: State, a: Action, r: State) {
    var t, m := st.run.cur, st.mem;
    match a
    case ADown(s) => IsTaken(m, s)
    case AAcquire(l) => IsTaken(m, l)
    case AUp(s) => Outranking(m, s, t)
    case ARelease(l) => Outranking(m, l, t) || Lowered(m, r.mem, t)
    case AResume => t in m.pc && if m.pc[t].Downing? then IsTaken(m, m.pc[t].s) else Lowered(m, r.mem, t)
    case ASetPriority(p) => t in m.prio && p < m.prio[t]
    case AYield => true
    case ASleep(n) => n > 0
    case ATick => st.run.slice >= 3
    case AIdle => true
    case ACreate(x, p) => t in m.prio && p > m.prio[t]
    case AExit => true
  }

  ghost predicate IsTaken(m: Mem, s: Sid) {
    s in m.value && m.value[s] == 0
  }

  ghost predicate Lowered(m: Mem, m': Mem, t: Tid) {
    t in m.prio && t in m'.prio && m'.prio[t] < m.prio[t]
  }

  /** Somebody waits for S who has more priority than T. */
  ghost predicate Outranking(m: Mem, s: Sid, t: Tid) {
    s in m.waiters && exists w :: w in m.waiters[s] && w in m.prio && t in m.prio && m.prio[w] > m.prio[t]
  }

  /** Giving up the processor, it stays ready. */
  ghost predicate StaysReady(st: State, a: Action) {
    var t, m := st.run.cur, st.mem;
    && t != m.idle
    && (a.AUp? || a.ARelease? || a.ASetPriority? || a.AYield? || a.ATick? || a.ACreate? ||
        (a.AResume? && t in m.pc && m.pc[t] == Releasing))
  }

  /** What a step does to the running thread and the ready list. */
  ghost predicate TurnOf(st: State, a: Action, r: State, joined: seq<Tid>) {
    && Joins(st, a, joined, GivesUp(st, a, r) && StaysReady(st, a))
    && if GivesUp(st, a, r) then Picked(st.run.ready + joined, r)
       else GoesOn(st, r, joined, if a == ATick then 1 else 0)
  }

  ghost function Back(st: State): seq<Tid> {
    if st.run.cur == st.mem.idle then [] else [st.run.cur]
  }

  /** The running thread has its status and is not on the ready list. */
  ghost predicate Runs(st: State) {
    st.run.cur in st.run.status && st.run.status[st.run.cur] == Running && st.run.cur !in st.run.ready
  }

  lemma PlacedRuns(st: State)
    requires Placed(st)
    ensures Runs(st)
  {
    assert InPlace(ViewOf(st), st.run.cur);
  }

  lemma JoinsBack(st: State, a: Action, joined: seq<Tid>)
    requires Runs(st) && Joins(st, a, joined, false)
    ensures Joins(st, a, joined + Back(st), st.run.cur != st.mem.idle)
  {
    assert joined + [] == joined;
  }

  /** Step A leads to state W, where JOINED have joined the ready list of ST, and yields there. */
  lemma YieldTurn(st: State, a: Action, w: State, joined: seq<Tid>)
    requires WF(w) && w.run.cur == st.run.cur && w.mem.idle == st.mem.idle && w.run.ready == st.run.ready + joined
    requires Runs(st) && Joins(st, a, joined, false)
    requires GivesUp(st, a, Yield(w)) && (StaysReady(st, a) <==> st.run.cur != st.mem.idle)
    ensures TurnOf(st, a, Yield(w), joined + Back(st))
  {
    YieldPicks(w);
    JoinsBack(st, a, joined);
    WithBack(st, w, joined);
  }

  lemma WithBack(st: State, w: State, joined: seq<Tid>)
    requires WF(w) && w.run.cur == st.run.cur && w.mem.idle == st.mem.idle && w.run.ready == st.run.ready + joined
    ensures ReadyWithCurrent(w) == st.run.ready + (joined + Back(st))
  {
    assert joined + [] == joined;
  }

  /** Or goes on there. */
  lemma OnTurn(st: State, a: Action, r: State, joined: seq<Tid>)
    requires GoesOn(st, r, joined, if a == ATick then 1 else 0) && Joins(st, a, joined, false) && !GivesUp(st, a, r)
    ensures TurnOf(st, a, r, joined)
  {
  }

  lemma NobodyJoins(st: State, a: Action)
    ensures Joins(st, a, [], false) && st.run.ready + [] == st.run.ready
  {
  }

  /** Or blocks there. */
  lemma BlockTurn(st: State, a: Action, w: State)
    requires WF(w) && w.run.ready == st.run.ready && GivesUp(st, a, Block(w)) && !StaysReady(st, a)
    ensures TurnOf(st, a, Block(w), [])
  {
    BlockPicks(w);
    NobodyJoins(st, a);
  }

  /** The thread that an up or a release of S wakes. */
  ghost function WokenBy(st: State, s: Sid): seq<Tid>
    requires WF(st) && s in st.mem.value
  {
    if HasWaiters(st, s) then [TopWaiter(st, s)] else []
  }

  lemma WokenJoins(st: State, a: Action, s: Sid)
    requires Placed(st) && s in st.mem.value && (a == AUp(s) || a == ARelease(s))
    ensures Joins(st, a, WokenBy(st, s), false)
  {
    if HasWaiters(st, s) {
      assert InPlace(ViewOf(st), TopWaiter(st, s));
    }
  }

  lemma OutrankedIff(st: State, s: Sid)
    requires WF(st) && s in st.mem.value
    ensures Outranked(st, s) <==> Outranking(st.mem, s, st.run.cur)
  {
    if HasWaiters(st, s) {
      var ws := st.mem.waiters[s];
      forall w | w in ws ensures st.mem.prio[w] <= st.mem.prio[TopWaiter(st, s)] {
        var j :| 0 <= j < |ws| && ws[j] == w;
      }
    }
  }

  lemma UpTurn(st: State, s: Sid) returns (joined: seq<Tid>)
    requires WF(st) && s in st.mem.value && st.run.cur != st.mem.idle && Runs(st)
    requires Joins(st, AUp(s), WokenBy(st, s), false)
    ensures TurnOf(st, AUp(s), SemaUp(st, s), joined)
  {
    OutrankedIff(st, s);
    NobodyJoins(st, AUp(s));
    joined := WokenBy(st, s);
    if Outranked(st, s) {
      YieldTurn(st, AUp(s), Wake(st, s), joined);
      joined := joined + Back(st);
    } else {
      OnTurn(st, AUp(s), Wake(st, s), joined);
    }
  }

  /** A thread that wakes one of more priority loses the processor to somebody of more priority, and otherwise keeps
      it. */
  lemma UpSwitchesIff(st: State, s: Sid)
    requires WF(st) && s in st.mem.value
    ensures SemaUp(st, s).run.cur != st.run.cur <==> Outranking(st.mem, s, st.run.cur)
    ensures Unoutranked(st) ==> Unoutranked(SemaUp(st, s))
  {
    OutrankedIff(st, s);
    if Outranked(st, s) {
      var w, l := Wake(st, s), ReadyWithCurrent(Wake(st, s));
      YieldPicks(w);
      PickedUnoutranked(l, Yield(w));
      WokenOnList(st, s);
      var i :| Leads(l, w.mem.prio, i) && TakenOff(l, i, Yield(w).run.cur, Yield(w).run.ready);
      var j :| 0 <= j < |l| && l[j] == TopWaiter(st, s);
      assert st.mem.prio[l[j]] <= st.mem.prio[l[i]];
    } else {
      if Unoutranked(st) {
        WakeUnoutranked(st, s);
      }
    }
  }

  lemma WokenOnList(st: State, s: Sid)
    requires WF(st) && s in st.mem.value && HasWaiters(st, s)
    ensures TopWaiter(st, s) in ReadyWithCurrent(Wake(st, s))
  {
    var w := Wake(st, s);
    assert w.run.ready[|st.run.ready|] == TopWaiter(st, s);
    assert ReadyWithCurrent(w)[|st.run.ready|] == TopWaiter(st, s);
  }

  lemma WakeUnoutranked(st: State, s: Sid)
    requires WF(st) && s in st.mem.value && !Outranked(st, s) && Unoutranked(st)
    ensures Unoutranked(Wake(st, s))
  {
  }

  /** A round of the loop of sema_down, in a state W with the same threads. */
  lemma DownTurn(st: State, a: Action, w: State, s: Sid)
    requires WF(w) && s in w.mem.value && w.run == st.run && !StaysReady(st, a) && a != ATick
    requires GivesUp(st, a, DownLoop(w, s)) <==> w.mem.value[s] == 0
    ensures TurnOf(st, a, DownLoop(w, s), [])
  {
    NobodyJoins(st, a);
    if w.mem.value[s] == 0 {
      BlockTurn(st, a, Enqueue(w, s));
    } else {
      OnTurn(st, a, DownLoop(w, s), []);
    }
  }

  lemma AcquireTurn(st: State, l: Sid)
    requires WF(st) && HoldersRecorded(GraphOf(st)) && l in st.mem.holder
    ensures TurnOf(st, AAcquire(l), Acquire(st, l), [])
  {
    AddRecordKeepsHolders(st, l);
    DownTurn(st, AAcquire(l), DonateCurrent(AddRecord(st, l), l), l);
  }

  /** The second half of lock_release, in a state W where JOINED have joined the ready list of ST. */
  lemma FinishReleaseTurn(st: State, a: Action, w: State, joined: seq<Tid>) returns (all: seq<Tid>)
    requires WF(w) && w.run.cur == st.run.cur && w.mem.idle == st.mem.idle && w.run.ready == st.run.ready + joined
    requires w.run.slice == st.run.slice && a != ATick
    requires Runs(st) && Joins(st, a, joined, false) && (StaysReady(st, a) <==> st.run.cur != st.mem.idle)
    requires GivesUp(st, a, FinishRelease(w)) <==> Lowered(w.mem, FinishRelease(w).mem, st.run.cur)
    ensures TurnOf(st, a, FinishRelease(w), all)
  {
    all := joined;
    if w.mem.prio[st.run.cur] > Reprioritize(w).mem.prio[st.run.cur] {
      YieldPicks(Reprioritize(w));
      YieldTurn(st, a, Reprioritize(w), joined);
      all := joined + Back(st);
    } else {
      OnTurn(st, a, Reprioritize(w), joined);
    }
  }

  lemma ReleaseTurn(st: State, l: Sid) returns (joined: seq<Tid>)
    requires WF(st) && l in st.mem.holder && st.run.cur != st.mem.idle && Runs(st)
    requires Joins(st, ARelease(l), WokenBy(st, l), false)
    ensures TurnOf(st, ARelease(l), Release(st, l), joined)
  {
    var d := DropHolder(st, l);
    OutrankedIff(d, l);
    NobodyJoins(st, ARelease(l));
    joined := WokenBy(d, l);
    if Outranked(d, l) {
      YieldTurn(st, ARelease(l), SetPc(Wake(d, l), Releasing), joined);
      joined := joined + Back(st);
    } else {
      joined := FinishReleaseTurn(st, ARelease(l), Wake(d, l), joined);
    }
  }

  lemma ResumeTurn(st: State) returns (joined: seq<Tid>)
    requires Placed(st) && st.mem.pc[st.run.cur] != Active && Runs(st)
    ensures TurnOf(st, AResume, Resume(st), joined)
  {
    assert InPlace(ViewOf(st), st.run.cur);
    NobodyJoins(st, AResume);
    joined := [];
    if st.mem.pc[st.run.cur].Downing? {
      DownTurn(st, AResume, st, st.mem.pc[st.run.cur].s);
    } else {
      joined := FinishReleaseTurn(st, AResume, st, []);
    }
  }

  lemma SetPriorityTurn(st: State, p: int) returns (joined: seq<Tid>)
    requires WF(st) && st.run.cur != st.mem.idle && Runs(st)
    ensures TurnOf(st, ASetPriority(p), SetPriority(st, p), joined)
  {
    NobodyJoins(st, ASetPriority(p));
    joined := [];
    if st.mem.prio[st.run.cur] > p {
      YieldTurn(st, ASetPriority(p), Rebase(st, p), []);
      joined := [] + Back(st);
    }
  }

  lemma CreateTurn(st: State, t: Tid, p: int) returns (joined: seq<Tid>)
    requires WF(st) && st.run.cur != st.mem.idle && Runs(st) && t !in st.run.status
    ensures TurnOf(st, ACreate(t, p), Create(st, t, p), joined)
  {
    joined := [t];
    if p > st.mem.prio[st.run.cur] {
      YieldTurn(st, ACreate(t, p), Spawn(st, t, p), [t]);
      joined := [t] + Back(st);
    } else {
      OnTurn(st, ACreate(t, p), Spawn(st, t, p), [t]);
    }
  }

  /** A ready thread has at least the priority of the running one, which is not ready itself. */
  ghost predicate EqualReady(st: State)
    requires WF(st)
  {
    st.run.cur !in st.run.ready && exists t :: t in st.run.ready && st.mem.prio[t] >= st.mem.prio[st.run.cur]
  }

  /** Four ticks are a time slice. */
  lemma CountSliceIs(st: State)
    requires WF(st)
    ensures st.run.slice < 3 ==> CountSlice(st) == st.(run := st.run.(slice := st.run.slice + 1))
    ensures st.run.slice >= 3 ==> CountSlice(st).run.slice == 0 && Unoutranked(CountSlice(st))
    ensures st.run.slice >= 3 && EqualReady(st) ==> CountSlice(st).run.cur != st.run.cur
  {
    if st.run.slice >= 3 {
      var b, l := Bump(st), ReadyWithCurrent(Bump(st));
      YieldPicks(b);
      PickedUnoutranked(l, Yield(b));
      if EqualReady(st) {
        var t :| t in st.run.ready && st.mem.prio[t] >= st.mem.prio[st.run.cur];
        EqualFirst(st.run.ready, st.run.cur, l, Yield(b), t);
      }
    }
  }

  lemma EqualFirst(ready: seq<Tid>, cur: Tid, l: seq<Tid>, r: State, t: Tid)
    requires (l == ready || l == ready + [cur]) && Picked(l, r) && t in ready && cur !in ready
    requires t in r.mem.prio && cur in r.mem.prio && r.mem.prio[t] >= r.mem.prio[cur]
    ensures r.run.cur != cur
  {
    var j :| 0 <= j < |ready| && ready[j] == t;
    assert l[j] == t;
    var i :| Leads(l, r.mem.prio, i) && TakenOff(l, i, r.run.cur, r.run.ready);
    assert l[i] == if i < |ready| then ready[i] else cur;
  }

  /** The sleepers that the next tick wakes, in the order in which they lie down. */
  ghost function DueNext(st: State): seq<Tid>
    requires WF(st)
  {
    Sleeping(Advance(st).mem, st.mem.sleepers, true)
  }

  lemma DueJoin(st: State)
    requires Placed(st)
    ensures Joins(st, ATick, DueNext(st), false)
  {
    SleepingNoDup(Advance(st).mem, st.mem.sleepers, true);
    forall t | t in DueNext(st) ensures t !in st.run.ready && t != st.run.cur && Readies(st, ATick, t) {
      assert InPlace(ViewOf(st), t);
    }
  }

  lemma TickTurn(st: State) returns (joined: seq<Tid>)
    requires WF(st) && Runs(st) && Joins(st, ATick, DueNext(st), false)
    ensures TurnOf(st, ATick, Tick(st), joined)
    ensures joined == DueNext(st) + if st.run.slice >= 3 then Back(st) else []
  {
    joined := DueNext(st);
    var w := Bump(WakeDue(Advance(st)));
    assert joined + [] == joined;
    if st.run.slice >= 3 {
      YieldTurn(st, ATick, w, joined);
      joined := joined + Back(st);
    } else {
      OnTurn(st, ATick, w, joined);
    }
  }

  lemma ExitTurn(st: State)
    requires WF(st) && OffLists(st)
    ensures TurnOf(st, AExit, Exit(st), [])
  {
    NobodyJoins(st, AExit);
    SchedulePicks(Vanish(st));
  }

  /** Every step: the running thread goes on unless it gives up the processor, in exactly those cases; then the ready
      thread of greatest priority that has been ready longest begins a time slice. */
  lemma StepTurn(st: State, a: Action) returns (joined: seq<Tid>)
    requires Inv(st) && May(st, a)
    ensures TurnOf(st, a, Apply(st, a), joined)
  {
    PlacedRuns(st);
    NobodyJoins(st, a);
    joined := [];
    match a
    case ADown(s) => DownTurn(st, a, st, s);
    case AUp(s) => WokenJoins(st, a, s); joined := UpTurn(st, s);
    case AAcquire(l) => LocksGiveHolders(st); AcquireTurn(st, l);
    case ARelease(l) => WokenJoins(st, a, l); joined := ReleaseTurn(st, l);
    case AResume => joined := ResumeTurn(st);
    case ASetPriority(p) => joined := SetPriorityTurn(st, p);
    case AYield => YieldTurn(st, a, st, []); joined := [] + Back(st);
    case ASleep(n) => if n > 0 { BlockTurn(st, a, Doze(st, n)); }
    case ATick => DueJoin(st); joined := TickTurn(st);
    case AIdle => BlockTurn(st, a, st);
    case ACreate(t, p) => joined := CreateTurn(st, t, p);
    case AExit => RunningOffLists(st); ExitTurn(st);
  }

  // ---------- nobody outranks the running thread ----------

  /** Priorities are as they were, except that the running thread's may have risen and a created thread has its own. */
  ghost predicate Steady(st: State, a: Action, r: State) {
    && (forall t :: t in st.mem.prio && t != st.run.cur && (a.ACreate? ==> t != a.t) ==>
          t in r.mem.prio && r.mem.prio[t] == st.mem.prio[t])
    && st.run.cur in st.mem.prio && st.run.cur in r.mem.prio
    && st.mem.prio[st.run.cur] <= r.mem.prio[st.run.cur]
    && (a.ACreate? ==> a.t in r.mem.prio && r.mem.prio[a.t] == a.p)
  }

  lemma AcquireSteady(st: State, l: Sid, r: State)
    requires WF(st) && Locks(st) && HoldersRecorded(GraphOf(st)) && l in st.mem.holder && !IsTaken(st.mem, l)
    requires r.mem == Acquire(st, l).mem
    ensures Steady(st, AAcquire(l), r)
  {
  }

  lemma ReleaseSteady(st: State, l: Sid, r: State)
    requires WF(st) && l in st.mem.holder && r.mem == ReleaseMem(st, l) && !GivesUp(st, ARelease(l), r)
    ensures Steady(st, ARelease(l), r)
  {
  }

  /** So it is after a step that does not give up the processor. */
  lemma StepSteady(st: State, a: Action)
    requires Inv(st) && May(st, a) && !GivesUp(st, a, Apply(st, a))
    ensures Steady(st, a, Apply(st, a))
  {
    if a.AAcquire? {
      LocksGiveHolders(st);
      AcquireSteady(st, a.l, Apply(st, a));
    } else {
      ApplyMem(st, a);
      if a.ARelease? {
        ReleaseSteady(st, a.l, Apply(st, a));
      }
    }
  }

  lemma GoesOnUnoutranked(st: State, a: Action, r: State, joined: seq<Tid>)
    requires WF(st) && Runs(st) && Unoutranked(st) && Steady(st, a, r) && !GivesUp(st, a, r) && a != ATick
    requires GoesOn(st, r, joined, 0) && Joins(st, a, joined, false) && (a.ACreate? ==> a.t !in st.run.status)
    ensures Unoutranked(r)
  {
    forall t | t in r.run.ready ensures t in r.mem.prio && r.mem.prio[t] <= r.mem.prio[r.run.cur] {
      if t !in st.run.ready {
        assert t in joined;
        var i :| 0 <= i < |joined| && joined[i] == t;
        assert Readies(st, a, joined[i]);
      }
    }
  }

  /** From a state where no ready thread has more priority than the running one every step but a tick leads to such a
      state. */
  lemma StepUnoutranked(st: State, a: Action)
    requires Inv(st) && May(st, a) && a != ATick && Unoutranked(st)
    ensures Unoutranked(Apply(st, a))
  {
    var joined := StepTurn(st, a);
    if GivesUp(st, a, Apply(st, a)) {
      StepKeeps(st, a);
      PickedUnoutranked(st.run.ready + joined, Apply(st, a));
    } else {
      StepSteady(st, a);
      PlacedRuns(st);
      GoesOnUnoutranked(st, a, Apply(st, a), joined);
    }
  }

  // ---------- waiting for semaphores and locks ----------

  /** The running thread has to wait for S. */
  ghost predicate BeginsToWait(st: State, a: Action, s: Sid) {
    && IsTaken(st.mem, s)
    && (a == ADown(s) || a == AAcquire(s) ||
        (a == AResume && st.run.cur in st.mem.pc && st.mem.pc[st.run.cur] == Downing(s)))
  }

  /** The step works on a semaphore or lock. */
  predicate Syncs(a: Action) {
    a.ADown? || a.AUp? || a.AAcquire? || a.ARelease? || a.AResume?
  }

  lemma SyncsOnly(st: State, a: Action, s: Sid)
    requires !Syncs(a)
    ensures !Wakens(a, s) && !BeginsToWait(st, a, s) && !Gets(st, a, s)
  {
  }

  ghost predicate Wakens(a: Action, s: Sid) {
    a == AUp(s) || a == ARelease(s)
  }

  /** One of WS is woken: the one of greatest priority, and of these the one that has waited longest; the others wait
      in the same order. */
  ghost predicate OneWoken(ws: seq<Tid>, prio: map<Tid, int>, left: seq<Tid>, t: Tid) {
    exists i :: Leads(ws, prio, i) && TakenOff(ws, i, t, left)
  }

  /** What happens to the waiters of S in step A: an up or a release wakes exactly one, if there are any; the running
      thread joins them at the end where it has to wait; and nothing else. */
  ghost predicate WaitersStep(st: State, a: Action, m: Mem, s: Sid) {
    && s in st.mem.waiters && s in m.waiters
    && var ws, ws' := st.mem.waiters[s], m.waiters[s];
    && (Wakens(a, s) && ws != [] ==> exists t :: OneWoken(ws, st.mem.prio, ws', t))
    && (BeginsToWait(st, a, s) ==> ws' == ws + [st.run.cur])
    && (!BeginsToWait(st, a, s) && (!Wakens(a, s) || ws == []) ==> ws' == ws)
  }

  lemma WakeWaitersStep(st: State, a: Action, w: State, k: Sid, s: Sid)
    requires WF(w) && Wakens(a, k) && k in w.mem.value && s in w.mem.value
    requires w.mem.waiters == st.mem.waiters && w.mem.prio == st.mem.prio && w.run.cur == st.run.cur
    ensures WaitersStep(st, a, Wake(w, k).mem, s)
  {
    var ws := w.mem.waiters[k];
    if ws != [] {
      var i := FirstMax(ws, w.mem.prio);
      assert Leads(ws, w.mem.prio, i) && TakenOff(ws, i, ws[i], Wake(w, k).mem.waiters[k]);
      assert OneWoken(ws, w.mem.prio, Wake(w, k).mem.waiters[k], ws[i]);
    }
  }

  lemma WakesOne(st: State, s: Sid)
    requires WF(st) && s in st.mem.value && st.mem.waiters[s] != []
    ensures exists t :: OneWoken(st.mem.waiters[s], st.mem.prio, Wake(st, s).mem.waiters[s], t)
  {
    WakeWaitersStep(st, AUp(s), st, s, s);
  }

  lemma DownWaitersStep(st: State, a: Action, w: State, k: Sid, s: Sid)
    requires WF(w) && k in w.mem.value && s in w.mem.value && !Wakens(a, s)
    requires w.mem.waiters == st.mem.waiters && w.mem.value == st.mem.value && w.run.cur == st.run.cur
    requires BeginsToWait(st, a, s) <==> IsTaken(st.mem, k) && s == k
    ensures WaitersStep(st, a, DownMem(w, k), s)
  {
  }

  lemma SameWaitersStep(st: State, a: Action, m: Mem, s: Sid)
    requires s in st.mem.waiters && m.waiters == st.mem.waiters && !Wakens(a, s) && !BeginsToWait(st, a, s)
    ensures WaitersStep(st, a, m, s)
  {
  }

  lemma AcquireWaitersStep(st: State, l: Sid, s: Sid)
    requires WF(st) && HoldersRecorded(GraphOf(st)) && l in st.mem.holder && s in st.mem.value
    ensures WaitersStep(st, AAcquire(l), Acquire(st, l).mem, s)
  {
    AddRecordKeepsHolders(st, l);
    var w := DonateCurrent(AddRecord(st, l), l);
    DownLoopMem(w, l);
    DownWaitersStep(st, AAcquire(l), w, l, s);
  }

  lemma ReleaseWaitersStep(st: State, l: Sid, s: Sid)
    requires WF(st) && l in st.mem.holder && s in st.mem.value
    ensures WaitersStep(st, ARelease(l), Release(st, l).mem, s)
  {
    var d := DropHolder(st, l);
    WakeWaitersStep(st, ARelease(l), d, l, s);
    ReleaseMemIs(st, l);
  }

  lemma ResumeWaitersStep(st: State, s: Sid)
    requires Placed(st) && st.mem.pc[st.run.cur] != Active && s in st.mem.value
    ensures WaitersStep(st, AResume, Resume(st).mem, s)
  {
    assert InPlace(ViewOf(st), st.run.cur);
    var pc := st.mem.pc[st.run.cur];
    if pc.Downing? {
      DownLoopMem(st, pc.s);
      DownWaitersStep(st, AResume, st, pc.s, s);
    } else {
      SameWaitersStep(st, AResume, Resume(st).mem, s);
    }
  }

  lemma UpWaitersStep(st: State, k: Sid, s: Sid)
    requires WF(st) && k in st.mem.value && s in st.mem.value
    ensures WaitersStep(st, AUp(k), SemaUp(st, k).mem, s)
  {
    WakeWaitersStep(st, AUp(k), st, k, s);
  }

  lemma SameWaiters(st: State, a: Action)
    requires Inv(st) && May(st, a) && !Syncs(a)
    ensures Apply(st, a).mem.waiters == st.mem.waiters
  {
    ApplyMem(st, a);
  }

  lemma OtherWaitersStep(st: State, a: Action, s: Sid)
    requires Inv(st) && May(st, a) && s in st.mem.waiters
    requires !Syncs(a)
    ensures WaitersStep(st, a, Apply(st, a).mem, s)
  {
    SameWaiters(st, a);
    SyncsOnly(st, a, s);
    SameWaitersStep(st, a, Apply(st, a).mem, s);
  }

  lemma StepWaiters(st: State, a: Action, s: Sid)
    requires Inv(st) && May(st, a) && s in st.mem.waiters
    ensures WaitersStep(st, a, Apply(st, a).mem, s)
  {
    match a
    case ADown(k) => DownLoopMem(st, k); DownWaitersStep(st, a, st, k, s);
    case AUp(k) => UpWaitersStep(st, k, s);
    case AAcquire(l) => LocksGiveHolders(st); AcquireWaitersStep(st, l, s);
    case ARelease(l) => ReleaseWaitersStep(st, l, s);
    case AResume => ResumeWaitersStep(st, s);
    case _ => OtherWaitersStep(st, a, s);
  }

  lemma OthersLeft(ws: seq<Tid>, k: nat, i: nat)
    requires k < |ws| && i < |ws|
    ensures i != k ==> ws[i] in RemoveAt(ws, k)
  {
    if i != k {
      assert RemoveAt(ws, k)[if i < k then i else i - 1] == ws[i];
    }
  }

  lemma OneWokenOutranks(ws: seq<Tid>, prio: map<Tid, int>, left: seq<Tid>, i: nat, j: nat)
    requires exists t :: OneWoken(ws, prio, left, t)
    requires i < |ws| && j < |ws| && ws[i] !in left && ws[j] in left
    ensures ws[i] in prio && ws[j] in prio && prio[ws[j]] <= prio[ws[i]] && (j < i ==> prio[ws[j]] < prio[ws[i]])
  {
    var t :| OneWoken(ws, prio, left, t);
    var k :| Leads(ws, prio, k) && TakenOff(ws, k, t, left);
    OthersLeft(ws, k, i);
  }

  /** So who stops waiting for S has at least the priority of everybody who goes on waiting, and more than everybody of
      these who has waited longer; and is blocked no more. */
  lemma WokenOutranks(st: State, a: Action, s: Sid, i: nat, j: nat)
    requires Inv(st) && May(st, a) && s in st.mem.waiters && s in Apply(st, a).mem.waiters
    requires i < |st.mem.waiters[s]| && st.mem.waiters[s][i] !in Apply(st, a).mem.waiters[s]
    requires j < |st.mem.waiters[s]| && st.mem.waiters[s][j] in Apply(st, a).mem.waiters[s]
    ensures var t, w := st.mem.waiters[s][i], st.mem.waiters[s][j];
            st.mem.prio[w] <= st.mem.prio[t] && (j < i ==> st.mem.prio[w] < st.mem.prio[t])
  {
    StepWaiters(st, a, s);
    OneWokenOutranks(st.mem.waiters[s], st.mem.prio, Apply(st, a).mem.waiters[s], i, j);
  }

  // ---------- threads, their priorities, and sleepers ----------

  lemma ThreadsHaveRecords(st: State, t: Tid)
    requires Inv(st)
    ensures t in st.run.status <==> t in st.mem.recs
  {
  }

  /** The same threads with the same priorities of their own. */
  ghost predicate SameThreads(m: Mem, m': Mem) {
    m'.base == m.base && forall t :: t in m'.recs <==> t in m.recs
  }

  lemma DownSame(st: State, s: Sid)
    requires WF(st) && s in st.mem.value
    ensures SameThreads(st.mem, DownMem(st, s))
  {
  }

  lemma AcquireSame(st: State, l: Sid)
    requires WF(st) && HoldersRecorded(GraphOf(st)) && l in st.mem.holder
    ensures SameThreads(st.mem, Acquire(st, l).mem)
  {
    AddRecordKeepsHolders(st, l);
    var w := DonateCurrent(AddRecord(st, l), l);
    DownSame(w, l);
    DownLoopMem(w, l);
  }

  lemma ReleaseSame(st: State, l: Sid)
    requires WF(st) && l in st.mem.holder
    ensures SameThreads(st.mem, ReleaseMem(st, l))
  {
  }

  lemma StepSame(st: State, a: Action)
    requires Inv(st) && May(st, a) && !a.ACreate? && !a.AExit? && !a.ASetPriority?
    ensures SameThreads(st.mem, Apply(st, a).mem)
  {
    if a.AAcquire? {
      LocksGiveHolders(st);
      AcquireSame(st, a.l);
    } else {
      ApplyMem(st, a);
      if a.ARelease? {
        ReleaseSame(st, a.l);
      }
    }
  }

  lemma StepRecords(st: State, a: Action, t: Tid)
    requires Inv(st) && May(st, a)
    ensures t in Apply(st, a).mem.recs <==>
            (t in st.mem.recs && !(a == AExit && t == st.run.cur)) || (a.ACreate? && t == a.t)
  {
    if a.ACreate? || a.AExit? || a.ASetPriority? {
      ApplyMem(st, a);
    } else {
      StepSame(st, a);
    }
  }

  /** Threads come with thread_create and go with thread_exit, and only so. */
  lemma StepThreads(st: State, a: Action, t: Tid)
    requires Inv(st) && May(st, a)
    ensures t in Apply(st, a).run.status <==>
            (t in st.run.status && !(a == AExit && t == st.run.cur)) || (a.ACreate? && t == a.t)
  {
    StepKeeps(st, a);
    StepRecords(st, a, t);
    ThreadsHaveRecords(st, t);
    ThreadsHaveRecords(Apply(st, a), t);
  }

  /** The priorities of a thread: its own is the one it was created with until it sets another, and a new thread has no
      other. */
  lemma StepBase(st: State, a: Action, t: Tid)
    requires Inv(st) && May(st, a) && t in Apply(st, a).mem.base && t in Apply(st, a).mem.prio
    ensures a.ACreate? && t == a.t ==> Apply(st, a).mem.base[t] == Apply(st, a).mem.prio[t] == a.p
    ensures a.ASetPriority? && t == st.run.cur ==> Apply(st, a).mem.base[t] == a.p
    ensures !(a.ACreate? && t == a.t) && !(a.ASetPriority? && t == st.run.cur) ==>
              t in st.mem.base && Apply(st, a).mem.base[t] == st.mem.base[t]
  {
    if a.ACreate? || a.AExit? || a.ASetPriority? {
      ApplyMem(st, a);
    } else {
      StepSame(st, a);
    }
  }

  /** The elements of A occur in B, and in this order. */
  ghost predicate InOrder(a: seq<Tid>, b: seq<Tid>) {
    && (forall x :: 0 <= x < |a| ==> a[x] in b)
    && forall x, y :: 0 <= x < y < |a| ==> exists i, j :: 0 <= i < j < |b| && a[x] == b[i] && a[y] == b[j]
  }

  lemma {:induction false} SleepingInOrder(m: Mem, l: seq<Tid>, due: bool)
    ensures InOrder(Sleeping(m, l, due), l)
  {
    if l != [] {
      var n := |l| - 1;
      var r, s := Sleeping(m, l[..n], due), Sleeping(m, l, due);
      SleepingInOrder(m, l[..n], due);
      forall x, y | 0 <= x < y < |s| ensures exists i, j :: 0 <= i < j < |l| && s[x] == l[i] && s[y] == l[j] {
        if y < |r| {
          var i, j :| 0 <= i < j < |l[..n]| && r[x] == l[..n][i] && r[y] == l[..n][j];
          assert s[x] == l[i] && s[y] == l[j];
        } else {
          var i :| 0 <= i < n && l[i] == r[x];
          assert s[x] == l[i] && s[y] == l[n];
        }
      }
    }
  }

  /** Who goes to sleep lies down behind the others; a tick takes exactly those away whose tick has come; and who is
      left lies in the same order. */
  lemma StepSleepers(st: State, a: Action)
    requires Inv(st) && May(st, a)
    ensures var l, l' := st.mem.sleepers, Apply(st, a).mem.sleepers;
            && (a.ASleep? && a.n > 0 ==> l' == l + [st.run.cur])
            && (a == ATick ==>
                  InOrder(l', l) && forall t :: t in l' <==> t in l && st.mem.awake[t] > st.mem.ticks + 1)
            && (a != ATick && !(a.ASleep? && a.n > 0) ==> l' == l)
  {
    ApplyMem(st, a);
    SleepingInOrder(Advance(st).mem, st.mem.sleepers, false);
  }

  /** A tick: exactly the sleepers whose tick has come join the ready list, in the order in which they lay down; and on
      the fourth tick, behind them, the running thread, and the leader is picked. */
  lemma TickWakesInOrder(st: State) returns (due: seq<Tid>)
    requires Inv(st) && May(st, ATick)
    ensures InOrder(due, st.mem.sleepers)
    ensures forall t :: t in due <==> t in st.mem.sleepers && st.mem.awake[t] <= st.mem.ticks + 1
    ensures st.run.slice < 3 ==> GoesOn(st, Apply(st, ATick), due, 1)
    ensures st.run.slice >= 3 ==>
              Picked(st.run.ready + (due + if st.run.cur == st.mem.idle then [] else [st.run.cur]), Apply(st, ATick))
  {
    due := DueNext(st);
    SleepingInOrder(Advance(st).mem, st.mem.sleepers, true);
    PlacedRuns(st);
    DueJoin(st);
    var joined := TickTurn(st);
    assert due + [] == due;
  }

  // ---------- semaphores and locks ----------

  /** The running thread gets past the loop of sema_down for S. */
  ghost predicate Gets(st: State, a: Action, s: Sid) {
    && s in st.mem.value && st.mem.value[s] > 0
    && (a == ADown(s) || a == AAcquire(s) ||
        (a == AResume && st.run.cur in st.mem.pc && st.mem.pc[st.run.cur] == Downing(s)))
  }

  /** What becomes of semaphore S and, if it is one, of lock S: an up or a release counts up, who gets past sema_down
      counts down and holds the lock, who releases it does not, and nothing else. */
  ghost predicate SemaStep(st: State, a: Action, m: Mem, s: Sid) {
    && s in st.mem.value && s in st.mem.ups && s in st.mem.downs && s in m.value && s in m.ups && s in m.downs
    && m.ups[s] == st.mem.ups[s] + (if Wakens(a, s) then 1 else 0)
    && m.downs[s] == st.mem.downs[s] + (if Gets(st, a, s) then 1 else 0)
    && m.value[s] == st.mem.value[s] + (if Wakens(a, s) then 1 else 0) - (if Gets(st, a, s) then 1 else 0)
    && (s in st.mem.holder ==>
          && s in m.holder
          && m.holder[s] == if Gets(st, a, s) then Some(st.run.cur)
                            else if Wakens(a, s) then None else st.mem.holder[s])
  }

  /** States with the same semaphores and locks. */
  ghost predicate SameSemas(m: Mem, m': Mem) {
    m'.value == m.value && m'.ups == m.ups && m'.downs == m.downs && m'.holder == m.holder
  }

  lemma SameSemaStep(st: State, a: Action, m: Mem, s: Sid)
    requires WF(st) && s in st.mem.value && SameSemas(st.mem, m) && !Wakens(a, s) && !Gets(st, a, s)
    ensures SemaStep(st, a, m, s)
  {
  }

  lemma DownSemaStep(st: State, a: Action, w: State, k: Sid, s: Sid)
    requires WF(st) && WF(w) && k in w.mem.value && s in st.mem.value && !Wakens(a, s)
    requires SameSemas(st.mem, w.mem) && w.run.cur == st.run.cur
    requires Gets(st, a, s) <==> st.mem.value[k] > 0 && s == k
    ensures SemaStep(st, a, DownMem(w, k), s)
  {
  }

  lemma UpSemaStep(st: State, s: Sid, k: Sid)
    requires WF(st) && k in st.mem.value && s in st.mem.value && k !in st.mem.holder
    ensures SemaStep(st, AUp(k), SemaUp(st, k).mem, s)
  {
  }

  lemma ReleaseSemaStep(st: State, l: Sid, s: Sid)
    requires WF(st) && l in st.mem.holder && s in st.mem.value
    ensures SemaStep(st, ARelease(l), ReleaseMem(st, l), s)
  {
  }

  lemma AcquireSemaStep(st: State, l: Sid, s: Sid)
    requires WF(st) && HoldersRecorded(GraphOf(st)) && l in st.mem.holder && s in st.mem.value
    ensures SemaStep(st, AAcquire(l), Acquire(st, l).mem, s)
  {
    AddRecordKeepsHolders(st, l);
    var w := DonateCurrent(AddRecord(st, l), l);
    DownLoopMem(w, l);
    DownSemaStep(st, AAcquire(l), w, l, s);
  }

  lemma ResumeSemaStep(st: State, s: Sid)
    requires Placed(st) && st.mem.pc[st.run.cur] != Active && s in st.mem.value
    ensures SemaStep(st, AResume, Resume(st).mem, s)
  {
    assert InPlace(ViewOf(st), st.run.cur);
    var pc := st.mem.pc[st.run.cur];
    if pc.Downing? {
      DownLoopMem(st, pc.s);
      DownSemaStep(st, AResume, st, pc.s, s);
    } else {
      SameSemaStep(st, AResume, Resume(st).mem, s);
    }
  }

  lemma SameSemasStep(st: State, a: Action)
    requires Inv(st) && May(st, a) && !Syncs(a)
    ensures SameSemas(st.mem, Apply(st, a).mem)
  {
    ApplyMem(st, a);
  }

  lemma OtherSemaStep(st: State, a: Action, s: Sid)
    requires Inv(st) && May(st, a) && s in st.mem.value
    requires !Syncs(a)
    ensures SemaStep(st, a, Apply(st, a).mem, s)
  {
    SameSemasStep(st, a);
    SyncsOnly(st, a, s);
    SameSemaStep(st, a, Apply(st, a).mem, s);
  }

  lemma StepSemas(st: State, a: Action, s: Sid)
    requires Inv(st) && May(st, a) && s in st.mem.value
    ensures SemaStep(st, a, Apply(st, a).mem, s)
  {
    match a
    case ADown(k) => DownLoopMem(st, k); DownSemaStep(st, a, st, k, s);
    case AUp(k) => UpSemaStep(st, s, k);
    case AAcquire(l) => LocksGiveHolders(st); AcquireSemaStep(st, l, s);
    case ARelease(l) => ReleaseMemIs(st, l); ReleaseSemaStep(st, l, s);
    case AResume => ResumeSemaStep(st, s);
    case _ => OtherSemaStep(st, a, s);
  }

  // ---------- priorities ----------

  /** lock_acquire leaves in front a record of the lock with the priority that the thread has, waiting exactly if the
      lock is taken, and gives that priority, and no more, to threads below it. */
  lemma AcquireRecord(st: State, l: Sid)
    requires WF(st) && HoldersRecorded(GraphOf(st)) && l in st.mem.holder
    ensures var r, x := Acquire(st, l), st.run.cur;
            && x in r.mem.recs && r.mem.recs[x] != [] && r.mem.recs[x][0].lock == l
            && r.mem.recs[x][0].priority == st.mem.prio[x] && (r.mem.recs[x][0].waiting <==> IsTaken(st.mem, l))
    ensures forall t :: t in st.mem.prio ==>
              t in Acquire(st, l).mem.prio &&
              (Acquire(st, l).mem.prio[t] == st.mem.prio[t] ||
               st.mem.prio[t] < st.mem.prio[st.run.cur] == Acquire(st, l).mem.prio[t])
  {
    var w, x := AddRecord(st, l), st.run.cur;
    AddRecordKeepsHolders(st, l);
    var d := DonateCurrent(w, l);
    forall t | t in st.mem.prio ensures Given(GraphOf(w), GraphOf(d), st.mem.prio[x], t) {
      if Held(GraphOf(w), l) {
        DonationGives(GraphOf(w), l, st.mem.prio[x], t);
        DonationKeepsShape(GraphOf(w), l, st.mem.prio[x], x);
      }
    }
    assert d.mem.recs[x][0] == w.mem.recs[x][0];
    DownLoopMem(d, l);
  }

  /** A step changes the priority of no thread but the running one, except that lock_acquire can raise others to it. */
  lemma StepPriority(st: State, a: Action, t: Tid)
    requires Inv(st) && May(st, a) && t in st.run.status && t != st.run.cur
    ensures t in Apply(st, a).mem.prio
    ensures Apply(st, a).mem.prio[t] == st.mem.prio[t] ||
            (a.AAcquire? && st.mem.prio[t] < st.mem.prio[st.run.cur] == Apply(st, a).mem.prio[t])
  {
    if a.AAcquire? {
      LocksGiveHolders(st);
      AcquireRecord(st, a.l);
    } else {
      ApplyMem(st, a);
    }
  }
}
