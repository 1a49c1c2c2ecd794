/** Runs of the kernel: every finite sequence of permitted steps.  What holds along all of them, from any boot
    state. */
module KernelRuns {
  import opened Collections
  import opened KernelTypes
  import opened KernelState
  import opened KernelPlacement
  import opened KernelLocks
  import opened KernelCounts
  import opened KernelInvariant

  // ---------- runs ----------

  ghost predicate Legal(st: State, acts: seq<Action>)
    requires Inv(st)
    decreases |acts|
  {
    acts == [] || (May(st, acts[0]) && (StepKeeps(st, acts[0]); Legal(Apply(st, acts[0]), acts[1..])))
  }

  /** The state after a run. */
  ghost function Exec(st: State, acts: seq<Action>): (r: State)
    requires Inv(st) && Legal(st, acts)
    ensures Inv(r)
    decreases |acts|
  {
    if acts == [] then st
    else
      StepKeeps(st, acts[0]);
      Exec(Apply(st, acts[0]), acts[1..])
  }

  lemma LegalOne(st: State, a: Action)
    requires Inv(st) && May(st, a)
    ensures Legal(st, [a]) && Exec(st, [a]) == Apply(st, a)
  {
    StepKeeps(st, a);
    assert [a][1..] == [];
    assert Legal(Apply(st, a), []) && Exec(Apply(st, a), []) == Apply(st, a);
  }

  /** A run with one more permitted step. */
  lemma {:induction false} LegalSnoc(st: State, acts: seq<Action>, a: Action)
    requires Inv(st) && Legal(st, acts) && May(Exec(st, acts), a)
    ensures Legal(st, acts + [a]) && Exec(st, acts + [a]) == Apply(Exec(st, acts), a)
    decreases |acts|
  {
    var more := acts + [a];
    if acts == [] {
      assert more == [a];
      LegalOne(st, a);
    } else {
      assert more[0] == acts[0] && more[1..] == acts[1..] + [a];
      StepKeeps(st, acts[0]);
      LegalSnoc(Apply(st, acts[0]), acts[1..], a);
    }
  }

  /** ST is the state after the steps ACTS from START. */
  ghost predicate After(start: State, acts: seq<Action>, st: State) {
    Inv(start) && Legal(start, acts) && st == Exec(start, acts)
  }

  lemma Grow(start: State, acts: seq<Action>, st: State, a: Action) returns (r: State)
    requires After(start, acts, st) && May(st, a)
    ensures After(start, acts + [a], r) && r == Apply(st, a)
  {
    LegalSnoc(start, acts, a);
    r := Apply(st, a);
  }

  /** A machine to boot: its main and idle threads, the priority of main, the semaphores with their initial values
      and, among them, those that belong to locks. */
  datatype Config = Config(main: Tid, idle: Tid, prio: int, semas: map<Sid, nat>, locks: set<Sid>)

  ghost predicate ConfigOk(c: Config) {
    c.main != c.idle && forall s :: s in c.locks ==> s in c.semas && c.semas[s] == 1
  }

  /** The kernel at boot: the main thread runs, the idle thread is blocked, all locks are free. */
  ghost function BootState(c: Config): State {
    State(
      Run(map[c.main := Running, c.idle := Blocked], [], c.main, 0),
      Mem(map[c.main := c.prio, c.idle := PRI_MIN], map[c.main := c.prio, c.idle := PRI_MIN],
          map[c.main := [], c.idle := []], map[c.main := Active, c.idle := Active],
          map[c.main := 0, c.idle := 0],
          c.semas, map s | s in c.semas :: [], map s | s in c.locks :: None,
          [], 0, c.idle,
          map s | s in c.semas :: 0, map s | s in c.semas :: 0))
  }

  lemma BootPlaced(c: Config)
    requires ConfigOk(c)
    ensures Placed(BootState(c))
  {
    var st := BootState(c);
    assert forall t :: t in st.run.status ==> t == c.main || t == c.idle;
    assert InPlace(ViewOf(st), c.main) && InPlace(ViewOf(st), c.idle);
  }

  lemma BootInv(c: Config)
    requires ConfigOk(c)
    ensures Inv(BootState(c))
  {
    BootPlaced(c);
    var st := BootState(c);
    assert forall t :: t in st.mem.recs ==> t == c.main || t == c.idle;
  }

  ghost function Boot(c: Config): (st: State)
    requires ConfigOk(c)
    ensures Inv(st)
  {
    BootInv(c);
    BootState(c)
  }

  // ---------- scheduling does not touch memory ----------

  ghost function DownMem(st: State, s: Sid): Mem
    requires WF(st) && s in st.mem.value
  {
    if st.mem.value[s] == 0 then Enqueue(st, s).mem else FinishDown(st, s).mem
  }

  ghost function ReleaseMem(st: State, l: Sid): Mem
    requires WF(st) && l in st.mem.holder
  {
    var d := DropHolder(st, l);
    if Outranked(d, l) then SetPc(Wake(d, l), Releasing).mem else Reprioritize(Wake(d, l)).mem
  }

  /** What a step does apart from scheduling. */
  ghost function MemAfter(st: State, a: Action): Mem
    requires Inv(st) && May(st, a)
  {
    match a
    case ADown(s) => DownMem(st, s)
    case AUp(s) => Wake(st, s).mem
    case AAcquire(l) =>
      LocksGiveHolders(st);
      AddRecordKeepsHolders(st, l);
      DownMem(DonateCurrent(AddRecord(st, l), l), l)
    case ARelease(l) => ReleaseMem(st, l)
    case AResume =>
      assert InPlace(ViewOf(st), st.run.cur);
      if st.mem.pc[st.run.cur].Downing? then DownMem(st, st.mem.pc[st.run.cur].s) else Reprioritize(st).mem
    case ASetPriority(p) => Rebase(st, p).mem
    case ASleep(n) => if n <= 0 then st.mem else Doze(st, n).mem
    case ATick => WakeDue(Advance(st)).mem
    case ACreate(t, p) => Spawn(st, t, p).mem
    case AExit => RunningOffLists(st); Vanish(st).mem
    case AYield => st.mem
    case AIdle => st.mem
  }

  lemma DownLoopMem(st: State, s: Sid)
    requires WF(st) && s in st.mem.value
    ensures DownLoop(st, s).mem == DownMem(st, s)
  {
  }

  lemma ReleaseMemIs(st: State, l: Sid)
    requires WF(st) && l in st.mem.holder
    ensures Release(st, l).mem == ReleaseMem(st, l)
  {
  }

  lemma ApplyMem(st: State, a: Action)
    requires Inv(st) && May(st, a)
    ensures Apply(st, a).mem == MemAfter(st, a)
  {
    match a
    case ADown(s) => DownLoopMem(st, s);
    case AAcquire(l) =>
      LocksGiveHolders(st);
      AddRecordKeepsHolders(st, l);
      DownLoopMem(DonateCurrent(AddRecord(st, l), l), l);
    case ARelease(l) => ReleaseMemIs(st, l);
    case _ =>
  }

  // ---------- conservation of semaphore values ----------

  ghost predicate ConservedOk(value: map<Sid, nat>, ups: map<Sid, nat>, downs: map<Sid, nat>, init: map<Sid, nat>) {
    forall s :: s in value ==>
      s in init && s in ups && s in downs && value[s] + downs[s] == init[s] + ups[s]
  }

  ghost predicate Conserved(m: Mem, init: map<Sid, nat>) {
    ConservedOk(m.value, m.ups, m.downs, init)
  }

  lemma DownConserves(st: State, s: Sid, init: map<Sid, nat>)
    requires WF(st) && s in st.mem.value && Conserved(st.mem, init)
    ensures Conserved(DownMem(st, s), init)
  {
  }

  lemma WakeConserves(st: State, s: Sid, init: map<Sid, nat>)
    requires WF(st) && s in st.mem.value && Conserved(st.mem, init)
    ensures Conserved(Wake(st, s).mem, init)
  {
  }

  lemma StepConserves(st: State, a: Action, init: map<Sid, nat>)
    requires Inv(st) && May(st, a) && Conserved(st.mem, init)
    ensures Conserved(Apply(st, a).mem, init)
  {
    ApplyMem(st, a);
    match a
    case ADown(s) => DownConserves(st, s, init);
    case AUp(s) => WakeConserves(st, s, init);
    case AAcquire(l) =>
      LocksGiveHolders(st);
      AddRecordKeepsHolders(st, l);
      DownConserves(DonateCurrent(AddRecord(st, l), l), l, init);
    case ARelease(l) => WakeConserves(DropHolder(st, l), l, init);
    case AResume =>
      assert InPlace(ViewOf(st), st.run.cur);
      if st.mem.pc[st.run.cur].Downing? {
        DownConserves(st, st.mem.pc[st.run.cur].s, init);
      }
    case _ =>
  }

  /** The value of every semaphore is always its initial value plus the ups minus the completed downs. */
  lemma {:induction false} RunConserves(st: State, acts: seq<Action>, init: map<Sid, nat>)
    requires Inv(st) && Legal(st, acts) && Conserved(st.mem, init)
    ensures Conserved(Exec(st, acts).mem, init)
    decreases |acts|
  {
    if acts != [] {
      StepKeeps(st, acts[0]);
      StepConserves(st, acts[0], init);
      RunConserves(Apply(st, acts[0]), acts[1..], init);
    }
  }

  // ---------- what every reachable state satisfies ----------

  /** Every thread, in every reachable state: its effective priority is at least its own and that of every record
      it has, and exactly its own when it has no record and is not inside lock_release. */
  lemma ReachablePriorities(c: Config, acts: seq<Action>, t: Tid)
    requires ConfigOk(c) && Legal(Boot(c), acts) && t in Exec(Boot(c), acts).run.status
    ensures var m := Exec(Boot(c), acts).mem;
            && m.base[t] <= m.prio[t]
            && (forall i :: 0 <= i < |m.recs[t]| ==> m.recs[t][i].priority <= m.prio[t])
            && (m.recs[t] == [] && m.pc[t] != Releasing ==> m.prio[t] == m.base[t])
  {
    var m := Exec(Boot(c), acts).mem;
    assert PrioOk(m.prio[t], m.base[t], m.recs[t], m.pc[t]);
  }

  lemma SomebodyWoken(status: map<Tid, Status>, pc: map<Tid, Pc>, s: Sid)
    requires |Woken(status, pc, s)| > 0
    ensures exists t :: t in status && t in pc && status[t] != Blocked && pc[t] == Downing(s)
  {
    assert (forall t :: t in status && t in pc ==> status[t] == Blocked || pc[t] != Downing(s)) ==>
        Woken(status, pc, s) == {};
  }

  /** No lost wakeup, with barging and all, in every reachable state: if somebody waits for a semaphore, at least as
      many threads as its value are past their wakeup and have not decremented it; so if the value is positive, one
      of them is ready or running.  And the value adds up. */
  lemma NoLostWakeup(c: Config, acts: seq<Action>, s: Sid)
    requires ConfigOk(c) && Legal(Boot(c), acts) && s in Exec(Boot(c), acts).mem.value
    ensures var r := Exec(Boot(c), acts);
            && s in r.mem.waiters && s in r.mem.ups && s in r.mem.downs && s in c.semas
            && r.mem.value[s] + r.mem.downs[s] == c.semas[s] + r.mem.ups[s]
            && (r.mem.waiters[s] != [] ==> |Woken(r.run.status, r.mem.pc, s)| >= r.mem.value[s])
            && (r.mem.waiters[s] != [] && r.mem.value[s] > 0 ==>
                  exists t :: t in r.run.status && t in r.mem.pc && r.run.status[t] != Blocked &&
                              r.mem.pc[t] == Downing(s))
  {
    RunConserves(Boot(c), acts, c.semas);
    var r := Exec(Boot(c), acts);
    assert WakeOk(r.run.status, r.mem.pc, r.mem.waiters[s], r.mem.value[s], s);
    if r.mem.waiters[s] != [] && r.mem.value[s] > 0 {
      SomebodyWoken(r.run.status, r.mem.pc, s);
    }
  }

  // ---------- sleeping exactly long enough ----------

  /** T is on the sleep list and due at tick A. */
  ghost predicate SleepsUntil(m: Mem, t: Tid, a: int) {
    t in m.sleepers && t in m.awake && m.awake[t] == a
  }

  /** timer_sleep(n) with n > 0 at tick T puts the thread to sleep until tick T + n. */
  lemma SleepStarts(st: State, n: int)
    requires Inv(st) && May(st, ASleep(n)) && n > 0
    ensures var r := Apply(st, ASleep(n));
            && SleepsUntil(r.mem, st.run.cur, st.mem.ticks + n) && r.mem.ticks == st.mem.ticks
            && r.run.status[st.run.cur] == Blocked
  {
    StepKeeps(st, ASleep(n));
    var r := Apply(st, ASleep(n));
    assert r.mem == Doze(st, n).mem;
    assert InPlace(ViewOf(r), st.run.cur);
  }

  /** Only the timer advances the clock, by one. */
  lemma StepClock(st: State, a: Action)
    requires Inv(st) && May(st, a)
    ensures Apply(st, a).mem.ticks == st.mem.ticks + if a == ATick then 1 else 0
  {
    ApplyMem(st, a);
  }

  /** No step but the timer tick at A wakes a thread that sleeps until A. */
  lemma StepSleeps(st: State, a: Action, t: Tid, at: int)
    requires Inv(st) && May(st, a) && SleepsUntil(st.mem, t, at)
    requires a == ATick ==> st.mem.ticks + 1 < at
    ensures SleepsUntil(Apply(st, a).mem, t, at)
  {
    ApplyMem(st, a);
    assert InPlace(ViewOf(st), t) && InPlace(ViewOf(st), st.run.cur);
    assert t != st.run.cur;
  }

  /** The tick at A wakes it. */
  lemma TickWakes(st: State, t: Tid)
    requires Inv(st) && May(st, ATick) && SleepsUntil(st.mem, t, st.mem.ticks + 1)
    ensures var r := Apply(st, ATick);
            && t !in r.mem.sleepers && t in r.run.status && r.run.status[t] != Blocked && r.mem.pc[t] == Active
            && r.mem.awake[t] == 0
  {
    StepKeeps(st, ATick);
    ApplyMem(st, ATick);
    var r := Apply(st, ATick);
    assert Due(Advance(st).mem, t);
    assert t in st.run.status && t in WakeDue(Advance(st)).run.status;
    assert t in r.run.status by { TickKeepsThreads(st, t); }
    assert InPlace(ViewOf(r), t) && InPlace(ViewOf(st), t) && InPlace(ViewOf(st), st.mem.idle);
  }

  lemma TickKeepsThreads(st: State, t: Tid)
    requires WF(st) && t in st.run.status
    ensures t in Tick(st).run.status
  {
  }

  /** A thread that sleeps until tick A sleeps through every run that ends before tick A. */
  lemma {:induction false} SleepsThroughout(st: State, acts: seq<Action>, t: Tid, a: int)
    requires Inv(st) && Legal(st, acts) && SleepsUntil(st.mem, t, a)
    requires Exec(st, acts).mem.ticks < a
    ensures SleepsUntil(Exec(st, acts).mem, t, a)
    ensures t in Exec(st, acts).run.status && Exec(st, acts).run.status[t] == Blocked
    decreases |acts|
  {
    if acts == [] {
      assert InPlace(ViewOf(st), t);
    } else {
      var r := Apply(st, acts[0]);
      StepKeeps(st, acts[0]);
      StepClock(st, acts[0]);
      ClockMonotone(r, acts[1..]);
      StepSleeps(st, acts[0], t, a);
      SleepsThroughout(r, acts[1..], t, a);
    }
  }

  lemma {:induction false} ClockMonotone(st: State, acts: seq<Action>)
    requires Inv(st) && Legal(st, acts)
    ensures st.mem.ticks <= Exec(st, acts).mem.ticks
    decreases |acts|
  {
    if acts != [] {
      StepKeeps(st, acts[0]);
      StepClock(st, acts[0]);
      ClockMonotone(Apply(st, acts[0]), acts[1..]);
    }
  }

  /** So in every run the thread becomes ready in the handler of tick A: it is asleep in every earlier state, and the
      step from tick A - 1 to tick A takes it off the sleep list. */
  lemma WakesExactlyAt(st: State, acts: seq<Action>, t: Tid, a: int)
    requires Inv(st) && Legal(st, acts) && SleepsUntil(st.mem, t, a)
    requires Exec(st, acts).mem.ticks == a - 1 && May(Exec(st, acts), ATick)
    ensures var before, after := Exec(st, acts), Apply(Exec(st, acts), ATick);
            && SleepsUntil(before.mem, t, a) && before.run.status[t] == Blocked
            && after.mem.ticks == a
            && t !in after.mem.sleepers && t in after.run.status && after.run.status[t] != Blocked
  {
    SleepsThroughout(st, acts, t, a);
    TickWakes(Exec(st, acts), t);
    StepClock(Exec(st, acts), ATick);
  }
}
