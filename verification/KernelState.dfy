/** The scheduler, semaphores and locks of threads/synch.c and threads/thread.c as one transition
    system.  Interrupts are off inside every primitive, so a step is everything the running thread
    does between two scheduling points.

    Memory is modelled field by field: a pointer to a `struct thread`, `struct semaphore` or
    `struct lock` is a number, and each field of the record is a map from those numbers.  A lock and
    the semaphore embedded in it share one number; `holder` is defined exactly on the locks. */
module KernelState {
  import opened Collections
  import opened KernelTypes
  import opened Donation

  /** What schedule() reads and writes: the status of every thread, the ready list, the running thread
      and the ticks of its time slice. */
  datatype Run = Run(status: map<Tid, Status>, ready: seq<Tid>, cur: Tid, slice: nat)

  /** Everything else: the other thread fields, semaphores, locks, the sleep list and the clock.  UPS
      and DOWNS are history: the completed ups and downs of each semaphore. */
  datatype Mem = Mem(
    base: map<Tid, int>, prio: map<Tid, int>, recs: map<Tid, seq<Rec>>, pc: map<Tid, Pc>,
    awake: map<Tid, int>,
    value: map<Sid, nat>, waiters: map<Sid, seq<Tid>>, holder: map<Sid, Option<Tid>>,
    sleepers: seq<Tid>, ticks: int, idle: Tid,
    ups: map<Sid, nat>, downs: map<Sid, nat>)

  datatype State = State(run: Run, mem: Mem)

  // ---------- well-formedness: every pointer points at something ----------

  ghost predicate Threads(status: map<Tid, Status>, m: Mem) {
    forall t :: t in status ==> t in m.base && t in m.prio && t in m.recs && t in m.pc && t in m.awake
  }

  ghost predicate Semas(m: Mem) {
    && (forall s :: s in m.value ==> s in m.waiters && s in m.ups && s in m.downs)
    && (forall s :: s in m.waiters ==> s in m.value)
    && (forall s :: s in m.holder ==> s in m.value)
  }

  ghost predicate ListsIn(status: map<Tid, Status>, ready: seq<Tid>, sleepers: seq<Tid>,
                          waiters: map<Sid, seq<Tid>>)
  {
    && AllIn(ready, status)
    && AllIn(sleepers, status)
    && forall s :: s in waiters ==> AllIn(waiters[s], status)
  }

  ghost predicate WF(st: State) {
    && Threads(st.run.status, st.mem)
    && Semas(st.mem)
    && ListsIn(st.run.status, st.run.ready, st.mem.sleepers, st.mem.waiters)
    && st.run.cur in st.run.status && st.mem.idle in st.run.status
  }

  // ---------- scheduling ----------

  /** next_thread_to_run: the earliest ready thread of greatest priority, or the idle thread. */
  ghost function Next(st: State): (t: Tid)
    requires WF(st)
    ensures t in st.run.status
  {
    if st.run.ready == [] then st.mem.idle else st.run.ready[FirstMax(st.run.ready, st.mem.prio)]
  }

  ghost function Rest(st: State): (l: seq<Tid>)
    requires WF(st)
    ensures AllIn(l, st.run.status)
  {
    if st.run.ready == [] then [] else RemoveAt(st.run.ready, FirstMax(st.run.ready, st.mem.prio))
  }

  ghost function Switch(st: State, t: Tid, l: seq<Tid>): (r: State)
    requires WF(st) && t in st.run.status && AllIn(l, st.run.status)
    ensures WF(r)
  {
    st.(run := Run(st.run.status[t := Running], l, t, 0))
  }

  /** schedule() together with thread_schedule_tail(). */
  ghost function Schedule(st: State): (r: State)
    requires WF(st)
    ensures WF(r)
  {
    Switch(st, Next(st), Rest(st))
  }

  /** The status of the running thread, and the ready list, just before schedule(). */
  ghost function Leave(st: State, x: Status, l: seq<Tid>): (r: State)
    requires WF(st) && AllIn(l, st.run.status)
    ensures WF(r)
  {
    st.(run := st.run.(status := st.run.status[st.run.cur := x], ready := l))
  }

  ghost function ReadyWithCurrent(st: State): (l: seq<Tid>)
    requires WF(st)
    ensures AllIn(l, st.run.status)
  {
    if st.run.cur == st.mem.idle then st.run.ready else st.run.ready + [st.run.cur]
  }

  /** thread_yield. */
  ghost function Yield(st: State): (r: State)
    requires WF(st)
    ensures WF(r)
  {
    Schedule(Leave(st, Ready, ReadyWithCurrent(st)))
  }

  /** thread_block. */
  ghost function Block(st: State): (r: State)
    requires WF(st)
    ensures WF(r)
  {
    Schedule(Leave(st, Blocked, st.run.ready))
  }

  // ---------- semaphores ----------

  ghost function Enqueue(st: State, s: Sid): (r: State)
    requires WF(st) && s in st.mem.value
    ensures WF(r)
  {
    st.(mem := st.mem.(waiters := st.mem.waiters[s := st.mem.waiters[s] + [st.run.cur]],
                       pc := st.mem.pc[st.run.cur := Downing(s)]))
  }

  ghost function Taken(holder: map<Sid, Option<Tid>>, s: Sid, t: Tid): map<Sid, Option<Tid>> {
    if s in holder then holder[s := Some(t)] else holder
  }

  /** The way out of sema_down; for a lock also the end of lock_acquire. */
  ghost function FinishDown(st: State, s: Sid): (r: State)
    requires WF(st) && s in st.mem.value && st.mem.value[s] > 0
    ensures WF(r)
  {
    st.(mem := st.mem.(value := st.mem.value[s := st.mem.value[s] - 1],
                       downs := st.mem.downs[s := st.mem.downs[s] + 1],
                       pc := st.mem.pc[st.run.cur := Active],
                       holder := Taken(st.mem.holder, s, st.run.cur),
                       recs := if s in st.mem.holder
                               then st.mem.recs[st.run.cur := SetOwned(st.mem.recs[st.run.cur], s)]
                               else st.mem.recs))
  }

  /** One round of the loop of sema_down. */
  ghost function DownLoop(st: State, s: Sid): (r: State)
    requires WF(st) && s in st.mem.value
    ensures WF(r)
  {
    if st.mem.value[s] == 0 then Block(Enqueue(st, s)) else FinishDown(st, s)
  }

  ghost predicate HasWaiters(st: State, s: Sid)
    requires WF(st) && s in st.mem.value
  {
    st.mem.waiters[s] != []
  }

  /** The waiter that sema_up picks. */
  ghost function TopWaiter(st: State, s: Sid): (t: Tid)
    requires WF(st) && s in st.mem.value && HasWaiters(st, s)
    ensures t in st.mem.waiters[s] && t in st.run.status
  {
    st.mem.waiters[s][FirstMax(st.mem.waiters[s], st.mem.prio)]
  }

  ghost function OtherWaiters(st: State, s: Sid): (ws: seq<Tid>)
    requires WF(st) && s in st.mem.value && HasWaiters(st, s)
    ensures AllIn(ws, st.run.status)
  {
    RemoveAt(st.mem.waiters[s], FirstMax(st.mem.waiters[s], st.mem.prio))
  }

  /** The top waiter, if any, goes to the ready list. */
  ghost function WakeRun(st: State, s: Sid): (r: Run)
    requires WF(st) && s in st.mem.value
  {
    if HasWaiters(st, s) then
      st.run.(ready := st.run.ready + [TopWaiter(st, s)], status := st.run.status[TopWaiter(st, s) := Ready])
    else st.run
  }

  ghost function WakeWaiters(st: State, s: Sid): (r: map<Sid, seq<Tid>>)
    requires WF(st) && s in st.mem.value
  {
    if HasWaiters(st, s) then st.mem.waiters[s := OtherWaiters(st, s)] else st.mem.waiters
  }

  /** sema_up up to its test for preemption. */
  ghost function Wake(st: State, s: Sid): (r: State)
    requires WF(st) && s in st.mem.value
    ensures WF(r)
  {
    State(WakeRun(st, s),
          st.mem.(value := st.mem.value[s := st.mem.value[s] + 1],
                  ups := st.mem.ups[s := st.mem.ups[s] + 1],
                  waiters := WakeWaiters(st, s)))
  }

  /** The test for preemption: the woken thread outranks the running one. */
  ghost predicate Outranked(st: State, s: Sid)
    requires WF(st) && s in st.mem.value
  {
    HasWaiters(st, s) && st.mem.prio[TopWaiter(st, s)] > st.mem.prio[st.run.cur]
  }

  ghost function SemaUp(st: State, s: Sid): (r: State)
    requires WF(st) && s in st.mem.value
    ensures WF(r)
  {
    if Outranked(st, s) then Yield(Wake(st, s)) else Wake(st, s)
  }

  // ---------- locks ----------

  ghost function GraphOf(st: State): Graph {
    Graph(st.mem.prio, st.mem.recs, st.mem.holder)
  }

  /** The first half of lock_acquire: a new waiting record in front. */
  ghost function AddRecord(st: State, l: Sid): (r: State)
    requires WF(st)
    ensures WF(r)
  {
    var t := st.run.cur;
    st.(mem := st.mem.(recs := st.mem.recs[t := [Rec(l, st.mem.prio[t], true)] + st.mem.recs[t]]))
  }

  ghost function DonateCurrent(st: State, l: Sid): (r: State)
    requires WF(st) && HoldersRecorded(GraphOf(st))
    ensures WF(r)
  {
    if Held(GraphOf(st), l) then
      var g := DonateRec(GraphOf(st), l, st.mem.prio[st.run.cur]);
      st.(mem := st.mem.(prio := g.prio, recs := g.recs))
    else st
  }

  /** The new record leaves the records of the held locks findable. */
  lemma AddRecordKeepsHolders(st: State, l: Sid)
    requires WF(st) && HoldersRecorded(GraphOf(st))
    ensures HoldersRecorded(GraphOf(AddRecord(st, l)))
  {
    var r := AddRecord(st, l);
    forall k | Held(GraphOf(r), k)
      ensures var h := r.mem.holder[k].value;
              h in r.mem.prio && h in r.mem.recs && FindRec(r.mem.recs[h], k) < |r.mem.recs[h]|
    {
      assert Held(GraphOf(st), k);
      var h := st.mem.holder[k].value;
      if h == st.run.cur {
        assert r.mem.recs[h][1..] == st.mem.recs[h];
      }
    }
  }

  ghost function Acquire(st: State, l: Sid): (r: State)
    requires WF(st) && HoldersRecorded(GraphOf(st)) && l in st.mem.holder
    ensures WF(r)
  {
    AddRecordKeepsHolders(st, l);
    DownLoop(DonateCurrent(AddRecord(st, l), l), l)
  }

  /** The first half of lock_release: holder and record go. */
  ghost function DropHolder(st: State, l: Sid): (r: State)
    requires WF(st) && l in st.mem.holder
    ensures WF(r)
  {
    st.(mem := st.mem.(holder := st.mem.holder[l := None],
                       recs := st.mem.recs[st.run.cur := DropRec(st.mem.recs[st.run.cur], l)]))
  }

  /** The second half of lock_release: the priority without the released lock. */
  ghost function Reprioritize(st: State): (r: State)
    requires WF(st)
    ensures WF(r)
  {
    var t := st.run.cur;
    st.(mem := st.mem.(prio := st.mem.prio[t := MaxPriority(st.mem.base[t], st.mem.recs[t])],
                       pc := st.mem.pc[t := Active]))
  }

  ghost function FinishRelease(st: State): (r: State)
    requires WF(st)
    ensures WF(r)
  {
    if st.mem.prio[st.run.cur] > Reprioritize(st).mem.prio[st.run.cur] then Yield(Reprioritize(st))
    else Reprioritize(st)
  }

  ghost function SetPc(st: State, pc: Pc): (r: State)
    requires WF(st)
    ensures WF(r)
  {
    st.(mem := st.mem.(pc := st.mem.pc[st.run.cur := pc]))
  }

  ghost function Release(st: State, l: Sid): (r: State)
    requires WF(st) && l in st.mem.holder
    ensures WF(r)
  {
    var st1 := DropHolder(st, l);
    if Outranked(st1, l) then Yield(SetPc(Wake(st1, l), Releasing)) else FinishRelease(Wake(st1, l))
  }

  // ---------- threads ----------

  /** thread_set_priority before its yield. */
  ghost function Rebase(st: State, p: int): (r: State)
    requires WF(st)
    ensures WF(r)
  {
    var t := st.run.cur;
    var eff := if st.mem.prio[t] <= p || st.mem.recs[t] == [] then p else st.mem.prio[t];
    st.(mem := st.mem.(base := st.mem.base[t := p], prio := st.mem.prio[t := eff]))
  }

  ghost function SetPriority(st: State, p: int): (r: State)
    requires WF(st)
    ensures WF(r)
  {
    if st.mem.prio[st.run.cur] > p then Yield(Rebase(st, p)) else Rebase(st, p)
  }

  /** thread_create: the new thread is blocked and then unblocked. */
  ghost function Spawn(st: State, t: Tid, p: int): (r: State)
    requires WF(st)
    ensures WF(r)
  {
    State(st.run.(status := st.run.status[t := Ready], ready := st.run.ready + [t]),
          st.mem.(base := st.mem.base[t := p], prio := st.mem.prio[t := p], recs := st.mem.recs[t := []],
                  pc := st.mem.pc[t := Active], awake := st.mem.awake[t := 0]))
  }

  ghost function Create(st: State, t: Tid, p: int): (r: State)
    requires WF(st)
    ensures WF(r)
  {
    if p > st.mem.prio[st.run.cur] then Yield(Spawn(st, t, p)) else Spawn(st, t, p)
  }

  /** The running thread, not the idle one, is on no list. */
  ghost predicate OffLists(st: State) {
    && st.run.cur != st.mem.idle
    && st.run.cur !in st.run.ready && st.run.cur !in st.mem.sleepers
    && forall s :: s in st.mem.waiters ==> st.run.cur !in st.mem.waiters[s]
  }

  /** thread_exit: the thread leaves all tables; then schedule(). */
  ghost function Vanish(st: State): (r: State)
    requires WF(st) && OffLists(st)
    ensures WF(r)
  {
    var me := {st.run.cur};
    State(st.run.(status := st.run.status - me, cur := st.mem.idle),
          st.mem.(base := st.mem.base - me, prio := st.mem.prio - me, recs := st.mem.recs - me,
                  pc := st.mem.pc - me, awake := st.mem.awake - me))
  }

  ghost function Exit(st: State): (r: State)
    requires WF(st) && OffLists(st)
    ensures WF(r)
  {
    Schedule(Vanish(st))
  }

  /** timer_sleep for a positive number of ticks. */
  ghost function Doze(st: State, n: int): (r: State)
    requires WF(st)
    ensures WF(r)
  {
    var t := st.run.cur;
    st.(mem := st.mem.(awake := st.mem.awake[t := st.mem.ticks + n], sleepers := st.mem.sleepers + [t],
                       pc := st.mem.pc[t := Asleep]))
  }

  ghost function Sleep(st: State, n: int): (r: State)
    requires WF(st)
    ensures WF(r)
  {
    if n <= 0 then st else Block(Doze(st, n))
  }

  // ---------- the timer interrupt ----------

  ghost predicate Due(m: Mem, t: Tid) {
    t in m.awake && m.awake[t] <= m.ticks
  }

  /** The sleepers whose tick has come (DUE) or has not come, in list order. */
  ghost function Sleeping(m: Mem, l: seq<Tid>, due: bool): (r: seq<Tid>)
    ensures forall t :: t in r <==> t in l && Due(m, t) == due
  {
    if l == [] then []
    else
      var n := |l| - 1;
      var r := Sleeping(m, l[..n], due);
      assert l == l[..n] + [l[n]];
      if Due(m, l[n]) == due then r + [l[n]] else r
  }

  /** M with the value V for all threads of TS, which M knows. */
  ghost function UpdateAll<V>(m: map<Tid, V>, ts: seq<Tid>, v: V): (r: map<Tid, V>)
    ensures forall t :: t in r <==> t in m || t in ts
    ensures forall t :: t in r ==> r[t] == if t in ts then v else m[t]
  {
    if ts == [] then m
    else
      assert ts == ts[..|ts| - 1] + [ts[|ts| - 1]];
      UpdateAll(m, ts[..|ts| - 1], v)[ts[|ts| - 1] := v]
  }

  lemma RousedListsIn(status: map<Tid, Status>, ready: seq<Tid>, sleepers: seq<Tid>, waiters: map<Sid, seq<Tid>>,
                      due: seq<Tid>, rest: seq<Tid>)
    requires ListsIn(status, ready, sleepers, waiters) && AllIn(due, status) && AllIn(rest, status)
    ensures ListsIn(UpdateAll(status, due, Ready), ready + due, rest, waiters)
  {
  }

  /** The loop of thread_tick. */
  ghost function WakeDue(st: State): (r: State)
    requires WF(st)
    ensures WF(r)
  {
    var due := Sleeping(st.mem, st.mem.sleepers, true);
    RousedListsIn(st.run.status, st.run.ready, st.mem.sleepers, st.mem.waiters, due,
                  Sleeping(st.mem, st.mem.sleepers, false));
    State(st.run.(ready := st.run.ready + due, status := UpdateAll(st.run.status, due, Ready)),
          st.mem.(sleepers := Sleeping(st.mem, st.mem.sleepers, false),
                  pc := UpdateAll(st.mem.pc, due, Active), awake := UpdateAll(st.mem.awake, due, 0)))
  }

  ghost function Advance(st: State): (r: State)
    requires WF(st)
    ensures WF(r)
  {
    st.(mem := st.mem.(ticks := st.mem.ticks + 1))
  }

  ghost function Bump(st: State): (r: State)
    requires WF(st)
    ensures WF(r)
  {
    st.(run := st.run.(slice := st.run.slice + 1))
  }

  /** The end of thread_tick, with the yield on return from the interrupt. */
  ghost function CountSlice(st: State): (r: State)
    requires WF(st)
    ensures WF(r)
  {
    if Bump(st).run.slice >= TIME_SLICE then Yield(Bump(st)) else Bump(st)
  }

  /** timer_interrupt. */
  ghost function Tick(st: State): (r: State)
    requires WF(st)
    ensures WF(r)
  {
    CountSlice(WakeDue(Advance(st)))
  }
}
