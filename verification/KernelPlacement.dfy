/** Where threads are: each thread's status agrees with the one list it is on (threads/thread.h,
    threads/thread.c).  The `elem` member serves the ready list and the waiter lists at once, which is safe
    only as long as this holds. */
module KernelPlacement {
  import opened Collections
  import opened KernelTypes
  import opened KernelState

  /** The part of the state that says where threads are. */
  datatype View = View(status: map<Tid, Status>, pc: map<Tid, Pc>, ready: seq<Tid>, sleepers: seq<Tid>,
                       waiters: map<Sid, seq<Tid>>, idle: Tid)

  ghost function ViewOf(st: State): View {
    View(st.run.status, st.mem.pc, st.run.ready, st.mem.sleepers, st.mem.waiters, st.mem.idle)
  }

  /** Where a thread of the given status and program point is, and is not. */
  ghost predicate PlaceOf(t: Tid, status: Status, pc: Pc, idle: Tid, ready: seq<Tid>, sleepers: seq<Tid>,
                          waiters: map<Sid, seq<Tid>>)
  {
    && (t in ready <==> status == Ready && t != idle)
    && (t in sleepers <==> status == Blocked && pc == Asleep)
    && (forall s :: s in waiters ==> (t in waiters[s] <==> status == Blocked && pc == Downing(s)))
    && (pc.Downing? ==> pc.s in waiters)
    && (pc == Asleep ==> status == Blocked)
    && (pc == Releasing ==> status != Blocked)
    && (pc == Active && status == Blocked ==> t == idle)
    && (t == idle ==> pc == Active)
  }

  ghost predicate InPlace(v: View, t: Tid) {
    && t in v.status && t in v.pc
    && PlaceOf(t, v.status[t], v.pc[t], v.idle, v.ready, v.sleepers, v.waiters)
  }

  ghost predicate NoDups(ready: seq<Tid>, sleepers: seq<Tid>, waiters: map<Sid, seq<Tid>>) {
    NoDup(ready) && NoDup(sleepers) && forall s :: s in waiters ==> NoDup(waiters[s])
  }

  ghost predicate Lists(v: View) {
    NoDups(v.ready, v.sleepers, v.waiters) && forall t :: t in v.status ==> InPlace(v, t)
  }

  ghost predicate OneRunning(status: map<Tid, Status>, cur: Tid) {
    forall t :: t in status ==> (status[t] == Running <==> t == cur)
  }

  ghost predicate NoneRunning(status: map<Tid, Status>) {
    forall t :: t in status ==> status[t] != Running
  }

  ghost predicate Placed(st: State) {
    WF(st) && OneRunning(st.run.status, st.run.cur) && Lists(ViewOf(st))
  }

  /** Exactly one place for every thread but the idle one: running, the ready list, one waiter list, or the
      sleep list. */
  lemma ExactlyOnePlace(st: State, t: Tid)
    requires Placed(st) && t in st.run.status && t != st.mem.idle
    ensures st.run.status[t] == Running <==> t == st.run.cur
    ensures st.run.status[t] == Ready <==> t in st.run.ready
    ensures st.run.status[t] == Blocked <==>
              t in st.mem.sleepers || exists s :: s in st.mem.waiters && t in st.mem.waiters[s]
    ensures t in st.mem.sleepers ==> forall s :: s in st.mem.waiters ==> t !in st.mem.waiters[s]
    ensures forall s, r :: (s in st.mem.waiters && r in st.mem.waiters &&
                            t in st.mem.waiters[s] && t in st.mem.waiters[r]) ==> s == r
    ensures NoDups(st.run.ready, st.mem.sleepers, st.mem.waiters)
  {
    assert InPlace(ViewOf(st), t);
    OnePlace(ViewOf(st), t);
  }

  lemma OnePlace(v: View, t: Tid)
    requires InPlace(v, t) && t != v.idle
    ensures v.status[t] == Ready <==> t in v.ready
    ensures v.status[t] == Blocked <==> t in v.sleepers || exists s :: s in v.waiters && t in v.waiters[s]
    ensures t in v.sleepers ==> forall s :: s in v.waiters ==> t !in v.waiters[s]
    ensures forall s, r :: s in v.waiters && r in v.waiters && t in v.waiters[s] && t in v.waiters[r] ==> s == r
  {
    if v.status[t] == Blocked && v.pc[t].Downing? {
      assert t in v.waiters[v.pc[t].s];
    }
  }

  lemma RunningStays(status: map<Tid, Status>, cur: Tid, t: Tid, x: Status)
    requires OneRunning(status, cur) && t != cur && x != Running
    ensures OneRunning(status[t := x], cur)
  {
  }

  lemma RunningStarts(status: map<Tid, Status>, t: Tid)
    requires NoneRunning(status)
    ensures OneRunning(status[t := Running], t)
  {
  }

  // ---------- list facts ----------

  lemma RemoveAtFacts<T>(l: seq<T>, i: nat)
    requires i < |l| && NoDup(l)
    ensures NoDup(RemoveAt(l, i))
    ensures forall x :: x in RemoveAt(l, i) <==> x in l && x != l[i]
  {
    var r := RemoveAt(l, i);
    forall x | x in l && x != l[i]
      ensures x in r
    {
      var j :| 0 <= j < |l| && l[j] == x;
      assert j < i ==> r[j] == x;
      assert j > i ==> r[j - 1] == x;
    }
  }

  lemma ConcatFacts<T>(a: seq<T>, b: seq<T>)
    requires NoDup(a) && NoDup(b) && forall x :: x in b ==> x !in a
    ensures NoDup(a + b)
  {
    forall i, j | 0 <= i < j < |a + b|
      ensures (a + b)[i] != (a + b)[j]
    {
      if i < |a| <= j {
        assert b[j - |a|] in b && a[i] in a;
      }
    }
  }

  lemma AppendFacts<T>(l: seq<T>, x: T)
    requires NoDup(l) && x !in l
    ensures NoDup(l + [x])
  {
  }

  lemma {:induction false} SleepingNoDup(m: Mem, l: seq<Tid>, due: bool)
    requires NoDup(l)
    ensures NoDup(Sleeping(m, l, due))
  {
    if l != [] {
      var n := |l| - 1;
      SleepingNoDup(m, l[..n], due);
      assert l[n] !in l[..n];
    }
  }

  // ---------- one thread at a time ----------

  /** W differs from V in the status and point of thread T only, and for other threads the lists are as
      before. */
  ghost predicate Moved(v: View, w: View, t: Tid) {
    && w.idle == v.idle
    && (forall x :: x != t ==> (x in w.status <==> x in v.status) && (x in w.pc <==> x in v.pc))
    && (forall x :: x != t && x in v.status ==> w.status[x] == v.status[x])
    && (forall x :: x != t && x in v.pc ==> w.pc[x] == v.pc[x])
    && (forall s :: s in w.waiters <==> s in v.waiters)
    && (forall x :: x != t ==> (x in w.ready <==> x in v.ready))
    && (forall x :: x != t ==> (x in w.sleepers <==> x in v.sleepers))
    && (forall x, s :: s in v.waiters && x != t ==> (x in w.waiters[s] <==> x in v.waiters[s]))
  }

  lemma MovedPlace(v: View, w: View, t: Tid, x: Tid)
    requires Moved(v, w, t) && InPlace(v, x) && x != t
    ensures InPlace(w, x)
  {
  }

  lemma MovedLists(v: View, w: View, t: Tid)
    requires Lists(v) && Moved(v, w, t) && InPlace(w, t) && NoDups(w.ready, w.sleepers, w.waiters)
    ensures Lists(w)
  {
    forall x | x in w.status && x != t
      ensures InPlace(w, x)
    {
      assert InPlace(v, x);
      MovedPlace(v, w, t, x);
    }
  }

  // ---------- scheduling keeps threads in place ----------

  /** The thread picked to run leaves the ready list; the idle thread was on none. */
  lemma SwitchMoves(v: View, t: Tid, l: seq<Tid>)
    requires InPlace(v, t) && NoDups(v.ready, v.sleepers, v.waiters) && NoDup(l)
    requires (v.status[t] == Ready && t != v.idle) || t == v.idle
    requires forall x :: x in l <==> x in v.ready && x != t
    ensures var w := v.(status := v.status[t := Running], ready := l);
            Moved(v, w, t) && InPlace(w, t)
  {
  }

  lemma NextRest(st: State)
    requires WF(st) && NoDup(st.run.ready) && st.mem.idle !in st.run.ready
    ensures NoDup(Rest(st))
    ensures forall x :: x in Rest(st) <==> x in st.run.ready && x != Next(st)
    ensures Next(st) in st.run.ready || Next(st) == st.mem.idle
  {
    if st.run.ready != [] {
      RemoveAtFacts(st.run.ready, FirstMax(st.run.ready, st.mem.prio));
    }
  }

  lemma SwitchLists(v: View, t: Tid, l: seq<Tid>)
    requires Lists(v) && t in v.status && NoDup(l)
    requires t in v.ready || t == v.idle
    requires forall x :: x in l <==> x in v.ready && x != t
    ensures Lists(v.(status := v.status[t := Running], ready := l))
  {
    assert InPlace(v, t);
    SwitchMoves(v, t, l);
    MovedLists(v, v.(status := v.status[t := Running], ready := l), t);
  }

  lemma SchedulePlaces(st: State)
    requires WF(st) && NoneRunning(st.run.status) && Lists(ViewOf(st))
    ensures Placed(Schedule(st))
  {
    assert InPlace(ViewOf(st), st.mem.idle);
    NextRest(st);
    SwitchLists(ViewOf(st), Next(st), Rest(st));
    RunningStarts(st.run.status, Next(st));
  }

  /** The running thread gives up the processor and is put where X says. */
  lemma LeaveLists(v: View, t: Tid, x: Status, l: seq<Tid>)
    requires Lists(v) && t in v.status && v.status[t] == Running
    requires x == Ready || (x == Blocked && t == v.idle)
    requires l == if x == Ready && t != v.idle then v.ready + [t] else v.ready
    ensures Lists(v.(status := v.status[t := x], ready := l))
  {
    assert InPlace(v, t);
    AppendFacts(v.ready, t);
    LeaveMoves(v, t, x, l);
    MovedLists(v, v.(status := v.status[t := x], ready := l), t);
  }

  lemma LeaveMoves(v: View, t: Tid, x: Status, l: seq<Tid>)
    requires InPlace(v, t) && v.status[t] == Running
    requires x == Ready || (x == Blocked && t == v.idle)
    requires l == if x == Ready && t != v.idle then v.ready + [t] else v.ready
    ensures var w := v.(status := v.status[t := x], ready := l);
            Moved(v, w, t) && InPlace(w, t)
  {
  }

  /** Once the running thread has left and is in place, somebody is scheduled. */
  lemma LeavePlaces(st: State, x: Status, l: seq<Tid>)
    requires WF(st) && OneRunning(st.run.status, st.run.cur) && AllIn(l, st.run.status) && x != Running
    requires Lists(ViewOf(st).(status := st.run.status[st.run.cur := x], ready := l))
    ensures Placed(Schedule(Leave(st, x, l)))
  {
    SchedulePlaces(Leave(st, x, l));
  }

  lemma YieldPlaces(st: State)
    requires Placed(st)
    ensures Placed(Yield(st))
  {
    LeaveLists(ViewOf(st), st.run.cur, Ready, ReadyWithCurrent(st));
    LeavePlaces(st, Ready, ReadyWithCurrent(st));
  }

  /** The idle thread blocks without going on any list. */
  lemma IdlePlaces(st: State)
    requires Placed(st) && st.run.cur == st.mem.idle
    ensures Placed(Block(st))
  {
    LeaveLists(ViewOf(st), st.run.cur, Blocked, st.run.ready);
    LeavePlaces(st, Blocked, st.run.ready);
  }

  // ---------- semaphores ----------

  /** The running thread goes to wait for S. */
  ghost function Waiting(v: View, t: Tid, s: Sid): View
    requires s in v.waiters
  {
    v.(status := v.status[t := Blocked], pc := v.pc[t := Downing(s)],
       waiters := v.waiters[s := v.waiters[s] + [t]])
  }

  lemma WaitingMoves(v: View, t: Tid, s: Sid)
    requires s in v.waiters && InPlace(v, t) && v.status[t] == Running && t != v.idle
    ensures Moved(v, Waiting(v, t, s), t) && InPlace(Waiting(v, t, s), t)
  {
  }

  lemma WaitingLists(v: View, t: Tid, s: Sid)
    requires s in v.waiters && Lists(v) && t in v.status && v.status[t] == Running && t != v.idle
    ensures Lists(Waiting(v, t, s))
  {
    assert InPlace(v, t);
    WaitingMoves(v, t, s);
    AppendFacts(v.waiters[s], t);
    MovedLists(v, Waiting(v, t, s), t);
  }

  lemma EnqueueBlockPlaces(st: State, s: Sid)
    requires Placed(st) && s in st.mem.value && st.run.cur != st.mem.idle
    ensures Placed(Block(Enqueue(st, s)))
  {
    WaitingLists(ViewOf(st), st.run.cur, s);
    LeavePlaces(Enqueue(st, s), Blocked, st.run.ready);
  }

  lemma PcMoves(v: View, t: Tid, pc: Pc)
    requires InPlace(v, t) && v.status[t] == Running
    requires pc == Active || (pc == Releasing && t != v.idle)
    ensures Moved(v, v.(pc := v.pc[t := pc]), t) && InPlace(v.(pc := v.pc[t := pc]), t)
  {
  }

  /** The running thread may move on inside a primitive. */
  lemma PcLists(v: View, t: Tid, pc: Pc)
    requires Lists(v) && t in v.status && v.status[t] == Running
    requires pc == Active || (pc == Releasing && t != v.idle)
    ensures Lists(v.(pc := v.pc[t := pc]))
  {
    assert InPlace(v, t);
    PcMoves(v, t, pc);
    MovedLists(v, v.(pc := v.pc[t := pc]), t);
  }

  /** Thread T leaves the waiter list of S, of which WS remains, for the end of the ready list. */
  ghost function Readied(v: View, s: Sid, t: Tid, ws: seq<Tid>): View {
    v.(status := v.status[t := Ready], ready := v.ready + [t], waiters := v.waiters[s := ws])
  }

  lemma ReadiedMoves(v: View, s: Sid, t: Tid, ws: seq<Tid>)
    requires InPlace(v, t) && s in v.waiters && t in v.waiters[s]
    requires forall x :: x in ws <==> x in v.waiters[s] && x != t
    ensures Moved(v, Readied(v, s, t, ws), t) && InPlace(Readied(v, s, t, ws), t)
  {
  }

  lemma ReadiedLists(v: View, s: Sid, t: Tid, ws: seq<Tid>)
    requires Lists(v) && t in v.status && s in v.waiters && t in v.waiters[s] && NoDup(ws)
    requires forall x :: x in ws <==> x in v.waiters[s] && x != t
    ensures Lists(Readied(v, s, t, ws))
  {
    assert InPlace(v, t);
    ReadiedMoves(v, s, t, ws);
    AppendFacts(v.ready, t);
    MovedLists(v, Readied(v, s, t, ws), t);
  }

  lemma TopAndOthers(st: State, s: Sid)
    requires WF(st) && s in st.mem.value && HasWaiters(st, s) && NoDup(st.mem.waiters[s])
    ensures NoDup(OtherWaiters(st, s))
    ensures forall x :: x in OtherWaiters(st, s) <==> x in st.mem.waiters[s] && x != TopWaiter(st, s)
  {
    RemoveAtFacts(st.mem.waiters[s], FirstMax(st.mem.waiters[s], st.mem.prio));
  }

  lemma WakePlaces(st: State, s: Sid)
    requires Placed(st) && s in st.mem.value
    ensures Placed(Wake(st, s))
  {
    if HasWaiters(st, s) {
      TopAndOthers(st, s);
      ReadiedLists(ViewOf(st), s, TopWaiter(st, s), OtherWaiters(st, s));
      assert InPlace(ViewOf(st), TopWaiter(st, s));
      RunningStays(st.run.status, st.run.cur, TopWaiter(st, s), Ready);
    }
  }

  // ---------- creation, exit, sleep ----------

  ghost function Spawned(v: View, t: Tid): View {
    v.(status := v.status[t := Ready], pc := v.pc[t := Active], ready := v.ready + [t])
  }

  lemma SpawnedMoves(v: View, t: Tid)
    requires t !in v.sleepers && t != v.idle && forall s :: s in v.waiters ==> t !in v.waiters[s]
    ensures Moved(v, Spawned(v, t), t) && InPlace(Spawned(v, t), t)
  {
  }

  lemma SpawnPlaces(st: State, t: Tid, p: int)
    requires Placed(st) && t !in st.run.status
    ensures Placed(Spawn(st, t, p))
  {
    var v := ViewOf(st);
    SpawnedMoves(v, t);
    AppendFacts(v.ready, t);
    MovedLists(v, Spawned(v, t), t);
    RunningStays(st.run.status, st.run.cur, t, Ready);
  }

  lemma RunningOffLists(st: State)
    requires Placed(st) && st.run.cur != st.mem.idle
    ensures OffLists(st)
  {
    assert InPlace(ViewOf(st), st.run.cur);
  }

  lemma VanishLists(v: View, t: Tid)
    requires Lists(v)
    ensures Lists(v.(status := v.status - {t}, pc := v.pc - {t}))
  {
    var w := v.(status := v.status - {t}, pc := v.pc - {t});
    forall x | x in w.status
      ensures InPlace(w, x)
    {
      assert InPlace(v, x);
    }
  }

  lemma ExitPlaces(st: State)
    requires Placed(st) && OffLists(st)
    ensures Placed(Exit(st))
  {
    VanishLists(ViewOf(st), st.run.cur);
    SchedulePlaces(Vanish(st));
  }

  ghost function Dozing(v: View, t: Tid): View {
    v.(status := v.status[t := Blocked], pc := v.pc[t := Asleep], sleepers := v.sleepers + [t])
  }

  lemma DozingMoves(v: View, t: Tid)
    requires InPlace(v, t) && v.status[t] == Running && t != v.idle
    ensures Moved(v, Dozing(v, t), t) && InPlace(Dozing(v, t), t)
  {
  }

  lemma DozingLists(v: View, t: Tid)
    requires Lists(v) && t in v.status && v.status[t] == Running && t != v.idle
    ensures Lists(Dozing(v, t))
  {
    assert InPlace(v, t);
    DozingMoves(v, t);
    AppendFacts(v.sleepers, t);
    MovedLists(v, Dozing(v, t), t);
  }

  lemma SleepPlaces(st: State, n: int)
    requires Placed(st) && st.run.cur != st.mem.idle && n > 0
    ensures Placed(Block(Doze(st, n)))
  {
    DozingLists(ViewOf(st), st.run.cur);
    LeavePlaces(Doze(st, n), Blocked, st.run.ready);
  }

  // ---------- the timer ----------

  ghost function Roused(v: View, due: seq<Tid>, rest: seq<Tid>): View {
    v.(status := UpdateAll(v.status, due, Ready), pc := UpdateAll(v.pc, due, Active),
       ready := v.ready + due, sleepers := rest)
  }

  lemma RousedPlace(v: View, due: seq<Tid>, rest: seq<Tid>, x: Tid)
    requires InPlace(v, x)
    requires x in due ==> x in v.sleepers
    requires x in rest <==> x in v.sleepers && x !in due
    ensures InPlace(Roused(v, due, rest), x)
    ensures Roused(v, due, rest).status[x] == Running <==> v.status[x] == Running
  {
  }

  lemma RousedLists(v: View, due: seq<Tid>, rest: seq<Tid>)
    requires Lists(v) && NoDup(due) && NoDup(rest) && forall x :: x in v.sleepers ==> x in v.status
    requires forall x :: x in due ==> x in v.sleepers
    requires forall x :: x in rest <==> x in v.sleepers && x !in due
    ensures Lists(Roused(v, due, rest))
  {
    forall x | x in due
      ensures x !in v.ready
    {
      assert InPlace(v, x);
    }
    ConcatFacts(v.ready, due);
    forall x | x in Roused(v, due, rest).status
      ensures InPlace(Roused(v, due, rest), x)
    {
      assert InPlace(v, x);
      RousedPlace(v, due, rest, x);
    }
  }

  lemma WakeDuePlaces(st: State)
    requires Placed(st)
    ensures Placed(WakeDue(st))
  {
    var m := st.mem;
    var due, rest := Sleeping(m, m.sleepers, true), Sleeping(m, m.sleepers, false);
    SleepingNoDup(m, m.sleepers, true);
    SleepingNoDup(m, m.sleepers, false);
    RousedLists(ViewOf(st), due, rest);
    assert InPlace(ViewOf(st), st.run.cur);
  }
}
