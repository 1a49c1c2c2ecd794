/** Effective priorities, wakeups and wakeup times at every scheduling point (threads/synch.c,
    threads/thread.c). */
module KernelCounts {
  import opened KernelTypes
  import opened KernelState
  import opened KernelPlacement
  import opened Donation

  // ---------- priorities ----------

  /** A thread's effective priority is at least its own and that of each of its records; without records, and
      outside lock_release, it is its own. */
  ghost predicate PrioOk(prio: int, base: int, rs: seq<Rec>, pc: Pc) {
    && base <= prio
    && (forall i :: 0 <= i < |rs| ==> rs[i].priority <= prio)
    && (rs == [] && pc != Releasing ==> prio == base)
  }

  ghost predicate PriosOk(prio: map<Tid, int>, base: map<Tid, int>, recs: map<Tid, seq<Rec>>, pc: map<Tid, Pc>) {
    forall t :: t in recs ==> t in prio && t in base && t in pc && PrioOk(prio[t], base[t], recs[t], pc[t])
  }

  ghost predicate Prios(st: State) {
    PriosOk(st.mem.prio, st.mem.base, st.mem.recs, st.mem.pc)
  }

  lemma AddRecordPrios(prio: map<Tid, int>, base: map<Tid, int>, recs: map<Tid, seq<Rec>>, pc: map<Tid, Pc>,
                       t: Tid, l: Sid)
    requires PriosOk(prio, base, recs, pc) && t in recs
    ensures PriosOk(prio, base, recs[t := [Rec(l, prio[t], true)] + recs[t]], pc)
  {
    var r := [Rec(l, prio[t], true)] + recs[t];
    assert forall i :: 0 < i < |r| ==> r[i] == recs[t][i - 1];
  }

  lemma DonatePrios(g: Graph, base: map<Tid, int>, pc: map<Tid, Pc>, l: Sid, p: int)
    requires HoldersRecorded(g) && Held(g, l) && PriosOk(g.prio, base, g.recs, pc)
    ensures PriosOk(DonateRec(g, l, p).prio, base, DonateRec(g, l, p).recs, pc)
  {
    var r := DonateRec(g, l, p);
    forall t | t in r.recs
      ensures t in r.prio && t in base && t in pc && PrioOk(r.prio[t], base[t], r.recs[t], pc[t])
    {
      DonationRaises(g, l, p, t);
      DonationKeepsShape(g, l, p, t);
    }
  }

  lemma OwnedPrios(prio: map<Tid, int>, base: map<Tid, int>, recs: map<Tid, seq<Rec>>, pc: map<Tid, Pc>,
                   t: Tid, l: Sid)
    requires PriosOk(prio, base, recs, pc) && t in recs
    ensures PriosOk(prio, base, recs[t := SetOwned(recs[t], l)], pc)
  {
  }

  /** lock_release between its two halves. */
  lemma DropPrios(prio: map<Tid, int>, base: map<Tid, int>, recs: map<Tid, seq<Rec>>, pc: map<Tid, Pc>,
                  t: Tid, l: Sid)
    requires PriosOk(prio, base, recs, pc) && t in recs
    ensures PriosOk(prio, base, recs[t := DropRec(recs[t], l)], pc[t := Releasing])
  {
    var i, r := FindRec(recs[t], l), DropRec(recs[t], l);
    if i < |recs[t]| {
      assert forall j :: 0 <= j < |r| ==> r[j] == if j < i then recs[t][j] else recs[t][j + 1];
    }
  }

  lemma ReprioritizePrios(prio: map<Tid, int>, base: map<Tid, int>, recs: map<Tid, seq<Rec>>, pc: map<Tid, Pc>,
                          t: Tid)
    requires t in recs && t in base && t in pc && t in prio
    requires PriosOk(prio, base, recs, pc[t := Releasing])
    ensures PriosOk(prio[t := MaxPriority(base[t], recs[t])], base, recs, pc[t := Active])
    ensures MaxPriority(base[t], recs[t]) <= prio[t]
  {
  }

  lemma RebasePrios(prio: map<Tid, int>, base: map<Tid, int>, recs: map<Tid, seq<Rec>>, pc: map<Tid, Pc>,
                    t: Tid, p: int)
    requires PriosOk(prio, base, recs, pc) && t in recs && pc[t] == Active
    ensures PriosOk(prio[t := if prio[t] <= p || recs[t] == [] then p else prio[t]], base[t := p], recs, pc)
  {
  }

  /** Program points other than Releasing are alike here. */
  lemma PcPrios(prio: map<Tid, int>, base: map<Tid, int>, recs: map<Tid, seq<Rec>>, pc: map<Tid, Pc>,
                t: Tid, p: Pc)
    requires PriosOk(prio, base, recs, pc) && t in pc && pc[t] != Releasing
    ensures PriosOk(prio, base, recs, pc[t := p])
  {
  }

  // ---------- wakeups ----------

  /** Threads that were woken, or are about to look at the semaphore for the first time, and have not
      decremented it yet. */
  ghost function Woken(status: map<Tid, Status>, pc: map<Tid, Pc>, s: Sid): set<Tid> {
    set t | t in status && t in pc && status[t] != Blocked && pc[t] == Downing(s)
  }

  /** No lost wakeup at S: while somebody waits, as many threads as the value counts are on their way. */
  ghost predicate WakeOk(status: map<Tid, Status>, pc: map<Tid, Pc>, ws: seq<Tid>, value: nat, s: Sid) {
    ws != [] ==> |Woken(status, pc, s)| >= value
  }

  ghost predicate WakesOk(status: map<Tid, Status>, pc: map<Tid, Pc>, waiters: map<Sid, seq<Tid>>,
                          value: map<Sid, nat>)
  {
    forall s :: s in value && s in waiters ==> WakeOk(status, pc, waiters[s], value[s], s)
  }

  ghost predicate Wakes(st: State) {
    WakesOk(st.run.status, st.mem.pc, st.mem.waiters, st.mem.value)
  }

  /** Moving a thread that is not on its way to S, before or after. */
  lemma WokenSame(status: map<Tid, Status>, pc: map<Tid, Pc>, status': map<Tid, Status>, pc': map<Tid, Pc>,
                  s: Sid, t: Tid)
    requires forall x :: x != t ==> (x in status <==> x in status') && (x in pc <==> x in pc')
    requires forall x :: x != t && x in status && x in pc ==> status'[x] == status[x] && pc'[x] == pc[x]
    requires t in Woken(status, pc, s) <==> t in Woken(status', pc', s)
    ensures Woken(status', pc', s) == Woken(status, pc, s)
  {
    var a, b := Woken(status, pc, s), Woken(status', pc', s);
    assert forall x :: x != t && x in a ==> x in b;
    assert forall x :: x != t && x in b ==> x in a;
  }

  lemma WokenGrows(status: map<Tid, Status>, pc: map<Tid, Pc>, s: Sid, t: Tid)
    requires t in status && t in pc && status[t] == Blocked && pc[t] == Downing(s)
    ensures |Woken(status[t := Ready], pc, s)| == |Woken(status, pc, s)| + 1
  {
    assert Woken(status[t := Ready], pc, s) == Woken(status, pc, s) + {t};
  }

  lemma WokenShrinks(status: map<Tid, Status>, pc: map<Tid, Pc>, s: Sid, t: Tid)
    requires t in status && t in pc
    ensures |Woken(status, pc[t := Active], s)| >= |Woken(status, pc, s)| - 1
  {
    assert Woken(status, pc[t := Active], s) == Woken(status, pc, s) - {t};
  }

  /** A thread that is not blocked, or not on its way anywhere, changes between Ready and Running. */
  lemma StatusWakes(status: map<Tid, Status>, pc: map<Tid, Pc>, waiters: map<Sid, seq<Tid>>, value: map<Sid, nat>,
                    t: Tid, x: Status)
    requires WakesOk(status, pc, waiters, value) && t in status && t in pc
    requires (status[t] != Blocked && x != Blocked) || !pc[t].Downing?
    ensures WakesOk(status[t := x], pc, waiters, value)
  {
    forall s | s in value && s in waiters
      ensures WakeOk(status[t := x], pc, waiters[s], value[s], s)
    {
      WokenSame(status, pc, status[t := x], pc, s, t);
    }
  }

  /** A thread outside sema_down goes from one such point to another, whatever its status. */
  lemma OtherWakes(status: map<Tid, Status>, pc: map<Tid, Pc>, waiters: map<Sid, seq<Tid>>, value: map<Sid, nat>,
                   t: Tid, x: Status, p: Pc)
    requires WakesOk(status, pc, waiters, value) && (t in status && t in pc ==> !pc[t].Downing?) && !p.Downing?
    ensures WakesOk(status[t := x], pc[t := p], waiters, value)
    ensures WakesOk(status, pc[t := p], waiters, value)
  {
    forall s | s in value && s in waiters
      ensures WakeOk(status[t := x], pc[t := p], waiters[s], value[s], s)
      ensures WakeOk(status, pc[t := p], waiters[s], value[s], s)
    {
      assert Woken(status[t := x], pc[t := p], s) == Woken(status, pc, s);
      assert Woken(status, pc[t := p], s) == Woken(status, pc, s);
    }
  }

  lemma GoneWakes(status: map<Tid, Status>, pc: map<Tid, Pc>, waiters: map<Sid, seq<Tid>>, value: map<Sid, nat>,
                  t: Tid)
    requires WakesOk(status, pc, waiters, value) && t in pc && !pc[t].Downing?
    ensures WakesOk(status - {t}, pc - {t}, waiters, value)
  {
    forall s | s in value && s in waiters
      ensures WakeOk(status - {t}, pc - {t}, waiters[s], value[s], s)
    {
      assert Woken(status - {t}, pc - {t}, s) == Woken(status, pc, s);
    }
  }

  lemma ScheduleWakes(st: State)
    requires WF(st) && Lists(ViewOf(st)) && Wakes(st)
    ensures Wakes(Schedule(st))
  {
    assert InPlace(ViewOf(st), Next(st));
    assert InPlace(ViewOf(st), st.mem.idle);
    StatusWakes(st.run.status, st.mem.pc, st.mem.waiters, st.mem.value, Next(st), Running);
  }

  lemma YieldWakes(st: State)
    requires Placed(st) && Wakes(st)
    ensures Wakes(Yield(st))
  {
    LeaveLists(ViewOf(st), st.run.cur, Ready, ReadyWithCurrent(st));
    StatusWakes(st.run.status, st.mem.pc, st.mem.waiters, st.mem.value, st.run.cur, Ready);
    ScheduleWakes(Leave(st, Ready, ReadyWithCurrent(st)));
  }

  /** Going to wait happens at value zero only. */
  lemma EnqueueWakes(status: map<Tid, Status>, pc: map<Tid, Pc>, waiters: map<Sid, seq<Tid>>, value: map<Sid, nat>,
                     s: Sid, t: Tid, ws: seq<Tid>)
    requires WakesOk(status, pc, waiters, value) && t in status && t in pc && s in value && value[s] == 0
    requires pc[t] == Active || pc[t] == Downing(s)
    ensures WakesOk(status[t := Blocked], pc[t := Downing(s)], waiters[s := ws], value)
  {
    forall k | k in value && k in waiters[s := ws] && k != s
      ensures WakeOk(status[t := Blocked], pc[t := Downing(s)], waiters[s := ws][k], value[k], k)
    {
      WokenSame(status, pc, status[t := Blocked], pc[t := Downing(s)], k, t);
    }
  }

  lemma FinishDownWakes(status: map<Tid, Status>, pc: map<Tid, Pc>, waiters: map<Sid, seq<Tid>>,
                        value: map<Sid, nat>, s: Sid, t: Tid)
    requires WakesOk(status, pc, waiters, value) && t in status && t in pc && s in value && value[s] > 0
    requires pc[t] == Active || pc[t] == Downing(s)
    ensures WakesOk(status, pc[t := Active], waiters, value[s := value[s] - 1])
  {
    var value' := value[s := value[s] - 1];
    forall k | k in value' && k in waiters
      ensures WakeOk(status, pc[t := Active], waiters[k], value'[k], k)
    {
      if k != s {
        WokenSame(status, pc, status, pc[t := Active], k, t);
      } else {
        WokenShrinks(status, pc, s, t);
      }
    }
  }

  /** sema_up adds one to the value and, if anybody waits, one to those on their way. */
  lemma MakeReadyWakes(status: map<Tid, Status>, pc: map<Tid, Pc>, waiters: map<Sid, seq<Tid>>,
                       value: map<Sid, nat>, s: Sid, t: Tid, ws: seq<Tid>)
    requires WakesOk(status, pc, waiters, value) && s in value && s in waiters && waiters[s] != []
    requires t in status && t in pc && status[t] == Blocked && pc[t] == Downing(s)
    ensures WakesOk(status[t := Ready], pc, waiters[s := ws], value[s := value[s] + 1])
  {
    var value', waiters' := value[s := value[s] + 1], waiters[s := ws];
    forall k | k in value' && k in waiters'
      ensures WakeOk(status[t := Ready], pc, waiters'[k], value'[k], k)
    {
      if k != s {
        WokenSame(status, pc, status[t := Ready], pc, k, t);
      } else {
        WokenGrows(status, pc, s, t);
      }
    }
  }

  lemma IdleUpWakes(status: map<Tid, Status>, pc: map<Tid, Pc>, waiters: map<Sid, seq<Tid>>,
                    value: map<Sid, nat>, s: Sid)
    requires WakesOk(status, pc, waiters, value) && s in value && s in waiters && waiters[s] == []
    ensures WakesOk(status, pc, waiters, value[s := value[s] + 1])
  {
  }

  lemma WakeWakes(st: State, s: Sid)
    requires Placed(st) && s in st.mem.value && Wakes(st)
    ensures Wakes(Wake(st, s))
  {
    if HasWaiters(st, s) {
      assert InPlace(ViewOf(st), TopWaiter(st, s));
      MakeReadyWakes(st.run.status, st.mem.pc, st.mem.waiters, st.mem.value, s, TopWaiter(st, s), OtherWaiters(st, s));
    } else {
      IdleUpWakes(st.run.status, st.mem.pc, st.mem.waiters, st.mem.value, s);
    }
  }

  lemma RousedWoken(v: View, due: seq<Tid>, rest: seq<Tid>, k: Sid)
    requires Lists(v) && forall x :: x in due ==> x in v.sleepers
    ensures Woken(Roused(v, due, rest).status, Roused(v, due, rest).pc, k) == Woken(v.status, v.pc, k)
  {
    var w := Roused(v, due, rest);
    forall t | t in v.status
      ensures t in Woken(v.status, v.pc, k) <==> t in Woken(w.status, w.pc, k)
    {
      assert InPlace(v, t);
    }
  }

  lemma WakeDueWakes(st: State)
    requires Placed(st) && Wakes(st)
    ensures Wakes(WakeDue(st))
  {
    var r, m := WakeDue(st), st.mem;
    forall k | k in r.mem.value && k in r.mem.waiters
      ensures WakeOk(r.run.status, r.mem.pc, r.mem.waiters[k], r.mem.value[k], k)
    {
      RousedWoken(ViewOf(st), Sleeping(m, m.sleepers, true), Sleeping(m, m.sleepers, false), k);
    }
  }

  // ---------- sleepers ----------

  /** Nobody oversleeps: the wakeup tick of every sleeper is still to come. */
  ghost predicate AwakesOk(sleepers: seq<Tid>, awake: map<Tid, int>, ticks: int) {
    forall t :: t in sleepers ==> t in awake && ticks < awake[t]
  }

  ghost predicate Awakes(st: State) {
    AwakesOk(st.mem.sleepers, st.mem.awake, st.mem.ticks)
  }

  lemma WakeDueAwakes(st: State)
    requires WF(st)
    ensures Awakes(WakeDue(st))
  {
    var r := WakeDue(st);
    forall t | t in r.mem.sleepers
      ensures t in r.mem.awake && r.mem.ticks < r.mem.awake[t]
    {
      assert t in st.mem.sleepers && !Due(st.mem, t);
    }
  }
}
