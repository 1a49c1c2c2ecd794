/** The kernel's own code (threads/synch.c, threads/thread.c, devices/timer.c) over one object that holds the
    scheduler's variables and the memory of all thread, semaphore and lock records, updated in place.  A method that
    gives up the processor ends there; what its thread does when it runs again is a later step (Resume).  Every
    method is proved to do what the transition system of module KernelState says. */
module Kernel {
  import opened Collections
  import opened KernelTypes
  import opened KernelState
  import opened KernelPlacement
  import opened KernelLocks
  import opened KernelInvariant
  import opened KernelRuns
  import opened KernelTurns
  import opened Donation

  lemma SameUpdate<V>(m: map<Tid, V>, t: Tid)
    requires t in m
    ensures m[t := m[t]] == m
  {
  }

  lemma RaisedRecord(rs: seq<Rec>, l: Sid, p: int)
    requires FindRec(rs, l) < |rs|
    ensures var i := FindRec(rs, l);
            RaiseRec(rs, l, p) == if p > rs[i].priority then rs[i := rs[i].(priority := p)] else rs
  {
  }

  class Machine {
    var run: Run
    var mem: Mem

    ghost function Now(): State
      reads this
    {
      State(run, mem)
    }

    constructor (main: Tid, idle: Tid, prio: int, semas: map<Sid, nat>, locks: set<Sid>)
      requires ConfigOk(Config(main, idle, prio, semas, locks))
      ensures Now() == Boot(Config(main, idle, prio, semas, locks))
    {
      run := Run(map[main := Running, idle := Blocked], [], main, 0);
      mem := Mem(map[main := prio, idle := PRI_MIN], map[main := prio, idle := PRI_MIN], map[main := [], idle := []],
                 map[main := Active, idle := Active], map[main := 0, idle := 0],
                 semas, map s | s in semas :: [], map s | s in locks :: None,
                 [], 0, idle, map s | s in semas :: 0, map s | s in semas :: 0);
    }

    // ---------- lists ----------

    /** list_max with thread_priority_convert_func. */
    method ListMax(l: seq<Tid>, prio: map<Tid, int>) returns (m: nat)
      requires l != [] && AllIn(l, prio)
      ensures m == FirstMax(l, prio)
    {
      m := 0;
      var i := 1;
      assert l[..1] == [l[0]];
      while i < |l|
        invariant 1 <= i <= |l|
        invariant m == FirstMax(l[..i], prio)
      {
        assert l[..i + 1][..i] == l[..i];
        if prio[l[m]] < prio[l[i]] {
          m := i;
        }
        i := i + 1;
      }
      assert l[..i] == l;
    }

    /** find_lock_priority. */
    method FindLockPriority(rs: seq<Rec>, l: Sid) returns (i: nat)
      ensures i == FindRec(rs, l)
    {
      i := 0;
      while i < |rs| && rs[i].lock != l
        invariant i <= |rs|
        invariant forall j :: 0 <= j < i ==> rs[j].lock != l
      {
        i := i + 1;
      }
    }

    /** The loop of list_max over lock records, with the base priority as a floor (lock_release). */
    method HighestPriority(base: int, rs: seq<Rec>) returns (m: int)
      ensures m == MaxPriority(base, rs)
    {
      m := base;
      var i := 0;
      while i < |rs|
        invariant i <= |rs|
        invariant m == MaxPriority(base, rs[..i])
      {
        assert rs[..i + 1][..i] == rs[..i];
        if rs[i].priority > m {
          m := rs[i].priority;
        }
        i := i + 1;
      }
      assert rs[..i] == rs;
    }

    // ---------- scheduling ----------

    /** schedule, with next_thread_to_run and thread_schedule_tail. */
    method Schedule()
      requires WF(Now())
      modifies this`run
      ensures Now() == KernelState.Schedule(old(Now()))
    {
      var next, rest := mem.idle, run.ready;
      if run.ready != [] {
        var i := ListMax(run.ready, mem.prio);
        next := run.ready[i];
        rest := RemoveAt(run.ready, i);
      }
      run := Run(run.status[next := Running], rest, next, 0);
    }

    method ThreadUnblock(t: Tid)
      modifies this`run
      ensures run == old(run).(ready := old(run).ready + [t], status := old(run).status[t := Ready])
    {
      run := run.(ready := run.ready + [t], status := run.status[t := Ready]);
    }

    method ThreadYield()
      requires WF(Now())
      modifies this`run
      ensures Now() == Yield(old(Now()))
    {
      if run.cur != mem.idle {
        run := run.(ready := run.ready + [run.cur]);
      }
      run := run.(status := run.status[run.cur := Ready]);
      Schedule();
    }

    method ThreadBlock()
      requires WF(Now())
      modifies this`run
      ensures Now() == Block(old(Now()))
    {
      run := run.(status := run.status[run.cur := Blocked]);
      Schedule();
    }

    // ---------- semaphores ----------

    /** One round of the loop of sema_down; for a lock the rest of lock_acquire follows. */
    method SemaDown(s: Sid)
      requires WF(Now()) && s in mem.value
      modifies this
      ensures Now() == DownLoop(old(Now()), s)
    {
      if mem.value[s] == 0 {
        mem := mem.(waiters := mem.waiters[s := mem.waiters[s] + [run.cur]], pc := mem.pc[run.cur := Downing(s)]);
        ThreadBlock();
      } else {
        mem := mem.(value := mem.value[s := mem.value[s] - 1], downs := mem.downs[s := mem.downs[s] + 1],
                    pc := mem.pc[run.cur := Active]);
        if s in mem.holder {
          var rs := mem.recs[run.cur];
          var i := FindLockPriority(rs, s);
          if i < |rs| {
            rs := rs[i := rs[i].(waiting := false)];
          }
          mem := mem.(holder := mem.holder[s := Some(run.cur)], recs := mem.recs[run.cur := rs]);
        }
      }
    }

    /** sema_up before its test for preemption, and the test. */
    method SemaWake(s: Sid) returns (outranked: bool)
      requires WF(Now()) && s in mem.value
      modifies this
      ensures Now() == Wake(old(Now()), s)
      ensures outranked == Outranked(old(Now()), s) == Outranking(old(mem), s, run.cur)
      ensures old(mem.waiters[s]) != [] ==>
                exists t :: OneWoken(old(mem.waiters[s]), old(mem.prio), mem.waiters[s], t)
    {
      OutrankedIff(Now(), s);
      if mem.waiters[s] != [] {
        WakesOne(Now(), s);
      }
      outranked := false;
      mem := mem.(value := mem.value[s := mem.value[s] + 1], ups := mem.ups[s := mem.ups[s] + 1]);
      if mem.waiters[s] != [] {
        var i := ListMax(mem.waiters[s], mem.prio);
        var t := mem.waiters[s][i];
        mem := mem.(waiters := mem.waiters[s := RemoveAt(mem.waiters[s], i)]);
        ThreadUnblock(t);
        outranked := mem.prio[t] > mem.prio[run.cur];
      }
    }

    method SemaUp(s: Sid)
      requires WF(Now()) && s in mem.value
      modifies this
      ensures Now() == KernelState.SemaUp(old(Now()), s)
      ensures run.cur != old(run.cur) <==> Outranking(old(mem), s, old(run.cur))
      ensures Unoutranked(old(Now())) ==> Unoutranked(Now())
    {
      UpSwitchesIff(Now(), s);
      var outranked := SemaWake(s);
      if outranked {
        ThreadYield();
      }
    }

    // ---------- priority donation ----------

    /** donate_priority. */
    method DonatePriority(l: Sid, p: int) returns (donated: bool)
      requires HoldersRecorded(GraphOf(Now())) && Held(GraphOf(Now()), l)
      modifies this`mem
      ensures GraphOf(Now()) == Raise(old(GraphOf(Now())), l, p)
      ensures donated == Donates(old(GraphOf(Now())), l, p)
      ensures mem == old(mem).(prio := mem.prio, recs := mem.recs)
    {
      var h := mem.holder[l].value;
      var rs := mem.recs[h];
      var i := FindLockPriority(rs, l);
      donated := false;
      SameUpdate(mem.prio, h);
      SameUpdate(mem.recs, h);
      if p > mem.prio[h] {
        mem := mem.(prio := mem.prio[h := p]);
        donated := true;
      }
      RaisedRecord(rs, l, p);
      if p > rs[i].priority {
        mem := mem.(recs := mem.recs[h := rs[i := rs[i].(priority := p)]]);
      }
    }

    /** donate_priority_recursively: ends on every wait-for graph, because each recursive call has fewer threads
        below the donated priority. */
    method DonateRecursively(l: Sid, p: int)
      requires HoldersRecorded(GraphOf(Now())) && Held(GraphOf(Now()), l)
      modifies this`mem
      ensures GraphOf(Now()) == DonateRec(old(GraphOf(Now())), l, p)
      ensures mem == old(mem).(prio := mem.prio, recs := mem.recs)
      decreases Below(mem.prio, p)
    {
      ghost var g := GraphOf(Now());
      RaiseKeepsShape(g, l, p);
      var donated := DonatePriority(l, p);
      if donated {
        DonationProgress(g, l, p);
        var top := mem.recs[mem.holder[l].value];
        if top != [] && top[0].waiting && top[0].lock in mem.holder && mem.holder[top[0].lock].Some? {
          DonateRecursively(top[0].lock, p);
        }
      }
    }

    // ---------- locks ----------

    /** lock_acquire up to where the thread has the lock or is blocked. */
    method LockAcquire(l: Sid)
      requires WF(Now()) && HoldersRecorded(GraphOf(Now())) && l in mem.holder
      modifies this
      ensures Now() == Acquire(old(Now()), l)
    {
      AddRecordKeepsHolders(Now(), l);
      var p := mem.prio[run.cur];
      mem := mem.(recs := mem.recs[run.cur := [Rec(l, p, true)] + mem.recs[run.cur]]);
      assert Now() == AddRecord(old(Now()), l);
      if mem.holder[l].Some? {
        DonateRecursively(l, p);
      }
      assert Now() == DonateCurrent(AddRecord(old(Now()), l), l);
      SemaDown(l);
    }

    /** lock_release up to its end or its first yield. */
    method LockRelease(l: Sid)
      requires WF(Now()) && l in mem.holder
      modifies this
      ensures Now() == Release(old(Now()), l)
    {
      var rs := mem.recs[run.cur];
      var i := FindLockPriority(rs, l);
      if i < |rs| {
        rs := RemoveAt(rs, i);
      }
      mem := mem.(holder := mem.holder[l := None], recs := mem.recs[run.cur := rs]);
      assert Now() == DropHolder(old(Now()), l);
      var outranked := SemaWake(l);
      if outranked {
        mem := mem.(pc := mem.pc[run.cur := Releasing]);
        ThreadYield();
      } else {
        FinishRelease();
      }
    }

    /** The part of lock_release after sema_up. */
    method FinishRelease()
      requires WF(Now())
      modifies this
      ensures Now() == KernelState.FinishRelease(old(Now()))
    {
      var oldPriority := mem.prio[run.cur];
      var newPriority := HighestPriority(mem.base[run.cur], mem.recs[run.cur]);
      mem := mem.(prio := mem.prio[run.cur := newPriority], pc := mem.pc[run.cur := Active]);
      if oldPriority > newPriority {
        ThreadYield();
      }
    }

    // ---------- threads and time ----------

    method ThreadSetPriority(p: int)
      requires WF(Now())
      modifies this
      ensures Now() == SetPriority(old(Now()), p)
    {
      var oldPriority := mem.prio[run.cur];
      mem := mem.(base := mem.base[run.cur := p],
                  prio := mem.prio[run.cur := if oldPriority <= p || mem.recs[run.cur] == [] then p else oldPriority]);
      if oldPriority > p {
        ThreadYield();
      }
    }

    method ThreadCreate(t: Tid, p: int)
      requires WF(Now()) && t !in run.status
      modifies this
      ensures Now() == Create(old(Now()), t, p)
    {
      var mine := mem.prio[run.cur];
      mem := mem.(base := mem.base[t := p], prio := mem.prio[t := p], recs := mem.recs[t := []],
                  pc := mem.pc[t := Active], awake := mem.awake[t := 0]);
      ThreadUnblock(t);
      if p > mine {
        ThreadYield();
      }
    }

    method ThreadExit()
      requires WF(Now()) && OffLists(Now())
      modifies this
      ensures Now() == Exit(old(Now()))
    {
      var me := {run.cur};
      run := run.(status := run.status - me, cur := mem.idle);
      mem := mem.(base := mem.base - me, prio := mem.prio - me, recs := mem.recs - me, pc := mem.pc - me,
                  awake := mem.awake - me);
      Schedule();
    }

    method TimerSleep(n: int)
      requires WF(Now())
      modifies this
      ensures Now() == Sleep(old(Now()), n)
    {
      if n <= 0 {
        return;
      }
      mem := mem.(awake := mem.awake[run.cur := mem.ticks + n], sleepers := mem.sleepers + [run.cur],
                  pc := mem.pc[run.cur := Asleep]);
      ThreadBlock();
    }

    /** timer_interrupt. */
    method TimerInterrupt()
      requires WF(Now()) && NoDup(mem.sleepers)
      modifies this
      ensures Now() == Tick(old(Now()))
    {
      mem := mem.(ticks := mem.ticks + 1);
      assert Now() == Advance(old(Now()));
      WakeSleepers();
      EndTick();
    }

    /** The end of thread_tick. */
    method EndTick()
      requires WF(Now())
      modifies this`run
      ensures Now() == CountSlice(old(Now()))
      ensures old(run.slice) < 3 ==> run == old(run).(slice := old(run.slice) + 1)
      ensures old(run.slice) >= 3 ==> run.slice == 0 && Unoutranked(Now())
      ensures old(run.slice) >= 3 && old(EqualReady(Now())) ==> run.cur != old(run.cur)
    {
      CountSliceIs(Now());
      run := run.(slice := run.slice + 1);
      if run.slice >= TIME_SLICE {
        ThreadYield();
      }
    }

    method WakeSleepers()
      requires WF(Now()) && NoDup(mem.sleepers)
      modifies this
      ensures Now() == WakeDue(old(Now()))
    {
      run, mem := WakeLoop(run, mem);
    }

    // ---------- whole runs ----------

    /** A thread that runs again goes on where it gave up the processor. */
    method Resume()
      requires Placed(Now()) && mem.pc[run.cur] != Active
      modifies this
      ensures Now() == KernelInvariant.Resume(old(Now()))
    {
      assert InPlace(ViewOf(Now()), run.cur);
      if mem.pc[run.cur].Downing? {
        SemaDown(mem.pc[run.cur].s);
      } else {
        FinishRelease();
      }
    }

    /** Any step the source allows leaves the machine in a state where everything promised of reachable states
        holds. */
    method Perform(a: Action)
      requires Inv(Now()) && May(Now(), a)
      modifies this
      ensures Now() == Apply(old(Now()), a) && Inv(Now())
    {
      StepKeeps(Now(), a);
      match a
      case ADown(s) => SemaDown(s);
      case AUp(s) => SemaUp(s);
      case AAcquire(l) => LocksGiveHolders(Now()); LockAcquire(l);
      case ARelease(l) => LockRelease(l);
      case AResume => Resume();
      case ASetPriority(p) => ThreadSetPriority(p);
      case AYield => ThreadYield();
      case ASleep(n) => TimerSleep(n);
      case ATick => TimerInterrupt();
      case AIdle => ThreadBlock();
      case ACreate(t, p) => ThreadCreate(t, p);
      case AExit => RunningOffLists(Now()); ThreadExit();
    }
  }

  /** The loop of thread_tick over the sleep list: K is the position in the list that shrinks. */
  method WakeLoop(run0: Run, mem0: Mem) returns (run: Run, mem: Mem)
    requires NoDup(mem0.sleepers)
    requires forall t :: t in mem0.sleepers ==> t in run0.status && t in mem0.pc && t in mem0.awake
    ensures run == WokenRun(run0, Sleeping(mem0, mem0.sleepers, true))
    ensures mem == WokenMem(mem0, Sleeping(mem0, mem0.sleepers, true), Sleeping(mem0, mem0.sleepers, false))
  {
    var k := 0;
    run, mem := run0, mem0;
    ghost var due, kept, todo := [], [], mem.sleepers;
    ScanStarts(run, mem);
    while k < |mem.sleepers|
      invariant k <= |mem.sleepers|
      invariant Scanned(run0, mem0, run, mem, k, due, kept, todo)
      decreases |todo|
    {
      NextSleeper(run0, mem0, run, mem, k, due, kept, todo);
      var t := mem.sleepers[k];
      if mem.ticks >= mem.awake[t] {
        ScanDue(run0, mem0, run, mem, k, due, kept, todo);
        run := run.(ready := run.ready + [t], status := run.status[t := Ready]);
        mem := mem.(awake := mem.awake[t := 0], sleepers := RemoveAt(mem.sleepers, k), pc := mem.pc[t := Active]);
        due := due + [t];
      } else {
        ScanKept(run0, mem0, run, mem, k, due, kept, todo);
        k := k + 1;
        kept := kept + [t];
      }
      todo := todo[1..];
    }
    ScanEnds(run0, mem0, run, mem, k, due, kept, todo);
  }

  // ---------- the loop of thread_tick ----------

  ghost function WokenRun(run: Run, due: seq<Tid>): Run {
    run.(ready := run.ready + due, status := UpdateAll(run.status, due, Ready))
  }

  ghost function WokenMem(mem: Mem, due: seq<Tid>, sleepers: seq<Tid>): Mem {
    mem.(pc := UpdateAll(mem.pc, due, Active), awake := UpdateAll(mem.awake, due, 0), sleepers := sleepers)
  }

  lemma NothingWoken(run: Run, mem: Mem)
    ensures WokenRun(run, []) == run && WokenMem(mem, [], [] + mem.sleepers) == mem
  {
    assert UpdateAll(run.status, [], Ready) == run.status;
    assert UpdateAll(mem.pc, [], Active) == mem.pc;
    assert UpdateAll(mem.awake, [], 0) == mem.awake;
    assert run.ready + [] == run.ready && [] + mem.sleepers == mem.sleepers;
  }

  /** TODO is what is left of the list, and the part before it has been split into DUE and KEPT. */
  ghost predicate Parted(m: Mem, all: seq<Tid>, due: seq<Tid>, kept: seq<Tid>, todo: seq<Tid>) {
    && |todo| <= |all| && todo == all[|all| - |todo|..]
    && due == Sleeping(m, all[..|all| - |todo|], true) && kept == Sleeping(m, all[..|all| - |todo|], false)
  }

  lemma PartedStart(m: Mem, all: seq<Tid>)
    ensures Parted(m, all, [], [], all)
  {
    assert all[0..] == all;
  }

  lemma PartedEnd(m: Mem, all: seq<Tid>, due: seq<Tid>, kept: seq<Tid>, todo: seq<Tid>)
    requires Parted(m, all, due, kept, todo) && todo == []
    ensures due == Sleeping(m, all, true) && kept == Sleeping(m, all, false) && kept + todo == kept
  {
    assert all[..|all|] == all;
  }

  /** The next sleeper goes to one side or the other, and was on neither. */
  lemma PartedNext(m: Mem, all: seq<Tid>, due: seq<Tid>, kept: seq<Tid>, todo: seq<Tid>)
    requires Parted(m, all, due, kept, todo) && todo != [] && NoDup(all)
    ensures var t := todo[0];
            && t in all && t !in due
            && if Due(m, t) then Parted(m, all, due + [t], kept, todo[1..])
               else Parted(m, all, due, kept + [t], todo[1..])
  {
    var n := |all| - |todo|;
    assert all[..n + 1][..n] == all[..n] && todo[0] == all[n];
    assert all[n + 1..] == todo[1..];
    assert all[n] !in all[..n];
  }

  lemma OneMoreUpdated<V>(m: map<Tid, V>, due: seq<Tid>, t: Tid, v: V)
    ensures UpdateAll(m, due + [t], v) == UpdateAll(m, due, v)[t := v]
  {
    assert (due + [t])[..|due|] == due;
  }

  /** A due sleeper, in front of those not looked at yet, is woken. */
  lemma WokenNext(run0: Run, mem0: Mem, due: seq<Tid>, kept: seq<Tid>, todo: seq<Tid>)
    requires todo != [] && todo[0] in run0.status && todo[0] in mem0.pc && todo[0] in mem0.awake
    ensures var t, r := todo[0], WokenRun(run0, due);
            WokenRun(run0, due + [t]) == r.(ready := r.ready + [t], status := r.status[t := Ready])
    ensures var t, m := todo[0], WokenMem(mem0, due, kept + todo);
            WokenMem(mem0, due + [t], kept + todo[1..]) ==
            m.(awake := m.awake[t := 0], sleepers := RemoveAt(m.sleepers, |kept|), pc := m.pc[t := Active])
  {
    var t := todo[0];
    OneMoreUpdated(run0.status, due, t, Ready);
    OneMoreUpdated(mem0.pc, due, t, Active);
    OneMoreUpdated(mem0.awake, due, t, 0);
    assert run0.ready + due + [t] == run0.ready + (due + [t]);
    NextRemoved(kept, todo);
  }

  lemma NextRemoved(a: seq<Tid>, b: seq<Tid>)
    requires b != []
    ensures RemoveAt(a + b, |a|) == a + b[1..]
  {
  }

  lemma NextKept(a: seq<Tid>, b: seq<Tid>)
    requires b != []
    ensures a + b == a + [b[0]] + b[1..]
  {
  }

  /** Where the loop of thread_tick stands: KEPT is behind its position K, and TODO is in front. */
  ghost predicate Scanned(run0: Run, mem0: Mem, run: Run, mem: Mem, k: int, due: seq<Tid>, kept: seq<Tid>,
                          todo: seq<Tid>) {
    && k == |kept| && Parted(mem0, mem0.sleepers, due, kept, todo)
    && run == WokenRun(run0, due) && mem == WokenMem(mem0, due, kept + todo)
  }

  lemma ScanStarts(run: Run, mem: Mem)
    ensures Scanned(run, mem, run, mem, 0, [], [], mem.sleepers)
  {
    NothingWoken(run, mem);
    PartedStart(mem, mem.sleepers);
  }

  lemma NextSleeper(run0: Run, mem0: Mem, run: Run, mem: Mem, k: int, due: seq<Tid>, kept: seq<Tid>, todo: seq<Tid>)
    requires Scanned(run0, mem0, run, mem, k, due, kept, todo) && k < |mem.sleepers| && NoDup(mem0.sleepers)
    requires forall t :: t in mem0.sleepers ==> t in mem0.awake
    ensures todo != [] && mem.sleepers[k] == todo[0] && todo[0] in mem.awake
    ensures (mem.ticks >= mem.awake[todo[0]]) == Due(mem0, todo[0])
  {
    PartedNext(mem0, mem0.sleepers, due, kept, todo);
  }

  lemma ScanDue(run0: Run, mem0: Mem, run: Run, mem: Mem, k: int, due: seq<Tid>, kept: seq<Tid>, todo: seq<Tid>)
    requires Scanned(run0, mem0, run, mem, k, due, kept, todo) && NoDup(mem0.sleepers)
    requires forall t :: t in mem0.sleepers ==> t in run0.status && t in mem0.pc && t in mem0.awake
    requires k < |mem.sleepers| && todo != [] && todo[0] in mem0.awake && Due(mem0, todo[0])
    ensures var t := todo[0];
            Scanned(run0, mem0, run.(ready := run.ready + [t], status := run.status[t := Ready]),
                    mem.(awake := mem.awake[t := 0], sleepers := RemoveAt(mem.sleepers, k), pc := mem.pc[t := Active]),
                    k, due + [t], kept, todo[1..])
  {
    PartedNext(mem0, mem0.sleepers, due, kept, todo);
    WokenNext(run0, mem0, due, kept, todo);
  }

  lemma ScanKept(run0: Run, mem0: Mem, run: Run, mem: Mem, k: int, due: seq<Tid>, kept: seq<Tid>, todo: seq<Tid>)
    requires Scanned(run0, mem0, run, mem, k, due, kept, todo) && NoDup(mem0.sleepers)
    requires todo != [] && todo[0] in mem0.awake && !Due(mem0, todo[0])
    ensures Scanned(run0, mem0, run, mem, k + 1, due, kept + [todo[0]], todo[1..])
  {
    PartedNext(mem0, mem0.sleepers, due, kept, todo);
    NextKept(kept, todo);
  }

  lemma ScanEnds(run0: Run, mem0: Mem, run: Run, mem: Mem, k: int, due: seq<Tid>, kept: seq<Tid>, todo: seq<Tid>)
    requires Scanned(run0, mem0, run, mem, k, due, kept, todo) && k >= |mem.sleepers|
    ensures run == WokenRun(run0, Sleeping(mem0, mem0.sleepers, true))
    ensures mem == WokenMem(mem0, Sleeping(mem0, mem0.sleepers, true), Sleeping(mem0, mem0.sleepers, false))
  {
    PartedEnd(mem0, mem0.sleepers, due, kept, todo);
  }
}
