/** The machine and the schedulers of schedlab/scheduling.ipynb as they change their variables. */
module Simulator {
  import opened Collections
  import opened SimSteps
  import opened SimBursts
  import opened SimTrace

  /** First come first served or round robin; shortest remaining time first; two-level feedback.  A quantum of 0 does
      not preempt. */
  datatype Policy = Fifo(q: nat) | Srtf(q: nat) | TwoLevel(qInt: nat, qCpu: nat)

  /** FUTURE is in order of arrival. */
  ghost predicate Ordered(tasks: seq<Task>, future: seq<int>) {
    && (forall i :: 0 <= i < |future| ==> 0 <= future[i] < |tasks|)
    && (forall i, j :: 0 <= i < j < |future| ==> tasks[future[i]].arrival <= tasks[future[j]].arrival)
  }

  lemma OrderedRemove(tasks: seq<Task>, future: seq<int>, i: nat)
    requires Ordered(tasks, future) && i < |future|
    ensures Ordered(tasks, RemoveAt(future, i))
  {
  }

  /** What is left of a list when element I goes: the elements before it in place, and none that is new. */
  lemma LeftOfList(l: seq<int>, i: nat)
    requires i < |l|
    ensures |RemoveAt(l, i)| == |l| - 1 && RemoveAt(l, i)[..i] == l[..i]
    ensures forall t :: t in RemoveAt(l, i) ==> t in l
  {
  }

  /** All of L arrive after TIME. */
  ghost predicate Later(tasks: seq<Task>, l: seq<int>, time: int) {
    forall t :: t in l ==> 0 <= t < |tasks| && tasks[t].arrival > time
  }

  /** All of L wake up after TIME. */
  ghost predicate Asleep(threads: seq<Thread>, l: seq<int>, time: int) {
    forall t :: t in l ==> 0 <= t < |threads| && threads[t].wakeup > time
  }

  lemma LaterNext(tasks: seq<Task>, l: seq<int>, i: nat, time: int)
    requires i < |l| && 0 <= l[i] < |tasks| && Later(tasks, l[..i], time) && tasks[l[i]].arrival > time
    ensures Later(tasks, l[..i + 1], time)
  {
    assert l[..i + 1] == l[..i] + [l[i]];
  }

  /** Behind a task that is not due yet none is due. */
  lemma NoneBehind(tasks: seq<Task>, l: seq<int>, i: nat, time: int)
    requires Ordered(tasks, l) && 0 < i < |l| && Later(tasks, l[..i], time)
    ensures tasks[l[i]].arrival > time
  {
    assert l[0] in l[..i];
  }

  lemma AsleepNext(threads: seq<Thread>, l: seq<int>, i: nat, time: int)
    requires i < |l| && 0 <= l[i] < |threads| && Asleep(threads, l[..i], time) && threads[l[i]].wakeup > time
    ensures Asleep(threads, l[..i + 1], time)
  {
    assert l[..i + 1] == l[..i] + [l[i]];
  }

  ghost predicate Among(l: seq<int>, m: seq<int>) {
    |l| <= |m| && forall t :: t in l ==> t in m
  }

  // ---------- progress ----------

  /** What a thread still has to do, and a unit for being done. */
  function ToDo(task: Task, th: Thread): int {
    task.total - th.elapsed + if th.where == Done then 0 else 1
  }

  ghost function Left(tasks: seq<Task>, threads: seq<Thread>): int
    requires |threads| == |tasks|
  {
    if tasks == [] then 0
    else
      var n := |tasks| - 1;
      Left(tasks[..n], threads[..n]) + ToDo(tasks[n], threads[n])
  }

  lemma {:induction false} LeftNonnegative(tasks: seq<Task>, threads: seq<Thread>)
    requires |threads| == |tasks| && forall t :: 0 <= t < |tasks| ==> ToDo(tasks[t], threads[t]) >= 0
    ensures Left(tasks, threads) >= 0
  {
    if tasks != [] {
      var n := |tasks| - 1;
      LeftNonnegative(tasks[..n], threads[..n]);
    }
  }

  /** Only thread T has other things to do than before. */
  lemma {:induction false} LeftChange(tasks: seq<Task>, a: seq<Thread>, b: seq<Thread>, t: int)
    requires |a| == |b| == |tasks|
    requires forall u :: 0 <= u < |tasks| && u != t ==> ToDo(tasks[u], a[u]) == ToDo(tasks[u], b[u])
    ensures Left(tasks, b) == Left(tasks, a) +
            if 0 <= t < |tasks| then ToDo(tasks[t], b[t]) - ToDo(tasks[t], a[t]) else 0
  {
    if tasks != [] {
      var n := |tasks| - 1;
      LeftChange(tasks[..n], a[..n], b[..n], t);
    }
  }

  /** From A to B some threads have arrived or woken up, and nothing else has happened. */
  ghost predicate Arrived(a: seq<Thread>, b: seq<Thread>) {
    |a| == |b| && forall t :: 0 <= t < |a| ==>
      b[t] == a[t] || ((a[t].where == Future || a[t].where == Waiting) && b[t].where == Interactive &&
                       b[t].elapsed == a[t].elapsed)
  }

  lemma ArrivedThen(a: seq<Thread>, b: seq<Thread>, t: int, th: Thread)
    requires Arrived(a, b) && 0 <= t < |b| && (b[t].where == Future || b[t].where == Waiting)
    requires th.where == Interactive && th.elapsed == b[t].elapsed
    ensures Arrived(a, b[t := th])
  {
  }

  lemma ArrivedTwice(a: seq<Thread>, b: seq<Thread>, c: seq<Thread>)
    requires Arrived(a, b) && Arrived(b, c)
    ensures Arrived(a, c)
  {
  }

  /** The number of threads not yet arrived or waiting for I/O. */
  ghost function Away(threads: seq<Thread>): nat {
    if threads == [] then 0
    else
      var th := threads[|threads| - 1];
      Away(threads[..|threads| - 1]) + if th.where == Future || th.where == Waiting then 1 else 0
  }

  lemma {:induction false} AwayArrived(a: seq<Thread>, b: seq<Thread>, t: int)
    requires Arrived(a, b)
    ensures Away(b) <= Away(a)
    ensures 0 <= t < |a| && b[t] != a[t] ==> Away(b) < Away(a)
  {
    if a != [] {
      AwayArrived(a[..|a| - 1], b[..|a| - 1], t);
    }
  }

  lemma ArrivedSame(tasks: seq<Task>, a: seq<Thread>, b: seq<Thread>)
    requires |tasks| == |a| && Arrived(a, b)
    ensures Left(tasks, b) == Left(tasks, a) && (NoneRunning(a) ==> NoneRunning(b))
  {
    LeftChange(tasks, a, b, -1);
  }

  /** Something is due at TIME. */
  ghost predicate DueAt(tasks: seq<Task>, s: Sim, time: int) {
    || (exists t :: t in s.future && 0 <= t < |tasks| && tasks[t].arrival == time)
    || (exists t :: t in s.io && 0 <= t < |s.threads| && s.threads[t].wakeup == time)
  }

  /** Nothing arrives or wakes up before TIME. */
  ghost predicate Nothing(tasks: seq<Task>, future: seq<int>, threads: seq<Thread>, io: seq<int>, time: int) {
    && (forall t :: t in future && 0 <= t < |tasks| ==> tasks[t].arrival >= time)
    && (forall t :: t in io && 0 <= t < |threads| ==> threads[t].wakeup >= time)
  }

  /** NEXT is the earliest arrival to come, or the earliest wakeup of the first I threads waiting for I/O. */
  ghost predicate NextSoFar(tasks: seq<Task>, s: Sim, next: Option<int>, i: nat)
    requires i <= |s.io|
  {
    && (next.None? <==> s.future == [] && i == 0)
    && (next.Some? ==> next.value > s.time && DueAt(tasks, s, next.value))
    && (next.Some? ==> Nothing(tasks, s.future, s.threads, s.io[..i], next.value))
  }

  lemma NextFurther(tasks: seq<Task>, s: Sim, next: Option<int>, i: nat)
    requires Books(tasks, s) && Settled(tasks, s) && i < |s.io| && NextSoFar(tasks, s, next, i)
    ensures 0 <= s.io[i] < |s.threads|
    ensures var w := s.threads[s.io[i]].wakeup;
            NextSoFar(tasks, s, if next.None? || w < next.value then Some(w) else next, i + 1)
  {
    assert s.io[i] in s.io;
    assert s.io[..i + 1] == s.io[..i] + [s.io[i]];
  }

  /** What was due has come in. */
  lemma DueComesIn(tasks: seq<Task>, s: Sim, r: Sim)
    requires Books(tasks, s) && Books(tasks, r) && Arrived(s.threads, r.threads)
    requires DueAt(tasks, s, r.time) && Settled(tasks, r)
    ensures Away(r.threads) < Away(s.threads)
  {
    if t :| t in s.future && 0 <= t < |tasks| && tasks[t].arrival == r.time {
      AwayArrived(s.threads, r.threads, t);
    } else {
      var t :| t in s.io && 0 <= t < |s.threads| && s.threads[t].wakeup == r.time;
      AwayArrived(s.threads, r.threads, t);
    }
  }

  /** What else holds after a wakeup. */
  lemma WokenRest(s: Sim, i: nat, before: seq<Thread>, start: seq<Event>, order: seq<int>)
    requires Lists(s.threads, s.io, Waiting) && i < |s.io| && 0 <= s.io[i] < |s.threads| && Arrived(before, s.threads)
    requires Asleep(s.threads, s.io[..i], s.time) && Quiet(start, s.log) && InOrder(s.log, s.future, order)
    ensures var r := Woken(s, i);
            && Arrived(before, r.threads) && Asleep(r.threads, s.io[..i], s.time) && Quiet(start, r.log)
            && InOrder(r.log, r.future, order)
  {
    var t := s.io[i];
    assert t in s.io && t !in s.io[..i];
    ArrivedThen(before, s.threads, t, s.threads[t].(where := Interactive, lastQueued := s.threads[t].wakeup));
    InOrderQuiet(s.log, s.future, order, Wakeup(s.threads[t].wakeup, t));
    QuietNext(start, s.log, Wakeup(s.threads[t].wakeup, t));
  }

  lemma InRange(l: seq<int>, n: int)
    requires forall t :: t in l ==> 0 <= t < n
    ensures forall i :: 0 <= i < |l| ==> 0 <= l[i] < n
  {
    forall i | 0 <= i < |l| ensures 0 <= l[i] < n {
      assert l[i] in l;
    }
  }

  class Machine {
    const tasks: seq<Task>
    var time: int
    var log: seq<Event>
    var future: seq<int>
    var queue: seq<int>
    var background: seq<int>
    var io: seq<int>
    var threads: seq<Thread>
    ghost var idleTime: int
    ghost const order: seq<int>
    ghost const two: bool

    ghost function Now(): Sim
      reads this
    {
      Sim(time, idleTime, future, queue, background, io, threads, log)
    }

    ghost predicate Valid()
      reads this
    {
      && Books(tasks, Now()) && Ordered(tasks, future) && NoDup(order) && InOrder(log, future, order)
      && Tracked(two, tasks, Now())
    }

    /** Between two scheduling decisions. */
    ghost predicate Ready()
      reads this
    {
      Valid() && time >= 0 && Settled(tasks, Now()) && NoneRunning(threads)
    }

    /** Machine._arrivals: tasks first, then threads whose I/O is over. */
    method Arrivals()
      requires Valid() && AllRested(Now())
      modifies this`future, this`queue, this`io, this`threads, this`log
      ensures Valid() && Settled(tasks, Now()) && Arrived(old(threads), threads) && AllRested(Now())
      ensures Among(future, old(future)) && Among(io, old(io)) && Quiet(old(log), log)
    {
      EnterTasks();
      ghost var middle, before := threads, log;
      WakeThreads();
      ArrivedTwice(old(threads), middle, threads);
      QuietTwice(old(log), before, log);
    }

    method EnterTasks()
      requires Valid() && AllRested(Now())
      modifies this`future, this`queue, this`threads, this`log
      ensures Valid() && Arrived(old(threads), threads) && Later(tasks, future, time) && Among(future, old(future))
      ensures Quiet(old(log), log) && AllRested(Now())
    {
      var i := 0;
      while i < |future|
        invariant i <= |future| && Valid() && Arrived(old(threads), threads) && Among(future, old(future))
        invariant Quiet(old(log), log) && AllRested(Now())
        invariant Later(tasks, future[..i], time)
        decreases |future| - i
      {
        if i > 0 {
          NoneBehind(tasks, future, i, time);
        }
        var due := tasks[future[i]].arrival <= time;
        if due {
          LeftOfList(future, i);
          EnterFirst(old(threads), old(log));
        } else {
          LaterNext(tasks, future, i, time);
          i := i + 1;
        }
      }
      assert future[..i] == future;
    }

    method EnterFirst(ghost before: seq<Thread>, ghost start: seq<Event>)
      requires Valid() && future != [] && tasks[future[0]].arrival <= time && Arrived(before, threads)
      requires Quiet(start, log) && AllRested(Now())
      modifies this`future, this`queue, this`threads, this`log
      ensures Valid() && Arrived(before, threads) && future == RemoveAt(old(future), 0) && Quiet(start, log)
      ensures AllRested(Now())
    {
      ghost var t := future[0];
      EnteredKeeps(tasks, Now(), 0);
      EnteredTracks(two, tasks, Now(), 0);
      OrderedRemove(tasks, future, 0);
      InOrderArrive(log, future, order, tasks[t].arrival);
      QuietNext(start, log, Arrive(tasks[t].arrival, t));
      assert t in future;
      ArrivedThen(before, threads, t, threads[t].(where := Interactive, lastQueued := tasks[t].arrival));
      Enter(0);
    }

    method Enter(i: nat)
      requires i < |future| && 0 <= future[i] < |tasks| == |threads|
      modifies this`future, this`queue, this`threads, this`log
      ensures Now() == Entered(tasks, old(Now()), i)
    {
      var t := future[i];
      future := RemoveAt(future, i);
      threads := threads[t := threads[t].(where := Interactive, lastQueued := tasks[t].arrival)];
      queue := queue + [t];
      log := log + [Arrive(tasks[t].arrival, t)];
    }

    method WakeThreads()
      requires Valid() && Later(tasks, future, time) && AllRested(Now())
      modifies this`queue, this`io, this`threads, this`log
      ensures Valid() && Settled(tasks, Now()) && Arrived(old(threads), threads) && Among(io, old(io))
      ensures Quiet(old(log), log) && AllRested(Now())
    {
      var i := 0;
      while i < |io|
        invariant i <= |io| && Valid() && Arrived(old(threads), threads) && Among(io, old(io)) && Quiet(old(log), log)
        invariant Asleep(threads, io[..i], time) && AllRested(Now())
        decreases |io| - i
      {
        WokenKeeps(tasks, Now(), i);
        var due := threads[io[i]].wakeup <= time;
        if due {
          LeftOfList(io, i);
          Wake(i, old(threads), old(log));
        } else {
          AsleepNext(threads, io, i, time);
          i := i + 1;
        }
      }
      assert io[..i] == io;
    }

    method Wake(i: nat, ghost before: seq<Thread>, ghost start: seq<Event>)
      requires Valid() && i < |io| && 0 <= io[i] < |threads| && threads[io[i]].wakeup <= time
      requires Arrived(before, threads) && Asleep(threads, io[..i], time) && Quiet(start, log) && AllRested(Now())
      modifies this`queue, this`io, this`threads, this`log
      ensures Valid() && Arrived(before, threads) && io == RemoveAt(old(io), i) && Asleep(threads, old(io)[..i], time)
      ensures Quiet(start, log) && AllRested(Now())
    {
      WokenKeeps(tasks, Now(), i);
      WokenTracks(two, tasks, Now(), i);
      WokenRest(Now(), i, before, start, order);
      EndWait(i);
    }

    method EndWait(i: nat)
      requires i < |io| && 0 <= io[i] < |threads|
      modifies this`queue, this`io, this`threads, this`log
      ensures Now() == Woken(old(Now()), i)
    {
      var t := io[i];
      log := log + [Wakeup(threads[t].wakeup, t)];
      io := RemoveAt(io, i);
      threads := threads[t := threads[t].(where := Interactive, lastQueued := threads[t].wakeup)];
      queue := queue + [t];
    }

    /** Machine.__init__; ORDER is the tasks sorted by arrival time, and TWO says whether the ready queue has two
        levels. */
    constructor (tasks: seq<Task>, order: seq<int>, ghost two: bool)
      requires TasksOk(tasks) && Ordered(tasks, order) && NoDup(order)
      requires forall t :: t in order <==> 0 <= t < |tasks|
      ensures Ready() && this.tasks == tasks && this.order == order && this.two == two
      ensures Quiet([], log)
    {
      this.tasks, this.order, this.two := tasks, order, two;
      time, log, future, queue, background, io, idleTime := 0, [Start], order, [], [], [], 0;
      threads := seq(|tasks|, _ => Thread(Future, 0, 0, 0, 0, 0, 0, 0));
      new;
      StartBooks(tasks, Now());
      StartTracks(two, tasks, Now());
      Arrivals();
      ArrivedSame(tasks, seq(|tasks|, _ => Thread(Future, 0, 0, 0, 0, 0, 0, 0)), threads);
      QuietTwice([], [Start], log);
    }

    /** Machine.next_start. */
    method NextStart() returns (next: Option<int>)
      requires Ready()
      ensures next.None? <==> future == [] && io == []
      ensures next.Some? ==> next.value > time && DueAt(tasks, Now(), next.value)
      ensures next.Some? ==> Nothing(tasks, future, threads, io, next.value)
    {
      next := None;
      if future != [] {
        assert future[0] in future;
        next := Some(tasks[future[0]].arrival);
      }
      var i := 0;
      while i < |io|
        invariant i <= |io| && NextSoFar(tasks, Now(), next, i)
      {
        NextFurther(tasks, Now(), next, i);
        if next.None? || threads[io[i]].wakeup < next.value {
          next := Some(threads[io[i]].wakeup);
        }
        i := i + 1;
      }
      assert io[..i] == io;
    }

    /** The dequeue of the three queue classes. */
    method Pick(p: Policy) returns (bg: bool, i: nat, q: nat)
      requires Valid() && (queue != [] || background != []) && two == p.TwoLevel?
      ensures Chosen(p, Now(), tasks, bg, i, q)
    {
      if !p.TwoLevel? {
        NoBackground(tasks, Now());
      }
      match p
      case Fifo(n) => return false, 0, n;
      case TwoLevel(a, b) =>
        if queue != [] {
          return false, 0, a;
        }
        return true, 0, b;
      case Srtf(n) =>
        InRange(queue, |tasks|);
        i := Shortest();
        return false, i, n;
    }

    /** The reduction over the deque, from the newest to the oldest. */
    method Shortest() returns (i: nat)
      requires |threads| == |tasks| && queue != [] && forall j :: 0 <= j < |queue| ==> 0 <= queue[j] < |tasks|
      ensures Chosen(Srtf(0), Now(), tasks, false, i, 0)
    {
      i := |queue| - 1;
      var k := i;
      while k > 0
        invariant 0 <= k <= i < |queue|
        invariant forall j :: k <= j < |queue| ==>
                    && Remaining(tasks, threads, queue[i]) <= Remaining(tasks, threads, queue[j])
                    && (j > i ==> Remaining(tasks, threads, queue[i]) < Remaining(tasks, threads, queue[j]))
      {
        k := k - 1;
        if Remaining(tasks, threads, queue[i]) > Remaining(tasks, threads, queue[k]) {
          i := k;
        }
      }
    }

    /** A thread is taken off its queue and runs, and the machine moves on: dequeue, Thread.run and Machine.run. */
    method Dispatch(bg: bool, i: nat, r: Slice, ghost q: nat) returns (t: int)
      requires Ready() && i < |if bg then background else queue|
      requires Taken(tasks, Now(), bg, i, q, r)
      modifies this
      ensures t == old((if bg then background else queue)[i]) && Valid() && Settled(tasks, Now()) && time >= 0
      ensures OnlyRunning(threads, t) && threads[t] == Ran(old(threads[t]), old(time), r)
      ensures Left(tasks, threads) == Left(tasks, old(threads)) - r.length
      ensures Quiet(old(log) + [Run(old(time), t, r.length)], log)
      ensures AllRested(Now()) && Outcome(tasks[t], PlaceIn(tasks[t], log, t), r)
    {
      t := RunSlice(bg, i, r, q);
      TakeIn(t);
    }

    /** Arrivals while thread T is on the CPU. */
    method TakeIn(ghost t: int)
      requires Valid() && OnlyRunning(threads, t) && AllRested(Now())
      modifies this`future, this`queue, this`io, this`threads, this`log
      ensures Valid() && Settled(tasks, Now()) && OnlyRunning(threads, t) && threads[t] == old(threads[t])
      ensures AllRested(Now()) && PlaceIn(tasks[t], log, t) == PlaceIn(tasks[t], old(log), t)
      ensures Left(tasks, threads) == Left(tasks, old(threads)) && Quiet(old(log), log)
    {
      Arrivals();
      PlaceQuiet(tasks[t], old(log), log, t);
      ArrivedSame(tasks, old(threads), threads);
      StillAlone(old(threads), threads, t);
    }

    /** The same before the machine takes in what is due. */
    method RunSlice(bg: bool, i: nat, r: Slice, ghost q: nat) returns (t: int)
      requires Ready() && i < |if bg then background else queue|
      requires Taken(tasks, Now(), bg, i, q, r)
      modifies this`queue, this`background, this`threads, this`log, this`time
      ensures t == old((if bg then background else queue)[i]) && Valid() && time >= 0
      ensures OnlyRunning(threads, t) && threads[t] == Ran(old(threads[t]), old(time), r)
      ensures Left(tasks, threads) == Left(tasks, old(threads)) - r.length
      ensures log == old(log) + [Run(old(time), t, r.length)]
      ensures AllRested(Now()) && Outcome(tasks[t], PlaceIn(tasks[t], log, t), r)
    {
      ghost var s := Now();
      DispatchedKeeps(tasks, s, bg, i, r);
      DispatchedTracks(two, tasks, s, bg, i, q);
      OutcomeOf(two, tasks, s, bg, i, q);
      t := StartRun(bg, i, r);
      InOrderQuiet(s.log, s.future, order, Run(s.time, t, r.length));
      RanAlone(tasks, s.threads, t, s.time, r);
    }

    method StartRun(bg: bool, i: nat, r: Slice) returns (t: int)
      requires var l := if bg then background else queue;
               i < |l| && 0 <= l[i] < |threads|
      modifies this`queue, this`background, this`threads, this`log, this`time
      ensures t == old((if bg then background else queue)[i]) && Now() == Dispatched(old(Now()), bg, i, r)
    {
      if bg {
        t := background[i];
        background := RemoveAt(background, i);
      } else {
        t := queue[i];
        queue := RemoveAt(queue, i);
      }
      log := log + [Run(time, t, r.length)];
      threads := threads[t := Ran(threads[t], time, r)];
      time := time + r.length;
    }

    /** One round of a scheduler's loop with a thread to run. */
    method RunNext(p: Policy) returns (ghost e: Event)
      requires Ready() && (queue != [] || background != []) && two == p.TwoLevel?
      modifies this
      ensures Ready()
      ensures Left(tasks, threads) < Left(tasks, old(threads))
      ensures Decided(p, tasks, old(Now()), e) && Quiet(old(log) + [e], log)
    {
      var bg, i, q := Pick(p);
      var t := if bg then background[i] else queue[i];
      assert t in (if bg then background else queue);
      var r := RunThread(tasks[t], threads[t], q);
      e := Run(time, t, r.length);
      assert Serves(p, tasks, Now(), bg, i, q, e);
      t := Dispatch(bg, i, r, q);
      ghost var ran := log;
      Dispose(p, t, r);
      QuietTwice(old(log) + [e], ran, log);
    }

    /** The thread that has run goes to I/O, back to a queue, or is done. */
    method Dispose(p: Policy, t: int, r: Slice)
      requires Valid() && Settled(tasks, Now()) && time >= 0 && OnlyRunning(threads, t) && AllRested(Now())
      requires Outcome(tasks[t], PlaceIn(tasks[t], log, t), r)
      requires two == p.TwoLevel?
      modifies this
      ensures Ready()
      ensures Left(tasks, threads) == Left(tasks, old(threads)) - if r.status == Completed then 1 else 0
      ensures Quiet(old(log), log)
    {
      if r.status == IoBurst && r.ioTime > 0 {
        GoToIo(t, r.ioTime);
      } else if r.status != Completed {
        GoToQueue(t, p.TwoLevel? && r.status == Cpu);
      } else {
        BeDone(t);
      }
    }

    method GoToIo(t: int, d: int)
      requires Valid() && Settled(tasks, Now()) && time >= 0 && OnlyRunning(threads, t) && d > 0
      requires d == Asked(tasks[t], PlaceIn(tasks[t], log, t))
      modifies this`io, this`threads, this`log
      ensures Ready() && Left(tasks, threads) == Left(tasks, old(threads)) && Quiet(old(log), log)
    {
      QuietNext(log, log, IoWait(time, t, d));
      InOrderQuiet(log, future, order, IoWait(time, t, d));
      IoStartedReady(two, tasks, Now(), t, d);
      StartIo(t, d);
    }

    method GoToQueue(t: int, bg: bool)
      requires Valid() && Settled(tasks, Now()) && time >= 0 && OnlyRunning(threads, t) && AllRested(Now())
      requires bg <==> two && !PlaceIn(tasks[t], log, t).ended
      requires Asked(tasks[t], PlaceIn(tasks[t], log, t)) == 0
      modifies this`queue, this`background, this`threads
      ensures Ready() && Left(tasks, threads) == Left(tasks, old(threads)) && Quiet(old(log), log)
    {
      RequeuedReady(two, tasks, Now(), t, bg);
      Requeue(t, bg);
    }

    method BeDone(t: int)
      requires Valid() && Settled(tasks, Now()) && time >= 0 && OnlyRunning(threads, t)
      requires threads[t].elapsed == tasks[t].total
      modifies this`threads
      ensures Ready() && Left(tasks, threads) == Left(tasks, old(threads)) - 1 && Quiet(old(log), log)
    {
      FinishedReady(two, tasks, Now(), t);
      Finish(t);
    }

    /** Machine.io_wait. */
    method StartIo(t: int, d: int)
      requires 0 <= t < |threads|
      modifies this`io, this`threads, this`log
      ensures Now() == IoStarted(old(Now()), t, d)
    {
      log := log + [IoWait(time, t, d)];
      threads := threads[t := Blocked(threads[t], time, d)];
      io := io + [t];
    }

    /** enqueue and enqueue_cpu. */
    method Requeue(t: int, bg: bool)
      requires 0 <= t < |threads|
      modifies this`queue, this`background, this`threads
      ensures Now() == Requeued(old(Now()), t, bg)
    {
      threads := threads[t := Queued(threads[t], time, bg)];
      if bg {
        background := background + [t];
      } else {
        queue := queue + [t];
      }
    }

    method Finish(t: int)
      requires 0 <= t < |threads|
      modifies this`threads
      ensures Now() == Finished(old(Now()), t)
    {
      threads := threads[t := Completion(threads[t], time)];
    }

    /** Machine.stop. */
    method Halt()
      requires Ready() && Complete(tasks, Now())
      modifies this`log
      ensures Complete(tasks, Now()) && Books(tasks, Now()) && InOrder(log, future, order) && Quiet(old(log), log)
    {
      InOrderQuiet(log, future, order, Stop(time));
      forall t | 0 <= t < |tasks| ensures Compile(log + [Stop(time)], t) == Compile(log, t) {
        CompileNext(log, Stop(time), t);
      }
      log := log + [Stop(time)];
    }

    /** Machine.idle, until NEXT. */
    method IdleUntil(next: int)
      requires Ready() && next > time && DueAt(tasks, Now(), next)
      modifies this
      ensures Ready()
      ensures Left(tasks, threads) == Left(tasks, old(threads)) && Away(threads) < Away(old(threads))
      ensures Quiet(old(log) + [Idling(old(time), next)], log)
    {
      MoveOn(next);
      ComeIn();
    }

    /** Machine.idle, before it takes in what arrives. */
    method MoveOn(next: int)
      requires Ready() && next > time && DueAt(tasks, Now(), next)
      modifies this`time, this`log, this`idleTime
      ensures Valid() && AllRested(Now()) && DueAt(tasks, Now(), time) && NoneRunning(threads) && time == next
      ensures log == old(log) + [Idling(old(time), next)]
    {
      ghost var s := Now();
      IdledKeeps(tasks, s, next);
      IdledTracks(two, tasks, s, next);
      InOrderQuiet(s.log, s.future, order, Idling(s.time, next));
      MoveTo(next);
    }

    /** Something that is due comes in. */
    method ComeIn()
      requires Valid() && AllRested(Now()) && DueAt(tasks, Now(), time) && NoneRunning(threads) && time >= 0
      modifies this`future, this`queue, this`io, this`threads, this`log
      ensures Ready() && Quiet(old(log), log)
      ensures Left(tasks, threads) == Left(tasks, old(threads)) && Away(threads) < Away(old(threads))
    {
      ghost var s := Now();
      Arrivals();
      ArrivedSame(tasks, s.threads, threads);
      DueComesIn(tasks, s, Now());
    }

    method MoveTo(next: int)
      modifies this`time, this`log, this`idleTime
      ensures Now() == Idled(old(Now()), next)
    {
      log := log + [Idling(time, next)];
      idleTime := idleTime + Idling(time, next).length;
      time := next;
    }
  }

  /** The choice of the schedulers' dequeue: the oldest; the one with least left to run and of these the newest; or
      the oldest interactive one before the oldest in the background. */
  ghost predicate Chosen(p: Policy, s: Sim, tasks: seq<Task>, background: bool, i: int, q: int)
    requires |tasks| == |s.threads|
  {
    match p
    case Fifo(n) => !background && i == 0 < |s.queue| && q == n
    case Srtf(n) =>
      && !background && 0 <= i < |s.queue| && q == n
      && (forall j :: 0 <= j < |s.queue| ==>
            && 0 <= s.queue[i] < |tasks| && 0 <= s.queue[j] < |tasks|
            && Remaining(tasks, s.threads, s.queue[i]) <= Remaining(tasks, s.threads, s.queue[j])
            && (j > i ==> Remaining(tasks, s.threads, s.queue[i]) < Remaining(tasks, s.threads, s.queue[j])))
    case TwoLevel(a, b) =>
      i == 0 && if s.queue != [] then !background && q == a else background && s.background != [] && q == b
  }

  function Remaining(tasks: seq<Task>, threads: seq<Thread>, t: int): int
    requires 0 <= t < |tasks| == |threads|
  {
    tasks[t].total - threads[t].elapsed
  }

  /** R is what Thread.run does with the I-th thread of a queue and quantum Q. */
  ghost predicate Taken(tasks: seq<Task>, s: Sim, bg: bool, i: nat, q: nat, r: Slice)
    requires Books(tasks, s)
  {
    var l := if bg then s.background else s.queue;
    i < |l| && (assert l[i] in l; r == RunThread(tasks[l[i]], s.threads[l[i]], q))
  }

  /** Event E is the slice of the thread that the policy chooses. */
  ghost predicate Serves(p: Policy, tasks: seq<Task>, s: Sim, bg: bool, i: int, q: int, e: Event)
    requires Books(tasks, s)
  {
    && Chosen(p, s, tasks, bg, i, q) && q >= 0
    && var l := if bg then s.background else s.queue;
    && 0 <= i < |l|
    && (assert l[i] in l;
        e == Run(s.time, l[i], RunThread(tasks[l[i]], s.threads[l[i]], q).length))
  }

  /** What a scheduler does in state S, where it has a choice: a ready thread that the policy chooses runs, or with
      nobody ready the machine idles exactly until something arrives or wakes up. */
  ghost predicate Decided(p: Policy, tasks: seq<Task>, s: Sim, e: Event) {
    && Books(tasks, s) && Settled(tasks, s) && NoneRunning(s.threads) && Tracked(p.TwoLevel?, tasks, s)
    && if s.queue == [] && s.background == []
       then e.Idle? && e.at == s.time && e.length > 0 && DueAt(tasks, s, s.time + e.length)
            && Nothing(tasks, s.future, s.threads, s.io, s.time + e.length)
       else exists bg, i, q :: Serves(p, tasks, s, bg, i, q, e)
  }

  // ---------- what the policies are, by log and tasks alone ----------

  /** What task T still has to run, by the log. */
  ghost function StillToRun(tasks: seq<Task>, log: seq<Event>, t: int): int
    requires 0 <= t < |tasks|
  {
    tasks[t].total - PlaceIn(tasks[t], log, t).elapsed
  }

  /** Of those on list L task T became ready first. */
  ghost predicate ReadyFirst(log: seq<Event>, l: seq<int>, t: int) {
    t in l && forall u :: u in l && u != t ==> Earlier(LastMark(log, t), LastMark(log, u))
  }

  /** Of those on list L task T has least to run, and of these became ready last. */
  ghost predicate LeastToRun(tasks: seq<Task>, log: seq<Event>, l: seq<int>, t: int) {
    && t in l && 0 <= t < |tasks|
    && forall u :: u in l && u != t ==>
         && 0 <= u < |tasks| && StillToRun(tasks, log, t) <= StillToRun(tasks, log, u)
         && (StillToRun(tasks, log, t) == StillToRun(tasks, log, u) ==> Earlier(LastMark(log, u), LastMark(log, t)))
  }

  /** A slice of N ends with the quantum, if there is one, the CPU burst, if there is one, or the task, whatever comes
      first. */
  ghost predicate SliceOf(task: Task, p: Place, q: int, n: int) {
    var left, burst := task.total - p.elapsed, BurstOf(task, p.elapsed, p.left);
    && n <= left && (q > 0 ==> n <= q) && (burst > 0 ==> n <= burst)
    && (n == left || (q > 0 && n == q) || (burst > 0 && n == burst))
  }

  /** Round robin serves the task that has been ready longest; shortest remaining time first the one with least to run;
      two levels serve the longest ready of the first level and, if there is none, of the second, with the level's own
      quantum. */
  ghost predicate ServesByLog(p: Policy, tasks: seq<Task>, s: Sim, e: Event) {
    && e.Run? && 0 <= e.task < |tasks| && e.at == s.time
    && var t, place := e.task, PlaceIn(tasks[e.task], s.log, e.task);
    match p
    case Fifo(q) => ReadyFirst(s.log, s.queue, t) && SliceOf(tasks[t], place, q, e.length)
    case Srtf(q) => LeastToRun(tasks, s.log, s.queue, t) && SliceOf(tasks[t], place, q, e.length)
    case TwoLevel(a, b) =>
      if s.queue != [] then ReadyFirst(s.log, s.queue, t) && SliceOf(tasks[t], place, a, e.length)
      else ReadyFirst(s.log, s.background, t) && SliceOf(tasks[t], place, b, e.length)
  }

  lemma FirstReady(log: seq<Event>, l: seq<int>)
    requires InTurn(log, l) && l != []
    ensures ReadyFirst(log, l, l[0])
  {
    forall u | u in l && u != l[0] ensures Earlier(LastMark(log, l[0]), LastMark(log, u)) {
      var j :| 0 <= j < |l| && l[j] == u;
    }
  }

  lemma ShortestLeast(tasks: seq<Task>, s: Sim, i: nat)
    requires Books(tasks, s) && Tracked(false, tasks, s) && Chosen(Srtf(0), s, tasks, false, i, 0)
    ensures LeastToRun(tasks, s.log, s.queue, s.queue[i])
  {
    var t := s.queue[i];
    assert t in s.queue;
    forall u | u in s.queue && u != t
      ensures 0 <= u < |tasks| && StillToRun(tasks, s.log, t) <= StillToRun(tasks, s.log, u)
      ensures StillToRun(tasks, s.log, t) == StillToRun(tasks, s.log, u) ==>
                Earlier(LastMark(s.log, u), LastMark(s.log, t))
    {
      var j :| 0 <= j < |s.queue| && s.queue[j] == u;
      ElapsedInLog(false, tasks, s, t);
      ElapsedInLog(false, tasks, s, u);
    }
  }

  lemma ElapsedInLog(two: bool, tasks: seq<Task>, s: Sim, t: int)
    requires Tracked(two, tasks, s) && 0 <= t < |tasks|
    ensures s.threads[t].elapsed == PlaceIn(tasks[t], s.log, t).elapsed
    ensures s.threads[t].burstLeft == PlaceIn(tasks[t], s.log, t).left
  {
    assert TaskOk(tasks[t]) &&
      Traced(two, tasks[t], s.threads[t], LastMark(s.log, t), PlaceIn(tasks[t], s.log, t), Rounds(s.log));
  }

  /** Every slice that is decided on is what the policy serves, by log and tasks alone. */
  lemma DecidedByLog(p: Policy, tasks: seq<Task>, s: Sim, e: Event)
    requires Decided(p, tasks, s, e) && e.Run?
    ensures ServesByLog(p, tasks, s, e)
  {
    var bg, i, q :| Serves(p, tasks, s, bg, i, q, e);
    var l := if bg then s.background else s.queue;
    assert l[i] in l && e.task == l[i];
    ElapsedInLog(p.TwoLevel?, tasks, s, e.task);
    if p.Srtf? {
      ShortestLeast(tasks, s, i);
    } else {
      FirstReady(s.log, l);
    }
  }

  /** STEPS gives, for every slice and every idling of the log, the state it was decided in; the log up to there is that
      state's. */
  ghost predicate Explained(p: Policy, tasks: seq<Task>, log: seq<Event>, steps: map<int, Sim>) {
    forall k :: 0 <= k < |log| && (log[k].Run? || log[k].Idle?) ==>
      k in steps && steps[k].log == log[..k] && Decided(p, tasks, steps[k], log[k])
  }

  lemma ExplainedQuiet(p: Policy, tasks: seq<Task>, log: seq<Event>, steps: map<int, Sim>, log': seq<Event>)
    requires Explained(p, tasks, log, steps) && Quiet(log, log')
    ensures Explained(p, tasks, log', steps)
  {
    forall k | 0 <= k < |log'| && (log'[k].Run? || log'[k].Idle?)
      ensures k in steps && steps[k].log == log'[..k] && Decided(p, tasks, steps[k], log'[k])
    {
      assert k < |log| && log'[k] == log[k] && log'[..k] == log[..k];
    }
  }

  lemma ExplainedNext(p: Policy, tasks: seq<Task>, log: seq<Event>, steps: map<int, Sim>, s: Sim, e: Event,
                      log': seq<Event>)
    requires Explained(p, tasks, log, steps) && s.log == log && Decided(p, tasks, s, e) && Quiet(log + [e], log')
    ensures Explained(p, tasks, log', steps[|log| := s])
  {
    var more := log + [e];
    forall k | 0 <= k < |more| && (more[k].Run? || more[k].Idle?)
      ensures k in steps[|log| := s] && steps[|log| := s][k].log == more[..k]
      ensures Decided(p, tasks, steps[|log| := s][k], more[k])
    {
      assert more[..k] == log[..k];
    }
    ExplainedQuiet(p, tasks, more, steps[|log| := s], log');
  }

  /** The thread that has run is the only one on the CPU. */
  ghost predicate OnlyRunning(threads: seq<Thread>, t: int) {
    && 0 <= t < |threads| && threads[t].where == OnCpu
    && forall u :: 0 <= u < |threads| && u != t ==> threads[u].where != OnCpu
  }

  lemma RanAlone(tasks: seq<Task>, threads: seq<Thread>, t: int, time: int, r: Slice)
    requires |tasks| == |threads| && 0 <= t < |threads| && NoneRunning(threads) && threads[t].where != Done
    ensures var ran := threads[t := Ran(threads[t], time, r)];
            OnlyRunning(ran, t) && Left(tasks, ran) == Left(tasks, threads) - r.length
  {
    LeftChange(tasks, threads, threads[t := Ran(threads[t], time, r)], t);
  }

  lemma StillAlone(a: seq<Thread>, b: seq<Thread>, t: int)
    requires OnlyRunning(a, t) && Arrived(a, b)
    ensures OnlyRunning(b, t) && b[t] == a[t]
  {
  }

  /** The thread on the CPU goes somewhere else: the rest is as it was. */
  lemma PutAway(tasks: seq<Task>, s: Sim, r: Sim, t: int, th: Thread)
    requires Settled(tasks, s) && OnlyRunning(s.threads, t) && |tasks| == |s.threads|
    requires r.threads == s.threads[t := th] && th.where != OnCpu && r.time == s.time && r.future == s.future
    requires r.io == s.io || (r.io == s.io + [t] && th.wakeup > s.time)
    requires t !in s.io
    ensures Settled(tasks, r) && NoneRunning(r.threads)
    ensures Left(tasks, r.threads) ==
            Left(tasks, s.threads) + ToDo(tasks[t], th) - ToDo(tasks[t], s.threads[t])
  {
    LeftChange(tasks, s.threads, r.threads, t);
  }

  /** The machine has its books in order and no thread on the CPU. */
  ghost predicate ReadyAgain(two: bool, tasks: seq<Task>, s: Sim, left: int) {
    && Books(tasks, s) && Tracked(two, tasks, s) && Settled(tasks, s) && NoneRunning(s.threads)
    && Left(tasks, s.threads) == left
  }

  lemma OffIo(tasks: seq<Task>, s: Sim, t: int)
    requires Books(tasks, s) && OnlyRunning(s.threads, t)
    ensures t !in s.io && 0 <= t < |tasks| == |s.threads|
  {
  }

  lemma RequeuedReady(two: bool, tasks: seq<Task>, s: Sim, t: int, bg: bool)
    requires Books(tasks, s) && Tracked(two, tasks, s) && Settled(tasks, s) && OnlyRunning(s.threads, t) && AllRested(s)
    requires 0 <= t < |tasks| && (bg <==> two && !PlaceIn(tasks[t], s.log, t).ended)
    requires Asked(tasks[t], PlaceIn(tasks[t], s.log, t)) == 0
    ensures ReadyAgain(two, tasks, Requeued(s, t, bg), Left(tasks, s.threads))
  {
    OffIo(tasks, s, t);
    RequeuedKeeps(tasks, s, t, bg);
    RequeuedTracks(two, tasks, s, t, bg);
    PutAway(tasks, s, Requeued(s, t, bg), t, Queued(s.threads[t], s.time, bg));
  }

  lemma IoStartedReady(two: bool, tasks: seq<Task>, s: Sim, t: int, d: int)
    requires Books(tasks, s) && Tracked(two, tasks, s) && Settled(tasks, s) && OnlyRunning(s.threads, t)
    requires 0 <= t < |tasks| && d == Asked(tasks[t], PlaceIn(tasks[t], s.log, t)) > 0
    ensures ReadyAgain(two, tasks, IoStarted(s, t, d), Left(tasks, s.threads))
  {
    OffIo(tasks, s, t);
    IoStartedKeeps(tasks, s, t, d);
    IoStartedTracks(two, tasks, s, t, d);
    PutAway(tasks, s, IoStarted(s, t, d), t, Blocked(s.threads[t], s.time, d));
  }

  lemma FinishedReady(two: bool, tasks: seq<Task>, s: Sim, t: int)
    requires Books(tasks, s) && Tracked(two, tasks, s) && Settled(tasks, s) && OnlyRunning(s.threads, t)
    requires 0 <= t < |tasks| && s.threads[t].elapsed == tasks[t].total
    ensures ReadyAgain(two, tasks, Finished(s, t), Left(tasks, s.threads) - 1)
  {
    OffIo(tasks, s, t);
    FinishedKeeps(tasks, s, t);
    FinishedTracks(two, tasks, s, t);
    PutAway(tasks, s, Finished(s, t), t, Completion(s.threads[t], s.time));
  }

  lemma {:induction false} NothingDelivered(threads: seq<Thread>)
    requires forall t :: 0 <= t < |threads| ==> threads[t].elapsed == 0
    ensures Delivered(threads) == 0
  {
    if threads != [] {
      NothingDelivered(threads[..|threads| - 1]);
    }
  }

  lemma StartBooks(tasks: seq<Task>, s: Sim)
    requires TasksOk(tasks) && |s.threads| == |tasks| && NoDup(s.future)
    requires forall t :: t in s.future <==> 0 <= t < |tasks|
    requires forall t :: 0 <= t < |tasks| ==> s.threads[t] == Thread(Future, 0, 0, 0, 0, 0, 0, 0)
    requires s.queue == s.background == s.io == [] && s.time == s.idle == 0 && s.log == [Start]
    ensures Books(tasks, s)
  {
    NothingDelivered(s.threads);
    forall t ensures Compile([Start], t) == Absent {
      assert [] + [Start] == [Start];
      CompileNext([], Start, t);
    }
  }

  // ---------- whole runs ----------

  ghost function Demand(tasks: seq<Task>): int {
    if tasks == [] then 0 else Demand(tasks[..|tasks| - 1]) + tasks[|tasks| - 1].total
  }

  lemma {:induction false} AllDelivered(tasks: seq<Task>, threads: seq<Thread>)
    requires |threads| == |tasks| && forall t :: 0 <= t < |tasks| ==> threads[t].elapsed == tasks[t].total
    ensures Delivered(threads) == Demand(tasks)
  {
    if tasks != [] {
      AllDelivered(tasks[..|tasks| - 1], threads[..|tasks| - 1]);
    }
  }

  /** Every task is done; its time from arrival to finish is its waiting, running and I/O time; and the clock shows all
      idling and all demand. */
  ghost predicate Complete(tasks: seq<Task>, s: Sim) {
    && |s.threads| == |tasks| && s.time == s.idle + Demand(tasks)
    && forall t :: 0 <= t < |tasks| ==>
         && s.threads[t].where == Done && s.threads[t].elapsed == tasks[t].total
         && s.threads[t].finish - tasks[t].arrival == s.threads[t].wait + tasks[t].total + s.threads[t].ioTime
  }

  lemma NothingLeft(tasks: seq<Task>, s: Sim)
    requires Books(tasks, s) && NoneRunning(s.threads)
    requires s.future == s.queue == s.background == s.io == []
    ensures Complete(tasks, s)
  {
    forall t | 0 <= t < |tasks| ensures s.threads[t].where == Done {
      assert t !in s.future && t !in s.queue && t !in s.background && t !in s.io;
    }
    AllDelivered(tasks, s.threads);
  }

  /** Every task has waited for exactly the I/O that it alone determines. */
  ghost predicate IoServed(tasks: seq<Task>, s: Sim) {
    && TasksOk(tasks) && |s.threads| == |tasks|
    && forall t :: 0 <= t < |tasks| ==>
         TaskOk(tasks[t]) && (Settles(tasks[t], 0) ==> s.threads[t].ioTime == IoDemand(tasks[t], 0))
  }

  lemma AllServed(two: bool, tasks: seq<Task>, s: Sim)
    requires Complete(tasks, s) && Books(tasks, s) && Tracked(two, tasks, s)
    ensures IoServed(tasks, s)
  {
    forall t | 0 <= t < |tasks| && Settles(tasks[t], 0) ensures s.threads[t].ioTime == IoDemand(tasks[t], 0) {
      assert TaskOk(tasks[t]) &&
        Traced(two, tasks[t], s.threads[t], LastMark(s.log, t), PlaceIn(tasks[t], s.log, t), Rounds(s.log));
    }
  }

  lemma LeftIsNat(tasks: seq<Task>, s: Sim)
    requires Books(tasks, s)
    ensures Left(tasks, s.threads) >= 0
  {
    LeftNonnegative(tasks, s.threads);
  }

  lemma IdleDecided(p: Policy, tasks: seq<Task>, s: Sim, next: int)
    requires Books(tasks, s) && Settled(tasks, s) && NoneRunning(s.threads) && s.queue == [] && s.background == []
    requires Tracked(p.TwoLevel?, tasks, s)
    requires next > s.time && DueAt(tasks, s, next) && Nothing(tasks, s.future, s.threads, s.io, next)
    ensures Decided(p, tasks, s, Idling(s.time, next))
  {
    assert s.time + Idling(s.time, next).length == next;
  }

  /** One round of a scheduler's loop. */
  method Round(m: Machine, p: Policy, next: Option<int>, ghost steps: map<int, Sim>) returns (ghost more: map<int, Sim>)
    requires m.Ready() && Explained(p, m.tasks, m.log, steps)
    requires m.two == p.TwoLevel?
    requires m.queue != [] || m.background != [] || next.Some?
    requires next.Some? ==>
               && next.value > m.time && DueAt(m.tasks, m.Now(), next.value)
               && Nothing(m.tasks, m.future, m.threads, m.io, next.value)
    modifies m
    ensures m.Ready() && Explained(p, m.tasks, m.log, more)
    ensures Left(m.tasks, m.threads) <= Left(m.tasks, old(m.threads))
    ensures Left(m.tasks, m.threads) == Left(m.tasks, old(m.threads)) ==> Away(m.threads) < Away(old(m.threads))
  {
    ghost var s := m.Now();
    ghost var e;
    if m.queue == [] && m.background == [] {
      e := Idling(m.time, next.value);
      IdleDecided(p, m.tasks, s, next.value);
      m.IdleUntil(next.value);
    } else {
      e := m.RunNext(p);
    }
    ExplainedNext(p, m.tasks, s.log, steps, s, e, m.log);
    more := steps[|s.log| := s];
  }

  /** scheduler and mlfq2: they end for every workload and every quantum, and follow their policy throughout. */
  method Scheduler(tasks: seq<Task>, order: seq<int>, p: Policy) returns (m: Machine, ghost steps: map<int, Sim>)
    requires TasksOk(tasks) && Ordered(tasks, order) && NoDup(order)
    requires forall t :: t in order <==> 0 <= t < |tasks|
    ensures fresh(m) && m.tasks == tasks && Complete(tasks, m.Now()) && Books(tasks, m.Now())
    ensures FirstArrivals(m.log) == order && Explained(p, tasks, m.log, steps) && IoServed(tasks, m.Now())
  {
    m := new Machine(tasks, order, p.TwoLevel?);
    steps := map[];
    var next := m.NextStart();
    LeftIsNat(tasks, m.Now());
    while m.queue != [] || m.background != [] || (next.Some? && next.value != 0)
      invariant fresh(m) && m.tasks == tasks && m.order == order && m.two == p.TwoLevel?
      invariant m.Ready()
      invariant next.None? <==> m.future == [] && m.io == []
      invariant next.Some? ==> next.value > m.time && DueAt(tasks, m.Now(), next.value)
      invariant next.Some? ==> Nothing(tasks, m.future, m.threads, m.io, next.value)
      invariant Left(tasks, m.threads) >= 0 && Explained(p, tasks, m.log, steps)
      decreases Left(tasks, m.threads), Away(m.threads)
    {
      steps := Round(m, p, next, steps);
      LeftIsNat(tasks, m.Now());
      next := m.NextStart();
    }
    Conclude(m, p, steps);
  }

  /** The end of a scheduler, with nothing left to do. */
  method Conclude(m: Machine, ghost p: Policy, ghost steps: map<int, Sim>)
    requires m.Ready() && m.future == m.queue == m.background == m.io == [] && Explained(p, m.tasks, m.log, steps)
    modifies m`log
    ensures Complete(m.tasks, m.Now()) && Books(m.tasks, m.Now()) && IoServed(m.tasks, m.Now())
    ensures FirstArrivals(m.log) == m.order && Explained(p, m.tasks, m.log, steps)
  {
    NothingLeft(m.tasks, m.Now());
    AllServed(m.two, m.tasks, m.Now());
    ghost var log := m.log;
    m.Halt();
    ExplainedQuiet(p, m.tasks, log, steps, m.log);
    assert FirstArrivals(m.log) + [] == FirstArrivals(m.log);
  }

  // ---------- response times ----------

  function Response(c: Compiled): int {
    if c.Absent? then 0 else c.run + c.io + c.waited
  }

  /** The log alone gives every finished task's response time. */
  lemma ResponseIsFinishLessArrival(tasks: seq<Task>, s: Sim, t: int)
    requires Books(tasks, s) && Complete(tasks, s) && 0 <= t < |tasks|
    ensures Compile(s.log, t) != Absent
    ensures Response(Compile(s.log, t)) == s.threads[t].finish - tasks[t].arrival
    ensures Response(Compile(s.log, t)) == s.threads[t].wait + s.threads[t].elapsed + s.threads[t].ioTime
  {
    assert Account(tasks[t], s.threads[t], s.time) && Logged(Compile(s.log, t), s.threads[t], s.time);
  }

  /** The task an event is about, or -1. */
  function TaskOf(e: Event): int {
    match e
    case Arrive(at, t) => t
    case Run(at, t, n) => t
    case IoWait(at, t, n) => t
    case Wakeup(at, t) => t
    case _ => -1
  }

  /** DICT, with its keys in the order they came, is what the log says of all its tasks. */
  ghost predicate Dictionary(log: seq<Event>, dict: map<int, Compiled>, keys: seq<int>) {
    && NoDup(keys) && keys == FirstArrivals(log) && (forall t :: t in keys <==> t in dict)
    && (forall t :: t in dict <==> Compile(log, t) != Absent)
    && (forall t :: t in dict ==> dict[t] == Compile(log, t))
  }

  lemma DictionaryNext(log: seq<Event>, dict: map<int, Compiled>, keys: seq<int>, e: Event)
    requires Dictionary(log, dict, keys)
    ensures var t := TaskOf(e);
            var c := Note(if t in dict then dict[t] else Absent, t, e);
            if c == Absent then Dictionary(log + [e], dict, keys)
            else Dictionary(log + [e], dict[t := c], if t in dict then keys else keys + [t])
  {
    CompileAll(log, e);
    KeysNext(log, dict, keys, e);
  }

  lemma CompileAll(log: seq<Event>, e: Event)
    ensures forall t :: Compile(log + [e], t) == if t == TaskOf(e) then Note(Compile(log, t), t, e) else Compile(log, t)
  {
    forall t ensures Compile(log + [e], t) == if t == TaskOf(e) then Note(Compile(log, t), t, e) else Compile(log, t) {
      CompileNext(log, e, t);
    }
  }

  /** A task gets its key when it first arrives. */
  lemma KeysNext(log: seq<Event>, dict: map<int, Compiled>, keys: seq<int>, e: Event)
    requires Dictionary(log, dict, keys)
    ensures var t := TaskOf(e);
            var c := Note(if t in dict then dict[t] else Absent, t, e);
            && (c == Absent ==> t !in dict)
            && FirstArrivals(log + [e]) == if c == Absent || t in dict then keys else keys + [t]
  {
    ArrivalsNext(log, e);
  }

  /** responseTimes: one number for each task in the log, in order of arrival. */
  method ResponseTimes(log: seq<Event>) returns (keys: seq<int>, times: seq<int>)
    ensures NoDup(keys) && keys == FirstArrivals(log) && forall t :: t in keys <==> Compile(log, t) != Absent
    ensures |times| == |keys| && forall i :: 0 <= i < |keys| ==> times[i] == Response(Compile(log, keys[i]))
  {
    var dict;
    dict, keys := Tabulate(log);
    times := [];
    var i := 0;
    while i < |keys|
      invariant i <= |keys| && |times| == i
      invariant forall j :: 0 <= j < i ==> times[j] == Response(Compile(log, keys[j]))
    {
      var k := keys[i];
      assert k in keys && k in dict;
      times := times + [Response(dict[k])];
      i := i + 1;
    }
  }

  /** The loop of responseTimes over the log. */
  method Tabulate(log: seq<Event>) returns (dict: map<int, Compiled>, keys: seq<int>)
    ensures Dictionary(log, dict, keys)
  {
    dict, keys := map[], [];
    var i := 0;
    while i < |log|
      invariant i <= |log| && Dictionary(log[..i], dict, keys)
    {
      var t := TaskOf(log[i]);
      DictionaryNext(log[..i], dict, keys, log[i]);
      assert log[..i + 1] == log[..i] + [log[i]];
      var c := Note(if t in dict then dict[t] else Absent, t, log[i]);
      if c != Absent {
        if t !in dict {
          keys := keys + [t];
        }
        dict := dict[t := c];
      }
      i := i + 1;
    }
    assert log[..i] == log;
  }

  lemma InRest(order: seq<int>, i: nat, t: int)
    requires NoDup(order) && i < |order|
    ensures t in RemoveAt(order, i) <==> t in order && t != order[i]
  {
    var rest := RemoveAt(order, i);
    if t in rest {
      var j :| 0 <= j < |rest| && rest[j] == t;
      var k := if j < i then j else j + 1;
      assert order[k] == t && k != i;
    }
    if t in order && t != order[i] {
      var j :| 0 <= j < |order| && order[j] == t;
      assert rest[if j < i then j else j - 1] == t;
    }
  }

  /** An order of the tasks has as many elements as there are tasks. */
  lemma {:induction false} OrderSize(order: seq<int>, n: nat)
    requires NoDup(order) && forall t :: t in order <==> 0 <= t < n
    ensures |order| == n
    decreases n
  {
    if order == [] {
      assert n > 0 ==> 0 in order;
    } else {
      var first, last := order[0], n - 1;
      assert first in order && 0 <= first < n;
      assert last in order;
      var i :| 0 <= i < |order| && order[i] == last;
      var rest := RemoveAt(order, i);
      forall t ensures t in rest <==> 0 <= t < n - 1 {
        InRest(order, i, t);
      }
      OrderSize(rest, n - 1);
    }
  }

  /** One trial of an experiment: the tasks are run and measured, and every task's response time, in order of arrival,
      is its finish less its arrival. */
  method Trial(tasks: seq<Task>, order: seq<int>, p: Policy) returns (m: Machine, times: seq<int>)
    requires TasksOk(tasks) && Ordered(tasks, order) && NoDup(order)
    requires forall t :: t in order <==> 0 <= t < |tasks|
    ensures fresh(m) && |m.threads| == |tasks| == |times| == |order|
    ensures forall i :: 0 <= i < |order| ==>
              0 <= order[i] < |tasks| && times[i] == m.threads[order[i]].finish - tasks[order[i]].arrival
  {
    ghost var steps;
    m, steps := Scheduler(tasks, order, p);
    var keys;
    keys, times := ResponseTimes(m.log);
    OrderSize(order, |tasks|);
    forall i | 0 <= i < |order| ensures times[i] == m.threads[order[i]].finish - tasks[order[i]].arrival {
      assert order[i] in order;
      ResponseIsFinishLessArrival(tasks, m.Now(), order[i]);
    }
  }
}
