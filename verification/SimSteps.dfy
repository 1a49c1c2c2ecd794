/** The scheduling simulator of schedlab/scheduling.ipynb: tasks, threads, the machine's clock, queues and log, the
    steps it takes, and the bookkeeping that every step keeps.  Times are natural numbers.  Two fields of a thread are
    kept for the statements only: the I/O time it was given, and when it finished. */
module SimSteps {
  import opened Collections

  /** A task: when it arrives, how long it runs, and the lengths of its CPU and I/O bursts as functions of the time it
      has run. */
  datatype Task = Task(arrival: int, total: int, cpuBurst: int -> int, ioBurst: int -> int)

  datatype Where = Future | Interactive | Background | Waiting | OnCpu | Done

  datatype Thread = Thread(where: Where, elapsed: int, lastQueued: int, wait: int, burstLeft: int, wakeup: int,
                           ioTime: int, finish: int)

  datatype Event = Start | Arrive(at: int, task: int) | Run(at: int, task: int, length: int)
    | IoWait(at: int, task: int, length: int) | Wakeup(at: int, task: int) | Idle(at: int, length: int) | Stop(at: int)

  datatype Sim = Sim(time: int, idle: int, future: seq<int>, queue: seq<int>, background: seq<int>, io: seq<int>,
                     threads: seq<Thread>, log: seq<Event>)

  ghost predicate TasksOk(tasks: seq<Task>) {
    forall t :: 0 <= t < |tasks| ==>
      && tasks[t].arrival >= 0 && tasks[t].total >= 0
      && (forall e :: tasks[t].cpuBurst(e) >= 0) && (forall e :: tasks[t].ioBurst(e) >= 0)
  }

  // ---------- Thread.run ----------

  datatype Status = Cpu | IoBurst | Completed

  /** What Thread.run returns, and the burst left afterwards. */
  datatype Slice = Slice(length: int, status: Status, ioTime: int, burstLeft: int)

  /** A quantum of 0 is none. */
  function Limit(q: int, n: int): int {
    if q == 0 then n else Min(q, n)
  }

  /** The CPU burst that a thread goes on with or begins; 0 if it does not wait for I/O any more. */
  function BurstOf(task: Task, elapsed: int, burstLeft: int): int {
    if burstLeft > 0 then burstLeft else task.cpuBurst(elapsed)
  }

  /** A thread runs until its quantum is over, its burst ends or it is done, whichever comes first; at the end of a
      burst it asks for I/O. */
  function RunThread(task: Task, th: Thread, q: int): (r: Slice)
    requires q >= 0 && 0 <= th.elapsed <= task.total && th.burstLeft >= 0
    requires forall e :: task.cpuBurst(e) >= 0
    requires forall e :: task.ioBurst(e) >= 0
    ensures var left, burst := task.total - th.elapsed, BurstOf(task, th.elapsed, th.burstLeft);
            && 0 <= r.length <= left && (q > 0 ==> r.length <= q) && (burst > 0 ==> r.length <= burst)
            && (r.length == left || (q > 0 && r.length == q) || (burst > 0 && r.length == burst))
            && r.burstLeft == (if burst > 0 then burst - r.length else 0)
            && r.ioTime == (if burst > 0 && r.length == burst then task.ioBurst(th.elapsed + r.length) else 0)
            && (r.status == Completed <==> r.length == left)
            && (r.status == IoBurst <==> r.length < left && burst > 0 && r.length == burst)
    ensures r.status != Completed ==> r.length > 0
  {
    var left := task.total - th.elapsed;
    var burst := task.cpuBurst(th.elapsed);
    var r :=
      if th.burstLeft > 0 then
        var n := Min(Limit(q, th.burstLeft), left);
        if th.burstLeft - n > 0 then Slice(n, Cpu, 0, th.burstLeft - n)
        else Slice(n, IoBurst, task.ioBurst(th.elapsed + n), 0)
      else if burst == 0 then Slice(Limit(q, left), Cpu, 0, 0)
      else
        var n := Min(Limit(q, burst), left);
        if n < burst then Slice(n, Cpu, 0, burst - n) else Slice(n, IoBurst, task.ioBurst(th.elapsed + n), 0);
    if th.elapsed + r.length >= task.total then r.(status := Completed) else r
  }

  // ---------- what the log says of one task ----------

  /** The entry of responseTimes' dictionary for a task: last ready time, run time, I/O time, waiting time. */
  datatype Compiled = Absent | Compiled(last: int, run: int, io: int, waited: int)

  function Note(c: Compiled, t: int, e: Event): Compiled {
    match e
    case Arrive(at, u) => if u == t then Compiled(at, 0, 0, 0) else c
    case Run(at, u, n) =>
      if u == t && c.Compiled? then Compiled(at + n, c.run + n, c.io, c.waited + (at - c.last)) else c
    case IoWait(at, u, n) => if u == t && c.Compiled? then c.(io := c.io + n) else c
    case Wakeup(at, u) => if u == t && c.Compiled? then c.(last := at) else c
    case _ => c
  }

  ghost function Compile(log: seq<Event>, t: int): Compiled {
    if log == [] then Absent else Note(Compile(log[..|log| - 1], t), t, log[|log| - 1])
  }

  lemma CompileNext(log: seq<Event>, e: Event, t: int)
    ensures Compile(log + [e], t) == Note(Compile(log, t), t, e)
  {
    assert (log + [e])[..|log|] == log;
  }

  /** The tasks of the log in the order they first arrived. */
  ghost function FirstArrivals(log: seq<Event>): seq<int> {
    if log == [] then []
    else
      var l, e := FirstArrivals(log[..|log| - 1]), log[|log| - 1];
      if e.Arrive? && e.task !in l then l + [e.task] else l
  }

  lemma ArrivalsNext(log: seq<Event>, e: Event)
    ensures var l := FirstArrivals(log);
            FirstArrivals(log + [e]) == if e.Arrive? && e.task !in l then l + [e.task] else l
  {
    assert (log + [e])[..|log|] == log;
  }

  /** The tasks have arrived in ORDER so far, and FUTURE is the rest of it. */
  ghost predicate InOrder(log: seq<Event>, future: seq<int>, order: seq<int>) {
    FirstArrivals(log) + future == order
  }

  lemma InOrderQuiet(log: seq<Event>, future: seq<int>, order: seq<int>, e: Event)
    requires InOrder(log, future, order) && !e.Arrive?
    ensures InOrder(log + [e], future, order)
  {
    ArrivalsNext(log, e);
  }

  lemma InOrderArrive(log: seq<Event>, future: seq<int>, order: seq<int>, at: int)
    requires InOrder(log, future, order) && NoDup(order) && future != []
    ensures InOrder(log + [Arrive(at, future[0])], RemoveAt(future, 0), order)
  {
    ArrivalsNext(log, Arrive(at, future[0]));
    FirstMoves(FirstArrivals(log), future, order);
  }

  lemma FirstMoves(l: seq<int>, future: seq<int>, order: seq<int>)
    requires l + future == order && NoDup(order) && future != []
    ensures future[0] !in l && l + [future[0]] + RemoveAt(future, 0) == order
  {
    assert order[|l|] == future[0];
    assert forall i :: 0 <= i < |l| ==> order[i] == l[i];
    assert RemoveAt(future, 0) == future[1..];
  }

  /** From log A to log B nothing has been decided: no thread has run, and there was no idling. */
  ghost predicate Quiet(a: seq<Event>, b: seq<Event>) {
    && |a| <= |b| && (forall k :: 0 <= k < |a| ==> b[k] == a[k])
    && forall k :: |a| <= k < |b| ==> !b[k].Run? && !b[k].Idle?
  }

  lemma QuietNext(a: seq<Event>, b: seq<Event>, e: Event)
    requires Quiet(a, b) && !e.Run? && !e.Idle?
    ensures Quiet(a, b + [e])
  {
  }

  lemma QuietTwice(a: seq<Event>, b: seq<Event>, c: seq<Event>)
    requires Quiet(a, b) && Quiet(b, c)
    ensures Quiet(a, c)
  {
  }

  // ---------- the books ----------

  /** Every unit of a thread's time since it arrived is waiting, running or I/O. */
  ghost predicate Account(task: Task, th: Thread, time: int) {
    var spent := task.arrival + th.wait + th.elapsed + th.ioTime;
    && 0 <= th.elapsed <= task.total && th.burstLeft >= 0
    && match th.where
       case Future => th.elapsed == 0 && th.wait == 0 && th.ioTime == 0
       case Interactive => th.lastQueued == spent <= time
       case Background => th.lastQueued == spent <= time
       case Waiting => th.wakeup == spent
       case OnCpu => time == spent
       case Done => th.finish == spent <= time && th.elapsed == task.total
  }

  /** The log agrees with the thread. */
  ghost predicate Logged(c: Compiled, th: Thread, time: int) {
    if th.where == Future then c == Absent
    else
      && c.Compiled? && c.run == th.elapsed && c.io == th.ioTime && c.waited == th.wait
      && (th.where == Interactive || th.where == Background ==> c.last == th.lastQueued)
      && (th.where == OnCpu ==> c.last == time)
  }

  /** L lists the threads that are where W says, each once. */
  ghost predicate Lists(threads: seq<Thread>, l: seq<int>, w: Where) {
    NoDup(l) && forall t :: t in l <==> 0 <= t < |threads| && threads[t].where == w
  }

  ghost function Delivered(threads: seq<Thread>): int {
    if threads == [] then 0 else Delivered(threads[..|threads| - 1]) + threads[|threads| - 1].elapsed
  }

  ghost predicate Queues(s: Sim) {
    && Lists(s.threads, s.future, Future) && Lists(s.threads, s.queue, Interactive)
    && Lists(s.threads, s.background, Background) && Lists(s.threads, s.io, Waiting)
  }

  ghost predicate Books(tasks: seq<Task>, s: Sim) {
    && TasksOk(tasks) && |s.threads| == |tasks| && Queues(s)
    && (forall t :: 0 <= t < |tasks| ==>
          Account(tasks[t], s.threads[t], s.time) && Logged(Compile(s.log, t), s.threads[t], s.time))
    && s.time == s.idle + Delivered(s.threads)
  }

  /** Nothing that should have arrived or woken up by now is left behind. */
  ghost predicate Settled(tasks: seq<Task>, s: Sim) {
    && (forall t :: t in s.future && 0 <= t < |tasks| ==> tasks[t].arrival > s.time)
    && (forall t :: t in s.io && 0 <= t < |s.threads| ==> s.threads[t].wakeup > s.time)
  }

  // ---------- one thread moves ----------

  lemma {:induction false} DeliveredUpdate(threads: seq<Thread>, t: nat, th: Thread)
    requires t < |threads|
    ensures Delivered(threads[t := th]) == Delivered(threads) - threads[t].elapsed + th.elapsed
  {
    var n := |threads| - 1;
    if t == n {
      assert threads[t := th][..n] == threads[..n];
    } else {
      assert threads[t := th][..n] == threads[..n][t := th];
      DeliveredUpdate(threads[..n], t, th);
    }
  }

  /** A list the thread leaves. */
  lemma ListLeft(threads: seq<Thread>, l: seq<int>, w: Where, i: nat, th: Thread)
    requires Lists(threads, l, w) && i < |l| && th.where != w
    ensures 0 <= l[i] < |threads| && Lists(threads[l[i] := th], RemoveAt(l, i), w)
  {
    assert l[i] in l;
    forall t ensures t in RemoveAt(l, i) <==> t in l && t != l[i] {
      if t in l && t != l[i] {
        var j :| 0 <= j < |l| && l[j] == t;
        assert RemoveAt(l, i)[if j < i then j else j - 1] == t;
      }
    }
  }

  lemma ListJoined(threads: seq<Thread>, l: seq<int>, w: Where, t: int, th: Thread)
    requires Lists(threads, l, w) && 0 <= t < |threads| && threads[t].where != w && th.where == w
    ensures Lists(threads[t := th], l + [t], w)
  {
    assert t !in l;
  }

  lemma ListSame(threads: seq<Thread>, l: seq<int>, w: Where, t: int, th: Thread)
    requires Lists(threads, l, w) && 0 <= t < |threads| && threads[t].where != w && th.where != w
    ensures Lists(threads[t := th], l, w)
  {
  }

  ghost predicate NoneRunning(threads: seq<Thread>) {
    forall t :: 0 <= t < |threads| ==> threads[t].where != OnCpu
  }

  /** The event is not about task U. */
  ghost predicate Elsewhere(e: Event, u: int) {
    forall c :: Note(c, u, e) == c
  }

  /** The books of a thread that a step does not touch. */
  lemma OtherBooks(task: Task, th: Thread, time: int, time': int, log: seq<Event>, e: Event, u: int)
    requires Account(task, th, time) && Logged(Compile(log, u), th, time) && Elsewhere(e, u)
    requires time == time' || (time < time' && th.where != OnCpu)
    ensures Account(task, th, time') && Logged(Compile(log + [e], u), th, time')
  {
    CompileNext(log, e, u);
  }

  /** The books after thread T has become TH and event E has been logged. */
  lemma StepBooks(tasks: seq<Task>, s: Sim, r: Sim, t: int, th: Thread, e: Event)
    requires Books(tasks, s) && 0 <= t < |tasks| && r.threads == s.threads[t := th] && r.log == s.log + [e]
    requires r.time == s.time || (s.time < r.time && NoneRunning(s.threads))
    requires forall u :: 0 <= u < |tasks| && u != t ==> Elsewhere(e, u)
    requires Account(tasks[t], th, r.time) && Logged(Note(Compile(s.log, t), t, e), th, r.time) && Queues(r)
    requires r.time - r.idle == s.time - s.idle + th.elapsed - s.threads[t].elapsed
    ensures Books(tasks, r)
  {
    DeliveredUpdate(s.threads, t, th);
    CompileNext(s.log, e, t);
    forall u | 0 <= u < |tasks| && u != t
      ensures Account(tasks[u], r.threads[u], r.time) && Logged(Compile(r.log, u), r.threads[u], r.time)
    {
      OtherBooks(tasks[u], s.threads[u], s.time, r.time, s.log, e, u);
    }
  }

  /** The same without an event. */
  lemma QuietBooks(tasks: seq<Task>, s: Sim, r: Sim, t: int, th: Thread)
    requires Books(tasks, s) && 0 <= t < |tasks| && r.threads == s.threads[t := th] && r.log == s.log
    requires r.time == s.time && r.idle == s.idle && th.elapsed == s.threads[t].elapsed
    requires Account(tasks[t], th, r.time) && Logged(Compile(s.log, t), th, r.time) && Queues(r)
    ensures Books(tasks, r)
  {
    DeliveredUpdate(s.threads, t, th);
  }

  // ---------- steps ----------

  /** A task arrives: thread I of the future. */
  ghost function Entered(tasks: seq<Task>, s: Sim, i: nat): Sim
    requires i < |s.future| && 0 <= s.future[i] < |tasks| == |s.threads|
  {
    var t := s.future[i];
    var at := tasks[t].arrival;
    s.(future := RemoveAt(s.future, i), queue := s.queue + [t],
       threads := s.threads[t := s.threads[t].(where := Interactive, lastQueued := at)], log := s.log + [Arrive(at, t)])
  }

  lemma EnteredKeeps(tasks: seq<Task>, s: Sim, i: nat)
    requires Books(tasks, s) && i < |s.future|
    ensures 0 <= s.future[i] < |tasks|
    ensures tasks[s.future[i]].arrival <= s.time ==> Books(tasks, Entered(tasks, s, i))
  {
    var t := s.future[i];
    assert t in s.future;
    var at := tasks[t].arrival;
    var th := s.threads[t].(where := Interactive, lastQueued := at);
    if at <= s.time {
      ListLeft(s.threads, s.future, Future, i, th);
      ListJoined(s.threads, s.queue, Interactive, t, th);
      ListSame(s.threads, s.background, Background, t, th);
      ListSame(s.threads, s.io, Waiting, t, th);
      StepBooks(tasks, s, Entered(tasks, s, i), t, th, Arrive(at, t));
    }
  }

  /** An I/O wait is over: thread I of those waiting. */
  ghost function Woken(s: Sim, i: nat): Sim
    requires i < |s.io| && 0 <= s.io[i] < |s.threads|
  {
    var t := s.io[i];
    var at := s.threads[t].wakeup;
    s.(io := RemoveAt(s.io, i), queue := s.queue + [t],
       threads := s.threads[t := s.threads[t].(where := Interactive, lastQueued := at)], log := s.log + [Wakeup(at, t)])
  }

  lemma WokenKeeps(tasks: seq<Task>, s: Sim, i: nat)
    requires Books(tasks, s) && i < |s.io|
    ensures 0 <= s.io[i] < |tasks|
    ensures s.threads[s.io[i]].wakeup <= s.time ==> Books(tasks, Woken(s, i))
  {
    var t := s.io[i];
    assert t in s.io;
    var at := s.threads[t].wakeup;
    var th := s.threads[t].(where := Interactive, lastQueued := at);
    if at <= s.time {
      ListLeft(s.threads, s.io, Waiting, i, th);
      ListJoined(s.threads, s.queue, Interactive, t, th);
      ListSame(s.threads, s.background, Background, t, th);
      ListSame(s.threads, s.future, Future, t, th);
      StepBooks(tasks, s, Woken(s, i), t, th, Wakeup(at, t));
    }
  }

  /** The thread after it is taken off its queue and has run. */
  function Ran(th: Thread, time: int, r: Slice): Thread {
    th.(where := OnCpu, wait := th.wait + (time - th.lastQueued), elapsed := th.elapsed + r.length,
        burstLeft := r.burstLeft)
  }

  /** Thread I of the interactive or the background queue is taken off it and runs. */
  ghost function Dispatched(s: Sim, background: bool, i: nat, r: Slice): Sim
    requires var l := if background then s.background else s.queue;
             i < |l| && 0 <= l[i] < |s.threads|
  {
    var t := if background then s.background[i] else s.queue[i];
    Sim(s.time + r.length, s.idle, s.future, if background then s.queue else RemoveAt(s.queue, i),
        if background then RemoveAt(s.background, i) else s.background, s.io,
        s.threads[t := Ran(s.threads[t], s.time, r)], s.log + [Run(s.time, t, r.length)])
  }

  lemma DispatchedKeeps(tasks: seq<Task>, s: Sim, background: bool, i: nat, r: Slice)
    requires Books(tasks, s) && NoneRunning(s.threads)
    requires var l := if background then s.background else s.queue;
             i < |l| && 0 <= l[i] < |tasks| && 0 <= r.length <= tasks[l[i]].total - s.threads[l[i]].elapsed
    requires r.burstLeft >= 0
    ensures Books(tasks, Dispatched(s, background, i, r))
  {
    var l := if background then s.background else s.queue;
    var t := l[i];
    var th := Ran(s.threads[t], s.time, r);
    assert t in l;
    if background {
      ListLeft(s.threads, s.background, Background, i, th);
      ListSame(s.threads, s.queue, Interactive, t, th);
    } else {
      ListLeft(s.threads, s.queue, Interactive, i, th);
      ListSame(s.threads, s.background, Background, t, th);
    }
    ListSame(s.threads, s.future, Future, t, th);
    ListSame(s.threads, s.io, Waiting, t, th);
    StepBooks(tasks, s, Dispatched(s, background, i, r), t, th, Run(s.time, t, r.length));
  }

  function Blocked(th: Thread, time: int, d: int): Thread {
    th.(where := Waiting, wakeup := time + d, ioTime := th.ioTime + d)
  }

  /** Machine.io_wait. */
  ghost function IoStarted(s: Sim, t: int, d: int): Sim
    requires 0 <= t < |s.threads|
  {
    s.(io := s.io + [t], threads := s.threads[t := Blocked(s.threads[t], s.time, d)],
       log := s.log + [IoWait(s.time, t, d)])
  }

  lemma IoStartedKeeps(tasks: seq<Task>, s: Sim, t: int, d: int)
    requires Books(tasks, s) && 0 <= t < |tasks| && s.threads[t].where == OnCpu && d >= 0
    ensures Books(tasks, IoStarted(s, t, d))
  {
    var th := Blocked(s.threads[t], s.time, d);
    ListJoined(s.threads, s.io, Waiting, t, th);
    ListSame(s.threads, s.queue, Interactive, t, th);
    ListSame(s.threads, s.background, Background, t, th);
    ListSame(s.threads, s.future, Future, t, th);
    StepBooks(tasks, s, IoStarted(s, t, d), t, th, IoWait(s.time, t, d));
  }

  function Queued(th: Thread, time: int, background: bool): Thread {
    th.(where := if background then Background else Interactive, lastQueued := time)
  }

  /** The thread goes back to a queue. */
  ghost function Requeued(s: Sim, t: int, background: bool): Sim
    requires 0 <= t < |s.threads|
  {
    var th := Queued(s.threads[t], s.time, background);
    s.(queue := if background then s.queue else s.queue + [t],
       background := if background then s.background + [t] else s.background, threads := s.threads[t := th])
  }

  lemma RequeuedKeeps(tasks: seq<Task>, s: Sim, t: int, background: bool)
    requires Books(tasks, s) && 0 <= t < |tasks| && s.threads[t].where == OnCpu
    ensures Books(tasks, Requeued(s, t, background))
  {
    var th := Queued(s.threads[t], s.time, background);
    if background {
      ListJoined(s.threads, s.background, Background, t, th);
      ListSame(s.threads, s.queue, Interactive, t, th);
    } else {
      ListJoined(s.threads, s.queue, Interactive, t, th);
      ListSame(s.threads, s.background, Background, t, th);
    }
    ListSame(s.threads, s.io, Waiting, t, th);
    ListSame(s.threads, s.future, Future, t, th);
    QuietBooks(tasks, s, Requeued(s, t, background), t, th);
  }

  function Completion(th: Thread, time: int): Thread {
    th.(where := Done, finish := time)
  }

  /** The thread is done. */
  ghost function Finished(s: Sim, t: int): Sim
    requires 0 <= t < |s.threads|
  {
    s.(threads := s.threads[t := Completion(s.threads[t], s.time)])
  }

  lemma FinishedKeeps(tasks: seq<Task>, s: Sim, t: int)
    requires Books(tasks, s) && 0 <= t < |tasks| && s.threads[t].where == OnCpu
    requires s.threads[t].elapsed == tasks[t].total
    ensures Books(tasks, Finished(s, t))
  {
    var th := Completion(s.threads[t], s.time);
    ListSame(s.threads, s.queue, Interactive, t, th);
    ListSame(s.threads, s.background, Background, t, th);
    ListSame(s.threads, s.io, Waiting, t, th);
    ListSame(s.threads, s.future, Future, t, th);
    QuietBooks(tasks, s, Finished(s, t), t, th);
  }

  /** What the log says of idling from one time to another. */
  function Idling(from: int, to: int): Event {
    Event.Idle(from, to - from)
  }

  /** Machine.idle, before it takes in what arrives. */
  ghost function Idled(s: Sim, to: int): Sim {
    s.(time := to, idle := s.idle + Idling(s.time, to).length, log := s.log + [Idling(s.time, to)])
  }

  lemma IdledKeeps(tasks: seq<Task>, s: Sim, to: int)
    requires Books(tasks, s) && NoneRunning(s.threads) && to > s.time
    ensures Books(tasks, Idled(s, to))
  {
    var e := Idling(s.time, to);
    forall u | 0 <= u < |tasks|
      ensures Account(tasks[u], s.threads[u], to) && Logged(Compile(s.log + [e], u), s.threads[u], to)
    {
      OtherBooks(tasks[u], s.threads[u], s.time, to, s.log, e, u);
    }
  }
}
