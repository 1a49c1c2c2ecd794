/** What the log and the tasks alone say of a thread of the simulator: how far it is into its CPU burst, when it last
    became ready, and how much I/O there is to do; and that the machine's threads and queues agree with it
    (schedlab/scheduling.ipynb). */
module SimTrace {
  import opened Collections
  import opened SimSteps
  import opened SimBursts

  // ---------- when a thread last became ready ----------

  /** The number of scheduling decisions in the log. */
  ghost function Rounds(log: seq<Event>): nat {
    if log == [] then 0
    else
      var e := log[|log| - 1];
      Rounds(log[..|log| - 1]) + if e.Run? || e.Idle? then 1 else 0
  }

  /** The last of a task's arrival, wakeups and slices: it came in during a round, as an event of the log, or it ran, up
      to the end of a round. */
  datatype Mark = Never | Came(round: nat, index: nat) | HasRun(round: nat)

  ghost function LastMark(log: seq<Event>, t: int): (m: Mark)
    ensures m.Came? ==> m.round <= Rounds(log) && m.index < |log|
    ensures m.HasRun? ==> m.round <= Rounds(log)
  {
    if log == [] then Never else MarkAfter(LastMark(log[..|log| - 1], t), Rounds(log), |log| - 1, log[|log| - 1], t)
  }

  /** The mark after event E, the one at INDEX, in ROUND. */
  function MarkAfter(m: Mark, round: nat, index: nat, e: Event, t: int): Mark {
    if (e.Arrive? || e.Wakeup?) && e.task == t then Came(round, index)
    else if e.Run? && e.task == t then HasRun(round)
    else m
  }

  /** The thread of mark A became ready before the one of mark B: the one that runs becomes ready again when the round
      ends, after all that come in during it. */
  predicate Earlier(a: Mark, b: Mark) {
    match (a, b)
    case (Came(r, i), Came(s, j)) => i < j
    case (Came(r, i), HasRun(s)) => r <= s
    case (HasRun(r), Came(s, j)) => r < s
    case (HasRun(r), HasRun(s)) => r < s
    case _ => false
  }

  /** The threads of L in the order in which they last became ready. */
  ghost predicate InTurn(log: seq<Event>, l: seq<int>) {
    forall i, j :: 0 <= i < j < |l| ==> Earlier(LastMark(log, l[i]), LastMark(log, l[j]))
  }

  /** None of L has run in the round that goes on. */
  ghost predicate Rested(log: seq<Event>, l: seq<int>) {
    forall i :: 0 <= i < |l| ==> var m := LastMark(log, l[i]);
                                 m.Came? || (m.HasRun? && m.round < Rounds(log))
  }

  // ---------- where a thread is in its task ----------

  function Moved(task: Task, p: Place, e: Event, t: int): Place {
    if e.Run? && e.task == t then Further(task, p, e.length) else p
  }

  /** Where the slices in the log have brought a task. */
  ghost function PlaceIn(task: Task, log: seq<Event>, t: int): Place {
    if log == [] then START else Moved(task, PlaceIn(task, log[..|log| - 1], t), log[|log| - 1], t)
  }

  lemma MarkNext(log: seq<Event>, e: Event, t: int)
    ensures Rounds(log + [e]) == Rounds(log) + if e.Run? || e.Idle? then 1 else 0
    ensures LastMark(log + [e], t) == MarkAfter(LastMark(log, t), Rounds(log + [e]), |log|, e, t)
  {
    assert (log + [e])[..|log|] == log;
  }

  lemma PlaceNext(task: Task, log: seq<Event>, e: Event, t: int)
    ensures PlaceIn(task, log + [e], t) == Moved(task, PlaceIn(task, log, t), e, t)
  {
    assert (log + [e])[..|log|] == log;
  }

  // ---------- threads and log agree ----------

  /** The I/O that a thread at place P was given, is about to get, and has to come is what its task alone determines, if
      it does. */
  ghost predicate IoOk(task: Task, th: Thread, p: Place)
    requires TaskOk(task)
  {
    Settles(task, 0) ==>
      && Settles(task, p.elapsed + p.left)
      && th.ioTime + (if th.where == OnCpu then Asked(task, p) else 0) + IoAhead(task, p) == IoDemand(task, 0)
  }

  /** Where a thread may be by its last mark.  With two levels it is in the background exactly if its last slice has not
      ended a burst. */
  ghost predicate WhereOk(two: bool, w: Where, m: Mark, ended: bool, rounds: nat) {
    match w
    case Future => m == Never
    case Interactive => m.Came? || (m.HasRun? && (two ==> ended))
    case Background => two && m.HasRun? && !ended
    case OnCpu => m == HasRun(rounds)
    case _ => true
  }

  ghost predicate Traced(two: bool, task: Task, th: Thread, m: Mark, p: Place, rounds: nat)
    requires TaskOk(task)
  {
    && th.elapsed == p.elapsed && th.burstLeft == p.left && WhereOk(two, th.where, m, p.ended, rounds)
    && IoOk(task, th, p)
  }

  ghost predicate ThreadsTraced(two: bool, tasks: seq<Task>, threads: seq<Thread>, log: seq<Event>) {
    && TasksOk(tasks) && |threads| == |tasks|
    && forall t :: 0 <= t < |tasks| ==>
         TaskOk(tasks[t]) && Traced(two, tasks[t], threads[t], LastMark(log, t), PlaceIn(tasks[t], log, t), Rounds(log))
  }

  /** The threads are where the log says, and both queues are in order. */
  ghost predicate Tracked(two: bool, tasks: seq<Task>, s: Sim) {
    ThreadsTraced(two, tasks, s.threads, s.log) && InTurn(s.log, s.queue) && InTurn(s.log, s.background)
  }

  /** With two levels a ready thread is in the background exactly if its last arrival, wakeup or slice was a slice that
      did not end a CPU burst; with one level there is no background. */
  lemma BackgroundIff(two: bool, tasks: seq<Task>, s: Sim, t: int)
    requires Books(tasks, s) && Tracked(two, tasks, s) && (t in s.queue || t in s.background)
    ensures 0 <= t < |tasks|
    ensures t in s.background <==> two && LastMark(s.log, t).HasRun? && !PlaceIn(tasks[t], s.log, t).ended
  {
    assert TaskOk(tasks[t]) &&
      Traced(two, tasks[t], s.threads[t], LastMark(s.log, t), PlaceIn(tasks[t], s.log, t), Rounds(s.log));
  }

  lemma NoBackground(tasks: seq<Task>, s: Sim)
    requires Books(tasks, s) && Tracked(false, tasks, s)
    ensures s.background == []
  {
    if s.background != [] {
      assert s.background[0] in s.background;
      BackgroundIff(false, tasks, s, s.background[0]);
    }
  }

  /** No ready thread has run in the round that goes on. */
  ghost predicate AllRested(s: Sim) {
    Rested(s.log, s.queue) && Rested(s.log, s.background)
  }

  // ---------- lists ----------

  /** The event is no arrival, wakeup or slice of a thread of L. */
  ghost predicate NotAbout(e: Event, l: seq<int>) {
    e.Arrive? || e.Wakeup? || e.Run? ==> e.task !in l
  }

  lemma InTurnKept(log: seq<Event>, e: Event, l: seq<int>)
    requires InTurn(log, l) && NotAbout(e, l)
    ensures InTurn(log + [e], l) && (Rested(log, l) ==> Rested(log + [e], l))
  {
    forall i | 0 <= i < |l|
      ensures LastMark(log + [e], l[i]) == LastMark(log, l[i]) && Rounds(log + [e]) >= Rounds(log)
    {
      MarkNext(log, e, l[i]);
      assert l[i] in l;
    }
  }

  /** A decision ends the round. */
  lemma RoundEnds(log: seq<Event>, e: Event, l: seq<int>)
    requires NotAbout(e, l) && (e.Run? || e.Idle?) && forall i :: 0 <= i < |l| ==> LastMark(log, l[i]) != Never
    ensures Rested(log + [e], l)
  {
    forall i | 0 <= i < |l|
      ensures var m := LastMark(log + [e], l[i]);
              m.Came? || (m.HasRun? && m.round < Rounds(log + [e]))
    {
      MarkNext(log, e, l[i]);
      assert l[i] in l;
    }
  }

  lemma InTurnJoin(log: seq<Event>, e: Event, l: seq<int>, t: int)
    requires InTurn(log, l) && Rested(log, l) && t !in l && (e.Arrive? || e.Wakeup?) && e.task == t
    ensures InTurn(log + [e], l + [t]) && Rested(log + [e], l + [t])
  {
    InTurnKept(log, e, l);
    MarkNext(log, e, t);
    forall i | 0 <= i < |l| ensures LastMark(log + [e], l[i]) == LastMark(log, l[i]) {
      MarkNext(log, e, l[i]);
      assert l[i] in l;
    }
  }

  lemma InTurnLeave(log: seq<Event>, l: seq<int>, i: nat)
    requires InTurn(log, l) && i < |l|
    ensures InTurn(log, RemoveAt(l, i))
  {
    var r := RemoveAt(l, i);
    forall a, b | 0 <= a < b < |r| ensures Earlier(LastMark(log, r[a]), LastMark(log, r[b])) {
      var x, y := if a < i then a else a + 1, if b < i then b else b + 1;
      assert r[a] == l[x] && r[b] == l[y];
    }
  }

  lemma InTurnBack(log: seq<Event>, l: seq<int>, t: int)
    requires InTurn(log, l) && Rested(log, l) && LastMark(log, t) == HasRun(Rounds(log))
    ensures InTurn(log, l + [t])
  {
  }

  // ---------- threads ----------

  /** The event is not about task U, and is no decision that another thread's slice could be taken for. */
  lemma OtherTraced(two: bool, task: Task, th: Thread, log: seq<Event>, e: Event, u: int)
    requires TaskOk(task)
    requires Traced(two, task, th, LastMark(log, u), PlaceIn(task, log, u), Rounds(log))
    requires (e.Arrive? || e.Wakeup? || e.Run? ==> e.task != u) && (e.Run? || e.Idle? ==> th.where != OnCpu)
    ensures Traced(two, task, th, LastMark(log + [e], u), PlaceIn(task, log + [e], u), Rounds(log + [e]))
  {
    MarkNext(log, e, u);
    PlaceNext(task, log, e, u);
  }

  /** Thread T has become TH and event E has been logged. */
  lemma StepTraced(two: bool, tasks: seq<Task>, threads: seq<Thread>, log: seq<Event>, t: int, th: Thread, e: Event)
    requires ThreadsTraced(two, tasks, threads, log) && 0 <= t < |tasks|
    requires e.Arrive? || e.Wakeup? || e.Run? ==> e.task == t
    requires e.Run? || e.Idle? ==> NoneRunning(threads)
    requires Traced(two, tasks[t], th, LastMark(log + [e], t), PlaceIn(tasks[t], log + [e], t), Rounds(log + [e]))
    ensures ThreadsTraced(two, tasks, threads[t := th], log + [e])
  {
    forall u | 0 <= u < |tasks| && u != t
      ensures Traced(two, tasks[u], threads[u], LastMark(log + [e], u), PlaceIn(tasks[u], log + [e], u),
                     Rounds(log + [e]))
    {
      OtherTraced(two, tasks[u], threads[u], log, e, u);
    }
  }

  /** The same without an event. */
  lemma QuietTraced(two: bool, tasks: seq<Task>, threads: seq<Thread>, log: seq<Event>, t: int, th: Thread)
    requires ThreadsTraced(two, tasks, threads, log) && 0 <= t < |tasks|
    requires Traced(two, tasks[t], th, LastMark(log, t), PlaceIn(tasks[t], log, t), Rounds(log))
    ensures ThreadsTraced(two, tasks, threads[t := th], log)
  {
  }

  /** A thread that comes in. */
  lemma CameTraced(two: bool, task: Task, th: Thread, now: Thread, log: seq<Event>, e: Event, t: int)
    requires TaskOk(task)
    requires Traced(two, task, th, LastMark(log, t), PlaceIn(task, log, t), Rounds(log)) && th.where != OnCpu
    requires now == th.(where := Interactive, lastQueued := now.lastQueued)
    requires (e.Arrive? || e.Wakeup?) && e.task == t
    ensures Traced(two, task, now, LastMark(log + [e], t), PlaceIn(task, log + [e], t), Rounds(log + [e]))
  {
    MarkNext(log, e, t);
    PlaceNext(task, log, e, t);
  }

  // ---------- steps ----------

  lemma EnteredTracks(two: bool, tasks: seq<Task>, s: Sim, i: nat)
    requires Books(tasks, s) && Tracked(two, tasks, s) && AllRested(s) && i < |s.future|
    ensures 0 <= s.future[i] < |tasks| && Tracked(two, tasks, Entered(tasks, s, i)) && AllRested(Entered(tasks, s, i))
  {
    var t := s.future[i];
    assert t in s.future;
    var e, th := Arrive(tasks[t].arrival, t), s.threads[t].(where := Interactive, lastQueued := tasks[t].arrival);
    CameTraced(two, tasks[t], s.threads[t], th, s.log, e, t);
    StepTraced(two, tasks, s.threads, s.log, t, th, e);
    InTurnJoin(s.log, e, s.queue, t);
    InTurnKept(s.log, e, s.background);
  }

  lemma WokenTracks(two: bool, tasks: seq<Task>, s: Sim, i: nat)
    requires Books(tasks, s) && Tracked(two, tasks, s) && AllRested(s) && i < |s.io|
    ensures 0 <= s.io[i] < |tasks| && Tracked(two, tasks, Woken(s, i)) && AllRested(Woken(s, i))
  {
    var t := s.io[i];
    assert t in s.io;
    var e, th := Wakeup(s.threads[t].wakeup, t), s.threads[t].(where := Interactive, lastQueued := s.threads[t].wakeup);
    CameTraced(two, tasks[t], s.threads[t], th, s.log, e, t);
    StepTraced(two, tasks, s.threads, s.log, t, th, e);
    InTurnJoin(s.log, e, s.queue, t);
    InTurnKept(s.log, e, s.background);
  }

  /** Whoever is on a queue has a mark. */
  lemma QueuedMarked(two: bool, tasks: seq<Task>, s: Sim)
    requires Books(tasks, s) && Tracked(two, tasks, s)
    ensures forall i :: 0 <= i < |s.queue| ==> LastMark(s.log, s.queue[i]) != Never
    ensures forall i :: 0 <= i < |s.background| ==> LastMark(s.log, s.background[i]) != Never
  {
    forall i | 0 <= i < |s.queue| ensures LastMark(s.log, s.queue[i]) != Never {
      assert s.queue[i] in s.queue;
    }
    forall i | 0 <= i < |s.background| ensures LastMark(s.log, s.background[i]) != Never {
      assert s.background[i] in s.background;
    }
  }

  lemma RanIo(task: Task, th: Thread, p: Place, time: int, r: Slice)
    requires TaskOk(task) && PlaceOk(task, p) && SliceOk(task, p, r.length) && th.where != OnCpu && IoOk(task, th, p)
    ensures IoOk(task, Ran(th, time, r), Further(task, p, r.length))
  {
    if Settles(task, 0) {
      SliceIo(task, p, r.length);
    }
  }

  lemma RanTraced(two: bool, task: Task, th: Thread, log: seq<Event>, time: int, t: int, q: int)
    requires TaskOk(task) && q >= 0
    requires 0 <= th.elapsed <= task.total && th.burstLeft >= 0 && th.where != OnCpu
    requires Traced(two, task, th, LastMark(log, t), PlaceIn(task, log, t), Rounds(log))
    ensures var r := RunThread(task, th, q);
            var more := log + [Run(time, t, r.length)];
            Traced(two, task, Ran(th, time, r), LastMark(more, t), PlaceIn(task, more, t), Rounds(more))
  {
    var r := RunThread(task, th, q);
    MarkNext(log, Run(time, t, r.length), t);
    PlaceNext(task, log, Run(time, t, r.length), t);
    RanIo(task, th, PlaceIn(task, log, t), time, r);
  }

  lemma DispatchedTracks(two: bool, tasks: seq<Task>, s: Sim, bg: bool, i: nat, q: int)
    requires Books(tasks, s) && Tracked(two, tasks, s) && NoneRunning(s.threads) && q >= 0
    requires i < |if bg then s.background else s.queue|
    ensures var t := (if bg then s.background else s.queue)[i];
            && 0 <= t < |tasks|
            && var r := Dispatched(s, bg, i, RunThread(tasks[t], s.threads[t], q));
               Tracked(two, tasks, r) && AllRested(r)
  {
    var l := if bg then s.background else s.queue;
    var t := l[i];
    assert t in l;
    var r := RunThread(tasks[t], s.threads[t], q);
    var e := Run(s.time, t, r.length);
    RanTraced(two, tasks[t], s.threads[t], s.log, s.time, t, q);
    StepTraced(two, tasks, s.threads, s.log, t, Ran(s.threads[t], s.time, r), e);
    QueuedMarked(two, tasks, s);
    DispatchedTurn(s, bg, i, e);
  }

  lemma DispatchedTurn(s: Sim, bg: bool, i: nat, e: Event)
    requires InTurn(s.log, s.queue) && InTurn(s.log, s.background) && NoDup(s.queue) && NoDup(s.background)
    requires i < |if bg then s.background else s.queue|
    requires e.Run? && e.task == (if bg then s.background else s.queue)[i]
    requires e.task !in if bg then s.queue else s.background
    requires forall j :: 0 <= j < |s.queue| ==> LastMark(s.log, s.queue[j]) != Never
    requires forall j :: 0 <= j < |s.background| ==> LastMark(s.log, s.background[j]) != Never
    ensures var a := if bg then s.queue else RemoveAt(s.queue, i);
            InTurn(s.log + [e], a) && Rested(s.log + [e], a)
    ensures var b := if bg then RemoveAt(s.background, i) else s.background;
            InTurn(s.log + [e], b) && Rested(s.log + [e], b)
  {
    var l := if bg then s.background else s.queue;
    var rest := RemoveAt(l, i);
    InTurnLeave(s.log, l, i);
    assert e.task !in rest;
    forall j | 0 <= j < |rest| ensures LastMark(s.log, rest[j]) != Never {
      assert rest[j] == if j < i then l[j] else l[j + 1];
    }
    InTurnKept(s.log, e, rest);
    RoundEnds(s.log, e, rest);
    InTurnKept(s.log, e, if bg then s.queue else s.background);
    RoundEnds(s.log, e, if bg then s.queue else s.background);
  }

  lemma IoStartedTracks(two: bool, tasks: seq<Task>, s: Sim, t: int, d: int)
    requires Books(tasks, s) && Tracked(two, tasks, s) && 0 <= t < |tasks| && s.threads[t].where == OnCpu
    requires d == Asked(tasks[t], PlaceIn(tasks[t], s.log, t))
    ensures Tracked(two, tasks, IoStarted(s, t, d))
  {
    var e, th := IoWait(s.time, t, d), Blocked(s.threads[t], s.time, d);
    MarkNext(s.log, e, t);
    PlaceNext(tasks[t], s.log, e, t);
    StepTraced(two, tasks, s.threads, s.log, t, th, e);
    InTurnKept(s.log, e, s.queue);
    InTurnKept(s.log, e, s.background);
  }

  lemma RequeuedTracks(two: bool, tasks: seq<Task>, s: Sim, t: int, bg: bool)
    requires Books(tasks, s) && Tracked(two, tasks, s) && AllRested(s) && 0 <= t < |tasks|
    requires s.threads[t].where == OnCpu && (bg <==> two && !PlaceIn(tasks[t], s.log, t).ended)
    requires Asked(tasks[t], PlaceIn(tasks[t], s.log, t)) == 0
    ensures Tracked(two, tasks, Requeued(s, t, bg))
  {
    QuietTraced(two, tasks, s.threads, s.log, t, Queued(s.threads[t], s.time, bg));
    InTurnBack(s.log, if bg then s.background else s.queue, t);
  }

  lemma FinishedTracks(two: bool, tasks: seq<Task>, s: Sim, t: int)
    requires Books(tasks, s) && Tracked(two, tasks, s) && 0 <= t < |tasks|
    requires s.threads[t].where == OnCpu && s.threads[t].elapsed == tasks[t].total
    ensures Tracked(two, tasks, Finished(s, t))
  {
    QuietTraced(two, tasks, s.threads, s.log, t, Completion(s.threads[t], s.time));
  }

  lemma SilentTraced(two: bool, tasks: seq<Task>, threads: seq<Thread>, log: seq<Event>, e: Event)
    requires ThreadsTraced(two, tasks, threads, log) && NoneRunning(threads) && (e.Idle? || e.Stop?)
    ensures ThreadsTraced(two, tasks, threads, log + [e])
  {
    forall u | 0 <= u < |tasks|
      ensures Traced(two, tasks[u], threads[u], LastMark(log + [e], u), PlaceIn(tasks[u], log + [e], u),
                     Rounds(log + [e]))
    {
      OtherTraced(two, tasks[u], threads[u], log, e, u);
    }
  }

  lemma IdledTracks(two: bool, tasks: seq<Task>, s: Sim, to: int)
    requires Books(tasks, s) && Tracked(two, tasks, s) && NoneRunning(s.threads)
    ensures Tracked(two, tasks, Idled(s, to)) && AllRested(Idled(s, to))
  {
    var e := Idling(s.time, to);
    SilentTraced(two, tasks, s.threads, s.log, e);
    QueuedMarked(two, tasks, s);
    InTurnKept(s.log, e, s.queue);
    InTurnKept(s.log, e, s.background);
    RoundEnds(s.log, e, s.queue);
    RoundEnds(s.log, e, s.background);
  }

  lemma StartTracks(two: bool, tasks: seq<Task>, s: Sim)
    requires TasksOk(tasks) && |s.threads| == |tasks| && s.queue == s.background == [] && s.log == [Start]
    requires forall t :: 0 <= t < |tasks| ==> s.threads[t] == Thread(Future, 0, 0, 0, 0, 0, 0, 0)
    ensures Tracked(two, tasks, s) && AllRested(s)
  {
    forall t | 0 <= t < |tasks|
      ensures Traced(two, tasks[t], s.threads[t], LastMark(s.log, t), PlaceIn(tasks[t], s.log, t), Rounds(s.log))
    {
      assert [] + [Start] == [Start];
      MarkNext([], Start, t);
      PlaceNext(tasks[t], [], Start, t);
    }
  }

  // ---------- what a slice came to ----------

  /** What Thread.run says of the slice that has led to place P: done; or the end of a burst, with what it asks for; or
      neither. */
  predicate Outcome(task: Task, p: Place, r: Slice) {
    && (r.status == Completed <==> p.elapsed == task.total)
    && (r.status == IoBurst <==> p.elapsed != task.total && p.ended)
    && r.ioTime == if p.ended then task.ioBurst(p.elapsed) else 0
  }

  lemma OutcomeOf(two: bool, tasks: seq<Task>, s: Sim, bg: bool, i: nat, q: int)
    requires Books(tasks, s) && Tracked(two, tasks, s) && q >= 0
    requires i < |if bg then s.background else s.queue|
    ensures var t := (if bg then s.background else s.queue)[i];
            && 0 <= t < |tasks|
            && var r := RunThread(tasks[t], s.threads[t], q);
               Outcome(tasks[t], PlaceIn(tasks[t], s.log + [Run(s.time, t, r.length)], t), r)
  {
    var l := if bg then s.background else s.queue;
    var t := l[i];
    assert t in l;
    PlaceNext(tasks[t], s.log, Run(s.time, t, RunThread(tasks[t], s.threads[t], q).length), t);
  }

  lemma {:induction false} PlaceQuiet(task: Task, a: seq<Event>, b: seq<Event>, t: int)
    requires Quiet(a, b)
    ensures PlaceIn(task, b, t) == PlaceIn(task, a, t)
    decreases |b|
  {
    if |a| == |b| {
      assert a == b;
    } else {
      PlaceQuiet(task, a, b[..|b| - 1], t);
    }
  }
}
