/** The CPU and I/O bursts of a simulated task: how much I/O it asks for, and when that does not depend on the quanta it
    is given (schedlab/scheduling.ipynb, Thread.run). */
module SimBursts {
  import opened SimSteps

  /** A task as Machine takes it. */
  ghost predicate TaskOk(task: Task) {
    && task.total >= 0
    && (forall e :: task.cpuBurst(e) >= 0) && (forall e :: task.ioBurst(e) >= 0)
  }

  // ---------- where a thread is in its task ----------

  /** How long a task has run, what is left of its CPU burst, and whether its last slice ended a burst. */
  datatype Place = Place(elapsed: int, left: int, ended: bool)

  const START := Place(0, 0, false)

  /** The place after a slice of N. */
  function Further(task: Task, p: Place, n: int): Place {
    var burst := BurstOf(task, p.elapsed, p.left);
    Place(p.elapsed + n, if burst > 0 then burst - n else 0, burst > 0 && n == burst)
  }

  ghost predicate PlaceOk(task: Task, p: Place) {
    0 <= p.elapsed <= task.total && p.left >= 0
  }

  /** N is as long as a slice may be. */
  ghost predicate SliceOk(task: Task, p: Place, n: int) {
    && 0 <= n && p.elapsed + n <= task.total
    && (BurstOf(task, p.elapsed, p.left) > 0 ==> n <= BurstOf(task, p.elapsed, p.left))
  }

  // ---------- I/O ----------

  /** What a task asks for when a burst ends. */
  function Request(task: Task, elapsed: int): int {
    if elapsed < task.total then task.ioBurst(elapsed) else 0
  }

  /** What a thread at P is about to be given. */
  function Asked(task: Task, p: Place): int {
    if p.ended then Request(task, p.elapsed) else 0
  }

  /** The I/O of a task from the beginning of a burst on, if it runs on from burst to burst. */
  ghost function IoDemand(task: Task, elapsed: int): (n: int)
    requires TaskOk(task)
    ensures n >= 0
    decreases task.total - elapsed
  {
    if elapsed >= task.total || task.cpuBurst(elapsed) == 0 then 0
    else
      var end := elapsed + task.cpuBurst(elapsed);
      Request(task, end) + IoDemand(task, end)
  }

  /** The same from the middle of a burst on. */
  ghost function IoAhead(task: Task, p: Place): int
    requires TaskOk(task)
  {
    var end := p.elapsed + p.left;
    if p.left > 0 then Request(task, end) + IoDemand(task, end) else IoDemand(task, end)
  }

  /** No burst that begins after E ends with I/O. */
  ghost predicate NoMore(task: Task, e: int) {
    forall f :: e < f < task.total && task.cpuBurst(f) > 0 ==> Request(task, f + task.cpuBurst(f)) == 0
  }

  /** From burst to burst, from E on, the task comes to its end, or to a point where it begins no burst and from where
      on none ends with I/O. */
  ghost predicate Settles(task: Task, e: int)
    requires TaskOk(task)
    decreases task.total - e
  {
    e >= task.total ||
    if task.cpuBurst(e) == 0 then NoMore(task, e) else Settles(task, e + task.cpuBurst(e))
  }

  /** A task whose bursts are all positive settles. */
  lemma {:induction false} PositiveSettles(task: Task, e: int)
    requires TaskOk(task) && 0 <= e && forall f :: 0 <= f < task.total ==> task.cpuBurst(f) > 0
    ensures Settles(task, e)
    decreases task.total - e
  {
    if e < task.total {
      PositiveSettles(task, e + task.cpuBurst(e));
    }
  }

  lemma {:induction false} NoMoreSettles(task: Task, e: int, f: int)
    requires TaskOk(task) && NoMore(task, e) && e < f
    ensures Settles(task, f) && IoDemand(task, f) == 0
    decreases task.total - f
  {
    if f < task.total && task.cpuBurst(f) > 0 {
      NoMoreSettles(task, e, f + task.cpuBurst(f));
    }
  }

  /** A slice of a task that settles leaves it so, and asks for some of the I/O to come. */
  lemma SliceIo(task: Task, p: Place, n: int)
    requires TaskOk(task) && PlaceOk(task, p) && SliceOk(task, p, n) && Settles(task, p.elapsed + p.left)
    ensures var r := Further(task, p, n);
            Settles(task, r.elapsed + r.left) && IoAhead(task, p) == Asked(task, r) + IoAhead(task, r)
  {
    if BurstOf(task, p.elapsed, p.left) == 0 && p.elapsed < task.total && n > 0 {
      NoMoreSettles(task, p.elapsed, p.elapsed + n);
    }
  }

  // ---------- quanta ----------

  /** Thread.run at place P. */
  ghost function SliceAt(task: Task, p: Place, q: nat): (r: Slice)
    requires TaskOk(task) && PlaceOk(task, p)
    ensures SliceOk(task, p, r.length) && PlaceOk(task, Further(task, p, r.length))
    ensures (r.status == IoBurst ==> r.ioTime == Asked(task, Further(task, p, r.length)))
    ensures (r.status != IoBurst ==> Asked(task, Further(task, p, r.length)) == 0)
  {
    RunThread(task, Thread(OnCpu, p.elapsed, 0, 0, p.left, 0, 0, 0), q)
  }

  /** The place after runs with the quanta QS. */
  ghost function PlaceAfter(task: Task, p: Place, qs: seq<nat>): (r: Place)
    requires TaskOk(task) && PlaceOk(task, p)
    ensures PlaceOk(task, r)
    decreases |qs|
  {
    if qs == [] then p else PlaceAfter(task, Further(task, p, SliceAt(task, p, qs[0]).length), qs[1..])
  }

  /** The I/O that it waits for meanwhile. */
  ghost function IoOver(task: Task, p: Place, qs: seq<nat>): int
    requires TaskOk(task) && PlaceOk(task, p)
    decreases |qs|
  {
    if qs == [] then 0
    else
      var r := SliceAt(task, p, qs[0]);
      (if r.status == IoBurst then r.ioTime else 0) + IoOver(task, Further(task, p, r.length), qs[1..])
  }

  /** The quanta bring the task to its end. */
  ghost predicate Completes(task: Task, p: Place, qs: seq<nat>)
    requires TaskOk(task) && PlaceOk(task, p)
  {
    PlaceAfter(task, p, qs).elapsed == task.total
  }

  /** A task that settles gets the same I/O over all quanta. */
  lemma {:induction false} SettledIo(task: Task, p: Place, qs: seq<nat>)
    requires TaskOk(task) && PlaceOk(task, p) && Settles(task, p.elapsed + p.left) && Completes(task, p, qs)
    ensures IoOver(task, p, qs) == IoAhead(task, p)
    decreases |qs|
  {
    if qs != [] {
      var n := SliceAt(task, p, qs[0]).length;
      SliceIo(task, p, n);
      SettledIo(task, Further(task, p, n), qs[1..]);
    }
  }

  /** With no quanta to stop it the task runs from burst to burst to its end. */
  lemma {:induction false} RunsOn(task: Task, p: Place) returns (qs: seq<nat>)
    requires TaskOk(task) && PlaceOk(task, p) && p.left == 0
    ensures Completes(task, p, qs) && IoOver(task, p, qs) == IoDemand(task, p.elapsed)
    decreases task.total - p.elapsed
  {
    if p.elapsed == task.total {
      qs := [];
    } else {
      var r := SliceAt(task, p, 0);
      var next := Further(task, p, r.length);
      if next.elapsed == task.total {
        qs := [0];
        assert qs[1..] == [];
      } else {
        var more := RunsOn(task, next);
        qs := [0] + more;
        assert qs[1..] == more;
      }
    }
  }

  /** One that does not settle can get more. */
  lemma {:induction false} UnsettledIo(task: Task, p: Place) returns (qs: seq<nat>)
    requires TaskOk(task) && PlaceOk(task, p) && p.left == 0 && !Settles(task, p.elapsed)
    ensures Completes(task, p, qs) && IoOver(task, p, qs) > IoDemand(task, p.elapsed)
    decreases task.total - p.elapsed
  {
    if task.cpuBurst(p.elapsed) > 0 {
      var r := SliceAt(task, p, 0);
      var more := UnsettledIo(task, Further(task, p, r.length));
      qs := [0] + more;
      assert qs[1..] == more;
    } else {
      var f :| p.elapsed < f < task.total && task.cpuBurst(f) > 0 && Request(task, f + task.cpuBurst(f)) != 0;
      var a := Further(task, p, SliceAt(task, p, f - p.elapsed).length);
      var more := RunsOn(task, a);
      qs := [f - p.elapsed] + more;
      assert qs[1..] == more;
    }
  }

  /** The I/O that a task waits for is the same whatever quanta it gets, to the end, if and only if it settles; then it
      is what its bursts ask for. */
  lemma IoFixedIff(task: Task)
    requires TaskOk(task)
    ensures Settles(task, 0) <==>
            forall qs :: Completes(task, START, qs) ==> IoOver(task, START, qs) == IoDemand(task, 0)
  {
    if Settles(task, 0) {
      forall qs | Completes(task, START, qs) ensures IoOver(task, START, qs) == IoDemand(task, 0) {
        SettledIo(task, START, qs);
      }
    } else {
      var qs := UnsettledIo(task, START);
    }
  }
}
