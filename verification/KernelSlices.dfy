/** Time slices of four ticks: how long a thread runs beside its equals, and round robin among them (threads/thread.c,
    thread_tick). */
module KernelSlices {
  import opened KernelTypes
  import opened KernelState
  import opened KernelPlacement
  import opened KernelInvariant
  import opened KernelRuns
  import opened KernelRotation
  import opened KernelTurns

  // ---------- time slices ----------

  /** The time slice is not used up, and at its start nobody outranks the running thread. */
  ghost predicate Sliced(st: State) {
    st.run.slice < 4 && (st.run.slice == 0 ==> Unoutranked(st))
  }

  lemma StepSliced(st: State, a: Action)
    requires Inv(st) && May(st, a) && Sliced(st)
    ensures Sliced(Apply(st, a))
  {
    var joined := StepTurn(st, a);
    if GivesUp(st, a, Apply(st, a)) {
      StepKeeps(st, a);
      PickedUnoutranked(st.run.ready + joined, Apply(st, a));
    } else if a != ATick && st.run.slice == 0 {
      StepUnoutranked(st, a);
    }
  }

  lemma {:induction false} RunSliced(st: State, acts: seq<Action>)
    requires Inv(st) && Legal(st, acts) && Sliced(st)
    ensures Sliced(Exec(st, acts))
    decreases |acts|
  {
    if acts != [] {
      StepKeeps(st, acts[0]);
      StepSliced(st, acts[0]);
      RunSliced(Apply(st, acts[0]), acts[1..]);
    }
  }

  /** In every reachable state the running thread has had fewer than four ticks since it was picked, and a ready thread
      has more priority than the running one only if it has had a tick. */
  lemma ReachableSlices(c: Config, acts: seq<Action>)
    requires ConfigOk(c) && Legal(Boot(c), acts)
    ensures var st := Exec(Boot(c), acts);
            && st.run.slice < 4
            && (st.run.slice == 0 ==>
                  forall t :: t in st.run.ready ==> st.mem.prio[t] <= st.mem.prio[st.run.cur])
  {
    RunSliced(Boot(c), acts);
  }

  /** T is ready, or a sleeper whose tick comes next. */
  ghost predicate ReadyOrDue(st: State, t: Tid) {
    || t in st.run.ready
    || (t in st.mem.sleepers && t in st.mem.awake && st.mem.awake[t] <= st.mem.ticks + 1)
  }

  /** Of OTHERS and, at the end, the running thread, the latter is picked again exactly if it has more priority than
      each of them. */
  lemma PickedAgain(st: State, r: State, others: seq<Tid>)
    requires Picked(others + Back(st), r) && r.mem.prio == st.mem.prio && r.mem.idle == st.mem.idle
    requires st.run.cur !in others && st.run.cur in st.mem.prio
    ensures r.run.cur == st.run.cur <==>
            forall t :: t in others ==>
              st.run.cur != st.mem.idle && t in st.mem.prio && st.mem.prio[t] < st.mem.prio[st.run.cur]
  {
    var l := others + Back(st);
    if l != [] {
      var i :| Leads(l, r.mem.prio, i) && TakenOff(l, i, r.run.cur, r.run.ready);
      if st.run.cur == st.mem.idle {
        assert l[i] in others;
      } else {
        assert l[|others|] == st.run.cur;
        if i < |others| {
          assert others[i] in others && st.mem.prio[others[i]] >= st.mem.prio[st.run.cur];
        } else {
          assert forall t :: t in others ==> exists j :: 0 <= j < |others| && others[j] == t && l[j] == t;
        }
      }
    }
  }

  lemma FourthTickPicks(st: State, r: State, due: seq<Tid>)
    requires Picked(st.run.ready + (due + Back(st)), r) && r.mem.prio == st.mem.prio && r.mem.idle == st.mem.idle
    requires st.run.cur !in st.run.ready && st.run.cur !in due && st.run.cur in st.mem.prio
    requires forall t :: ReadyOrDue(st, t) <==> t in st.run.ready || t in due
    ensures r.run.cur == st.run.cur <==>
            forall t :: ReadyOrDue(st, t) ==>
              st.run.cur != st.mem.idle && t in st.mem.prio && st.mem.prio[t] < st.mem.prio[st.run.cur]
  {
    var others := st.run.ready + due;
    assert st.run.ready + (due + Back(st)) == others + Back(st);
    PickedAgain(st, r, others);
  }

  lemma DueOrReady(st: State)
    requires Placed(st)
    ensures st.run.cur !in DueNext(st) && forall t :: ReadyOrDue(st, t) <==> t in st.run.ready || t in DueNext(st)
  {
    assert InPlace(ViewOf(st), st.run.cur);
  }

  /** The fourth tick ends the time slice: somebody begins a new one whom nobody outranks, and it is the same thread
      exactly if it is not the idle one and has more priority than everybody ready or due, or there is nobody. */
  lemma FourthTick(st: State)
    requires Inv(st) && May(st, ATick) && st.run.slice == 3
    ensures var r := Apply(st, ATick);
            && r.run.slice == 0 && Unoutranked(r)
            && (r.run.cur == st.run.cur <==>
                  forall t :: ReadyOrDue(st, t) ==>
                    st.run.cur != st.mem.idle && t in st.mem.prio && st.mem.prio[t] < st.mem.prio[st.run.cur])
  {
    PlacedRuns(st);
    DueJoin(st);
    var joined := TickTurn(st);
    PickedUnoutranked(st.run.ready + joined, Tick(st));
    DueOrReady(st);
    FourthTickPicks(st, Tick(st), DueNext(st));
  }

  // ---------- sharing the processor ----------

  /** T runs, and a ready thread has at least as much priority. */
  ghost predicate BesideEqual(st: State, t: Tid) {
    && st.run.cur == t && t in st.mem.prio
    && exists u :: u in st.run.ready && u in st.mem.prio && st.mem.prio[u] >= st.mem.prio[t]
  }

  /** So it is before and after every step of the run. */
  ghost predicate BesideEqualThroughout(st: State, acts: seq<Action>, t: Tid)
    requires Inv(st) && Legal(st, acts)
    decreases |acts|
  {
    && BesideEqual(st, t)
    && (acts == [] || (StepKeeps(st, acts[0]); BesideEqualThroughout(Apply(st, acts[0]), acts[1..], t)))
  }

  function Ticks(acts: seq<Action>): nat {
    if acts == [] then 0 else (if acts[0] == ATick then 1 else 0) + Ticks(acts[1..])
  }

  /** A thread that gives up the processor and stays ready has not gained priority, and the others have theirs. */
  lemma StepYields(st: State, a: Action)
    requires Inv(st) && May(st, a) && GivesUp(st, a, Apply(st, a)) && StaysReady(st, a)
    ensures var p, p' := st.mem.prio, Apply(st, a).mem.prio;
            && st.run.cur in p' && p'[st.run.cur] <= p[st.run.cur]
            && forall t :: t in st.run.ready ==> t in p' && p'[t] == p[t]
  {
    PlacedRuns(st);
    forall t | t in st.run.ready ensures t in Apply(st, a).mem.prio && Apply(st, a).mem.prio[t] == st.mem.prio[t] {
      StepPriority(st, a, t);
    }
    YieldsLower(st, a);
  }

  lemma YieldsLower(st: State, a: Action)
    requires Inv(st) && May(st, a) && GivesUp(st, a, Apply(st, a)) && StaysReady(st, a)
    ensures st.run.cur in Apply(st, a).mem.prio && Apply(st, a).mem.prio[st.run.cur] <= st.mem.prio[st.run.cur]
  {
    ApplyMem(st, a);
  }

  /** Who comes behind U on the list, and has no more priority, is not picked. */
  lemma NotPicked(ready: seq<Tid>, joined: seq<Tid>, r: State, t: Tid, u: Tid)
    requires Picked(ready + joined, r) && u in ready && t !in ready
    requires t in joined ==> t in r.mem.prio && u in r.mem.prio && r.mem.prio[t] <= r.mem.prio[u]
    ensures r.run.cur != t
  {
    var l := ready + joined;
    var j :| 0 <= j < |ready| && ready[j] == u;
    assert l[j] == u;
    var i :| Leads(l, r.mem.prio, i) && TakenOff(l, i, r.run.cur, r.run.ready);
    assert l[i] == if i < |ready| then ready[i] else joined[i - |ready|];
  }

  lemma JoinsReady(st: State, a: Action, joined: seq<Tid>, back: bool)
    requires Joins(st, a, joined, back) && st.run.cur in joined
    ensures back
  {
  }

  /** A thread beside an equal that gives up the processor loses it. */
  lemma EqualTakesOver(st: State, a: Action)
    requires Inv(st) && May(st, a) && BesideEqual(st, st.run.cur) && GivesUp(st, a, Apply(st, a))
    ensures Apply(st, a).run.cur != st.run.cur
  {
    var u :| u in st.run.ready && u in st.mem.prio && st.mem.prio[u] >= st.mem.prio[st.run.cur];
    PlacedRuns(st);
    var joined := StepTurn(st, a);
    if st.run.cur in joined {
      JoinsReady(st, a, joined, StaysReady(st, a));
      StepYields(st, a);
    }
    NotPicked(st.run.ready, joined, Apply(st, a), st.run.cur, u);
  }

  /** Beside a ready thread of at least its priority no thread has four ticks in a row. */
  lemma {:induction false} RunBesideEqual(st: State, acts: seq<Action>, t: Tid)
    requires Inv(st) && Legal(st, acts) && Sliced(st) && BesideEqualThroughout(st, acts, t)
    ensures st.run.slice + Ticks(acts) == Exec(st, acts).run.slice < 4
    decreases |acts|
  {
    if acts != [] {
      var r := Apply(st, acts[0]);
      StepKeeps(st, acts[0]);
      StepSliced(st, acts[0]);
      assert BesideEqual(r, t);
      if GivesUp(st, acts[0], r) {
        EqualTakesOver(st, acts[0]);
      }
      var joined := StepTurn(st, acts[0]);
      RunBesideEqual(r, acts[1..], t);
    }
  }

  /** So in no run from boot: however it goes on from the state it has led to, as long as T runs and a ready thread has
      at least its priority, fewer than four ticks come. */
  lemma NeverFourTicks(c: Config, acts: seq<Action>, more: seq<Action>, t: Tid)
    requires ConfigOk(c) && Legal(Boot(c), acts) && Legal(Exec(Boot(c), acts), more)
    requires BesideEqualThroughout(Exec(Boot(c), acts), more, t)
    ensures Ticks(more) < 4
  {
    RunSliced(Boot(c), acts);
    RunBesideEqual(Exec(Boot(c), acts), more, t);
  }

  // ---------- round robin ----------

  /** With nobody asleep a tick does nothing but count, or yield. */
  lemma QuietTick(st: State, b: State)
    requires WF(st) && st.mem.sleepers == [] && WF(b)
    requires b == State(st.run.(slice := st.run.slice + 1), st.mem.(ticks := st.mem.ticks + 1))
    ensures Tick(st) == if st.run.slice >= 3 then Yield(b) else b
  {
    assert st.run.ready + [] == st.run.ready;
    assert Sleeping(Advance(st).mem, [], true) == [] == Sleeping(Advance(st).mem, [], false);
    assert WakeDue(Advance(st)) == Advance(st);
  }

  /** The running thread has just been picked, on top of the others, nobody sleeps, and those of RING are inside no
      primitive. */
  ghost predicate Quiet(st: State, ring: seq<Tid>) {
    && Inv(st) && OnTop(st) && st.run.slice == 0 && st.mem.sleepers == []
    && forall t :: t in ring ==> t in st.mem.pc && st.mem.pc[t] == Active
  }

  /** The same threads, inside the same primitives, N ticks into the slice and K ticks later. */
  ghost predicate Ticked(st: State, r: State, n: nat, k: nat) {
    r == State(st.run.(slice := n), st.mem.(ticks := st.mem.ticks + k))
  }

  lemma TickedWF(st: State, w: State, n: nat, k: nat)
    requires WF(st) && Ticked(st, w, n, k)
    ensures WF(w)
  {
  }

  lemma GrowTick(start: State, acts: seq<Action>, w: State, r: State)
    requires After(start, acts, w) && May(w, ATick) && WF(w) && r == Tick(w)
    ensures After(start, acts + [ATick], r)
  {
    var x := Grow(start, acts, w, ATick);
  }

  lemma TickedNext(st: State, w: State, n: nat) returns (r: State)
    requires WF(st) && May(st, ATick) && st.mem.sleepers == [] && n < 3 && Ticked(st, w, n, n)
    ensures Ticked(st, r, n + 1, n + 1) && WF(w) && May(w, ATick) && r == Tick(w)
  {
    r := State(st.run.(slice := n + 1), st.mem.(ticks := st.mem.ticks + (n + 1)));
    TickedWF(st, w, n, n);
    TickedWF(st, r, n + 1, n + 1);
    QuietTick(w, r);
  }

  lemma TickOn(start: State, acts: seq<Action>, st: State, w: State, n: nat) returns (r: State)
    requires WF(st) && May(st, ATick) && st.mem.sleepers == [] && n < 3
    requires Ticked(st, w, n, n) && After(start, acts, w)
    ensures Ticked(st, r, n + 1, n + 1) && After(start, acts + [ATick], r)
  {
    r := TickedNext(st, w, n);
    GrowTick(start, acts, w, r);
  }

  lemma TickedTurned(st: State, b: State, ring: seq<Tid>, k: nat)
    requires WF(b) && Ticked(st, b, 4, 4) && Turned(st, ring, k)
    ensures Turned(b, ring, k)
  {
    assert ViewOf(b) == ViewOf(st);
  }

  lemma FourthRotates(st: State, b: State, r: State, ring: seq<Tid>, k: nat)
    requires Quiet(st, ring) && Turned(st, ring, k) && k < |ring|
    requires WF(b) && Ticked(st, b, 4, 4) && r == Yield(b) && Inv(r)
    ensures Quiet(r, ring) && Turned(r, ring, k + 1)
  {
    TickedTurned(st, b, ring, k);
    OneMoreYield(b, ring, k);
    YieldPicks(b);
  }

  /** ACTS are ticks, and have led from START to R, where RING is turned by K. */
  ghost predicate Cycled(start: State, acts: seq<Action>, r: State, ring: seq<Tid>, k: nat) {
    && |acts| == 4 * k && (forall i :: 0 <= i < |acts| ==> acts[i] == ATick)
    && After(start, acts, r) && Quiet(r, ring) && Turned(r, ring, k)
  }

  lemma FourTicks(start: State, acts: seq<Action>, st: State, ring: seq<Tid>, k: nat) returns (r: State)
    requires After(start, acts, st) && Quiet(st, ring) && Turned(st, ring, k) && k < |ring|
    ensures After(start, acts + [ATick] + [ATick] + [ATick] + [ATick], r) && Quiet(r, ring) && Turned(r, ring, k + 1)
  {
    assert Ring(st)[0] == ring[k];
    var w := TickOn(start, acts, st, st, 0);
    w := TickOn(start, acts + [ATick], st, w, 1);
    w := TickOn(start, acts + [ATick] + [ATick], st, w, 2);
    var b := State(st.run.(slice := 4), st.mem.(ticks := st.mem.ticks + 4));
    TickedWF(st, b, 4, 4);
    TickedWF(st, w, 3, 3);
    QuietTick(w, b);
    r := Yield(b);
    GrowTick(start, acts + [ATick] + [ATick] + [ATick], w, r);
    FourthRotates(st, b, r, ring, k);
  }

  lemma NextCycle(start: State, acts: seq<Action>, st: State, ring: seq<Tid>, k: nat)
    returns (more: seq<Action>, r: State)
    requires Cycled(start, acts, st, ring, k) && k < |ring|
    ensures Cycled(start, more, r, ring, k + 1)
  {
    r := FourTicks(start, acts, st, ring, k);
    more := FourMore(acts, k);
  }

  lemma FourMore(acts: seq<Action>, k: nat) returns (more: seq<Action>)
    requires |acts| == 4 * k && forall i :: 0 <= i < |acts| ==> acts[i] == ATick
    ensures more == acts + [ATick] + [ATick] + [ATick] + [ATick]
    ensures |more| == 4 * (k + 1) && forall i :: 0 <= i < |more| ==> more[i] == ATick
  {
    more := acts + [ATick] + [ATick] + [ATick] + [ATick];
  }

  lemma FirstCycle(st: State, ring: seq<Tid>)
    requires WF(st) && Quiet(st, ring) && ring == Ring(st)
    ensures Cycled(st, [], st, ring, 0)
  {
    assert Rotate(ring, 0) == ring;
  }

  lemma TurnedCur(st: State, ring: seq<Tid>, k: nat)
    requires Turned(st, ring, k) && ring != []
    ensures st.run.cur == if k < |ring| then ring[k] else ring[0]
  {
    assert Ring(st)[0] == st.run.cur;
  }

  /** Round robin: while nobody sleeps and nothing but the timer interferes, the threads of greatest priority run four
      ticks each, in turn: the K-th of them runs after 4 * K ticks, and the first one again after the last. */
  lemma RoundRobin(st: State, k: nat) returns (acts: seq<Action>, r: State)
    requires WF(st) && Quiet(st, Ring(st)) && k <= |Ring(st)|
    ensures |acts| == 4 * k && (forall i :: 0 <= i < |acts| ==> acts[i] == ATick) && After(st, acts, r)
    ensures r.run.cur == if k < |Ring(st)| then Ring(st)[k] else Ring(st)[0]
  {
    FirstCycle(st, Ring(st));
    acts, r := Cycles(st, Ring(st), k);
    TurnedCur(r, Ring(st), k);
  }

  lemma {:induction false} Cycles(st: State, ring: seq<Tid>, k: nat) returns (acts: seq<Action>, r: State)
    requires Cycled(st, [], st, ring, 0) && k <= |ring|
    ensures Cycled(st, acts, r, ring, k)
  {
    if k == 0 {
      acts, r := [], st;
    } else {
      acts, r := Cycles(st, ring, k - 1);
      acts, r := NextCycle(st, acts, r, ring, k - 1);
    }
  }
}
