/** When does a lock's holder outrank everybody who waits for the lock?  One donation sees to it
    (module Donation), but not every step keeps it: a thread that takes over a free lock does not account for the
    waiters that are left, and its record still has the priority it had when it began to wait
    (threads/synch.c, the end of lock_acquire).  This is the only way to lose it. */
module KernelDomination {
  import opened Collections
  import opened KernelTypes
  import opened KernelState
  import opened KernelPlacement
  import opened KernelLocks
  import opened KernelCounts
  import opened KernelInvariant
  import opened KernelRuns
  import opened Donation

  // ---------- what each change does to one wait-for edge ----------

  /** X gets a new record in front, for a lock it does not hold. */
  lemma AddRecordEdge(g: Graph, x: Tid, rec: Rec, t: Tid)
    requires HoldersRecorded(g) && x in g.recs && t != x && EdgeOk(g, t)
    requires !(rec.lock in g.holder && g.holder[rec.lock] == Some(x))
    requires HoldersRecorded(g.(recs := g.recs[x := [rec] + g.recs[x]]))
    ensures EdgeOk(g.(recs := g.recs[x := [rec] + g.recs[x]]), t)
  {
    if t in g.recs && t in g.prio {
      var w := WaitsFor(g.recs[t]);
      if w.Some? && Held(g, w.value) && g.holder[w.value].value == x {
        assert ([rec] + g.recs[x])[1..] == g.recs[x];
      }
    }
  }

  ghost function Dropped(g: Graph, x: Tid, l: Sid): Graph
    requires x in g.recs
  {
    g.(holder := g.holder[l := None], recs := g.recs[x := DropRec(g.recs[x], l)])
  }

  lemma DropKeepsRecord(rs: seq<Rec>, l: Sid, k: Sid)
    requires DistinctLocks(rs) && k != l && FindRec(rs, k) < |rs|
    ensures FindRec(DropRec(rs, l), k) < |DropRec(rs, l)|
    ensures DropRec(rs, l)[FindRec(DropRec(rs, l), k)] == rs[FindRec(rs, k)]
  {
    var i, j := FindRec(rs, l), FindRec(rs, k);
    if i < |rs| {
      FoundAfterRemoval(rs, i, j);
    }
  }

  lemma FoundAfterRemoval(rs: seq<Rec>, i: nat, j: nat)
    requires DistinctLocks(rs) && i < |rs| && j < |rs| && i != j
    ensures var n := if j < i then j else j - 1;
            FindRec(RemoveAt(rs, i), rs[j].lock) == n && RemoveAt(rs, i)[n] == rs[j]
  {
    var n := if j < i then j else j - 1;
    DropDistinct(rs, i);
    FindRecAt(RemoveAt(rs, i), n);
  }

  /** X, which waits for nothing, gives up lock L. */
  lemma DropEdge(g: Graph, x: Tid, l: Sid, t: Tid)
    requires HoldersRecorded(g) && x in g.recs && DistinctLocks(g.recs[x]) && EdgeOk(g, t)
    requires forall i :: 0 <= i < |g.recs[x]| ==> !g.recs[x][i].waiting
    requires HoldersRecorded(Dropped(g, x, l))
    ensures EdgeOk(Dropped(g, x, l), t)
  {
    if t in g.recs && t in g.prio && t != x {
      var w := WaitsFor(g.recs[t]);
      if w.Some? && w.value != l && Held(g, w.value) && g.holder[w.value].value == x {
        DropKeepsRecord(g.recs[x], l, w.value);
      }
    } else if t == x {
      assert WaitsFor(DropRec(g.recs[x], l)) == None;
    }
  }

  /** X, which waits for nothing, gets a priority that is not below its records. */
  lemma RepriorityEdge(g: Graph, x: Tid, p: int, t: Tid)
    requires HoldersRecorded(g) && x in g.recs && EdgeOk(g, t)
    requires forall i :: 0 <= i < |g.recs[x]| ==> !g.recs[x][i].waiting && g.recs[x][i].priority <= p
    requires HoldersRecorded(g.(prio := g.prio[x := p]))
    ensures EdgeOk(g.(prio := g.prio[x := p]), t)
  {
  }

  ghost function TakenGraph(g: Graph, x: Tid, l: Sid): Graph
    requires x in g.recs
  {
    g.(holder := g.holder[l := Some(x)], recs := g.recs[x := SetOwned(g.recs[x], l)])
  }

  /** T waits for lock L. */
  ghost predicate WaitsOn(g: Graph, t: Tid, l: Sid) {
    t in g.recs && t in g.prio && WaitsFor(g.recs[t]) == Some(l)
  }

  /** X takes the free lock L, for which its front record waits: an edge of another thread is all right afterwards
      exactly if it was and, where it ends at L, does not exceed X's priority and record. */
  lemma TakeEdge(g: Graph, x: Tid, l: Sid, t: Tid)
    requires HoldersRecorded(g) && x in g.recs && x in g.prio && t != x && EdgeOk(g, t)
    requires l in g.holder && g.holder[l] == None && g.recs[x] != [] && g.recs[x][0].lock == l
    requires HoldersRecorded(TakenGraph(g, x, l))
    ensures EdgeOk(TakenGraph(g, x, l), t) <==>
              (WaitsOn(g, t, l) ==> g.prio[t] <= g.prio[x] && g.prio[t] <= g.recs[x][0].priority)
  {
    var w := if t in g.recs then WaitsFor(g.recs[t]) else None;
    if w.Some? && Held(g, w.value) {
      FindRecSame(g.recs[x], SetOwned(g.recs[x], l), w.value);
    }
    FindRecSame(g.recs[x], SetOwned(g.recs[x], l), l);
    assert FindRec(g.recs[x], l) == 0;
  }

  lemma TakerWaitsNoMore(g: Graph, x: Tid, l: Sid)
    requires x in g.recs && g.recs[x] != [] && g.recs[x][0].lock == l
    requires HoldersRecorded(TakenGraph(g, x, l))
    ensures EdgeOk(TakenGraph(g, x, l), x)
  {
    assert FindRec(g.recs[x], l) == 0;
    assert WaitsFor(SetOwned(g.recs[x], l)) == None;
  }

  lemma TakeDominates(g: Graph, x: Tid, l: Sid)
    requires HoldersRecorded(g) && x in g.recs && x in g.prio
    requires forall t :: t in g.recs && t != x ==> EdgeOk(g, t)
    requires l in g.holder && g.holder[l] == None && g.recs[x] != [] && g.recs[x][0].lock == l
    requires HoldersRecorded(TakenGraph(g, x, l))
    ensures Dominated(TakenGraph(g, x, l)) <==>
              forall t :: t != x && WaitsOn(g, t, l) ==> g.prio[t] <= g.prio[x] && g.prio[t] <= g.recs[x][0].priority
  {
    var r := TakenGraph(g, x, l);
    TakerWaitsNoMore(g, x, l);
    forall t | t in g.recs && t != x
      ensures EdgeOk(r, t) <==>
                (WaitsOn(g, t, l) ==> g.prio[t] <= g.prio[x] && g.prio[t] <= g.recs[x][0].priority)
    {
      TakeEdge(g, x, l, t);
    }
  }

  // ---------- steps ----------

  lemma InvHolders(st: State)
    requires Inv(st)
    ensures HoldersRecorded(GraphOf(st))
  {
    LocksGiveHolders(st);
  }

  /** Step A makes the running thread take the free lock L. */
  ghost predicate Takes(st: State, a: Action, l: Sid)
    requires WF(st)
  {
    && l in st.mem.holder && st.mem.value[l] > 0
    && (a == AAcquire(l) || (a == AResume && st.mem.pc[st.run.cur] == Downing(l)))
  }

  /** Nobody else who waits for L has a priority above that of the running thread or, if it has waited for L
      itself, above the priority it began to wait with. */
  ghost predicate Fair(st: State, a: Action, l: Sid)
    requires Inv(st)
  {
    forall t :: t != st.run.cur && WaitsOn(GraphOf(st), t, l) ==>
      && st.mem.prio[t] <= st.mem.prio[st.run.cur]
      && (a == AResume && st.mem.recs[st.run.cur] != [] ==> st.mem.prio[t] <= st.mem.recs[st.run.cur][0].priority)
  }

  /** lock_acquire on a held lock. */
  lemma AcquireHeldDominates(st: State, l: Sid)
    requires Inv(st) && May(st, AAcquire(l)) && HoldersRecorded(GraphOf(st)) && Dominated(GraphOf(st))
    requires st.mem.holder[l].Some?
    requires HoldersRecorded(GraphOf(AddRecord(st, l)))
    ensures var g := GraphOf(DonateCurrent(AddRecord(st, l), l));
            HoldersRecorded(g) && Dominated(g)
  {
    var g1 := GraphOf(AddRecord(st, l));
    AddRecordEdges(st, l);
    DonationCorrect(g1, st.run.cur, l);
    assert GraphOf(DonateCurrent(AddRecord(st, l), l)) == DonateRec(g1, l, st.mem.prio[st.run.cur]);
  }

  lemma AddRecordEdges(st: State, l: Sid)
    requires WF(st) && HoldersRecorded(GraphOf(st)) && Dominated(GraphOf(st))
    requires l in st.mem.holder && st.mem.holder[l] != Some(st.run.cur)
    requires HoldersRecorded(GraphOf(AddRecord(st, l)))
    ensures var g1 := GraphOf(AddRecord(st, l));
            forall t :: t in g1.recs && t != st.run.cur ==> EdgeOk(g1, t)
  {
    var g1 := GraphOf(AddRecord(st, l));
    forall t | t in g1.recs && t != st.run.cur
      ensures EdgeOk(g1, t)
    {
      AddRecordEdge(GraphOf(st), st.run.cur, Rec(l, st.mem.prio[st.run.cur], true), t);
    }
  }

  /** lock_acquire on a free lock. */
  lemma AcquireFreeDominates(st: State, l: Sid)
    requires Inv(st) && May(st, AAcquire(l)) && HoldersRecorded(GraphOf(st)) && Dominated(GraphOf(st))
    requires st.mem.holder[l].None?
    requires HoldersRecorded(GraphOf(AddRecord(st, l)))
    requires HoldersRecorded(TakenGraph(GraphOf(AddRecord(st, l)), st.run.cur, l))
    ensures Dominated(TakenGraph(GraphOf(AddRecord(st, l)), st.run.cur, l)) <==> Fair(st, AAcquire(l), l)
  {
    var g1, x := GraphOf(AddRecord(st, l)), st.run.cur;
    AddRecordEdges(st, l);
    TakeDominates(g1, x, l);
    assert forall t :: t != x ==> (WaitsOn(g1, t, l) <==> WaitsOn(GraphOf(st), t, l));
  }

  /** A woken thread takes the lock. */
  lemma ResumeTakes(st: State, l: Sid)
    requires Inv(st) && May(st, AResume) && Takes(st, AResume, l)
    requires HoldersRecorded(GraphOf(st)) && Dominated(GraphOf(st))
    requires HoldersRecorded(TakenGraph(GraphOf(st), st.run.cur, l))
    ensures Dominated(TakenGraph(GraphOf(st), st.run.cur, l)) <==> Fair(st, AResume, l)
  {
    ResumeFront(st, l);
    TakeDominates(GraphOf(st), st.run.cur, l);
  }

  /** It waits for the lock, which nobody holds, with its front record. */
  lemma ResumeFront(st: State, l: Sid)
    requires Inv(st) && Takes(st, AResume, l)
    ensures var rs := st.mem.recs[st.run.cur];
            rs != [] && rs[0].lock == l && l in st.mem.holder && st.mem.holder[l] == None
  {
    assert RecsOk(st.run.cur, st.mem.recs[st.run.cur], st.mem.pc[st.run.cur], st.mem.holder);
  }

  /** The graph after taking the lock. */
  lemma FinishDownGraph(st: State, l: Sid)
    requires WF(st) && l in st.mem.holder && st.mem.value[l] > 0
    ensures GraphOf(FinishDown(st, l)) == TakenGraph(GraphOf(st), st.run.cur, l)
  {
  }

  lemma RunningWaitsForNothing(st: State)
    requires Locks(st) && st.run.cur in st.mem.recs
    requires st.mem.pc[st.run.cur] == Active || st.mem.pc[st.run.cur] == Releasing
    ensures forall i :: 0 <= i < |st.mem.recs[st.run.cur]| ==> !st.mem.recs[st.run.cur][i].waiting
    ensures DistinctLocks(st.mem.recs[st.run.cur])
  {
    assert RecsOk(st.run.cur, st.mem.recs[st.run.cur], st.mem.pc[st.run.cur], st.mem.holder);
  }

  lemma RepriorityDominates(g: Graph, x: Tid, p: int)
    requires HoldersRecorded(g) && Dominated(g) && x in g.recs
    requires forall i :: 0 <= i < |g.recs[x]| ==> !g.recs[x][i].waiting && g.recs[x][i].priority <= p
    ensures HoldersRecorded(g.(prio := g.prio[x := p])) && Dominated(g.(prio := g.prio[x := p]))
  {
    var r := g.(prio := g.prio[x := p]);
    assert forall l :: Held(r, l) <==> Held(g, l);
    forall t | t in r.recs
      ensures EdgeOk(r, t)
    {
      RepriorityEdge(g, x, p, t);
    }
  }

  lemma DropDominates(g: Graph, x: Tid, l: Sid)
    requires HoldersRecorded(g) && Dominated(g) && x in g.recs && DistinctLocks(g.recs[x])
    requires forall i :: 0 <= i < |g.recs[x]| ==> !g.recs[x][i].waiting
    requires HoldersRecorded(Dropped(g, x, l))
    ensures Dominated(Dropped(g, x, l))
  {
    forall t | t in g.recs
      ensures EdgeOk(Dropped(g, x, l), t)
    {
      DropEdge(g, x, l, t);
    }
  }

  /** The first half of lock_release. */
  lemma HalfReleaseDominates(st: State, l: Sid)
    requires Inv(st) && May(st, ARelease(l)) && HoldersRecorded(GraphOf(st)) && Dominated(GraphOf(st))
    ensures var w := Wake(DropHolder(st, l), l);
            AtRelease(w) && HoldersRecorded(GraphOf(w)) && Dominated(GraphOf(w))
  {
    var x, w := st.run.cur, Wake(DropHolder(st, l), l);
    RunningWaitsForNothing(st);
    ReleaseHalfway(st, l);
    LocksGiveHolders(w);
    assert GraphOf(w) == Dropped(GraphOf(st), x, l);
    DropDominates(GraphOf(st), x, l);
  }

  /** The second half: the new priority is still not below the records. */
  lemma ReprioritizeDominates(st: State)
    requires AtRelease(st) && HoldersRecorded(GraphOf(st)) && Dominated(GraphOf(st))
    ensures HoldersRecorded(GraphOf(Reprioritize(st))) && Dominated(GraphOf(Reprioritize(st)))
  {
    var x := st.run.cur;
    RunningWaitsForNothing(st);
    RepriorityDominates(GraphOf(st), x, MaxPriority(st.mem.base[x], st.mem.recs[x]));
  }

  ghost function GraphIn(m: Mem): Graph {
    Graph(m.prio, m.recs, m.holder)
  }

  lemma ReleaseDominates(st: State, l: Sid)
    requires Inv(st) && May(st, ARelease(l)) && HoldersRecorded(GraphOf(st)) && Dominated(GraphOf(st))
    ensures HoldersRecorded(GraphIn(ReleaseMem(st, l))) && Dominated(GraphIn(ReleaseMem(st, l)))
  {
    HalfReleaseDominates(st, l);
    ReprioritizeDominates(Wake(DropHolder(st, l), l));
  }

  lemma SpawnDominates(g: Graph, t: Tid, p: int)
    requires HoldersRecorded(g) && Dominated(g) && t !in g.recs
    ensures var r := g.(prio := g.prio[t := p], recs := g.recs[t := []]);
            HoldersRecorded(r) && Dominated(r)
  {
    var r := g.(prio := g.prio[t := p], recs := g.recs[t := []]);
    SpawnHolders(g, t, p);
    forall x | x in r.recs
      ensures EdgeOk(r, x)
    {
      if x != t {
        assert EdgeOk(g, x);
      }
    }
  }

  lemma SpawnHolders(g: Graph, t: Tid, p: int)
    requires HoldersRecorded(g) && t !in g.recs
    ensures var r := g.(prio := g.prio[t := p], recs := g.recs[t := []]);
            HoldersRecorded(r) && forall l :: Held(g, l) ==> Held(r, l) && g.holder[l].value != t
  {
    forall l | Held(g, l) ensures g.holder[l].value != t {
    }
  }

  lemma VanishDominates(g: Graph, t: Tid)
    requires HoldersRecorded(g) && Dominated(g) && t in g.recs && g.recs[t] == []
    ensures var r := g.(prio := g.prio - {t}, recs := g.recs - {t});
            HoldersRecorded(r) && Dominated(r)
  {
    var r := g.(prio := g.prio - {t}, recs := g.recs - {t});
    assert forall l :: Held(r, l) <==> Held(g, l);
    forall x | x in r.recs
      ensures EdgeOk(r, x)
    {
      assert EdgeOk(g, x);
    }
  }

  /** lock_acquire, held or free. */
  lemma AcquireDominates(st: State, l: Sid)
    requires Inv(st) && May(st, AAcquire(l)) && HoldersRecorded(GraphOf(st)) && Dominated(GraphOf(st))
    requires HoldersRecorded(GraphIn(MemAfter(st, AAcquire(l))))
    ensures Dominated(GraphIn(MemAfter(st, AAcquire(l)))) <==> (Takes(st, AAcquire(l), l) ==> Fair(st, AAcquire(l), l))
  {
    AddRecordKeepsHolders(st, l);
    if st.mem.holder[l].Some? {
      AcquireHeldDominates(st, l);
    } else {
      FinishDownGraph(AddRecord(st, l), l);
      AcquireFreeDominates(st, l);
    }
  }

  lemma ResumeDominates(st: State)
    requires Inv(st) && May(st, AResume) && HoldersRecorded(GraphOf(st)) && Dominated(GraphOf(st))
    requires HoldersRecorded(GraphIn(MemAfter(st, AResume)))
    ensures Dominated(GraphIn(MemAfter(st, AResume))) <==> forall l :: Takes(st, AResume, l) ==> Fair(st, AResume, l)
  {
    assert InPlace(ViewOf(st), st.run.cur);
    if st.mem.pc[st.run.cur].Downing? {
      ResumeDownDominates(st, st.mem.pc[st.run.cur].s);
    } else {
      ResumeReleaseDominates(st);
    }
  }

  /** A thread goes on in lock_release. */
  lemma ResumeReleaseDominates(st: State)
    requires Inv(st) && st.mem.pc[st.run.cur] == Releasing
    requires HoldersRecorded(GraphOf(st)) && Dominated(GraphOf(st))
    ensures HoldersRecorded(GraphIn(Reprioritize(st).mem)) && Dominated(GraphIn(Reprioritize(st).mem))
  {
    assert st.mem.pc[st.run.cur := Releasing] == st.mem.pc;
    ReprioritizeDominates(st);
  }

  /** A woken thread goes round the loop of sema_down. */
  lemma ResumeDownDominates(st: State, s: Sid)
    requires Inv(st) && st.mem.pc[st.run.cur] == Downing(s) && s in st.mem.value
    requires HoldersRecorded(GraphOf(st)) && Dominated(GraphOf(st)) && HoldersRecorded(GraphIn(DownMem(st, s)))
    ensures Dominated(GraphIn(DownMem(st, s))) <==> (Takes(st, AResume, s) ==> Fair(st, AResume, s))
  {
    if Takes(st, AResume, s) {
      FinishDownGraph(st, s);
      ResumeTakes(st, s);
    }
  }

  lemma SetPriorityDominates(st: State, p: int)
    requires Inv(st) && May(st, ASetPriority(p)) && HoldersRecorded(GraphOf(st)) && Dominated(GraphOf(st))
    ensures HoldersRecorded(GraphOf(Rebase(st, p))) && Dominated(GraphOf(Rebase(st, p)))
  {
    var x := st.run.cur;
    RunningWaitsForNothing(st);
    assert PrioOk(st.mem.prio[x], st.mem.base[x], st.mem.recs[x], st.mem.pc[x]);
    RepriorityDominates(GraphOf(st), x, Rebase(st, p).mem.prio[x]);
  }

  lemma OtherDominates(st: State, a: Action)
    requires Inv(st) && May(st, a) && HoldersRecorded(GraphOf(st)) && Dominated(GraphOf(st))
    requires !a.AAcquire? && !a.AResume?
    requires HoldersRecorded(GraphIn(MemAfter(st, a)))
    ensures Dominated(GraphIn(MemAfter(st, a)))
  {
    match a
    case ARelease(l) => ReleaseDominates(st, l);
    case ASetPriority(p) => SetPriorityDominates(st, p);
    case ACreate(t, p) => SpawnDominates(GraphOf(st), t, p);
    case AExit => VanishDominates(GraphOf(st), st.run.cur);
    case _ =>
  }

  lemma DominationMem(st: State, a: Action)
    requires Inv(st) && May(st, a) && HoldersRecorded(GraphOf(st)) && Dominated(GraphOf(st))
    requires HoldersRecorded(GraphIn(MemAfter(st, a)))
    ensures Dominated(GraphIn(MemAfter(st, a))) <==> forall l :: Takes(st, a, l) ==> Fair(st, a, l)
  {
    TakersOnly(st, a);
    if a.AAcquire? {
      AcquireDominates(st, a.l);
    } else if a.AResume? {
      ResumeDominates(st);
    } else {
      OtherDominates(st, a);
    }
  }

  lemma TakersOnly(st: State, a: Action)
    requires WF(st)
    ensures a.AAcquire? ==> forall l :: Takes(st, a, l) ==> l == a.l
    ensures !a.AAcquire? && !a.AResume? ==> forall l :: !Takes(st, a, l)
  {
  }

  /** Every step keeps domination, except that taking over a free lock keeps it exactly if the takeover is fair. */
  lemma DominationStep(st: State, a: Action)
    requires Inv(st) && May(st, a) && HoldersRecorded(GraphOf(st)) && Dominated(GraphOf(st))
    ensures HoldersRecorded(GraphOf(Apply(st, a)))
    ensures Dominated(GraphOf(Apply(st, a))) <==> forall l :: Takes(st, a, l) ==> Fair(st, a, l)
  {
    StepKeeps(st, a);
    InvHolders(Apply(st, a));
    ApplyMem(st, a);
    DominationMem(st, a);
  }

  // ---------- runs ----------

  /** All takeovers of a run are fair. */
  ghost predicate FairRun(st: State, acts: seq<Action>)
    requires Inv(st) && Legal(st, acts)
    decreases |acts|
  {
    acts == [] ||
    ((forall l :: Takes(st, acts[0], l) ==> Fair(st, acts[0], l)) &&
     (StepKeeps(st, acts[0]); FairRun(Apply(st, acts[0]), acts[1..])))
  }

  /** Holders dominate their waiters before and after every step of the run. */
  ghost predicate DominatedThroughout(st: State, acts: seq<Action>)
    requires Inv(st) && Legal(st, acts)
    decreases |acts|
  {
    && HoldersRecorded(GraphOf(st)) && Dominated(GraphOf(st))
    && (acts == [] || (StepKeeps(st, acts[0]); DominatedThroughout(Apply(st, acts[0]), acts[1..])))
  }

  /** That is so exactly if all takeovers of the run are fair. */
  lemma {:induction false} DominatedThroughoutIff(st: State, acts: seq<Action>)
    requires Inv(st) && Legal(st, acts) && HoldersRecorded(GraphOf(st)) && Dominated(GraphOf(st))
    ensures DominatedThroughout(st, acts) <==> FairRun(st, acts)
    ensures FairRun(st, acts) ==>
              HoldersRecorded(GraphOf(Exec(st, acts))) && Dominated(GraphOf(Exec(st, acts)))
    decreases |acts|
  {
    if acts != [] {
      StepKeeps(st, acts[0]);
      DominationStep(st, acts[0]);
      if Dominated(GraphOf(Apply(st, acts[0]))) {
        DominatedThroughoutIff(Apply(st, acts[0]), acts[1..]);
      } else {
        assert !DominatedThroughout(Apply(st, acts[0]), acts[1..]);
      }
    }
  }

  lemma BootDominated(c: Config)
    requires ConfigOk(c)
    ensures HoldersRecorded(GraphOf(Boot(c))) && Dominated(GraphOf(Boot(c)))
  {
    InvHolders(Boot(c));
    assert forall x :: x in Boot(c).mem.recs ==> Boot(c).mem.recs[x] == [];
  }

  /** Along a run from boot every holder dominates its waiters exactly if all takeovers of the run are fair. */
  lemma HoldersDominateIff(c: Config, acts: seq<Action>)
    requires ConfigOk(c) && Legal(Boot(c), acts)
    ensures DominatedThroughout(Boot(c), acts) <==> FairRun(Boot(c), acts)
  {
    BootDominated(c);
    DominatedThroughoutIff(Boot(c), acts);
  }

  /** In a run from boot whose takeovers are all fair, the holder of a lock always has at least the priority of
      everybody who waits for the lock. */
  lemma HolderOutranksWaiters(c: Config, acts: seq<Action>, t: Tid, l: Sid)
    requires ConfigOk(c) && Legal(Boot(c), acts) && FairRun(Boot(c), acts)
    requires var m := Exec(Boot(c), acts).mem;
             && t in m.recs && t in m.prio && l in m.holder && m.holder[l].Some? && WaitsFor(m.recs[t]) == Some(l)
    ensures var m := Exec(Boot(c), acts).mem;
            m.holder[l].value in m.prio && m.prio[t] <= m.prio[m.holder[l].value]
  {
    var st := Boot(c);
    BootDominated(c);
    DominatedThroughoutIff(st, acts);
    assert EdgeOk(GraphOf(Exec(st, acts)), t);
    assert Held(GraphOf(Exec(st, acts)), l);
  }
}
