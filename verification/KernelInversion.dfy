/** One run of the kernel in which a lock's holder ends up below a thread that waits for the lock, and in which a later
    donation stops short of that holder.

    Thread 1 is main, with priority 10, and 0 the idle thread; 7, 8 and 9 are locks.  Main takes 7.  Thread 2 takes 8
    and waits for 7; thread 3 takes 9 and waits for 7; thread 4 waits for 8, and its 30 go to 2 and on to main.  Main
    gives 7 up, and 2 is woken before 3 and takes it over; then 2 gives 8 up.  Thread 4 takes 8, creates thread 5 and
    goes to sleep, and 5 begins to wait for 9. */
module KernelInversion {
  import opened Collections
  import opened KernelTypes
  import opened KernelState
  import opened KernelInvariant
  import opened KernelRuns
  import opened KernelDomination
  import opened Donation

  function Machine(): Config {
    Config(1, 0, 10, map[7 := 1, 8 := 1, 9 := 1], {7, 8, 9})
  }

  // ---------- pictures of the states on the way ----------

  /** Who runs and who is ready. */
  ghost predicate Sched(st: State, cur: Tid, ready: seq<Tid>) {
    st.run.cur == cur && st.run.ready == ready && st.mem.idle == 0
  }

  ghost predicate Thread(st: State, t: Tid, x: Status, base: int, prio: int, recs: seq<Rec>, pc: Pc) {
    && t in st.run.status && st.run.status[t] == x && t in st.mem.base && st.mem.base[t] == base
    && t in st.mem.prio && st.mem.prio[t] == prio && t in st.mem.recs && st.mem.recs[t] == recs
    && t in st.mem.pc && st.mem.pc[t] == pc
  }

  ghost predicate Lock(st: State, l: Sid, holder: Option<Tid>, waiters: seq<Tid>) {
    && l in st.mem.holder && st.mem.holder[l] == holder && l in st.mem.waiters && st.mem.waiters[l] == waiters
    && l in st.mem.value && st.mem.value[l] == if holder.None? then 1 else 0
  }

  ghost predicate NotYet(st: State, t: Tid) {
    t !in st.run.status
  }

  ghost predicate At0(st: State) {
    && Sched(st, 1, []) && Thread(st, 1, Running, 10, 10, [], Active)
    && NotYet(st, 2) && NotYet(st, 3) && NotYet(st, 4) && NotYet(st, 5)
    && Lock(st, 7, None, []) && Lock(st, 8, None, []) && Lock(st, 9, None, [])
  }

  /** Main has 7. */
  ghost predicate At1(st: State) {
    && Sched(st, 1, []) && Thread(st, 1, Running, 10, 10, [Rec(7, 10, false)], Active)
    && NotYet(st, 2) && NotYet(st, 3) && NotYet(st, 4) && NotYet(st, 5)
    && Lock(st, 7, Some(1), []) && Lock(st, 8, None, []) && Lock(st, 9, None, [])
  }

  ghost predicate At2(st: State) {
    && Sched(st, 2, [1]) && Thread(st, 1, Ready, 10, 10, [Rec(7, 10, false)], Active)
    && Thread(st, 2, Running, 20, 20, [], Active)
    && NotYet(st, 3) && NotYet(st, 4) && NotYet(st, 5)
    && Lock(st, 7, Some(1), []) && Lock(st, 8, None, []) && Lock(st, 9, None, [])
  }

  ghost predicate At3(st: State) {
    && Sched(st, 2, [1]) && Thread(st, 1, Ready, 10, 10, [Rec(7, 10, false)], Active)
    && Thread(st, 2, Running, 20, 20, [Rec(8, 20, false)], Active)
    && NotYet(st, 3) && NotYet(st, 4) && NotYet(st, 5)
    && Lock(st, 7, Some(1), []) && Lock(st, 8, Some(2), []) && Lock(st, 9, None, [])
  }

  /** 2 waits for 7. */
  ghost predicate At4(st: State) {
    && Sched(st, 1, []) && Thread(st, 1, Running, 10, 20, [Rec(7, 20, false)], Active)
    && Thread(st, 2, Blocked, 20, 20, [Rec(7, 20, true), Rec(8, 20, false)], Downing(7))
    && NotYet(st, 3) && NotYet(st, 4) && NotYet(st, 5)
    && Lock(st, 7, Some(1), [2]) && Lock(st, 8, Some(2), []) && Lock(st, 9, None, [])
  }

  ghost predicate At5(st: State) {
    && Sched(st, 3, [1]) && Thread(st, 1, Ready, 10, 20, [Rec(7, 20, false)], Active)
    && Thread(st, 2, Blocked, 20, 20, [Rec(7, 20, true), Rec(8, 20, false)], Downing(7))
    && Thread(st, 3, Running, 25, 25, [], Active)
    && NotYet(st, 4) && NotYet(st, 5)
    && Lock(st, 7, Some(1), [2]) && Lock(st, 8, Some(2), []) && Lock(st, 9, None, [])
  }

  ghost predicate At6(st: State) {
    && Sched(st, 3, [1]) && Thread(st, 1, Ready, 10, 20, [Rec(7, 20, false)], Active)
    && Thread(st, 2, Blocked, 20, 20, [Rec(7, 20, true), Rec(8, 20, false)], Downing(7))
    && Thread(st, 3, Running, 25, 25, [Rec(9, 25, false)], Active)
    && NotYet(st, 4) && NotYet(st, 5)
    && Lock(st, 7, Some(1), [2]) && Lock(st, 8, Some(2), []) && Lock(st, 9, Some(3), [])
  }

  /** What stays so for long: 3 waits for 7 and has 9. */
  ghost predicate Third(st: State) {
    && Thread(st, 3, Blocked, 25, 25, [Rec(7, 25, true), Rec(9, 25, false)], Downing(7))
    && NotYet(st, 5) && Lock(st, 9, Some(3), [])
  }

  ghost predicate At7(st: State) {
    && Sched(st, 1, []) && Thread(st, 1, Running, 10, 25, [Rec(7, 25, false)], Active)
    && Thread(st, 2, Blocked, 20, 20, [Rec(7, 20, true), Rec(8, 20, false)], Downing(7))
    && Third(st) && NotYet(st, 4)
    && Lock(st, 7, Some(1), [2, 3]) && Lock(st, 8, Some(2), [])
  }

  ghost predicate At8(st: State) {
    && Sched(st, 4, [1]) && Thread(st, 1, Ready, 10, 25, [Rec(7, 25, false)], Active)
    && Thread(st, 2, Blocked, 20, 20, [Rec(7, 20, true), Rec(8, 20, false)], Downing(7))
    && Third(st) && Thread(st, 4, Running, 30, 30, [], Active)
    && Lock(st, 7, Some(1), [2, 3]) && Lock(st, 8, Some(2), [])
  }

  /** 4 waits for 8; its 30 are with 2 and with main, but not in the record 2 waits for 7 with. */
  ghost predicate At9(st: State) {
    && Sched(st, 1, []) && Thread(st, 1, Running, 10, 30, [Rec(7, 30, false)], Active)
    && Thread(st, 2, Blocked, 20, 30, [Rec(7, 20, true), Rec(8, 30, false)], Downing(7))
    && Third(st) && Thread(st, 4, Blocked, 30, 30, [Rec(8, 30, true)], Downing(8))
    && Lock(st, 7, Some(1), [2, 3]) && Lock(st, 8, Some(2), [4])
  }

  /** 2 has been woken for 7. */
  ghost predicate At10(st: State) {
    && Sched(st, 2, [1]) && Thread(st, 1, Ready, 10, 10, [], Active)
    && Thread(st, 2, Running, 20, 30, [Rec(7, 20, true), Rec(8, 30, false)], Downing(7))
    && Third(st) && Thread(st, 4, Blocked, 30, 30, [Rec(8, 30, true)], Downing(8))
    && Lock(st, 7, None, [3]) && Lock(st, 8, Some(2), [4])
  }

  /** 2 has 7, with a record of 20, and 3 waits with 25. */
  ghost predicate At11(st: State) {
    && Sched(st, 2, [1]) && Thread(st, 1, Ready, 10, 10, [], Active)
    && Thread(st, 2, Running, 20, 30, [Rec(7, 20, false), Rec(8, 30, false)], Active)
    && Third(st) && Thread(st, 4, Blocked, 30, 30, [Rec(8, 30, true)], Downing(8))
    && Lock(st, 7, Some(2), [3]) && Lock(st, 8, Some(2), [4])
  }

  /** 2 is down to 20. */
  ghost predicate At12(st: State) {
    && Sched(st, 4, [1, 2]) && Thread(st, 1, Ready, 10, 10, [], Active)
    && Thread(st, 2, Ready, 20, 20, [Rec(7, 20, false)], Active)
    && Third(st) && Thread(st, 4, Running, 30, 30, [Rec(8, 30, true)], Downing(8))
    && Lock(st, 7, Some(2), [3]) && Lock(st, 8, None, [])
  }

  ghost predicate At13(st: State) {
    && Sched(st, 4, [1, 2]) && Thread(st, 1, Ready, 10, 10, [], Active)
    && Thread(st, 2, Ready, 20, 20, [Rec(7, 20, false)], Active)
    && Third(st) && Thread(st, 4, Running, 30, 30, [Rec(8, 30, false)], Active)
    && Lock(st, 7, Some(2), [3])
  }

  /** 3 waits for 7, which 2 has. */
  ghost predicate Behind2(st: State) {
    && Thread(st, 1, Ready, 10, 10, [], Active) && Thread(st, 2, Ready, 20, 20, [Rec(7, 20, false)], Active)
    && Thread(st, 3, Blocked, 25, 25, [Rec(7, 25, true), Rec(9, 25, false)], Downing(7))
    && Lock(st, 7, Some(2), [3]) && Lock(st, 9, Some(3), [])
  }

  ghost predicate At14(st: State) {
    && Sched(st, 4, [1, 2, 5]) && Behind2(st)
    && Thread(st, 4, Running, 30, 30, [Rec(8, 30, false)], Active) && Thread(st, 5, Ready, 22, 22, [], Active)
  }

  ghost predicate At15(st: State) {
    Sched(st, 5, [1, 2]) && Behind2(st) && Thread(st, 5, Running, 22, 22, [], Active)
  }

  /** 5 waits for 9 with 22, behind 3, and so behind 2, which still has 20. */
  ghost predicate At16(st: State) {
    && Sched(st, 2, [1]) && Thread(st, 2, Running, 20, 20, [Rec(7, 20, false)], Active)
    && Thread(st, 3, Blocked, 25, 25, [Rec(7, 25, true), Rec(9, 25, false)], Downing(7))
    && Thread(st, 5, Blocked, 22, 22, [Rec(9, 22, true)], Downing(9))
    && Lock(st, 7, Some(2), [3]) && Lock(st, 9, Some(3), [5])
  }

  // ---------- the steps ----------

  /** L[I] has more than everybody else in L. */
  ghost predicate Top(l: seq<Tid>, prio: map<Tid, int>, i: nat) {
    i < |l| && AllIn(l, prio) && forall j :: 0 <= j < |l| && j != i ==> prio[l[j]] < prio[l[i]]
  }

  /** A yield and a block to ready thread I, with REST left on the ready list. */
  lemma YieldsTo(st: State, l: seq<Tid>, i: nat, rest: seq<Tid>)
    requires WF(st) && st.run.cur != st.mem.idle && l == st.run.ready + [st.run.cur]
    requires Top(l, st.mem.prio, i) && rest == RemoveAt(l, i)
    ensures Yield(st) == State(Run(st.run.status[st.run.cur := Ready][l[i] := Running], rest, l[i], 0), st.mem)
  {
    assert FirstMax(l, st.mem.prio) == i;
  }

  lemma BlocksTo(st: State, i: nat, rest: seq<Tid>)
    requires WF(st) && Top(st.run.ready, st.mem.prio, i) && rest == RemoveAt(st.run.ready, i)
    ensures var t := st.run.ready[i];
            Block(st) == State(Run(st.run.status[st.run.cur := Blocked][t := Running], rest, t, 0), st.mem)
  {
    assert FirstMax(st.run.ready, st.mem.prio) == i;
  }

  /** The same with T as the only ready thread. */
  lemma YieldsToOnly(st: State, t: Tid)
    requires WF(st) && st.run.cur != st.mem.idle && st.run.ready == [t] && st.mem.prio[t] > st.mem.prio[st.run.cur]
    ensures Yield(st) == State(Run(st.run.status[st.run.cur := Ready][t := Running], [st.run.cur], t, 0), st.mem)
  {
    YieldsTo(st, st.run.ready + [st.run.cur], 0, [st.run.cur]);
  }

  lemma BlocksToOnly(st: State, t: Tid)
    requires WF(st) && st.run.ready == [t]
    ensures Block(st) == State(Run(st.run.status[st.run.cur := Blocked][t := Running], [], t, 0), st.mem)
  {
    BlocksTo(st, 0, []);
  }

  lemma Step0(st: State)
    requires WF(st) && HoldersRecorded(GraphOf(st)) && At0(st)
    ensures At1(Acquire(st, 7))
  {
  }

  /** R is ST after its running thread has created T, of priority P, which runs at once. */
  ghost predicate Created(st: State, r: State, t: Tid, p: int) {
    && r.run.cur == t && r.run.ready == [st.run.cur]
    && r.run.status == st.run.status[t := Ready][st.run.cur := Ready][t := Running]
    && r.mem.base == st.mem.base[t := p] && r.mem.prio == st.mem.prio[t := p] && r.mem.recs == st.mem.recs[t := []]
    && r.mem.pc == st.mem.pc[t := Active] && r.mem.idle == st.mem.idle
    && r.mem.value == st.mem.value && r.mem.holder == st.mem.holder && r.mem.waiters == st.mem.waiters
  }

  lemma CreatesAbove(st: State, t: Tid, p: int) returns (r: State)
    requires WF(st) && st.run.cur != st.mem.idle && st.run.ready == [] && t != st.run.cur && p > st.mem.prio[st.run.cur]
    ensures r == Create(st, t, p) && Created(st, r, t, p)
  {
    YieldsToOnly(Spawn(st, t, p), t);
    r := Create(st, t, p);
  }

  lemma Step1(st: State)
    requires WF(st) && At1(st)
    ensures At2(Create(st, 2, 20))
  {
    var r := CreatesAbove(st, 2, 20);
    Picture2(st, r);
  }

  lemma Picture2(st: State, r: State)
    requires At1(st) && Created(st, r, 2, 20)
    ensures At2(r)
  {
  }

  lemma Step2(st: State)
    requires WF(st) && HoldersRecorded(GraphOf(st)) && At2(st)
    ensures At3(Acquire(st, 8))
  {
  }

  /** R is Q after its running thread began to wait for L and main, the only ready thread, runs. */
  ghost predicate Waits(q: State, r: State, l: Sid)
    requires l in q.mem.waiters
  {
    && r.run.cur == 1 && r.run.ready == [] && r.run.status == q.run.status[q.run.cur := Blocked][1 := Running]
    && r.mem.waiters == q.mem.waiters[l := q.mem.waiters[l] + [q.run.cur]]
    && r.mem.pc == q.mem.pc[q.run.cur := Downing(l)] && r.mem.idle == q.mem.idle
    && r.mem.base == q.mem.base && r.mem.prio == q.mem.prio && r.mem.recs == q.mem.recs
    && r.mem.value == q.mem.value && r.mem.holder == q.mem.holder
  }

  lemma WaitsBehindMain(q: State, l: Sid)
    requires WF(q) && l in q.mem.value && q.mem.value[l] == 0 && q.run.ready == [1]
    ensures Waits(q, DownLoop(q, l), l)
  {
    BlocksToOnly(Enqueue(q, l), 1);
  }

  /** ST with P donated to main by T, which has put its record for 7 in front. */
  ghost function Donated(st: State, t: Tid, p: int, recs: seq<Rec>): State {
    st.(mem := st.mem.(prio := st.mem.prio[1 := p],
                       recs := st.mem.recs[t := [Rec(7, p, true)] + recs][1 := [Rec(7, p, false)]]))
  }

  /** T, which runs with priority P, begins to wait for 7, which main has with a lower priority. */
  lemma DonatesToMain(st: State, t: Tid, p: int, recs: seq<Rec>, was: int)
    requires WF(st) && HoldersRecorded(GraphOf(st)) && HoldersRecorded(GraphOf(AddRecord(st, 7)))
    requires t != 1 && st.run.cur == t && Thread(st, t, Running, p, p, recs, Active)
    requires was < p && Thread(st, 1, Ready, 10, was, [Rec(7, was, false)], Active)
    requires 7 in st.mem.holder && st.mem.holder[7] == Some(1)
    ensures DonateCurrent(AddRecord(st, 7), 7) == Donated(st, t, p, recs)
  {
    var g := GraphOf(AddRecord(st, 7));
    RaiseKeepsShape(g, 7, p);
    assert RaiseRec([Rec(7, was, false)], 7, p) == [Rec(7, p, false)];
    assert DonateRec(g, 7, p) == Raise(g, 7, p);
  }

  lemma WaitsFor7(st: State, t: Tid, p: int, recs: seq<Rec>, was: int, waiters: seq<Tid>) returns (r: State)
    requires WF(st) && HoldersRecorded(GraphOf(st)) && st.run.ready == [1]
    requires t != 1 && st.run.cur == t && Thread(st, t, Running, p, p, recs, Active)
    requires was < p && Thread(st, 1, Ready, 10, was, [Rec(7, was, false)], Active)
    requires Lock(st, 7, Some(1), waiters)
    ensures r == Acquire(st, 7) && Waits(Donated(st, t, p, recs), r, 7)
  {
    AddRecordKeepsHolders(st, 7);
    DonatesToMain(st, t, p, recs, was);
    WaitsBehindMain(DonateCurrent(AddRecord(st, 7), 7), 7);
    r := Acquire(st, 7);
  }

  lemma Picture4(st: State, r: State)
    requires At3(st) && Waits(Donated(st, 2, 20, [Rec(8, 20, false)]), r, 7)
    ensures At4(r)
  {
  }

  lemma Step3(st: State)
    requires WF(st) && HoldersRecorded(GraphOf(st)) && At3(st)
    ensures At4(Acquire(st, 7))
  {
    var r := WaitsFor7(st, 2, 20, [Rec(8, 20, false)], 10, []);
    Picture4(st, r);
  }

  lemma Step4(st: State)
    requires WF(st) && At4(st)
    ensures At5(Create(st, 3, 25))
  {
    var r := CreatesAbove(st, 3, 25);
    Picture5(st, r);
  }

  lemma Picture5(st: State, r: State)
    requires At4(st) && Created(st, r, 3, 25)
    ensures At5(r)
  {
  }

  lemma Step5(st: State)
    requires WF(st) && HoldersRecorded(GraphOf(st)) && At5(st)
    ensures At6(Acquire(st, 9))
  {
  }

  lemma Picture7(st: State, r: State)
    requires At6(st) && Waits(Donated(st, 3, 25, [Rec(9, 25, false)]), r, 7)
    ensures At7(r)
  {
  }

  lemma Step6(st: State)
    requires WF(st) && HoldersRecorded(GraphOf(st)) && At6(st)
    ensures At7(Acquire(st, 7))
  {
    var r := WaitsFor7(st, 3, 25, [Rec(9, 25, false)], 20, [2]);
    Picture7(st, r);
  }

  lemma Step7(st: State)
    requires WF(st) && At7(st)
    ensures At8(Create(st, 4, 30))
  {
    var r := CreatesAbove(st, 4, 30);
    Picture8(st, r);
  }

  lemma Picture8(st: State, r: State)
    requires At7(st) && Created(st, r, 4, 30)
    ensures At8(r)
  {
  }

  /** The priority of 4 goes to 2 and on to main. */
  lemma Donates30(st: State)
    requires WF(st) && HoldersRecorded(GraphOf(st)) && At8(st) && HoldersRecorded(GraphOf(AddRecord(st, 8)))
    ensures Donated30(st, DonateCurrent(AddRecord(st, 8), 8))
  {
    var g := GraphOf(AddRecord(st, 8));
    RaiseKeepsShape(g, 8, 30);
    var g1 := Raise(g, 8, 30);
    assert FindRec(g.recs[2], 8) == 1;
    assert g1.recs[2] == [Rec(7, 20, true), Rec(8, 30, false)];
    assert NextLock(g1, 8) == Some(7);
    DonationProgress(g, 8, 30);
    assert DonateRec(g, 8, 30) == DonateRec(g1, 7, 30);
    RaiseKeepsShape(g1, 7, 30);
    assert DonateRec(g1, 7, 30) == Raise(g1, 7, 30);
  }

  lemma Step8(st: State)
    requires WF(st) && HoldersRecorded(GraphOf(st)) && At8(st)
    ensures At9(Acquire(st, 8))
  {
    var q, r := WaitsFor8(st);
    Picture9(st, q, r);
  }

  /** ST with the 30 of 4 with 2 and main. */
  ghost predicate Donated30(st: State, q: State) {
    && q.run == st.run && Third(q)
    && Thread(q, 1, Ready, 10, 30, [Rec(7, 30, false)], Active)
    && Thread(q, 2, Blocked, 20, 30, [Rec(7, 20, true), Rec(8, 30, false)], Downing(7))
    && Thread(q, 4, Running, 30, 30, [Rec(8, 30, true)], Active)
    && q.mem.value == st.mem.value && q.mem.waiters == st.mem.waiters && q.mem.holder == st.mem.holder
    && q.mem.idle == st.mem.idle
  }

  lemma WaitsFor8(st: State) returns (q: State, r: State)
    requires WF(st) && HoldersRecorded(GraphOf(st)) && At8(st)
    ensures r == Acquire(st, 8) && Donated30(st, q) && Waits(q, r, 8)
  {
    AddRecordKeepsHolders(st, 8);
    Donates30(st);
    q := DonateCurrent(AddRecord(st, 8), 8);
    WaitsBehindMain(q, 8);
    r := Acquire(st, 8);
  }

  lemma Picture9(st: State, q: State, r: State)
    requires At8(st) && Donated30(st, q) && Waits(q, r, 8)
    ensures At9(r)
  {
  }

  /** Q is half-way through a release of L from ST that wakes W; REST are the waiters left, and RS the records left to
      the running thread. */
  ghost predicate HalfReleased(st: State, q: State, l: Sid, w: Tid, rest: seq<Tid>, rs: seq<Rec>)
    requires l in st.mem.value
  {
    && q.run.cur == st.run.cur && q.run.ready == st.run.ready + [w] && q.run.status == st.run.status[w := Ready]
    && q.mem.idle == st.mem.idle && q.mem.base == st.mem.base && q.mem.prio == st.mem.prio && q.mem.pc == st.mem.pc
    && q.mem.recs == st.mem.recs[st.run.cur := rs] && q.mem.holder == st.mem.holder[l := None]
    && q.mem.value == st.mem.value[l := st.mem.value[l] + 1] && q.mem.waiters == st.mem.waiters[l := rest]
  }

  /** W is the thread sema_up of L picks, and REST are the others. */
  ghost predicate Picks(st: State, l: Sid, w: Tid, rest: seq<Tid>)
    requires WF(st) && l in st.mem.value
  {
    HasWaiters(st, l) && TopWaiter(st, l) == w && OtherWaiters(st, l) == rest
  }

  lemma ReleaseWakes(st: State, l: Sid, w: Tid, rest: seq<Tid>, rs: seq<Rec>) returns (q: State)
    requires WF(st) && l in st.mem.holder && Picks(st, l, w, rest)
    requires rs == DropRec(st.mem.recs[st.run.cur], l) && st.mem.prio[w] <= st.mem.prio[st.run.cur]
    ensures WF(q) && Release(st, l) == FinishRelease(q) && HalfReleased(st, q, l, w, rest, rs)
  {
    DropPicks(st, l, w, rest);
    HalfIs(st, l, w, rest, rs);
    q := Wake(DropHolder(st, l), l);
    ReleaseIs(st, l);
  }

  lemma ReleaseIs(st: State, l: Sid)
    requires WF(st) && l in st.mem.holder && !Outranked(DropHolder(st, l), l)
    ensures Release(st, l) == FinishRelease(Wake(DropHolder(st, l), l))
  {
  }

  lemma HalfIs(st: State, l: Sid, w: Tid, rest: seq<Tid>, rs: seq<Rec>)
    requires WF(st) && l in st.mem.holder && Picks(DropHolder(st, l), l, w, rest)
    requires rs == DropRec(st.mem.recs[st.run.cur], l)
    ensures HalfReleased(st, Wake(DropHolder(st, l), l), l, w, rest, rs)
  {
    WakeIs(DropHolder(st, l), l, w, rest);
  }

  lemma DropPicks(st: State, l: Sid, w: Tid, rest: seq<Tid>)
    requires WF(st) && l in st.mem.holder && Picks(st, l, w, rest) && st.mem.prio[w] <= st.mem.prio[st.run.cur]
    ensures Picks(DropHolder(st, l), l, w, rest) && !Outranked(DropHolder(st, l), l)
  {
  }

  lemma WakeIs(st: State, l: Sid, w: Tid, rest: seq<Tid>)
    requires WF(st) && l in st.mem.value && Picks(st, l, w, rest)
    ensures Wake(st, l).run == st.run.(ready := st.run.ready + [w], status := st.run.status[w := Ready])
    ensures Wake(st, l).mem == st.mem.(value := st.mem.value[l := st.mem.value[l] + 1],
                                       ups := st.mem.ups[l := st.mem.ups[l] + 1],
                                       waiters := st.mem.waiters[l := rest])
  {
  }

  lemma PicksFirst(st: State, l: Sid, w: Tid, rest: seq<Tid>)
    requires WF(st) && l in st.mem.value && st.mem.waiters[l] == [w] + rest && Top(st.mem.waiters[l], st.mem.prio, 0)
    ensures Picks(st, l, w, rest)
  {
    assert FirstMax(st.mem.waiters[l], st.mem.prio) == 0;
  }

  /** R is ST after its running thread has finished a release with priority P and yielded to T, which leaves REST. */
  ghost predicate Finished(st: State, r: State, p: int, t: Tid, rest: seq<Tid>) {
    && r.run.cur == t && r.run.ready == rest && r.run.status == st.run.status[st.run.cur := Ready][t := Running]
    && r.mem.prio == st.mem.prio[st.run.cur := p] && r.mem.pc == st.mem.pc[st.run.cur := Active]
    && r.mem.idle == st.mem.idle && r.mem.base == st.mem.base && r.mem.recs == st.mem.recs
    && r.mem.value == st.mem.value && r.mem.holder == st.mem.holder && r.mem.waiters == st.mem.waiters
  }

  /** The second half of a release, with P as the priority the running thread is left with. */
  lemma FinishYieldsTo(st: State, p: int, l: seq<Tid>, i: nat, rest: seq<Tid>) returns (r: State)
    requires WF(st) && st.run.cur != st.mem.idle && l == st.run.ready + [st.run.cur]
    requires p == MaxPriority(st.mem.base[st.run.cur], st.mem.recs[st.run.cur]) < st.mem.prio[st.run.cur]
    requires Top(l, st.mem.prio[st.run.cur := p], i) && rest == RemoveAt(l, i)
    ensures r == FinishRelease(st) && Finished(st, r, p, l[i], rest)
  {
    YieldsTo(Reprioritize(st), l, i, rest);
    r := FinishRelease(st);
  }

  /** Half-way through main's release: 2 is woken, since it has 30, not 3 with 25. */
  ghost predicate Woken2(st: State) {
    && Sched(st, 1, [2]) && Thread(st, 1, Running, 10, 30, [], Active)
    && Thread(st, 2, Ready, 20, 30, [Rec(7, 20, true), Rec(8, 30, false)], Downing(7))
    && Third(st) && Thread(st, 4, Blocked, 30, 30, [Rec(8, 30, true)], Downing(8))
    && Lock(st, 7, None, [3]) && Lock(st, 8, Some(2), [4])
  }

  lemma Wakes2(st: State) returns (q: State)
    requires WF(st) && At9(st)
    ensures WF(q) && Woken2(q) && Release(st, 7) == FinishRelease(q)
  {
    assert DropRec(st.mem.recs[1], 7) == [];
    PicksFirst(st, 7, 2, [3]);
    q := ReleaseWakes(st, 7, 2, [3], []);
    Half2(st, q);
  }

  lemma Half2(st: State, q: State)
    requires At9(st) && HalfReleased(st, q, 7, 2, [3], [])
    ensures Woken2(q)
  {
  }

  lemma Yields2(st: State)
    requires WF(st) && Woken2(st)
    ensures At10(FinishRelease(st))
  {
    TwoInLine(st.run.ready, 2, 1, st.mem.prio[1 := 10]);
    var r := FinishYieldsTo(st, 10, st.run.ready + [1], 0, [1]);
    Picture10(st, r);
  }

  lemma TwoInLine(ready: seq<Tid>, a: Tid, b: Tid, prio: map<Tid, int>)
    requires ready == [a] && a in prio && b in prio && prio[b] < prio[a]
    ensures Top(ready + [b], prio, 0) && RemoveAt(ready + [b], 0) == [b] && (ready + [b])[0] == a
  {
  }

  lemma Picture10(st: State, r: State)
    requires Woken2(st) && Finished(st, r, 10, 2, [1])
    ensures At10(r)
  {
  }

  lemma Step9(st: State)
    requires WF(st) && At9(st)
    ensures At10(Release(st, 7))
  {
    var q := Wakes2(st);
    Yields2(q);
  }

  lemma Step10(st: State)
    requires WF(st) && At10(st)
    ensures At11(DownLoop(st, 7))
  {
    var rs := st.mem.recs[2];
    assert FindRec(rs, 7) == 0;
    assert SetOwned(rs, 7) == [Rec(7, 20, false), Rec(8, 30, false)];
  }

  /** Half-way through the release by 2: 4 is woken. */
  ghost predicate Woken4(st: State) {
    && Sched(st, 2, [1, 4]) && Thread(st, 1, Ready, 10, 10, [], Active)
    && Thread(st, 2, Running, 20, 30, [Rec(7, 20, false)], Active)
    && Third(st) && Thread(st, 4, Ready, 30, 30, [Rec(8, 30, true)], Downing(8))
    && Lock(st, 7, Some(2), [3]) && Lock(st, 8, None, [])
  }

  lemma Wakes4(st: State) returns (q: State)
    requires WF(st) && At11(st)
    ensures WF(q) && Woken4(q) && Release(st, 8) == FinishRelease(q)
  {
    var rs := [Rec(7, 20, false)];
    SecondDropped(Rec(7, 20, false), Rec(8, 30, false));
    PicksFirst(st, 8, 4, []);
    q := ReleaseWakes(st, 8, 4, [], rs);
    Half4(st, q);
  }

  lemma SecondDropped(a: Rec, b: Rec)
    requires a.lock != b.lock
    ensures DropRec([a, b], b.lock) == [a]
  {
    assert FindRec([a, b], b.lock) == 1;
  }

  lemma Half4(st: State, q: State)
    requires At11(st) && HalfReleased(st, q, 8, 4, [], [Rec(7, 20, false)])
    ensures Woken4(q)
  {
    assert [1] + [4] == [1, 4];
  }

  lemma Yields4(st: State)
    requires WF(st) && Woken4(st)
    ensures At12(FinishRelease(st))
  {
    assert MaxPriority(20, [Rec(7, 20, false)]) == 20;
    ThreeInLine(st.run.ready, 1, 4, 2, st.mem.prio[2 := 20]);
    var r := FinishYieldsTo(st, 20, st.run.ready + [2], 1, [1, 2]);
    Picture12(st, r);
  }

  lemma ThreeInLine(ready: seq<Tid>, a: Tid, b: Tid, c: Tid, prio: map<Tid, int>)
    requires ready == [a, b] && a in prio && b in prio && c in prio && prio[a] < prio[b] && prio[c] < prio[b]
    ensures Top(ready + [c], prio, 1) && RemoveAt(ready + [c], 1) == [a, c] && (ready + [c])[1] == b
  {
  }

  lemma Picture12(st: State, r: State)
    requires Woken4(st) && Finished(st, r, 20, 4, [1, 2])
    ensures At12(r)
  {
  }

  lemma Step11(st: State)
    requires WF(st) && At11(st)
    ensures At12(Release(st, 8))
  {
    var q := Wakes4(st);
    Yields4(q);
  }

  lemma Step12(st: State)
    requires WF(st) && At12(st)
    ensures At13(DownLoop(st, 8))
  {
    assert FindRec(st.mem.recs[4], 8) == 0;
    assert SetOwned(st.mem.recs[4], 8) == [Rec(8, 30, false)];
  }

  lemma Step13(st: State)
    requires WF(st) && At13(st)
    ensures At14(Create(st, 5, 22))
  {
    assert [1, 2] + [5] == [1, 2, 5];
  }

  lemma Step14(st: State)
    requires WF(st) && At14(st)
    ensures At15(Sleep(st, 100))
  {
    BlocksTo(Doze(st, 100), 2, [1, 2]);
  }

  /** The donation stops at 3, which has 25. */
  lemma StopsAt3(st: State)
    requires WF(st) && HoldersRecorded(GraphOf(st)) && At15(st) && HoldersRecorded(GraphOf(AddRecord(st, 9)))
    ensures DonateCurrent(AddRecord(st, 9), 9) == AddRecord(st, 9)
  {
    var g := GraphOf(AddRecord(st, 9));
    assert FindRec(g.recs[3], 9) == 1;
    RaiseNoop(g, 9, 22);
    assert DonateRec(g, 9, 22) == g;
  }

  lemma Step15(st: State)
    requires WF(st) && HoldersRecorded(GraphOf(st)) && At15(st)
    ensures At16(Acquire(st, 9))
  {
    AddRecordKeepsHolders(st, 9);
    StopsAt3(st);
    BlocksTo(Enqueue(AddRecord(st, 9), 9), 1, [1]);
  }

  // ---------- the run ----------

  /** ST is the state after the steps ACTS from START. */
  ghost predicate Played(start: State, acts: seq<Action>, st: State) {
    After(start, acts, st) && Inv(st) && HoldersRecorded(GraphOf(st))
  }

  /** One more step, and what it does. */
  lemma Play(start: State, acts: seq<Action>, st: State, a: Action) returns (more: seq<Action>, r: State)
    requires Played(start, acts, st) && May(st, a)
    ensures Played(start, more, r) && r == Apply(st, a)
  {
    r := Grow(start, acts, st, a);
    more := acts + [a];
    InvHolders(r);
  }

  lemma PlayAcquire(start: State, acts: seq<Action>, st: State, l: Sid) returns (more: seq<Action>, r: State)
    requires Played(start, acts, st) && May(st, AAcquire(l))
    ensures Played(start, more, r) && r == Acquire(st, l)
  {
    more, r := Play(start, acts, st, AAcquire(l));
  }

  lemma PlayCreate(start: State, acts: seq<Action>, st: State, t: Tid, p: int) returns (more: seq<Action>, r: State)
    requires Played(start, acts, st) && May(st, ACreate(t, p))
    ensures Played(start, more, r) && r == Create(st, t, p)
  {
    more, r := Play(start, acts, st, ACreate(t, p));
  }

  lemma PlayRelease(start: State, acts: seq<Action>, st: State, l: Sid) returns (more: seq<Action>, r: State)
    requires Played(start, acts, st) && May(st, ARelease(l))
    ensures Played(start, more, r) && r == Release(st, l)
  {
    more, r := Play(start, acts, st, ARelease(l));
  }

  lemma PlayResume(start: State, acts: seq<Action>, st: State, l: Sid) returns (more: seq<Action>, r: State)
    requires Played(start, acts, st) && st.mem.pc[st.run.cur] == Downing(l) && l in st.mem.value
    ensures Played(start, more, r) && r == DownLoop(st, l)
  {
    more, r := Play(start, acts, st, AResume);
  }

  /** 2 has 8. */
  lemma Play3Steps(start: State) returns (acts: seq<Action>, st: State)
    requires Inv(start) && At0(start)
    ensures Played(start, acts, st) && At3(st)
  {
    InvHolders(start);
    Step0(start);
    acts, st := PlayAcquire(start, [], start, 7);
    Step1(st);
    acts, st := PlayCreate(start, acts, st, 2, 20);
    Step2(st);
    acts, st := PlayAcquire(start, acts, st, 8);
  }

  /** 3 has 9, and 2 waits for 7. */
  lemma Play6Steps(start: State) returns (acts: seq<Action>, st: State)
    requires Inv(start) && At0(start)
    ensures Played(start, acts, st) && At6(st)
  {
    acts, st := Play3Steps(start);
    Step3(st);
    acts, st := PlayAcquire(start, acts, st, 7);
    Step4(st);
    acts, st := PlayCreate(start, acts, st, 3, 25);
    Step5(st);
    acts, st := PlayAcquire(start, acts, st, 9);
  }

  /** 3 waits for 7 as well, and 4 for 8. */
  lemma Play9Steps(start: State) returns (acts: seq<Action>, st: State)
    requires Inv(start) && At0(start)
    ensures Played(start, acts, st) && At9(st)
  {
    acts, st := Play6Steps(start);
    Step6(st);
    acts, st := PlayAcquire(start, acts, st, 7);
    Step7(st);
    acts, st := PlayCreate(start, acts, st, 4, 30);
    Step8(st);
    acts, st := PlayAcquire(start, acts, st, 8);
  }

  /** Main has given 7 up, and 2 is about to take it. */
  lemma Play10Steps(start: State) returns (acts: seq<Action>, st: State)
    requires Inv(start) && At0(start)
    ensures Played(start, acts, st) && At10(st)
  {
    acts, st := Play9Steps(start);
    Step9(st);
    acts, st := PlayRelease(start, acts, st, 7);
  }

  /** 2 has given 8 up. */
  lemma Play12Steps(start: State) returns (acts: seq<Action>, st: State)
    requires Inv(start) && At0(start)
    ensures Played(start, acts, st) && At12(st)
  {
    acts, st := Play10Steps(start);
    Step10(st);
    acts, st := PlayResume(start, acts, st, 7);
    Step11(st);
    acts, st := PlayRelease(start, acts, st, 8);
  }

  /** 5 is about to wait for 9. */
  lemma Play15Steps(start: State) returns (acts: seq<Action>, st: State)
    requires Inv(start) && At0(start)
    ensures Played(start, acts, st) && At15(st)
  {
    acts, st := Play12Steps(start);
    Step12(st);
    acts, st := PlayResume(start, acts, st, 8);
    Step13(st);
    acts, st := PlayCreate(start, acts, st, 5, 22);
    Step14(st);
    acts, st := Play(start, acts, st, ASleep(100));
  }

  lemma Booted() returns (c: Config)
    ensures ConfigOk(c) && At0(Boot(c))
  {
    c := Machine();
    BootedAt(c);
  }

  lemma BootedAt(c: Config)
    requires ConfigOk(c) && c.main == 1 && c.idle == 0 && c.prio == 10 && c.locks == {7, 8, 9}
    ensures At0(BootState(c))
  {
  }

  /** A run from boot reaches a takeover that is not fair, and after it the holder no longer dominates the waiters. */
  lemma TakeoverCanBeUnfair() returns (c: Config, acts: seq<Action>, l: Sid)
    ensures ConfigOk(c) && Legal(Boot(c), acts)
    ensures var st := Exec(Boot(c), acts);
            && May(st, AResume) && Takes(st, AResume, l) && !Fair(st, AResume, l)
            && HoldersRecorded(GraphOf(Apply(st, AResume))) && !Dominated(GraphOf(Apply(st, AResume)))
  {
    c := Booted();
    var st;
    acts, st := Play10Steps(Boot(c));
    l := 7;
    assert WaitsOn(GraphOf(st), 3, 7);
    StepKeeps(st, AResume);
    InvHolders(Apply(st, AResume));
    Step10(st);
    assert !EdgeOk(GraphOf(Apply(st, AResume)), 3);
  }

  /** A run from boot reaches a state where the holder of a lock has a lower priority than a thread that waits for the
      lock; the holder is not inside a primitive. */
  lemma HolderCanBeOutranked() returns (c: Config, acts: seq<Action>, l: Sid, t: Tid, h: Tid)
    ensures ConfigOk(c) && Legal(Boot(c), acts)
    ensures var m := Exec(Boot(c), acts).mem;
            && l in m.holder && m.holder[l] == Some(h) && t in m.recs && WaitsFor(m.recs[t]) == Some(l)
            && t in m.prio && h in m.prio && h in m.pc && m.prio[h] < m.prio[t] && m.pc[h] == Active
  {
    c := Booted();
    var st;
    acts, st := Play12Steps(Boot(c));
    l, t, h := 7, 3, 2;
  }

  lemma ChainOf5(st: State)
    requires WF(st) && HoldersRecorded(GraphOf(st)) && At15(st) && HoldersRecorded(GraphOf(AddRecord(st, 9)))
    ensures var g := GraphOf(AddRecord(st, 9));
            IsChain(g, 9, [9, 7]) && !Donates(g, 9, 22) && !Enough(g, 7, 22)
  {
    var g := GraphOf(AddRecord(st, 9));
    assert Held(g, 9) && Held(g, 7);
    assert NextLock(g, 9) == Some(7) && NextLock(g, 7) == None;
  }

  /** A run from boot reaches a lock_acquire whose donation stops early and is not the full walk; the thread at the end
      of the chain is left below the donor. */
  lemma DonationCanStopShort() returns (c: Config, acts: seq<Action>, l: Sid, path: seq<Sid>, h: Tid)
    ensures ConfigOk(c) && Legal(Boot(c), acts)
    ensures var st := Exec(Boot(c), acts);
            && May(st, AAcquire(l)) && HoldersRecorded(GraphOf(AddRecord(st, l)))
            && var g, p := GraphOf(AddRecord(st, l)), st.mem.prio[st.run.cur];
            && IsChain(g, l, path) && g.holder[path[|path| - 1]] == Some(h)
            && DonateRec(g, l, p) != DonateAlong(g, path, p)
            && h in Apply(st, AAcquire(l)).mem.prio && Apply(st, AAcquire(l)).mem.prio[h] < p
  {
    c := Booted();
    var st;
    acts, st := Play15Steps(Boot(c));
    l, path, h := 9, [9, 7], 2;
    InvHolders(st);
    AddRecordKeepsHolders(st, 9);
    ChainOf5(st);
    EarlyStopExactIff(GraphOf(AddRecord(st, 9)), 9, path, 22);
    Step15(st);
  }
}
