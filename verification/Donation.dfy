/** Priority donation (threads/synch.c, donate_priority and donate_priority_recursively).

    A wait-for graph is what donation reads and writes: the effective priorities, the lock records of
    every thread, and the holder of every lock.  The results: recursion ends on every graph, deadlocked
    ones included; stopping early changes nothing compared with walking the whole chain; and one donation
    restores, for the new waiter too, that a lock's holder outranks everybody who waits for the lock. */
module Donation {
  import opened Collections
  import opened KernelTypes

  datatype Graph = Graph(prio: map<Tid, int>, recs: map<Tid, seq<Rec>>, holder: map<Sid, Option<Tid>>)

  ghost predicate Held(g: Graph, l: Sid) {
    l in g.holder && g.holder[l].Some?
  }

  /** Every holder is a thread that has a record of the lock, so that the lookups of donate_priority
      find something. */
  ghost predicate HoldersRecorded(g: Graph) {
    forall l :: Held(g, l) ==>
      var h := g.holder[l].value;
      h in g.prio && h in g.recs && FindRec(g.recs[h], l) < |g.recs[h]|
  }

  // ---------- one donation ----------

  function RaiseRec(rs: seq<Rec>, l: Sid, p: int): (r: seq<Rec>)
    ensures |r| == |rs|
    ensures forall i :: 0 <= i < |rs| ==> r[i].lock == rs[i].lock && r[i].waiting == rs[i].waiting
    ensures FindRec(r, l) == FindRec(rs, l)
    ensures forall i :: 0 <= i < |rs| && i != FindRec(rs, l) ==> r[i] == rs[i]
    ensures FindRec(rs, l) < |rs| ==> r[FindRec(rs, l)].priority == Max(rs[FindRec(rs, l)].priority, p)
  {
    var i := FindRec(rs, l);
    if i < |rs| then
      var r := rs[i := rs[i].(priority := Max(rs[i].priority, p))];
      assert FindRec(r, l) == i by { FindRecSame(rs, r, l); }
      r
    else rs
  }

  /** The position of a record depends on the locks of the records only. */
  lemma {:induction false} FindRecSame(rs: seq<Rec>, r: seq<Rec>, l: Sid)
    requires |r| == |rs| && forall i :: 0 <= i < |rs| ==> r[i].lock == rs[i].lock
    ensures FindRec(r, l) == FindRec(rs, l)
  {
    if rs != [] && rs[0].lock != l {
      FindRecSame(rs[1..], r[1..], l);
    }
  }

  /** donate_priority: the holder's priority and its record of L are each raised to P if lower. */
  ghost function Raise(g: Graph, l: Sid, p: int): (r: Graph)
    requires HoldersRecorded(g) && Held(g, l)
  {
    var h := g.holder[l].value;
    g.(prio := g.prio[h := Max(g.prio[h], p)], recs := g.recs[h := RaiseRec(g.recs[h], l, p)])
  }

  ghost predicate Donates(g: Graph, l: Sid, p: int)
    requires HoldersRecorded(g) && Held(g, l)
  {
    p > g.prio[g.holder[l].value]
  }

  /** The lock that T's front record says T is waiting for. */
  ghost function WaitsFor(rs: seq<Rec>): Option<Sid> {
    if rs != [] && rs[0].waiting then Some(rs[0].lock) else None
  }

  /** The lock donation goes on to from lock L: the one L's holder waits for, if somebody holds it. */
  ghost function NextLock(g: Graph, l: Sid): Option<Sid>
    requires HoldersRecorded(g) && Held(g, l)
  {
    var w := WaitsFor(g.recs[g.holder[l].value]);
    if w.Some? && Held(g, w.value) then w else None
  }

  lemma RaiseKeepsShape(g: Graph, l: Sid, p: int)
    requires HoldersRecorded(g) && Held(g, l)
    ensures HoldersRecorded(Raise(g, l, p))
    ensures forall k :: Held(Raise(g, l, p), k) <==> Held(g, k)
    ensures forall t :: t in g.recs ==>
              t in Raise(g, l, p).recs && WaitsFor(Raise(g, l, p).recs[t]) == WaitsFor(g.recs[t])
    ensures forall k :: Held(g, k) ==> NextLock(Raise(g, l, p), k) == NextLock(g, k)
  {
    var r := Raise(g, l, p);
    forall k | Held(r, k)
      ensures var h := r.holder[k].value;
              h in r.prio && h in r.recs && FindRec(r.recs[h], k) < |r.recs[h]|
    {
      var h := g.holder[k].value;
      FindRecSame(g.recs[h], r.recs[h], k);
    }
  }

  // ---------- recursive donation ends on every graph ----------

  /** Threads whose priority is below P. */
  ghost function Below(prio: map<Tid, int>, p: int): set<Tid> {
    set t | t in prio && prio[t] < p
  }

  /** A donation that is worth recursing for takes one thread out of those below P and puts none in. */
  lemma DonationProgress(g: Graph, l: Sid, p: int)
    requires HoldersRecorded(g) && Held(g, l) && Donates(g, l, p)
    ensures Below(Raise(g, l, p).prio, p) < Below(g.prio, p)
  {
    assert g.holder[l].value in Below(g.prio, p) - Below(Raise(g, l, p).prio, p);
  }

  /** donate_priority_recursively. */
  ghost function DonateRec(g: Graph, l: Sid, p: int): (r: Graph)
    requires HoldersRecorded(g) && Held(g, l)
    ensures r.prio.Keys == g.prio.Keys && r.recs.Keys == g.recs.Keys && r.holder == g.holder
    decreases Below(g.prio, p)
  {
    var g1 := Raise(g, l, p);
    RaiseKeepsShape(g, l, p);
    if Donates(g, l, p) && NextLock(g1, l).Some? then
      DonationProgress(g, l, p);
      DonateRec(g1, NextLock(g1, l).value, p)
    else g1
  }

  ghost predicate SameShape(a: seq<Rec>, b: seq<Rec>) {
    |a| == |b| && forall i :: 0 <= i < |a| ==> a[i].lock == b[i].lock && a[i].waiting == b[i].waiting
  }

  /** Donation moves priorities only: no record comes, goes, changes its lock or its waiting flag. */
  lemma {:induction false} DonationKeepsShape(g: Graph, l: Sid, p: int, t: Tid)
    requires HoldersRecorded(g) && Held(g, l) && t in g.recs
    ensures SameShape(g.recs[t], DonateRec(g, l, p).recs[t])
    decreases Below(g.prio, p)
  {
    RaiseKeepsShape(g, l, p);
    if Donates(g, l, p) && NextLock(g, l).Some? {
      DonationProgress(g, l, p);
      DonationKeepsShape(Raise(g, l, p), NextLock(g, l).value, p, t);
    }
  }

  /** Donation never lowers a priority, keeps it above the thread's records, and leaves a thread without
      records alone. */
  lemma {:induction false} DonationRaises(g: Graph, l: Sid, p: int, t: Tid)
    requires HoldersRecorded(g) && Held(g, l) && t in g.recs && t in g.prio
    requires forall i :: 0 <= i < |g.recs[t]| ==> g.recs[t][i].priority <= g.prio[t]
    ensures var r := DonateRec(g, l, p);
            && g.prio[t] <= r.prio[t]
            && (forall i :: 0 <= i < |r.recs[t]| ==> r.recs[t][i].priority <= r.prio[t])
            && (g.recs[t] == [] ==> r.prio[t] == g.prio[t] && r.recs[t] == [])
    decreases Below(g.prio, p)
  {
    RaiseKeepsShape(g, l, p);
    if Donates(g, l, p) && NextLock(g, l).Some? {
      DonationProgress(g, l, p);
      DonationRaises(Raise(g, l, p), NextLock(g, l).value, p, t);
    }
  }

  /** T's priority and records are as they were, or have been raised to P. */
  ghost predicate Given(g: Graph, r: Graph, p: int, t: Tid) {
    && (t in g.prio ==> t in r.prio && (r.prio[t] == g.prio[t] || g.prio[t] < p == r.prio[t]))
    && (t in g.recs ==> t in r.recs && |r.recs[t]| == |g.recs[t]|)
    && (t in g.recs ==> forall i :: 0 <= i < |g.recs[t]| ==>
          r.recs[t][i] == g.recs[t][i] ||
          (g.recs[t][i].priority < p && r.recs[t][i] == g.recs[t][i].(priority := p)))
  }

  ghost predicate Holds(g: Graph, t: Tid) {
    exists k :: Held(g, k) && g.holder[k].value == t
  }

  lemma RaiseGives(g: Graph, l: Sid, p: int, t: Tid)
    requires HoldersRecorded(g) && Held(g, l)
    ensures Given(g, Raise(g, l, p), p, t)
    ensures !Holds(g, t) && t in g.prio && t in g.recs ==>
              Raise(g, l, p).prio[t] == g.prio[t] && Raise(g, l, p).recs[t] == g.recs[t]
  {
  }

  lemma GivenTwice(g: Graph, h: Graph, r: Graph, p: int, t: Tid)
    requires Given(g, h, p, t) && Given(h, r, p, t)
    ensures Given(g, r, p, t)
  {
  }

  /** Donation gives what is donated and no more, to records and threads that are below it, and gives nothing to a
      thread that holds no lock. */
  lemma {:induction false} DonationGives(g: Graph, l: Sid, p: int, t: Tid)
    requires HoldersRecorded(g) && Held(g, l)
    ensures Given(g, DonateRec(g, l, p), p, t)
    ensures !Holds(g, t) && t in g.prio && t in g.recs ==>
              DonateRec(g, l, p).prio[t] == g.prio[t] && DonateRec(g, l, p).recs[t] == g.recs[t]
    decreases Below(g.prio, p)
  {
    var h := Raise(g, l, p);
    RaiseKeepsShape(g, l, p);
    RaiseGives(g, l, p, t);
    if Donates(g, l, p) && NextLock(g, l).Some? {
      DonationProgress(g, l, p);
      DonationGives(h, NextLock(g, l).value, p, t);
      GivenTwice(g, h, DonateRec(h, NextLock(g, l).value, p), p, t);
      assert Holds(h, t) ==> Holds(g, t);
    }
  }

  /** The number of calls of donate_priority_recursively. */
  ghost function Calls(g: Graph, l: Sid, p: int): (n: nat)
    requires HoldersRecorded(g) && Held(g, l)
    decreases Below(g.prio, p)
  {
    var g1 := Raise(g, l, p);
    RaiseKeepsShape(g, l, p);
    if Donates(g, l, p) && NextLock(g1, l).Some? then
      DonationProgress(g, l, p);
      1 + Calls(g1, NextLock(g1, l).value, p)
    else 1
  }

  lemma SubsetSize<T>(a: set<T>, b: set<T>)
    requires a < b
    ensures |a| < |b|
  {
    assert b == a + (b - a) && |b| == |a| + |b - a|;
  }

  /** Every call but the last raises a thread that was below P, cycle or not. */
  lemma {:induction false} CallsBounded(g: Graph, l: Sid, p: int)
    requires HoldersRecorded(g) && Held(g, l)
    ensures Calls(g, l, p) <= 1 + |Below(g.prio, p)|
    decreases Below(g.prio, p)
  {
    var g1 := Raise(g, l, p);
    RaiseKeepsShape(g, l, p);
    if Donates(g, l, p) && NextLock(g1, l).Some? {
      DonationProgress(g, l, p);
      SubsetSize(Below(g1.prio, p), Below(g.prio, p));
      CallsBounded(g1, NextLock(g1, l).value, p);
    }
  }

  // ---------- domination: a holder outranks the waiters of its lock ----------

  /** If T waits for a held lock, then neither the holder's priority nor its record of the lock is below
      T's priority. */
  ghost predicate EdgeOk(g: Graph, t: Tid)
    requires HoldersRecorded(g)
  {
    t in g.recs && t in g.prio ==>
      var w := WaitsFor(g.recs[t]);
      w.Some? && Held(g, w.value) ==>
        var h := g.holder[w.value].value;
        g.prio[t] <= g.prio[h] && g.prio[t] <= g.recs[h][FindRec(g.recs[h], w.value)].priority
  }

  ghost predicate Dominated(g: Graph)
    requires HoldersRecorded(g)
  {
    forall t :: t in g.recs ==> EdgeOk(g, t)
  }

  /** Domination, except that threads of priority at most P may still be unaccounted for at lock L. */
  ghost predicate DominatedBut(g: Graph, l: Sid, p: int)
    requires HoldersRecorded(g)
  {
    forall t :: t in g.recs ==>
      EdgeOk(g, t) || (t in g.prio && WaitsFor(g.recs[t]) == Some(l) && g.prio[t] <= p)
  }

  lemma RaiseEdge(g: Graph, l: Sid, p: int, t: Tid)
    requires HoldersRecorded(g) && Held(g, l) && t in g.recs
    requires EdgeOk(g, t) || (t in g.prio && WaitsFor(g.recs[t]) == Some(l) && g.prio[t] <= p)
    ensures HoldersRecorded(Raise(g, l, p))
    ensures EdgeOk(Raise(g, l, p), t) || (Donates(g, l, p) && t == g.holder[l].value)
  {
    RaiseKeepsShape(g, l, p);
    var r := Raise(g, l, p);
    var w := WaitsFor(g.recs[t]);
    if t in g.prio && w.Some? && Held(g, w.value) {
      var h := g.holder[w.value].value;
      FindRecSame(g.recs[h], r.recs[h], w.value);
    }
  }

  /** After donating P along lock L the waiters of L are accounted for, and only the holder, if raised,
      may be unaccounted for at the next lock. */
  lemma RaiseDominates(g: Graph, l: Sid, p: int)
    requires HoldersRecorded(g) && Held(g, l) && DominatedBut(g, l, p)
    ensures HoldersRecorded(Raise(g, l, p))
    ensures !Donates(g, l, p) || NextLock(g, l).None? ==> Dominated(Raise(g, l, p))
    ensures Donates(g, l, p) && NextLock(g, l).Some? ==>
              DominatedBut(Raise(g, l, p), NextLock(g, l).value, p)
  {
    RaiseKeepsShape(g, l, p);
    var r := Raise(g, l, p);
    forall t | t in r.recs
      ensures EdgeOk(r, t) || (Donates(g, l, p) && t == g.holder[l].value)
    {
      RaiseEdge(g, l, p, t);
    }
  }

  /** Recursive donation restores domination on every graph, deadlocked ones included. */
  lemma {:induction false} DonationRestores(g: Graph, l: Sid, p: int)
    requires HoldersRecorded(g) && Held(g, l) && DominatedBut(g, l, p)
    ensures HoldersRecorded(DonateRec(g, l, p)) && Dominated(DonateRec(g, l, p))
    decreases Below(g.prio, p)
  {
    RaiseKeepsShape(g, l, p);
    RaiseDominates(g, l, p);
    if Donates(g, l, p) && NextLock(g, l).Some? {
      DonationProgress(g, l, p);
      DonationRestores(Raise(g, l, p), NextLock(g, l).value, p);
    }
  }

  // ---------- stopping early loses nothing ----------

  /** PATH is the whole chain of held locks from L, each waited for by the holder of the one before, up to
      a holder that waits for no held lock.  A deadlock has no such chain. */
  ghost predicate IsChain(g: Graph, l: Sid, path: seq<Sid>)
    requires HoldersRecorded(g)
  {
    && path != [] && path[0] == l
    && (forall i :: 0 <= i < |path| ==> Held(g, path[i]))
    && (forall i :: 0 <= i < |path| - 1 ==> NextLock(g, path[i]) == Some(path[i + 1]))
    && NextLock(g, path[|path| - 1]) == None
  }

  lemma ChainTail(g: Graph, l: Sid, path: seq<Sid>)
    requires HoldersRecorded(g) && IsChain(g, l, path) && |path| > 1
    ensures IsChain(g, path[1], path[1..])
  {
    var q := path[1..];
    forall i | 0 <= i < |q| - 1
      ensures NextLock(g, q[i]) == Some(q[i + 1])
    {
      assert q[i] == path[i + 1] && q[i + 1] == path[i + 2];
    }
  }

  lemma {:induction false} ChainUnique(g: Graph, l: Sid, a: seq<Sid>, b: seq<Sid>)
    requires HoldersRecorded(g) && IsChain(g, l, a) && IsChain(g, l, b)
    ensures a == b
    decreases |a|
  {
    assert a[0] == b[0] == l;
    assert |a| > 1 ==> NextLock(g, a[0]) == Some(a[1]);
    assert |b| > 1 ==> NextLock(g, b[0]) == Some(b[1]);
    if NextLock(g, l).Some? {
      ChainTail(g, l, a);
      ChainTail(g, l, b);
      ChainUnique(g, a[1], a[1..], b[1..]);
      assert a == [l] + a[1..] && b == [l] + b[1..];
    }
  }

  lemma {:induction false} ChainSuffix(g: Graph, l: Sid, path: seq<Sid>, i: nat)
    requires HoldersRecorded(g) && IsChain(g, l, path) && i < |path|
    ensures IsChain(g, path[i], path[i..])
    decreases i
  {
    if i > 0 {
      ChainTail(g, l, path);
      ChainSuffix(g, path[1], path[1..], i - 1);
      assert path[1..][i - 1..] == path[i..];
    } else {
      assert path[0..] == path;
    }
  }

  /** No lock comes twice in a chain. */
  lemma ChainDistinct(g: Graph, l: Sid, path: seq<Sid>, i: nat, j: nat)
    requires HoldersRecorded(g) && IsChain(g, l, path) && i < j < |path|
    ensures path[i] != path[j]
  {
    ChainSuffix(g, l, path, i);
    ChainSuffix(g, l, path, j);
    if path[i] == path[j] {
      ChainUnique(g, path[i], path[i..], path[j..]);
    }
  }

  /** The reference: give P to every holder along the path, without looking. */
  ghost function DonateAlong(g: Graph, path: seq<Sid>, p: int): Graph
    requires HoldersRecorded(g) && forall i :: 0 <= i < |path| ==> Held(g, path[i])
    decreases |path|
  {
    if path == [] then g
    else
      RaiseKeepsShape(g, path[0], p);
      DonateAlong(Raise(g, path[0], p), path[1..], p)
  }

  /** The holders along the path, the last one apart, are dominated where they wait. */
  ghost predicate PathOk(g: Graph, path: seq<Sid>)
    requires HoldersRecorded(g) && forall i :: 0 <= i < |path| ==> Held(g, path[i])
  {
    forall i :: 0 <= i < |path| - 1 ==> EdgeOk(g, g.holder[path[i]].value)
  }

  /** Donating to somebody who already has the priority, in both places, changes nothing. */
  lemma RaiseNoop(g: Graph, l: Sid, p: int)
    requires HoldersRecorded(g) && Held(g, l)
    requires var h := g.holder[l].value;
             p <= g.prio[h] && p <= g.recs[h][FindRec(g.recs[h], l)].priority
    ensures Raise(g, l, p) == g
  {
    var h := g.holder[l].value;
    var r := RaiseRec(g.recs[h], l, p);
    assert r == g.recs[h];
    assert g.recs[h := r] == g.recs && g.prio[h := g.prio[h]] == g.prio;
  }

  /** Once a holder has priority P already, so have all further along the chain. */
  lemma {:induction false} RestOfWalkIsIdle(g: Graph, l: Sid, path: seq<Sid>, p: int)
    requires HoldersRecorded(g) && IsChain(g, l, path) && PathOk(g, path)
    requires var h := g.holder[l].value;
             p <= g.prio[h] && p <= g.recs[h][FindRec(g.recs[h], l)].priority
    ensures DonateAlong(g, path, p) == g
    decreases |path|
  {
    RaiseNoop(g, l, p);
    if |path| > 1 {
      ChainTail(g, l, path);
      PathOkTail(g, path);
      assert EdgeOk(g, g.holder[path[0]].value);
      RestOfWalkIsIdle(g, path[1], path[1..], p);
    }
  }

  lemma PathOkTail(g: Graph, path: seq<Sid>)
    requires HoldersRecorded(g) && forall i :: 0 <= i < |path| ==> Held(g, path[i])
    requires path != [] && PathOk(g, path)
    ensures PathOk(g, path[1..])
  {
    var q := path[1..];
    forall i | 0 <= i < |q| - 1
      ensures EdgeOk(g, g.holder[q[i]].value)
    {
      assert q[i] == path[i + 1];
    }
  }

  /** Raising the first holder leaves the rest of the chain dominated: that holder comes only once. */
  lemma PathOkRaised(g: Graph, l: Sid, path: seq<Sid>, p: int)
    requires HoldersRecorded(g) && IsChain(g, l, path) && PathOk(g, path)
    ensures HoldersRecorded(Raise(g, l, p))
    ensures forall k :: Held(Raise(g, l, p), k) <==> Held(g, k)
    ensures PathOk(Raise(g, l, p), path[1..])
  {
    RaiseKeepsShape(g, l, p);
    var r, q := Raise(g, l, p), path[1..];
    forall i | 0 <= i < |q| - 1
      ensures EdgeOk(r, r.holder[q[i]].value)
    {
      assert q[i] == path[i + 1] && path[i + 2] == q[i + 1];
      var t := g.holder[path[i + 1]].value;
      assert NextLock(g, path[i + 1]) == Some(path[i + 2]);
      RaiseEdge(g, l, p, t);
      if t == g.holder[l].value {
        assert NextLock(g, path[0]) == Some(path[1]);
        ChainDistinct(g, l, path, 1, i + 2);
      }
    }
  }

  lemma IsChainRaised(g: Graph, l: Sid, path: seq<Sid>, k: Sid, p: int)
    requires HoldersRecorded(g) && IsChain(g, l, path) && Held(g, k)
    ensures HoldersRecorded(Raise(g, k, p)) && IsChain(Raise(g, k, p), l, path)
  {
    RaiseKeepsShape(g, k, p);
  }

  /** The argument in the comment of donate_priority_recursively: stopping at the first holder that needs
      nothing gives the same priorities and records as walking the whole chain. */
  lemma {:induction false} EarlyStopIsExact(g: Graph, l: Sid, path: seq<Sid>, p: int)
    requires HoldersRecorded(g) && IsChain(g, l, path) && PathOk(g, path)
    ensures DonateRec(g, l, p) == DonateAlong(g, path, p)
    decreases |path|
  {
    var g1 := Raise(g, l, p);
    RaiseKeepsShape(g, l, p);
    if |path| == 1 {
      assert DonateAlong(g1, path[1..], p) == g1;
    } else {
      assert NextLock(g, path[0]) == Some(path[1]);
      IsChainRaised(g, l, path, l, p);
      ChainTail(g1, l, path);
      PathOkRaised(g, l, path, p);
      if Donates(g, l, p) {
        EarlyStopIsExact(g1, path[1], path[1..], p);
      } else {
        var h := g.holder[l].value;
        assert EdgeOk(g, g.holder[path[0]].value);
        RaiseEdge(g, l, p, h);
        assert EdgeOk(g1, h);
        assert WaitsFor(g1.recs[h]) == Some(path[1]) && g1.prio[h] >= p;
        RestOfWalkIsIdle(g1, path[1], path[1..], p);
      }
    }
  }

  /** The holder of L has P already, and so has its record of L. */
  ghost predicate Enough(g: Graph, l: Sid, p: int)
    requires HoldersRecorded(g) && Held(g, l)
  {
    var h := g.holder[l].value;
    p <= g.prio[h] && p <= g.recs[h][FindRec(g.recs[h], l)].priority
  }

  lemma RaiseKeepsEnough(g: Graph, l: Sid, p: int, k: Sid)
    requires HoldersRecorded(g) && Held(g, l) && Held(g, k)
    ensures HoldersRecorded(Raise(g, l, p)) && Enough(Raise(g, l, p), l, p)
    ensures Enough(g, k, p) ==> Enough(Raise(g, l, p), k, p)
  {
    RaiseKeepsShape(g, l, p);
    var h, r := g.holder[k].value, Raise(g, l, p);
    FindRecSame(g.recs[h], r.recs[h], k);
  }

  /** After the whole walk every holder on the path has enough, and who had enough still has. */
  lemma {:induction false} WalkGives(g: Graph, path: seq<Sid>, p: int, k: Sid)
    requires HoldersRecorded(g) && (forall i :: 0 <= i < |path| ==> Held(g, path[i])) && Held(g, k)
    requires k in path || Enough(g, k, p)
    ensures var r := DonateAlong(g, path, p);
            HoldersRecorded(r) && Held(r, k) && Enough(r, k, p)
    decreases |path|
  {
    if path != [] {
      RaiseKeepsShape(g, path[0], p);
      RaiseKeepsEnough(g, path[0], p, k);
      WalkGives(Raise(g, path[0], p), path[1..], p, k);
    }
  }

  /** A walk changes nothing exactly if everybody on it has enough. */
  lemma {:induction false} IdleWalk(g: Graph, path: seq<Sid>, p: int)
    requires HoldersRecorded(g) && forall i :: 0 <= i < |path| ==> Held(g, path[i])
    ensures DonateAlong(g, path, p) == g <==> forall i :: 0 <= i < |path| ==> Enough(g, path[i], p)
    decreases |path|
  {
    if DonateAlong(g, path, p) == g {
      forall i | 0 <= i < |path| ensures Enough(g, path[i], p) {
        WalkGives(g, path, p, path[i]);
      }
    } else if path != [] && Enough(g, path[0], p) {
      RaiseNoop(g, path[0], p);
      IdleWalk(g, path[1..], p);
    }
  }

  /** The holders along a chain are different threads, so that raising the first leaves the others as they are. */
  lemma OthersAsTheyAre(g: Graph, l: Sid, path: seq<Sid>, p: int, i: nat)
    requires HoldersRecorded(g) && IsChain(g, l, path) && 0 < i < |path|
    ensures HoldersRecorded(Raise(g, l, p)) && Held(Raise(g, l, p), path[i])
    ensures Enough(Raise(g, l, p), path[i], p) <==> Enough(g, path[i], p)
    ensures Donates(Raise(g, l, p), path[i], p) <==> Donates(g, path[i], p)
  {
    RaiseKeepsShape(g, l, p);
    assert NextLock(g, path[0]) == Some(path[1]);
    if g.holder[path[i]].value == g.holder[l].value {
      assert NextLock(g, path[i]) == Some(path[1]);
      if i < |path| - 1 {
        assert NextLock(g, path[i]) == Some(path[i + 1]);
        ChainDistinct(g, l, path, 1, i + 1);
      }
    }
  }

  /** On any graph: stopping early is the same as walking the whole chain exactly if behind every holder that is not
      below P, everybody has enough. */
  lemma {:induction false} EarlyStopExactIff(g: Graph, l: Sid, path: seq<Sid>, p: int)
    requires HoldersRecorded(g) && IsChain(g, l, path)
    ensures DonateRec(g, l, p) == DonateAlong(g, path, p) <==> EnoughBehind(g, path, p)
    decreases |path|
  {
    var g1, q := Raise(g, l, p), path[1..];
    RaiseKeepsShape(g, l, p);
    if |path| == 1 {
      assert DonateAlong(g1, q, p) == g1;
    } else {
      assert NextLock(g, path[0]) == Some(path[1]);
      IsChainRaised(g, l, path, l, p);
      ChainTail(g1, l, path);
      forall i | 0 <= i < |q|
        ensures Enough(g1, q[i], p) <==> Enough(g, q[i], p)
        ensures Donates(g1, q[i], p) <==> Donates(g, q[i], p)
      {
        OthersAsTheyAre(g, l, path, p, i + 1);
      }
      assert path == [l] + q;
      if Donates(g, l, p) {
        EarlyStopExactIff(g1, path[1], q, p);
        BehindFirst(g, g1, l, q, p);
      } else {
        IdleWalk(g1, q, p);
        BehindStop(g, l, q, p);
      }
    }
  }

  /** Behind a first holder that is not below P that means everybody on the rest of the path. */
  lemma BehindStop(g: Graph, l: Sid, q: seq<Sid>, p: int)
    requires HoldersRecorded(g) && Held(g, l) && !Donates(g, l, p) && forall i :: 0 <= i < |q| ==> Held(g, q[i])
    ensures EnoughBehind(g, [l] + q, p) <==> forall i :: 0 <= i < |q| ==> Enough(g, q[i], p)
  {
    var path := [l] + q;
    assert path[0] == l && forall i :: 0 <= i < |q| ==> path[i + 1] == q[i];
    if EnoughBehind(g, path, p) {
      forall i | 0 <= i < |q| ensures Enough(g, q[i], p) {
        assert !Donates(g, path[0], p) && Enough(g, path[i + 1], p);
      }
    }
  }

  /** Behind every holder on the path that is not below P, everybody has enough. */
  ghost predicate EnoughBehind(g: Graph, path: seq<Sid>, p: int)
    requires HoldersRecorded(g) && forall i :: 0 <= i < |path| ==> Held(g, path[i])
  {
    forall i, j :: 0 <= i < j < |path| && !Donates(g, path[i], p) ==> Enough(g, path[j], p)
  }

  /** The condition for a path whose first holder is raised is the condition for the rest of the path. */
  lemma BehindFirst(g: Graph, g1: Graph, l: Sid, q: seq<Sid>, p: int)
    requires HoldersRecorded(g) && HoldersRecorded(g1) && Held(g, l) && Donates(g, l, p)
    requires forall i :: 0 <= i < |q| ==> Held(g, q[i]) && Held(g1, q[i])
    requires forall i :: 0 <= i < |q| ==> (Enough(g1, q[i], p) <==> Enough(g, q[i], p))
    requires forall i :: 0 <= i < |q| ==> (Donates(g1, q[i], p) <==> Donates(g, q[i], p))
    ensures EnoughBehind(g, [l] + q, p) <==> EnoughBehind(g1, q, p)
  {
    var path := [l] + q;
    assert forall i :: 0 < i < |path| ==> path[i] == q[i - 1];
    if EnoughBehind(g, path, p) {
      forall i, j | 0 <= i < j < |q| && !Donates(g1, q[i], p) ensures Enough(g1, q[j], p) {
        assert path[i + 1] == q[i] && path[j + 1] == q[j];
      }
    }
    if EnoughBehind(g1, q, p) {
      forall i, j | 0 <= i < j < |path| && !Donates(g, path[i], p) ensures Enough(g, path[j], p) {
        assert !Donates(g1, q[i - 1], p) && Enough(g1, q[j - 1], p);
      }
    }
  }

  /** What lock_acquire relies on: X has just put its waiting record for the held lock L in front, and all
      other waiters are accounted for.  Donating X's priority accounts for X as well, and if the chain from L
      ends, every holder along it ends up as if the whole chain had been walked. */
  lemma DonationCorrect(g: Graph, x: Tid, l: Sid)
    requires HoldersRecorded(g) && Held(g, l)
    requires x in g.prio && x in g.recs && WaitsFor(g.recs[x]) == Some(l)
    requires forall t :: t in g.recs && t != x ==> EdgeOk(g, t)
    ensures HoldersRecorded(DonateRec(g, l, g.prio[x])) && Dominated(DonateRec(g, l, g.prio[x]))
    ensures forall path :: IsChain(g, l, path) ==>
              DonateRec(g, l, g.prio[x]) == DonateAlong(g, path, g.prio[x])
  {
    DonationRestores(g, l, g.prio[x]);
    forall path | IsChain(g, l, path)
      ensures DonateRec(g, l, g.prio[x]) == DonateAlong(g, path, g.prio[x])
    {
      forall i | 0 <= i < |path| - 1
        ensures EdgeOk(g, g.holder[path[i]].value)
      {
        assert NextLock(g, path[i]) == Some(path[i + 1]);
        if g.holder[path[i]].value == x {
          ChainDistinct(g, l, path, 0, i + 1);
        }
      }
      EarlyStopIsExact(g, l, path, g.prio[x]);
    }
  }

  /** If ranks strictly fall along every wait-for edge, there is no deadlock and the chain from L ends. */
  lemma {:induction false} ChainExists(g: Graph, l: Sid, rank: map<Tid, nat>)
    requires HoldersRecorded(g) && Held(g, l)
    requires forall t :: t in g.recs ==> t in rank
    requires forall k :: Held(g, k) && NextLock(g, k).Some? ==>
               rank[g.holder[NextLock(g, k).value].value] < rank[g.holder[k].value]
    ensures exists path :: IsChain(g, l, path)
    decreases rank[g.holder[l].value]
  {
    if NextLock(g, l).None? {
      assert IsChain(g, l, [l]);
    } else {
      var k := NextLock(g, l).value;
      ChainExists(g, k, rank);
      var q :| IsChain(g, k, q);
      var path := [l] + q;
      forall i | 0 <= i < |path| - 1
        ensures NextLock(g, path[i]) == Some(path[i + 1])
      {
        if i > 0 {
          assert NextLock(g, q[i - 1]) == Some(q[i]);
        }
      }
      assert IsChain(g, l, path);
    }
  }
}
