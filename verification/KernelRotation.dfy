/** Round robin among the ready threads of greatest priority (threads/thread.c, thread_yield and
    next_thread_to_run). */
module KernelRotation {
  import opened Collections
  import opened KernelTypes
  import opened KernelState
  import opened KernelPlacement

  /** The threads of L that have priority P, in order. */
  ghost function AtPriority(l: seq<Tid>, prio: map<Tid, int>, p: int): (r: seq<Tid>)
    requires AllIn(l, prio)
  {
    if l == [] then []
    else if prio[l[0]] == p then [l[0]] + AtPriority(l[1..], prio, p)
    else AtPriority(l[1..], prio, p)
  }

  lemma {:induction false} AtPriorityConcat(a: seq<Tid>, b: seq<Tid>, prio: map<Tid, int>, p: int)
    requires AllIn(a, prio) && AllIn(b, prio)
    ensures AllIn(a + b, prio)
    ensures AtPriority(a + b, prio, p) == AtPriority(a, prio, p) + AtPriority(b, prio, p)
  {
    if a == [] {
      assert a + b == b;
    } else {
      assert (a + b)[1..] == a[1..] + b;
      AtPriorityConcat(a[1..], b, prio, p);
    }
  }

  lemma {:induction false} NoneAtPriority(l: seq<Tid>, prio: map<Tid, int>, p: int)
    requires AllIn(l, prio) && forall i :: 0 <= i < |l| ==> prio[l[i]] != p
    ensures AtPriority(l, prio, p) == []
  {
    if l != [] {
      NoneAtPriority(l[1..], prio, p);
    }
  }

  /** If P is the greatest priority of L, list_max takes the first thread of that priority. */
  lemma FirstMaxTakesTop(l: seq<Tid>, prio: map<Tid, int>, p: int, k: nat)
    requires AllIn(l, prio) && k < |l| && prio[l[k]] == p && forall i :: 0 <= i < |l| ==> prio[l[i]] <= p
    ensures var m := FirstMax(l, prio);
            && AllIn(RemoveAt(l, m), prio)
            && AtPriority(l, prio, p) == [l[m]] + AtPriority(RemoveAt(l, m), prio, p)
  {
    var m := FirstMax(l, prio);
    assert prio[l[m]] == p;
    assert l == l[..m] + ([l[m]] + l[m + 1..]);
    FirstOfTop(l[..m], l[m], l[m + 1..], prio, p);
  }

  lemma FirstOfTop(a: seq<Tid>, x: Tid, b: seq<Tid>, prio: map<Tid, int>, p: int)
    requires AllIn(a + ([x] + b), prio) && prio[x] == p && forall i :: 0 <= i < |a| ==> prio[a[i]] != p
    ensures AllIn(a + b, prio)
    ensures AtPriority(a + ([x] + b), prio, p) == [x] + AtPriority(a + b, prio, p)
  {
    assert forall y :: y in a || y in [x] + b ==> y in a + ([x] + b);
    NoneAtPriority(a, prio, p);
    assert ([x] + b)[1..] == b && ([x] + b)[0] == x;
    AtPriorityConcat(a, [x] + b, prio, p);
    AtPriorityConcat(a, b, prio, p);
    assert [] + AtPriority(b, prio, p) == AtPriority(b, prio, p);
    assert [] + AtPriority([x] + b, prio, p) == AtPriority([x] + b, prio, p);
  }

  /** The running thread, which no ready thread outranks, followed by its equals on the ready list. */
  ghost function Ring(st: State): (r: seq<Tid>)
    requires WF(st)
  {
    [st.run.cur] + AtPriority(st.run.ready, st.mem.prio, st.mem.prio[st.run.cur])
  }

  /** The running thread is not the idle one and is outranked by nobody. */
  ghost predicate OnTop(st: State)
    requires WF(st)
  {
    st.run.cur != st.mem.idle
    && forall t :: t in st.run.ready ==> st.mem.prio[t] <= st.mem.prio[st.run.cur]
  }

  /** The thread of greatest priority that comes first in L, with the rest. */
  lemma YieldTo(st: State, l: seq<Tid>, m: nat)
    requires WF(st) && st.run.cur != st.mem.idle && l == st.run.ready + [st.run.cur] && m == FirstMax(l, st.mem.prio)
    ensures var r := Yield(st);
            r.run.cur == l[m] && r.run.ready == RemoveAt(l, m) && r.mem == st.mem
  {
  }

  /** A yield turns the ring by one: the next in line runs, and the yielder goes to the end. */
  lemma YieldRotates(st: State)
    requires Placed(st) && OnTop(st)
    ensures var r := Yield(st);
            && Placed(r) && OnTop(r) && r.mem == st.mem
            && Ring(r) == Ring(st)[1..] + [Ring(st)[0]]
            && st.mem.prio[r.run.cur] == st.mem.prio[st.run.cur]
  {
    YieldPlaces(st);
    var l := ReadyWithCurrent(st);
    RingTurns(st.run.ready, st.run.cur, st.mem.prio, l);
    YieldTo(st, l, FirstMax(l, st.mem.prio));
    RestOfRing(st.run.cur, AtPriority(st.run.ready, st.mem.prio, st.mem.prio[st.run.cur]));
    assert InPlace(ViewOf(st), st.mem.idle);
  }

  lemma CurrentLast(ready: seq<Tid>, cur: Tid, prio: map<Tid, int>)
    requires AllIn(ready, prio) && cur in prio && AllIn(ready + [cur], prio)
    ensures AtPriority(ready + [cur], prio, prio[cur]) == AtPriority(ready, prio, prio[cur]) + [cur]
  {
    AtPriorityConcat(ready, [cur], prio, prio[cur]);
    assert [cur][1..] == [];
  }

  lemma RestOfRing(cur: Tid, others: seq<Tid>)
    ensures ([cur] + others)[1..] == others && ([cur] + others)[0] == cur
  {
  }

  lemma RingTurns(ready: seq<Tid>, cur: Tid, prio: map<Tid, int>, l: seq<Tid>)
    requires AllIn(l, prio) && l == ready + [cur] && AllIn(ready, prio) && cur in prio
    requires forall t :: t in ready ==> prio[t] <= prio[cur]
    ensures var m, p := FirstMax(l, prio), prio[cur];
            && AllIn(RemoveAt(l, m), prio) && l[m] in l && prio[l[m]] == p
            && (forall t :: t in RemoveAt(l, m) ==> t in l && prio[t] <= p)
            && [l[m]] + AtPriority(RemoveAt(l, m), prio, p) == AtPriority(ready, prio, p) + [cur]
  {
    CurrentLast(ready, cur, prio);
    forall i | 0 <= i < |l| ensures prio[l[i]] <= prio[cur] {
      assert l[i] == if i < |ready| then ready[i] else cur;
    }
    FirstMaxTakesTop(l, prio, prio[cur], |ready|);
    RestIsRest(l, FirstMax(l, prio));
  }

  lemma RestIsRest(l: seq<Tid>, m: nat)
    requires m < |l|
    ensures forall i :: 0 <= i < |RemoveAt(l, m)| ==> RemoveAt(l, m)[i] in l
  {
  }

  ghost function YieldN(st: State, n: nat): (r: State)
    requires WF(st)
    ensures WF(r)
  {
    if n == 0 then st else Yield(YieldN(st, n - 1))
  }

  function Rotate<T>(s: seq<T>, k: nat): seq<T>
    requires k <= |s|
  {
    s[k..] + s[..k]
  }

  /** The running thread is on top, and its ring is RING turned by K. */
  ghost predicate Turned(st: State, ring: seq<Tid>, k: int) {
    Placed(st) && OnTop(st) && 0 <= k <= |ring| && Ring(st) == Rotate(ring, k)
  }

  lemma {:induction false} YieldsRotate(st: State, n: nat)
    requires Placed(st) && OnTop(st) && n <= |Ring(st)|
    ensures Turned(YieldN(st, n), Ring(st), n)
  {
    if n == 0 {
      assert Rotate(Ring(st), 0) == Ring(st);
    } else {
      YieldsRotate(st, n - 1);
      OneMoreYield(YieldN(st, n - 1), Ring(st), n - 1);
    }
  }

  lemma OneMoreYield(st: State, ring: seq<Tid>, k: int)
    requires Turned(st, ring, k) && k < |ring|
    ensures Turned(Yield(st), ring, k + 1)
  {
    YieldRotates(st);
    RotateNext(ring, k);
  }

  lemma RotateNext<T>(s: seq<T>, k: nat)
    requires k < |s|
    ensures Rotate(s, k)[1..] + [Rotate(s, k)[0]] == Rotate(s, k + 1)
  {
  }

  /** Strict rotation: with N threads of greatest priority, the I-th of them runs after exactly I yields, and after N
      yields the first one runs again. */
  lemma StrictRotation(st: State, i: nat)
    requires Placed(st) && OnTop(st) && i <= |Ring(st)|
    ensures YieldN(st, i).run.cur == if i < |Ring(st)| then Ring(st)[i] else Ring(st)[0]
    ensures NoDup(Ring(st))
  {
    YieldsRotate(st, i);
    assert YieldN(st, i).run.cur == Ring(YieldN(st, i))[0];
    RingNoDup(st);
  }

  lemma RingNoDup(st: State)
    requires Placed(st)
    ensures NoDup(Ring(st))
  {
    assert InPlace(ViewOf(st), st.run.cur);
    AtPriorityNoDup(st.run.ready, st.mem.prio, st.mem.prio[st.run.cur]);
  }

  lemma {:induction false} AtPriorityNoDup(l: seq<Tid>, prio: map<Tid, int>, p: int)
    requires AllIn(l, prio) && NoDup(l)
    ensures NoDup(AtPriority(l, prio, p))
    ensures forall x :: x in AtPriority(l, prio, p) ==> x in l
  {
    if l != [] {
      AtPriorityNoDup(l[1..], prio, p);
      assert l[0] !in l[1..];
    }
  }
}
