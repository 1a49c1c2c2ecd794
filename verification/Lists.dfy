/** The intrusive doubly linked list of lib/kernel/list.c.  A list is the chain of its elements, from the head element
    to the tail element; methods get the chain, or the parts of it they work on, as ghost arguments. */
module Lists {
  import opened ListSort

  class Elem {
    var prev: Elem?
    var next: Elem?

    constructor ()
      ensures prev == null && next == null
    {
      prev, next := null, null;
    }
  }

  class List {
    const head: Elem
    const tail: Elem

    /** list_init. */
    constructor ()
      ensures fresh(head) && fresh(tail) && Chain([head, tail])
    {
      head := new Elem();
      tail := new Elem();
      new;
      head.next, tail.prev := tail, head;
    }
  }

  ghost predicate Next(a: Elem, b: Elem)
    reads a, b
  {
    a.next == b && b.prev == a
  }

  ghost predicate Linked(s: seq<Elem>)
    reads s
  {
    forall i, j :: 0 <= i < |s| && 0 <= j < |s| && j == i + 1 ==> Next(s[i], s[j])
  }

  ghost predicate Distinct(s: seq<Elem>) {
    forall i, j :: 0 <= i < j < |s| ==> s[i] != s[j]
  }

  /** The elements of a list with its head and tail: the links agree in both directions, and the ends are null. */
  ghost predicate Chain(s: seq<Elem>)
    reads s
  {
    |s| >= 2 && Distinct(s) && Linked(s) && s[0].prev == null && s[|s| - 1].next == null
  }

  ghost function Objects(s: seq<Elem>): set<Elem> {
    set e | e in s
  }

  function Last<T>(s: seq<T>): T
    requires s != []
  {
    s[|s| - 1]
  }

  // ---------- chains in parts ----------

  lemma LinkedParts(a: seq<Elem>, b: seq<Elem>)
    requires a != [] && b != []
    ensures Linked(a + b) <==> Linked(a) && Linked(b) && Next(Last(a), b[0])
  {
    var s := a + b;
    if Linked(s) {
      forall i, j | 0 <= i < |a| && 0 <= j < |a| && j == i + 1 ensures Next(a[i], a[j]) {
        assert Next(s[i], s[j]);
      }
      forall i, j | 0 <= i < |b| && 0 <= j < |b| && j == i + 1 ensures Next(b[i], b[j]) {
        assert Next(s[|a| + i], s[|a| + j]);
      }
      assert Next(s[|a| - 1], s[|a|]);
    }
    if Linked(a) && Linked(b) && Next(Last(a), b[0]) {
      forall i, j | 0 <= i < |s| && 0 <= j < |s| && j == i + 1 ensures Next(s[i], s[j]) {
        if j < |a| {
          assert Next(a[i], a[j]);
        } else if i >= |a| {
          assert Next(b[i - |a|], b[j - |a|]);
        }
      }
    }
  }

  ghost predicate Apart(a: seq<Elem>, b: seq<Elem>) {
    forall x :: x in a ==> x !in b
  }

  lemma DistinctParts(a: seq<Elem>, b: seq<Elem>)
    ensures Distinct(a + b) <==> Distinct(a) && Distinct(b) && Apart(a, b)
  {
    var s := a + b;
    if Distinct(s) {
      forall i, j | 0 <= i < j < |a| ensures a[i] != a[j] {
        assert s[i] != s[j];
      }
      forall i, j | 0 <= i < j < |b| ensures b[i] != b[j] {
        assert s[|a| + i] != s[|a| + j];
      }
      forall i, j | 0 <= i < |a| && 0 <= j < |b| ensures a[i] != b[j] {
        assert s[i] != s[|a| + j];
      }
    }
    if Distinct(a) && Distinct(b) && Apart(a, b) {
      forall i, j | 0 <= i < j < |s| ensures s[i] != s[j] {
        if j < |a| {
          assert a[i] != a[j];
        } else if i >= |a| {
          assert b[i - |a|] != b[j - |a|];
        } else {
          assert a[i] in a && b[j - |a|] in b;
        }
      }
    }
  }

  /** The links inside a part survive when only its outward links change. */
  twostate lemma PartFrame(s: seq<Elem>)
    requires s != [] && Distinct(s) && old(Linked(s))
    requires forall x :: x in s && x != Last(s) ==> x.next == old(x.next)
    requires forall x :: x in s && x != s[0] ==> x.prev == old(x.prev)
    ensures Linked(s)
  {
    forall i, j | 0 <= i < |s| && 0 <= j < |s| && j == i + 1 ensures Next(s[i], s[j]) {
      assert old(Next(s[i], s[j]));
    }
  }

  /** Three parts of a chain, none empty: the parts are linked, and each to the next. */
  lemma ThreeParts(a: seq<Elem>, b: seq<Elem>, c: seq<Elem>)
    requires a != [] && b != [] && c != []
    ensures Linked(a + b + c) <==> (Linked(a) && Linked(b) && Linked(c) && Next(Last(a), b[0]) && Next(Last(b), c[0]))
    ensures Distinct(a + b + c) <==>
            (Distinct(a) && Distinct(b) && Distinct(c) && Apart(a, b) && Apart(a, c) && Apart(b, c))
  {
    LinkedParts(a, b);
    LinkedParts(a + b, c);
    DistinctParts(a, b);
    DistinctParts(a + b, c);
  }

  /** The first two assignments of list_splice: the range M is taken out of its list. */
  method Detach(first: Elem, last: Elem, ghost p: seq<Elem>, ghost m: seq<Elem>, ghost q: seq<Elem>)
    requires p != [] && m != [] && q != [] && Chain(p + m + q)
    requires first == m[0] && last == Last(m)
    modifies Objects(p + q)
    ensures Chain(p + q) && Linked(m)
  {
    ThreeParts(p, m, q);
    DistinctParts(p, q);
    assert (p + m + q)[0] == p[0] && Last(p + m + q) == Last(q);
    assert p[0] in p && Last(p) in p && m[0] in m && Last(m) in m && q[0] in q && Last(q) in q;
    first.prev.next := last.next;
    last.next.prev := first.prev;
    PartFrame(p);
    PartFrame(q);
    LinkedParts(p, q);
    assert (p + q)[0] == p[0] && Last(p + q) == Last(q);
  }

  /** The other four: the range M is linked in, in front of BEFORE. */
  method Attach(before: Elem, first: Elem, last: Elem, ghost p: seq<Elem>, ghost m: seq<Elem>, ghost q: seq<Elem>)
    requires p != [] && m != [] && q != [] && Chain(p + q) && Linked(m) && Distinct(m) && Apart(m, p + q)
    requires before == q[0] && first == m[0] && last == Last(m)
    modifies Objects(p + m + q)
    ensures Chain(p + m + q)
  {
    LinkedParts(p, q);
    DistinctParts(p, q);
    assert (p + q)[0] == p[0] && Last(p + q) == Last(q);
    assert p[0] in p && Last(p) in p && m[0] in m && Last(m) in m && q[0] in q && Last(q) in q;
    first.prev := before.prev;
    last.next := before;
    before.prev.next := first;
    before.prev := last;
    PartFrame(p);
    PartFrame(m);
    PartFrame(q);
    ThreeParts(p, m, q);
    assert (p + m + q)[0] == p[0] && Last(p + m + q) == Last(q);
  }

  /** list_splice: the range M, from FIRST up to LAST in the list P + M + Q, is moved in front of BEFORE, where T begins
      in S + T.  That is either what its own list is without the range, or another list. */
  method Splice(before: Elem, first: Elem, last: Elem, ghost p: seq<Elem>, ghost m: seq<Elem>, ghost q: seq<Elem>,
                ghost s: seq<Elem>, ghost t: seq<Elem>)
    requires p != [] && q != [] && Chain(p + m + q) && first == (m + q)[0] && last == q[0]
    requires s != [] && t != [] && before == t[0]
    requires s + t == p + q || (Chain(s + t) && Apart(s + t, p + m + q))
    modifies Objects(p + m + q), Objects(s + t)
    ensures Chain(s + m + t)
    ensures s + t == p + q || Chain(p + q)
  {
    ghost var all := p + m + q;
    assert all[|p|] == first && all[|p + m|] == last;
    if first == last {
      assert m == [] && p + m + q == p + q && s + m + t == s + t;
      return;
    }
    assert Next(all[|p + m| - 1], last);
    SpliceApart(p, m, q, s, t);
    var back := last.prev;
    Detach(first, back, p, m, q);
    assert Chain(s + t);
    Attach(before, first, back, s, m, t);
  }

  /** The range is apart from the list it is taken from and from the one it goes to. */
  lemma SpliceApart(p: seq<Elem>, m: seq<Elem>, q: seq<Elem>, s: seq<Elem>, t: seq<Elem>)
    requires p != [] && m != [] && q != [] && Distinct(p + m + q)
    requires s + t == p + q || Apart(s + t, p + m + q)
    ensures Distinct(m) && Apart(m, s + t)
    ensures s + t == p + q || (Apart(s + t, p + q) && Apart(p + q, s + m + t))
  {
    ThreeParts(p, m, q);
    assert forall x :: x in p + q ==> x in p + m + q;
    assert forall x :: x in m ==> x in p + m + q;
    assert forall x :: x in s + m + t ==> x in s + t || x in m;
  }

  // ---------- one element ----------

  /** list_insert: ELEM goes in front of BEFORE. */
  method Insert(before: Elem, elem: Elem, ghost p: seq<Elem>, ghost q: seq<Elem>)
    requires p != [] && q != [] && Chain(p + q) && before == q[0] && elem !in p + q
    modifies Objects(p + [elem] + q)
    ensures Chain(p + [elem] + q)
  {
    assert (p + q)[0] == p[0] && Last(p + q) == Last(q);
    LinkedParts(p, q);
    DistinctParts(p, q);
    assert p[0] in p && Last(p) in p && q[0] in q && Last(q) in q;
    elem.prev := before.prev;
    elem.next := before;
    before.prev.next := elem;
    before.prev := elem;
    PartFrame(p);
    PartFrame(q);
    LinkedParts(p, [elem]);
    LinkedParts(p + [elem], q);
    DistinctParts(p, [elem]);
    DistinctParts(p + [elem], q);
    assert (p + [elem] + q)[0] == p[0] && Last(p + [elem] + q) == Last(q);
  }

  /** list_remove. */
  method Remove(elem: Elem, ghost p: seq<Elem>, ghost q: seq<Elem>) returns (next: Elem)
    requires p != [] && q != [] && Chain(p + [elem] + q)
    modifies Objects(p + q)
    ensures Chain(p + q) && next == q[0]
    ensures elem.prev == Last(p) && elem.next == q[0]
  {
    assert (p + [elem] + q)[0] == p[0] && Last(p + [elem] + q) == Last(q);
    LinkedParts(p + [elem], q);
    LinkedParts(p, [elem]);
    DistinctParts(p + [elem], q);
    DistinctParts(p, [elem]);
    assert p[0] in p && Last(p) in p && q[0] in q && Last(q) in q;
    elem.prev.next := elem.next;
    elem.next.prev := elem.prev;
    next := elem.next;
    PartFrame(p);
    PartFrame(q);
    LinkedParts(p, q);
    DistinctParts(p, q);
    assert (p + q)[0] == p[0] && Last(p + q) == Last(q);
  }

  // ---------- sorting ----------

  /** find_end_of_run, in the range S from A up to B. */
  method FindEndOfRun(a: Elem, b: Elem, less: Less<Elem>, ghost p: seq<Elem>, ghost s: seq<Elem>, ghost q: seq<Elem>)
    returns (e: Elem)
    requires p != [] && s != [] && q != [] && Chain(p + s + q) && a == s[0] && b == q[0]
    ensures e == (s + q)[RunLength(less, s)]
  {
    ghost var all := p + s + q;
    ghost var n := 1;
    assert all[|p|] == a && all[|p| + 1] == (s + q)[1];
    e := a.next;
    while e != b && !less(e, e.prev)
      invariant 1 <= n <= |s| && e == (s + q)[n] && e.prev == s[n - 1]
      invariant RunLength(less, s) == n - 1 + RunLength(less, s[n - 1..])
      decreases |s| - n
    {
      assert all[|p| + n] == e && all[|p| + n + 1] == (s + q)[n + 1] && all[|p| + |s|] == b;
      assert s[n - 1..][1..] == s[n..];
      e := e.next;
      n := n + 1;
    }
    assert all[|p| + n] == e && all[|p| + |s|] == b;
    assert n < |s| ==> s[n - 1..][1] == e && s[n - 1..][0] == e.prev;
  }

  /** The splice of inplace_merge: the element between L and Q is moved in front of L. */
  method MoveUp(before: Elem, first: Elem, last: Elem, ghost p: seq<Elem>, ghost l: seq<Elem>, ghost m: Elem,
                ghost q: seq<Elem>)
    requires p != [] && l != [] && q != [] && Chain(p + l + [m] + q)
    requires before == l[0] && first == m && last == q[0]
    modifies Objects(p + l + [m] + q)
    ensures Chain(p + [m] + l + q)
    ensures Objects(p + [m] + l + q) == Objects(p + l + [m] + q)
  {
    SwapObjects(p, l, [m], q);
    assert p + (l + q) == (p + l) + q && p + [m] + (l + q) == p + [m] + l + q;
    assert forall x :: x in p + (l + q) ==> x in p + l + [m] + q;
    Splice(before, first, last, p + l, [m], q, p, l + q);
  }

  /** inplace_merge: the sorted ranges A and B, one after the other, become one. */
  method InplaceMerge(a0: Elem, a1b0: Elem, b1: Elem, less: Less<Elem>, ghost p: seq<Elem>, ghost a: seq<Elem>,
                      ghost b: seq<Elem>, ghost q: seq<Elem>)
    requires p != [] && a != [] && b != [] && q != [] && Chain(p + a + b + q)
    requires Sorted(less, a) && Sorted(less, b)
    requires a0 == a[0] && a1b0 == b[0] && b1 == q[0]
    modifies Objects(p + a + b + q)
    ensures Chain(p + Merge(less, a, b) + q)
  {
    var x, y := a0, a1b0;
    ghost var done, l, r := p, a, b;
    while x != y && y != b1
      invariant done != [] && Chain(done + l + r + q)
      invariant x == (l + r + q)[0] && y == (r + q)[0]
      invariant done + Merge(less, l, r) == p + Merge(less, a, b)
      invariant Objects(done + l + r + q) == Objects(p + a + b + q)
      decreases |l| + |r|
    {
      MergePosition(done, l, r, q);
      if !less(y, x) {
        KeepLeft(less, done, l, r, q);
        x := x.next;
        done, l := done + [l[0]], l[1..];
      } else {
        TakeRight(less, done, l, r, q);
        y := y.next;
        MoveUp(x, y.prev, y, done, l, r[0], r[1..] + q);
        done, r := done + [r[0]], r[1..];
      }
    }
    MergeDone(less, done, l, r, q);
  }

  /** The two ends of the ranges left to merge meet exactly when one of them is empty. */
  lemma MergePosition(done: seq<Elem>, l: seq<Elem>, r: seq<Elem>, q: seq<Elem>)
    requires done != [] && q != [] && Chain(done + l + r + q)
    ensures (l + r + q)[0] != (r + q)[0] ==> l != [] && (l[0] == (l + r + q)[0])
    ensures (r + q)[0] != q[0] ==> r != [] && r[0] == (r + q)[0]
    ensures l != [] ==> l[0].next == (l[1..] + r + q)[0]
    ensures r != [] ==> r[0].next == (r[1..] + q)[0] && r[0].next.prev == r[0]
  {
    var s := done + l + r + q;
    if l != [] {
      assert s[|done|] == l[0] && s[|done| + 1] == (l[1..] + r + q)[0];
    }
    if r != [] {
      assert s[|done + l|] == r[0] && s[|done + l| + 1] == (r[1..] + q)[0];
    }
  }

  lemma KeepLeft(less: Less<Elem>, done: seq<Elem>, l: seq<Elem>, r: seq<Elem>, q: seq<Elem>)
    requires l != [] && r != [] && !less(r[0], l[0])
    ensures done + l + r + q == done + [l[0]] + l[1..] + r + q
    ensures done + Merge(less, l, r) == done + [l[0]] + Merge(less, l[1..], r)
  {
    assert l == [l[0]] + l[1..];
  }

  lemma TakeRight(less: Less<Elem>, done: seq<Elem>, l: seq<Elem>, r: seq<Elem>, q: seq<Elem>)
    requires l != [] && r != [] && less(r[0], l[0])
    ensures done + l + r + q == done + l + [r[0]] + (r[1..] + q)
    ensures done + [r[0]] + l + (r[1..] + q) == done + [r[0]] + l + r[1..] + q
    ensures done + Merge(less, l, r) == done + [r[0]] + Merge(less, l, r[1..])
  {
    FirstApart(done + l, r, q);
    Regroup3(done + [r[0]], l, r[1..], q);
    Regroup3(done, [r[0]], Merge(less, l, r[1..]), []);
  }

  lemma FirstApart(a: seq<Elem>, r: seq<Elem>, q: seq<Elem>)
    requires r != []
    ensures a + r + q == a + [r[0]] + (r[1..] + q)
  {
    assert r == [r[0]] + r[1..];
  }

  lemma SwapObjects(p: seq<Elem>, a: seq<Elem>, m: seq<Elem>, q: seq<Elem>)
    ensures Objects(p + m + a + q) == Objects(p + a + m + q)
  {
  }

  lemma MergeDone(less: Less<Elem>, done: seq<Elem>, l: seq<Elem>, r: seq<Elem>, q: seq<Elem>)
    requires done != [] && q != [] && Chain(done + l + r + q)
    requires (l + r + q)[0] == (r + q)[0] || (r + q)[0] == q[0]
    ensures done + Merge(less, l, r) + q == done + l + r + q
  {
    var s := done + l + r + q;
    assert s[|done|] == (l + r + q)[0] && s[|done + l|] == (r + q)[0] && s[|done + l + r|] == q[0];
    assert l == [] || r == [];
    assert l + r == Merge(less, l, r);
  }

  lemma SameObjects(p: seq<Elem>, s: seq<Elem>, r: seq<Elem>, q: seq<Elem>)
    requires multiset(s) == multiset(r)
    ensures Objects(p + r + q) == Objects(p + s + q)
  {
    forall e ensures e in r <==> e in s {
      assert e in multiset(r) <==> e in multiset(s);
    }
  }

  lemma PassObjects(less: Less<Elem>, h: Elem, s: seq<Elem>, t: Elem)
    ensures Objects([h] + Pass(less, s) + [t]) == Objects([h] + s + [t])
  {
    PassKeeps(less, s);
    SameObjects([h], s, Pass(less, s), [t]);
  }

  /** One pass of list_sort: adjacent runs are merged two by two. */
  method MergeRuns(list: List, less: Less<Elem>, ghost s: seq<Elem>) returns (outputRuns: nat)
    requires Chain([list.head] + s + [list.tail])
    modifies Objects([list.head] + s + [list.tail])
    ensures Chain([list.head] + Pass(less, s) + [list.tail])
    ensures outputRuns == Outputs(less, s)
  {
    ghost var h, t := [list.head], [list.tail];
    ghost var done, rest := h, s;
    outputRuns := 0;
    assert (h + s + t)[1] == (s + t)[0];
    var a0 := list.head.next;
    while a0 != list.tail
      invariant Chain(done + rest + t) && a0 == (rest + t)[0]
      invariant done + Pass(less, rest) == h + Pass(less, s)
      invariant outputRuns + Outputs(less, rest) == Outputs(less, s)
      invariant Objects(done + rest + t) == Objects(h + s + t)
      decreases |rest|
    {
      outputRuns := outputRuns + 1;
      a0, done, rest := MergePair(a0, list.tail, less, done, rest, t);
    }
    AllPassed(done, rest, t);
    assert done == done + Pass(less, rest);
  }

  lemma AllPassed(done: seq<Elem>, rest: seq<Elem>, t: seq<Elem>)
    requires |t| == 1 && Chain(done + rest + t) && (rest + t)[0] == t[0]
    ensures rest == [] && done + rest + t == done + t
  {
    var s := done + rest + t;
    assert s[|done|] == (rest + t)[0] && s[|done| + |rest|] == t[0];
  }

  /** One output run of a pass: two adjacent runs are found and merged, or the one left is found to be the last. */
  method MergePair(a0: Elem, end: Elem, less: Less<Elem>, ghost done: seq<Elem>, ghost rest: seq<Elem>,
                   ghost t: seq<Elem>)
    returns (b1: Elem, ghost done': seq<Elem>, ghost rest': seq<Elem>)
    requires done != [] && rest != [] && t == [end] && Chain(done + rest + t) && a0 == rest[0]
    modifies Objects(done + rest + t)
    ensures done' != [] && Chain(done' + rest' + t) && b1 == (rest' + t)[0] && |rest'| < |rest|
    ensures done' + Pass(less, rest') == done + Pass(less, rest)
    ensures Outputs(less, rest) == 1 + Outputs(less, rest')
    ensures Objects(done' + rest' + t) == Objects(done + rest + t)
  {
    var a1b0 := FindEndOfRun(a0, end, less, done, rest, t);
    RunAtEnd(less, done, rest, t);
    if a1b0 == end {
      b1, done', rest' := end, done + rest, [];
      assert done' + rest' == done + rest && rest' + t == t;
      return;
    }
    ghost var a, b, c := NextRuns(less, rest);
    Regroup(done, a, b, c, t);
    b1 := MergeTwo(a0, a1b0, end, less, done, a, b, c, t);
    Advance(less, done, a, b, c, t);
    done', rest' := done + Merge(less, a, b), c;
  }

  method MergeTwo(a0: Elem, a1b0: Elem, end: Elem, less: Less<Elem>, ghost done: seq<Elem>, ghost a: seq<Elem>,
                  ghost b: seq<Elem>, ghost c: seq<Elem>, ghost t: seq<Elem>)
    returns (b1: Elem)
    requires done != [] && a != [] && b != [] && t == [end] && Chain(done + (a + b + c) + t)
    requires Sorted(less, a) && Sorted(less, b) && |b| == RunLength(less, b + c)
    requires a0 == a[0] && a1b0 == b[0]
    modifies Objects(done + (a + b + c) + t)
    ensures Chain(done + Merge(less, a, b) + c + t) && b1 == (c + t)[0]
  {
    Regroup(done, a, b, c, t);
    b1 := FindEndOfRun(a1b0, end, less, done + a, b + c, t);
    InplaceMerge(a0, a1b0, b1, less, done, a, b, c + t);
    Regroup3(done, Merge(less, a, b), c, t);
  }

  /** list_sort. */
  method SortList(list: List, less: Less<Elem>, ghost s: seq<Elem>) returns (ghost r: seq<Elem>)
    requires Chain([list.head] + s + [list.tail]) && WeakOrder(less, s)
    modifies Objects([list.head] + s + [list.tail])
    ensures Chain([list.head] + r + [list.tail]) && r == Sort(less, s)
    ensures Sorted(less, r) && StablePermutation(less, s, r)
  {
    SortCorrect(less, s);
    r := s;
    PassStep(less, r);
    PassObjects(less, list.head, r, list.tail);
    var outputRuns := MergeRuns(list, less, r);
    ghost var prev := r;
    r := Pass(less, r);
    while outputRuns > 1
      invariant WeakOrder(less, prev) && r == Pass(less, prev) && WeakOrder(less, r)
      invariant Chain([list.head] + r + [list.tail]) && outputRuns == Outputs(less, prev)
      invariant Sort(less, prev) == Sort(less, s)
      invariant Objects([list.head] + r + [list.tail]) == Objects([list.head] + s + [list.tail])
      decreases Runs(less, prev)
    {
      PassStep(less, prev);
      PassStep(less, r);
      PassObjects(less, list.head, r, list.tail);
      outputRuns := MergeRuns(list, less, r);
      prev, r := r, Pass(less, r);
    }
  }

  ghost predicate IsFirstMax(less: Less<Elem>, s: seq<Elem>, k: int) {
    && 0 <= k < |s|
    && (forall i :: 0 <= i < |s| ==> !less(s[k], s[i]))
    && (forall i :: 0 <= i < k ==> less(s[i], s[k]))
  }

  /** list_max: the earliest of the greatest elements, or the tail of an empty list. */
  method Max(list: List, less: Less<Elem>, ghost s: seq<Elem>) returns (max: Elem)
    requires Chain([list.head] + s + [list.tail]) && WeakOrder(less, s)
    ensures s == [] <==> max == list.tail
    ensures s != [] ==> exists k :: IsFirstMax(less, s, k) && max == s[k]
  {
    ghost var all := [list.head] + s + [list.tail];
    assert all[1] == (s + [list.tail])[0] && all[|s| + 1] == list.tail;
    max := list.head.next;
    if max != list.tail {
      ghost var k, n := 0, 1;
      assert max == s[0] && all[2] == (s + [list.tail])[1];
      var e := max.next;
      while e != list.tail
        invariant 0 <= k < n <= |s| && max == s[k] && e == (s + [list.tail])[n]
        invariant forall i :: 0 <= i < n ==> !less(s[k], s[i])
        invariant forall i :: 0 <= i < k ==> less(s[i], s[k])
        decreases |s| - n
      {
        assert n < |s|;
        assert all[n + 1] == s[n] && all[n + 2] == (s + [list.tail])[n + 1];
        if less(max, e) {
          forall i | 0 <= i < n ensures less(s[i], s[n]) {
            assert s[i] in s && s[k] in s && s[n] in s;
          }
          max := e;
          k := n;
        }
        e := e.next;
        n := n + 1;
      }
      assert all[n + 1] == e && all[k + 1] == max && all[|s| + 1] == list.tail;
      assert n == |s|;
      assert IsFirstMax(less, s, k);
    }
  }

  /** A run ends at the end of the list exactly if it is all that is left. */
  lemma RunAtEnd(less: Less<Elem>, done: seq<Elem>, rest: seq<Elem>, t: seq<Elem>)
    requires rest != [] && |t| == 1 && Chain(done + rest + t)
    ensures (rest + t)[RunLength(less, rest)] == t[0] <==> RunLength(less, rest) == |rest|
    ensures RunLength(less, rest) == |rest| ==> Pass(less, rest) == rest && Outputs(less, rest) == 1
  {
    var s, n := done + rest + t, RunLength(less, rest);
    assert s[|done| + n] == (rest + t)[n] && s[|done| + |rest|] == t[0];
  }

  lemma Regroup(done: seq<Elem>, a: seq<Elem>, b: seq<Elem>, c: seq<Elem>, t: seq<Elem>)
    requires a != [] && b != [] && t != []
    ensures done + (a + b + c) + t == done + a + (b + c) + t
    ensures done + (a + b + c) + t == done + a + b + (c + t)
    ensures (a + b + c + t)[0] == a[0] && (a + b + c + t)[|a|] == b[0] && (b + c + t)[|b|] == (c + t)[0]
  {
  }

  lemma Advance(less: Less<Elem>, done: seq<Elem>, a: seq<Elem>, b: seq<Elem>, c: seq<Elem>, t: seq<Elem>)
    ensures done + (Merge(less, a, b) + Pass(less, c)) == done + Merge(less, a, b) + Pass(less, c)
    ensures Objects(done + Merge(less, a, b) + c + t) == Objects(done + (a + b + c) + t)
  {
    MergeKeeps(less, a, b);
    SameObjects(done, a + b, Merge(less, a, b), c + t);
    Regroup4(done, a, b, c, t);
    Regroup3(done, Merge(less, a, b), c, t);
    Regroup3(done, Merge(less, a, b), Pass(less, c), []);
  }

  lemma Regroup3(done: seq<Elem>, a: seq<Elem>, c: seq<Elem>, t: seq<Elem>)
    ensures done + a + (c + t) == done + a + c + t
    ensures done + (a + c) == done + a + c
  {
  }

  lemma Regroup4(done: seq<Elem>, a: seq<Elem>, b: seq<Elem>, c: seq<Elem>, t: seq<Elem>)
    ensures done + (a + b) + (c + t) == done + (a + b + c) + t
  {
  }
}
