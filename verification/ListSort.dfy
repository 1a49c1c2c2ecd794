/** Natural merge sort on sequences (lib/kernel/list.c): what one pass and the whole sort do to the order of the
    elements, for any strict weak order. */
module ListSort {
  import opened Arithmetic

  type Less<!E> = (E, E) -> bool

  /** LESS is a strict weak order on the elements of S. */
  ghost predicate WeakOrder<E>(less: Less<E>, s: seq<E>) {
    && (forall a, b :: a in s && b in s && less(a, b) ==> !less(b, a))
    && (forall a, b, c :: a in s && b in s && c in s && less(a, c) ==> less(a, b) || less(b, c))
  }

  /** No element is less than the one before it. */
  ghost predicate Sorted<E>(less: Less<E>, s: seq<E>) {
    forall i :: 0 < i < |s| ==> !less(s[i], s[i - 1])
  }

  /** Neither is less than the other. */
  ghost predicate Same<E>(less: Less<E>, a: E, b: E) {
    !less(a, b) && !less(b, a)
  }

  /** The elements of S equivalent to X, in their order. */
  ghost function Class<E>(less: Less<E>, x: E, s: seq<E>): seq<E> {
    if s == [] then []
    else if Same(less, s[0], x) then [s[0]] + Class(less, x, s[1..])
    else Class(less, x, s[1..])
  }

  /** R has the elements of S, and equivalent ones in the order they have in S. */
  ghost predicate StablePermutation<E>(less: Less<E>, s: seq<E>, r: seq<E>) {
    multiset(r) == multiset(s) && forall x :: x in s ==> Class(less, x, r) == Class(less, x, s)
  }

  // ---------- runs ----------

  lemma SortedCons<E>(less: Less<E>, x: E, s: seq<E>)
    requires Sorted(less, s) && (s != [] ==> !less(s[0], x))
    ensures Sorted(less, [x] + s)
  {
    var r := [x] + s;
    forall i | 0 < i < |r| ensures !less(r[i], r[i - 1]) {
      assert r[i] == s[i - 1];
      assert i > 1 ==> r[i - 1] == s[i - 2];
    }
  }

  /** find_end_of_run: the length of the longest sorted start of S. */
  function RunLength<E>(less: Less<E>, s: seq<E>): (n: nat)
    requires s != []
    ensures 1 <= n <= |s|
  {
    if |s| == 1 || less(s[1], s[0]) then 1 else 1 + RunLength(less, s[1..])
  }

  lemma {:induction false} RunIsLongest<E>(less: Less<E>, s: seq<E>)
    requires s != []
    ensures var n := RunLength(less, s);
            Sorted(less, s[..n]) && (n < |s| ==> less(s[n], s[n - 1]))
  {
    if |s| > 1 && !less(s[1], s[0]) {
      RunIsLongest(less, s[1..]);
      var m := RunLength(less, s[1..]);
      assert s[..m + 1] == [s[0]] + s[1..][..m];
      SortedCons(less, s[0], s[1..][..m]);
    }
  }

  /** The number of places where an element is less than the one before it. */
  ghost function Descents<E>(less: Less<E>, s: seq<E>): nat {
    if |s| < 2 then 0 else (if less(s[1], s[0]) then 1 else 0) + Descents(less, s[1..])
  }

  ghost function Runs<E>(less: Less<E>, s: seq<E>): nat {
    if s == [] then 0 else 1 + Descents(less, s)
  }

  lemma {:induction false} SortedDescents<E>(less: Less<E>, s: seq<E>)
    ensures Descents(less, s) == 0 <==> Sorted(less, s)
  {
    if |s| >= 2 {
      SortedDescents(less, s[1..]);
      if Sorted(less, s) {
        assert less(s[1], s[0]) == false;
        assert Sorted(less, s[1..]);
      }
      if Descents(less, s) == 0 {
        forall i | 0 < i < |s| ensures !less(s[i], s[i - 1]) {
          if i > 1 {
            assert s[i] == s[1..][i - 1] && s[i - 1] == s[1..][i - 2];
          }
        }
      }
    }
  }

  lemma {:induction false} DescentsOfJoin<E>(less: Less<E>, a: seq<E>, b: seq<E>)
    requires a != [] && b != []
    ensures Descents(less, a + b) ==
            Descents(less, a) + (if less(b[0], a[|a| - 1]) then 1 else 0) + Descents(less, b)
  {
    var s := a + b;
    assert s[1..] == a[1..] + b;
    if |a| == 1 {
      assert s[1..] == b && s[1] == b[0];
    } else {
      assert s[1] == a[1];
      DescentsOfJoin(less, a[1..], b);
    }
  }

  // ---------- merging ----------

  /** inplace_merge: from the left unless the right one is less. */
  ghost function Merge<E>(less: Less<E>, a: seq<E>, b: seq<E>): (r: seq<E>)
    ensures |r| == |a| + |b|
    decreases |a| + |b|
  {
    if a == [] then b
    else if b == [] then a
    else if !less(b[0], a[0]) then [a[0]] + Merge(less, a[1..], b)
    else [b[0]] + Merge(less, a, b[1..])
  }

  lemma SortedTail<E>(less: Less<E>, s: seq<E>)
    requires Sorted(less, s) && s != []
    ensures Sorted(less, s[1..])
  {
    forall i | 0 < i < |s[1..]| ensures !less(s[1..][i], s[1..][i - 1]) {
      assert !less(s[i + 1], s[i]);
    }
  }

  /** The merge starts with the first element of one side. */
  lemma MergeFirst<E>(less: Less<E>, a: seq<E>, b: seq<E>)
    requires |a| + |b| > 0
    ensures var r := Merge(less, a, b);
            (a != [] && r[0] == a[0]) || (b != [] && r[0] == b[0])
  {
  }

  lemma {:induction false} MergeSorted<E>(less: Less<E>, a: seq<E>, b: seq<E>)
    requires Sorted(less, a) && Sorted(less, b) && WeakOrder(less, a + b)
    ensures Sorted(less, Merge(less, a, b))
    decreases |a| + |b|
  {
    if a != [] && b != [] {
      if !less(b[0], a[0]) {
        SortedTail(less, a);
        SubOrder(less, a + b, a[1..] + b);
        MergeSorted(less, a[1..], b);
        MergeFirst(less, a[1..], b);
        assert |a| > 1 ==> a[1..][0] == a[1] && !less(a[1], a[0]);
        SortedCons(less, a[0], Merge(less, a[1..], b));
      } else {
        SortedTail(less, b);
        SubOrder(less, a + b, a + b[1..]);
        MergeSorted(less, a, b[1..]);
        MergeFirst(less, a, b[1..]);
        assert |b| > 1 ==> b[1..][0] == b[1] && !less(b[1], b[0]);
        assert b[0] in a + b && a[0] in a + b;
        SortedCons(less, b[0], Merge(less, a, b[1..]));
      }
    }
  }

  lemma SubOrder<E>(less: Less<E>, s: seq<E>, r: seq<E>)
    requires WeakOrder(less, s) && forall x :: x in r ==> x in s
    ensures WeakOrder(less, r)
  {
  }

  lemma FirstCounted<E>(s: seq<E>)
    requires s != []
    ensures multiset(s) == multiset{s[0]} + multiset(s[1..])
  {
    assert s == [s[0]] + s[1..];
  }

  lemma {:induction false} MergeKeeps<E>(less: Less<E>, a: seq<E>, b: seq<E>)
    ensures multiset(Merge(less, a, b)) == multiset(a) + multiset(b)
    decreases |a| + |b|
  {
    if a != [] && b != [] {
      if !less(b[0], a[0]) {
        MergeKeeps(less, a[1..], b);
        FirstCounted(a);
      } else {
        MergeKeeps(less, a, b[1..]);
        FirstCounted(b);
      }
    }
  }

  lemma {:induction false} ClassJoin<E>(less: Less<E>, x: E, a: seq<E>, b: seq<E>)
    ensures Class(less, x, a + b) == Class(less, x, a) + Class(less, x, b)
  {
    if a == [] {
      assert a + b == b;
    } else {
      assert (a + b)[1..] == a[1..] + b && (a + b)[0] == a[0];
      ClassJoin(less, x, a[1..], b);
    }
  }

  /** Above X there is nothing equivalent to X. */
  lemma {:induction false} ClassAbove<E>(less: Less<E>, x: E, s: seq<E>)
    requires Sorted(less, s) && s != [] && less(x, s[0]) && WeakOrder(less, s + [x])
    ensures Class(less, x, s) == []
  {
    assert x in s + [x] && s[0] in s + [x];
    if |s| > 1 {
      assert s[1] in s + [x] && !less(s[1], s[0]);
      SortedTail(less, s);
      SubOrder(less, s + [x], s[1..] + [x]);
      ClassAbove(less, x, s[1..]);
    }
  }

  /** Merging keeps equivalent elements in order, those of the left side first. */
  lemma {:induction false} MergeStable<E>(less: Less<E>, x: E, a: seq<E>, b: seq<E>)
    requires Sorted(less, a) && Sorted(less, b) && WeakOrder(less, a + b + [x])
    ensures Class(less, x, Merge(less, a, b)) == Class(less, x, a) + Class(less, x, b)
    decreases |a| + |b|
  {
    if a != [] && b != [] {
      if !less(b[0], a[0]) {
        SortedTail(less, a);
        SubOrder(less, a + b + [x], a[1..] + b + [x]);
        MergeStable(less, x, a[1..], b);
      } else {
        SortedTail(less, b);
        SubOrder(less, a + b + [x], a + b[1..] + [x]);
        MergeStable(less, x, a, b[1..]);
        if Same(less, b[0], x) {
          assert b[0] in a + b + [x] && a[0] in a + b + [x] && x in a + b + [x];
          SubOrder(less, a + b + [x], a + [x]);
          ClassAbove(less, x, a);
        }
      }
    }
  }

  // ---------- one pass ----------

  /** The runs of S are merged two by two. */
  ghost function Pass<E>(less: Less<E>, s: seq<E>): (r: seq<E>)
    ensures |r| == |s|
    decreases |s|
  {
    if s == [] then []
    else
      var i := RunLength(less, s);
      if i == |s| then s
      else
        var k := i + RunLength(less, s[i..]);
        Merge(less, s[..i], s[i..k]) + Pass(less, s[k..])
  }

  /** The number of runs a pass puts out, as list_sort counts them. */
  ghost function Outputs<E>(less: Less<E>, s: seq<E>): nat
    decreases |s|
  {
    if s == [] then 0
    else
      var i := RunLength(less, s);
      if i == |s| then 1 else 1 + Outputs(less, s[i + RunLength(less, s[i..])..])
  }

  /** The first run of S and the rest. */
  lemma RunsOfRest<E>(less: Less<E>, s: seq<E>)
    requires s != []
    ensures var i := RunLength(less, s);
            Runs(less, s) == 1 + Runs(less, s[i..])
  {
    var i := RunLength(less, s);
    RunIsLongest(less, s);
    SortedDescents(less, s[..i]);
    assert s == s[..i] + s[i..];
    if i < |s| {
      DescentsOfJoin(less, s[..i], s[i..]);
    }
  }

  /** A pass puts out one run for two, rounding up. */
  lemma {:induction false} OutputsHalve<E>(less: Less<E>, s: seq<E>)
    ensures Outputs(less, s) == (Runs(less, s) + 1) / 2
    decreases |s|
  {
    if s != [] {
      RunsOfRest(less, s);
      var i := RunLength(less, s);
      if i < |s| {
        var rest := s[i..];
        RunsOfRest(less, rest);
        var k := RunLength(less, rest);
        assert rest[k..] == s[i + k..];
        OutputsHalve(less, s[i + k..]);
      }
    }
  }

  lemma RunsOfJoin<E>(less: Less<E>, a: seq<E>, b: seq<E>)
    ensures Runs(less, a + b) <= Runs(less, a) + Runs(less, b)
  {
    if a == [] {
      assert a + b == b;
    } else if b == [] {
      assert a + b == a;
    } else {
      DescentsOfJoin(less, a, b);
    }
  }

  /** The two runs in front, and what a pass does with them. */
  lemma NextRuns<E>(less: Less<E>, s: seq<E>) returns (a: seq<E>, b: seq<E>, c: seq<E>)
    requires s != [] && RunLength(less, s) < |s|
    ensures s == a + b + c && a != [] && b != [] && Sorted(less, a) && Sorted(less, b)
    ensures |a| == RunLength(less, s) && |b| == RunLength(less, b + c)
    ensures Pass(less, s) == Merge(less, a, b) + Pass(less, c)
    ensures Outputs(less, s) == 1 + Outputs(less, c)
  {
    var i := RunLength(less, s);
    var k := i + RunLength(less, s[i..]);
    RunIsLongest(less, s);
    RunIsLongest(less, s[i..]);
    assert s[i..][..k - i] == s[i..k];
    a, b, c := s[..i], s[i..k], s[k..];
    assert s[i..] == b + c;
  }

  /** After a pass there are at most as many runs as it put out. */
  lemma {:induction false} PassRuns<E>(less: Less<E>, s: seq<E>)
    requires WeakOrder(less, s)
    ensures Runs(less, Pass(less, s)) <= Outputs(less, s)
    decreases |s|
  {
    if s != [] {
      if RunLength(less, s) == |s| {
        RunIsLongest(less, s);
        assert s[..|s|] == s;
        SortedDescents(less, s);
      } else {
        var a, b, c := NextRuns(less, s);
        SubOrder(less, s, c);
        PassRuns(less, c);
        SubOrder(less, s, a + b);
        MergedRuns(less, a, b, Pass(less, c));
      }
    }
  }

  lemma MergedRuns<E>(less: Less<E>, a: seq<E>, b: seq<E>, p: seq<E>)
    requires Sorted(less, a) && Sorted(less, b) && WeakOrder(less, a + b)
    ensures Runs(less, Merge(less, a, b) + p) <= 1 + Runs(less, p)
  {
    MergeSorted(less, a, b);
    SortedDescents(less, Merge(less, a, b));
    RunsOfJoin(less, Merge(less, a, b), p);
  }

  lemma {:induction false} PassKeeps<E>(less: Less<E>, s: seq<E>)
    ensures multiset(Pass(less, s)) == multiset(s)
    decreases |s|
  {
    if s != [] && RunLength(less, s) < |s| {
      var a, b, c := NextRuns(less, s);
      MergeKeeps(less, a, b);
      PassKeeps(less, c);
      SameElements(a, b, c, Merge(less, a, b), Pass(less, c));
    }
  }

  lemma SameElements<E>(a: seq<E>, b: seq<E>, c: seq<E>, m: seq<E>, p: seq<E>)
    requires multiset(m) == multiset(a) + multiset(b) && multiset(p) == multiset(c)
    ensures multiset(m + p) == multiset(a + b + c)
  {
  }

  lemma {:induction false} PassStable<E>(less: Less<E>, x: E, s: seq<E>)
    requires WeakOrder(less, s + [x])
    ensures Class(less, x, Pass(less, s)) == Class(less, x, s)
    decreases |s|
  {
    if s != [] && RunLength(less, s) < |s| {
      var a, b, c := NextRuns(less, s);
      SubOrder(less, s + [x], c + [x]);
      PassStable(less, x, c);
      SubOrder(less, s + [x], a + b + [x]);
      MergedStable(less, x, a, b, c, Pass(less, c));
    }
  }

  lemma MergedStable<E>(less: Less<E>, x: E, a: seq<E>, b: seq<E>, c: seq<E>, p: seq<E>)
    requires Sorted(less, a) && Sorted(less, b) && WeakOrder(less, a + b + [x])
    requires Class(less, x, p) == Class(less, x, c)
    ensures Class(less, x, Merge(less, a, b) + p) == Class(less, x, a + b + c)
  {
    MergeStable(less, x, a, b);
    ClassJoin(less, x, Merge(less, a, b), p);
    ClassJoin(less, x, a, b);
    ClassJoin(less, x, a + b, c);
  }

  lemma PassStablePermutation<E>(less: Less<E>, s: seq<E>)
    requires WeakOrder(less, s)
    ensures StablePermutation(less, s, Pass(less, s))
  {
    PassKeeps(less, s);
    forall x | x in s ensures Class(less, x, Pass(less, s)) == Class(less, x, s) {
      SubOrder(less, s, s + [x]);
      PassStable(less, x, s);
    }
  }

  // ---------- the whole sort ----------

  /** list_sort: passes until one puts out at most one run. */
  ghost function Sort<E>(less: Less<E>, s: seq<E>): (r: seq<E>)
    requires WeakOrder(less, s)
    decreases Runs(less, s)
  {
    var p := Pass(less, s);
    PassStep(less, s);
    if Outputs(less, s) > 1 then Sort(less, p) else p
  }

  /** What one more pass does. */
  lemma PassStep<E>(less: Less<E>, s: seq<E>)
    requires WeakOrder(less, s)
    ensures var p := Pass(less, s);
            && WeakOrder(less, p) && StablePermutation(less, s, p)
            && Runs(less, p) <= (Runs(less, s) + 1) / 2
            && Outputs(less, s) == (Runs(less, s) + 1) / 2
            && (Outputs(less, s) <= 1 ==> Sorted(less, p))
  {
    var p := Pass(less, s);
    PassStablePermutation(less, s);
    PassRuns(less, s);
    OutputsHalve(less, s);
    SortedDescents(less, p);
    forall x | x in p ensures x in s {
      assert x in multiset(p);
    }
    SubOrder(less, s, p);
  }

  lemma StableTransitive<E>(less: Less<E>, s: seq<E>, p: seq<E>, r: seq<E>)
    requires StablePermutation(less, s, p) && StablePermutation(less, p, r)
    ensures StablePermutation(less, s, r)
  {
    forall x | x in s ensures Class(less, x, r) == Class(less, x, s) {
      assert x in multiset(s);
      assert x in multiset(p);
      assert x in p;
    }
  }

  /** list_sort sorts, and is stable. */
  lemma {:induction false} SortCorrect<E>(less: Less<E>, s: seq<E>)
    requires WeakOrder(less, s)
    ensures Sorted(less, Sort(less, s)) && StablePermutation(less, s, Sort(less, s))
    decreases Runs(less, s)
  {
    PassStep(less, s);
    if Outputs(less, s) > 1 {
      var p := Pass(less, s);
      SortCorrect(less, p);
      StableTransitive(less, s, p, Sort(less, p));
    }
  }

  ghost function Passes<E>(less: Less<E>, s: seq<E>): nat
    requires WeakOrder(less, s)
    decreases Runs(less, s)
  {
    PassStep(less, s);
    if Outputs(less, s) > 1 then 1 + Passes(less, Pass(less, s)) else 1
  }

  lemma OnePassLess<E>(less: Less<E>, s: seq<E>) returns (p: seq<E>)
    requires WeakOrder(less, s)
    ensures WeakOrder(less, p) && Runs(less, p) <= (Runs(less, s) + 1) / 2
    ensures Passes(less, s) == if (Runs(less, s) + 1) / 2 > 1 then 1 + Passes(less, p) else 1
  {
    PassStep(less, s);
    p := Pass(less, s);
  }

  lemma HalfPower(r: nat, n: nat)
    requires r <= 2 * Pow2(n)
    ensures (r + 1) / 2 > 1 ==> n > 0 && (r + 1) / 2 <= 2 * Pow2(n - 1)
  {
  }

  /** Enough passes for the runs to be halved down to two, and one more. */
  lemma {:induction false} PassesLogarithmic<E>(less: Less<E>, s: seq<E>, n: nat)
    requires WeakOrder(less, s) && Runs(less, s) <= 2 * Pow2(n)
    ensures Passes(less, s) <= n + 1
    decreases n
  {
    HalfPower(Runs(less, s), n);
    var p := OnePassLess(less, s);
    if (Runs(less, s) + 1) / 2 > 1 {
      PassesLogarithmic(less, p, n - 1);
    }
  }
}
