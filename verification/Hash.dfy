/** The hash table of lib/kernel/hash.c.  Buckets are lists of elements in the order of their links; elements are named
    by their addresses. */
module Hash {
  import opened Arithmetic
  import opened Bits
  import opened Collections
  import opened ListSort

  type Elem = int
  type HashFn = Elem -> nat

  /** What hash_init's caller must provide: a strict weak order, and the same hash for elements it takes for equal. */
  ghost predicate Compatible(hash: HashFn, less: Less<Elem>) {
    && (forall a, b :: less(a, b) ==> !less(b, a))
    && (forall a, b, c :: less(a, c) ==> less(a, b) || less(b, c))
    && (forall a, b :: Same(less, a, b) ==> hash(a) == hash(b))
  }

  ghost predicate Inequivalent(less: Less<Elem>, s: set<Elem>) {
    forall x, y :: x in s && y in s && x != y ==> !Same(less, x, y)
  }

  /** The element of S that is equal to E by LESS, if there is one. */
  ghost function Equal(less: Less<Elem>, s: set<Elem>, e: Elem): Option<Elem> {
    if x :| x in s && Same(less, x, e) then Some(x) else None
  }

  /** find_bucket. */
  function BucketOf(hash: HashFn, n: nat, x: Elem): (i: nat)
    requires n > 0
    ensures i < n
  {
    And(hash(x), n - 1)
  }

  /** With a power of two of them, the bucket is the remainder of the hash. */
  lemma BucketIsRemainder(hash: HashFn, n: nat, x: Elem)
    requires IsPowerOf2(n)
    ensures BucketOf(hash, n, x) == hash(x) % n
  {
    PowersOf2(n);
    var k: nat :| n == Pow2(k);
    AndMask(hash(x), k);
  }

  /** The elements of S, each once and in its own one of the N buckets. */
  ghost predicate Filed(hash: HashFn, n: nat, b: seq<seq<Elem>>, s: set<Elem>) {
    && n > 0 && |b| == n
    && (forall i, x :: 0 <= i < n && x in b[i] ==> x in s && BucketOf(hash, n, x) == i)
    && (forall x :: x in s ==> x in b[BucketOf(hash, n, x)])
    && (forall i :: 0 <= i < n ==> NoDup(b[i]))
  }

  /** The number of buckets rehash wants. */
  function Ideal(elemCnt: nat): (n: nat)
    ensures 4 <= n
  {
    if elemCnt / 2 < 4 then 4 else Top(elemCnt / 2)
  }

  // ---------- lookup ----------

  lemma FoundIsEqual(less: Less<Elem>, s: set<Elem>, e: Elem, x: Elem)
    requires Inequivalent(less, s) && x in s && Same(less, x, e)
    requires forall a, b :: less(a, b) ==> !less(b, a)
    requires forall a, b, c :: less(a, c) ==> less(a, b) || less(b, c)
    ensures Equal(less, s, e) == Some(x)
  {
    var y := Equal(less, s, e).value;
    assert Same(less, y, e);
    assert Same(less, x, y);
  }

  // ---------- one element in or out of its bucket ----------

  lemma NoDupFront(x: Elem, l: seq<Elem>)
    requires NoDup(l) && x !in l
    ensures NoDup([x] + l)
  {
  }

  lemma NoDupRemove(l: seq<Elem>, k: nat)
    requires NoDup(l) && k < |l|
    ensures NoDup(RemoveAt(l, k))
    ensures forall x :: x in RemoveAt(l, k) <==> x in l && x != l[k]
  {
    var r := RemoveAt(l, k);
    forall x | x in l && x != l[k] ensures x in r {
      var j :| 0 <= j < |l| && l[j] == x;
      assert r[if j < k then j else j - 1] == x;
    }
  }

  lemma FiledFront(hash: HashFn, n: nat, b: seq<seq<Elem>>, s: set<Elem>, x: Elem)
    requires Filed(hash, n, b, s) && x !in s
    ensures var i := BucketOf(hash, n, x);
            Filed(hash, n, b[i := [x] + b[i]], s + {x})
  {
    NoDupFront(x, b[BucketOf(hash, n, x)]);
  }

  lemma FiledRemove(hash: HashFn, n: nat, b: seq<seq<Elem>>, s: set<Elem>, i: nat, k: nat)
    requires Filed(hash, n, b, s) && i < n && k < |b[i]|
    ensures Filed(hash, n, b[i := RemoveAt(b[i], k)], s - {b[i][k]})
  {
    NoDupRemove(b[i], k);
    var y := b[i][k];
    var c := b[i := RemoveAt(b[i], k)];
    assert y in b[i] && BucketOf(hash, n, y) == i;
    forall j, x | 0 <= j < n && x in c[j] ensures x in s - {y} && BucketOf(hash, n, x) == j {
      assert x in b[j];
    }
    forall x | x in s - {y} ensures x in c[BucketOf(hash, n, x)] {
      assert x in b[BucketOf(hash, n, x)];
    }
  }

  // ---------- rehash ----------

  /** The loop of rehash that settles on a number of buckets. */
  method NewBucketCnt(elemCnt: nat) returns (n: nat)
    ensures n == Ideal(elemCnt) && IsPowerOf2(n)
  {
    n := elemCnt / 2;
    if n < 4 {
      n := 4;
    }
    ghost var m := n;
    while !IsPowerOf2(n)
      invariant n > 0 && Top(n) == Top(m)
      decreases n
    {
      TurnOffKeepsTop(n);
      n := TurnOffLeast1Bit(n);
    }
    TurnOffKeepsTop(n);
  }

  /** Those of S that the loops of rehash have moved when they stand at element J of bucket I. */
  ghost function Moved(hash: HashFn, n: nat, b: seq<seq<Elem>>, s: set<Elem>, i: nat, j: nat): set<Elem>
    requires n > 0 && |b| == n && i <= n && (i < n ==> j <= |b[i]|)
  {
    set x | x in s && (BucketOf(hash, n, x) < i || (BucketOf(hash, n, x) == i && x in b[i][..j]))
  }

  lemma MoveOne(hash: HashFn, n: nat, b: seq<seq<Elem>>, s: set<Elem>, i: nat, j: nat)
    requires Filed(hash, n, b, s) && i < n && j < |b[i]|
    ensures b[i][j] !in Moved(hash, n, b, s, i, j)
    ensures Moved(hash, n, b, s, i, j + 1) == Moved(hash, n, b, s, i, j) + {b[i][j]}
  {
    assert b[i][..j + 1] == b[i][..j] + [b[i][j]];
    assert b[i][j] in b[i];
    assert NoDup(b[i]);
  }

  lemma MoveBucket(hash: HashFn, n: nat, b: seq<seq<Elem>>, s: set<Elem>, i: nat)
    requires Filed(hash, n, b, s) && i < n
    ensures Moved(hash, n, b, s, i + 1, 0) == Moved(hash, n, b, s, i, |b[i]|)
  {
    assert b[i][..|b[i]|] == b[i];
  }

  /** The loops of rehash that move each old element into its new bucket. */
  method Redistribute(hash: HashFn, n: nat, b: seq<seq<Elem>>, m: nat, ghost s: set<Elem>) returns (c: seq<seq<Elem>>)
    requires Filed(hash, n, b, s) && m > 0
    ensures Filed(hash, m, c, s)
  {
    c := seq(m, _ => []);
    var i := 0;
    assert Moved(hash, n, b, s, 0, 0) == {};
    while i < n
      invariant i <= n && Filed(hash, m, c, Moved(hash, n, b, s, i, 0))
    {
      var j := 0;
      while j < |b[i]|
        invariant j <= |b[i]| && Filed(hash, m, c, Moved(hash, n, b, s, i, j))
      {
        var x := b[i][j];
        var k := BucketOf(hash, m, x);
        MoveOne(hash, n, b, s, i, j);
        FiledFront(hash, m, c, Moved(hash, n, b, s, i, j), x);
        c := c[k := [x] + c[k]];
        j := j + 1;
      }
      MoveBucket(hash, n, b, s, i);
      i := i + 1;
    }
    assert Moved(hash, n, b, s, n, 0) == s;
  }

  class Table {
    const hash: HashFn
    const less: Less<Elem>
    var elemCnt: nat
    var bucketCnt: nat
    var buckets: seq<seq<Elem>>
    ghost var elems: set<Elem>

    ghost predicate Valid()
      reads this
    {
      && Compatible(hash, less)
      && Filed(hash, bucketCnt, buckets, elems) && Inequivalent(less, elems)
      && IsPowerOf2(bucketCnt) && bucketCnt >= 4
      && elemCnt == |elems| % TWO32
    }

    /** hash_init and hash_clear, once there is room for the buckets. */
    constructor (hash: HashFn, less: Less<Elem>)
      requires Compatible(hash, less)
      ensures Valid() && elems == {} && this.hash == hash && this.less == less
    {
      PowerTurnsOff(2);
      this.hash, this.less := hash, less;
      elemCnt, bucketCnt, elems := 0, 4, {};
      buckets := [[], [], [], []];
    }

    /** find_elem in the bucket of E. */
    method FindElem(e: Elem) returns (i: nat, r: Option<Elem>)
      requires Valid()
      ensures r == Equal(less, elems, e)
      ensures var b := buckets[BucketOf(hash, bucketCnt, e)];
              r.Some? ==> i < |b| && b[i] == r.value
    {
      var b := buckets[BucketOf(hash, bucketCnt, e)];
      i := 0;
      while i < |b|
        invariant i <= |b|
        invariant forall j :: 0 <= j < i ==> !Same(less, b[j], e)
      {
        if !less(b[i], e) && !less(e, b[i]) {
          FoundIsEqual(less, elems, e, b[i]);
          return i, Some(b[i]);
        }
        i := i + 1;
      }
      r := None;
      forall x | x in elems ensures !Same(less, x, e) {
        assert x in buckets[BucketOf(hash, bucketCnt, x)];
      }
    }

    /** rehash, where ROOM says if malloc finds room for the new buckets. */
    method Rehash(room: bool)
      requires Valid()
      modifies this`buckets, this`bucketCnt
      ensures Valid()
      ensures bucketCnt == if room then Ideal(elemCnt) else old(bucketCnt)
    {
      var n := NewBucketCnt(elemCnt);
      if n == bucketCnt {
        return;
      }
      if !room {
        return;
      }
      buckets := Redistribute(hash, bucketCnt, buckets, n, elems);
      bucketCnt := n;
    }

    /** insert_elem. */
    method InsertElem(e: Elem)
      requires Valid() && Equal(less, elems, e) == None
      modifies this
      ensures Valid() && elems == old(elems) + {e}
    {
      NoneEqual(less, elems, e);
      FiledFront(hash, bucketCnt, buckets, elems, e);
      CountAdd(elems, e);
      var i := BucketOf(hash, bucketCnt, e);
      elemCnt := (elemCnt + 1) % TWO32;
      buckets := buckets[i := [e] + buckets[i]];
      elems := elems + {e};
    }

    /** remove_elem, of element K of bucket I. */
    method RemoveElem(i: nat, k: nat)
      requires Valid() && i < bucketCnt && k < |buckets[i]|
      modifies this
      ensures Valid() && elems == old(elems) - {old(buckets[i][k])}
    {
      FiledRemove(hash, bucketCnt, buckets, elems, i, k);
      CountRemove(elems, buckets[i][k]);
      elemCnt := (elemCnt - 1) % TWO32;
      elems := elems - {buckets[i][k]};
      buckets := buckets[i := RemoveAt(buckets[i], k)];
    }

    method Insert(e: Elem, room: bool) returns (found: Option<Elem>)
      requires Valid()
      modifies this
      ensures Valid() && found == Equal(less, old(elems), e)
      ensures elems == if found.None? then old(elems) + {e} else old(elems)
    {
      var i;
      i, found := FindElem(e);
      if found.None? {
        InsertElem(e);
      }
      Rehash(room);
    }

    method Replace(e: Elem, room: bool) returns (found: Option<Elem>)
      requires Valid()
      modifies this
      ensures Valid() && found == Equal(less, old(elems), e)
      ensures elems == (if found.Some? then old(elems) - {found.value} else old(elems)) + {e}
    {
      var i;
      i, found := FindElem(e);
      if found.Some? {
        RemovedUnequal(hash, less, elems, e);
        RemoveElem(BucketOf(hash, bucketCnt, e), i);
      }
      InsertElem(e);
      Rehash(room);
    }

    method Find(e: Elem) returns (found: Option<Elem>)
      requires Valid()
      ensures found == Equal(less, elems, e)
    {
      var i;
      i, found := FindElem(e);
    }

    method Delete(e: Elem, room: bool) returns (found: Option<Elem>)
      requires Valid()
      modifies this
      ensures Valid() && found == Equal(less, old(elems), e)
      ensures elems == if found.Some? then old(elems) - {found.value} else old(elems)
    {
      var i;
      i, found := FindElem(e);
      if found.Some? {
        RemoveElem(BucketOf(hash, bucketCnt, e), i);
        Rehash(room);
      }
    }

    method Apply(op: Op, room: bool) returns (r: Option<Elem>)
      requires Valid()
      modifies this
      ensures Valid() && r == Equal(less, old(elems), op.e) && elems == SetAfter(less, old(elems), op)
    {
      match op
      case OInsert(e) => r := Insert(e, room);
      case OReplace(e) => r := Replace(e, room);
      case OFind(e) => r := Find(e);
      case ODelete(e) => r := Delete(e, room);
    }
  }

  // ---------- sequences of operations ----------

  datatype Op = OInsert(e: Elem) | OReplace(e: Elem) | OFind(e: Elem) | ODelete(e: Elem)

  /** What OP does to a plain set; what it returns is the element equal to its argument. */
  ghost function SetAfter(less: Less<Elem>, s: set<Elem>, op: Op): set<Elem> {
    var found := Equal(less, s, op.e);
    match op
    case OInsert(e) => if found.None? then s + {e} else s
    case OReplace(e) => (if found.Some? then s - {found.value} else s) + {e}
    case OFind(e) => s
    case ODelete(e) => if found.Some? then s - {found.value} else s
  }

  ghost function Results(less: Less<Elem>, s: set<Elem>, ops: seq<Op>): seq<Option<Elem>>
    decreases |ops|
  {
    if ops == [] then []
    else [Equal(less, s, ops[0].e)] + Results(less, SetAfter(less, s, ops[0]), ops[1..])
  }

  ghost function SetFinally(less: Less<Elem>, s: set<Elem>, ops: seq<Op>): set<Elem>
    decreases |ops|
  {
    if ops == [] then s else SetFinally(less, SetAfter(less, s, ops[0]), ops[1..])
  }

  /** Every sequence of operations returns what it returns on a plain set, whatever ROOM says of the allocations. */
  method Perform(t: Table, ops: seq<Op>, room: seq<bool>) returns (rs: seq<Option<Elem>>)
    requires t.Valid() && |room| == |ops|
    modifies t
    ensures t.Valid() && rs == Results(t.less, old(t.elems), ops)
    ensures t.elems == SetFinally(t.less, old(t.elems), ops)
    decreases |ops|
  {
    if ops == [] {
      return [];
    }
    var r := t.Apply(ops[0], room[0]);
    var rest := Perform(t, ops[1..], room[1..]);
    rs := [r] + rest;
  }

  lemma NoneEqual(less: Less<Elem>, s: set<Elem>, e: Elem)
    requires Equal(less, s, e) == None
    requires forall a, b :: less(a, b) ==> !less(b, a)
    ensures e !in s && (Inequivalent(less, s) ==> Inequivalent(less, s + {e}))
  {
    assert Same(less, e, e);
    assert forall x :: x in s ==> !Same(less, x, e) && !Same(less, e, x);
  }

  lemma CountAdd(s: set<Elem>, x: Elem)
    requires x !in s
    ensures (|s| % TWO32 + 1) % TWO32 == |s + {x}| % TWO32
  {
  }

  lemma CountRemove(s: set<Elem>, x: Elem)
    requires x in s
    ensures (|s| % TWO32 - 1) % TWO32 == |s - {x}| % TWO32
  {
    assert |s| == |s - {x}| + 1;
  }

  /** Without the element equal to E nothing equal to E is left. */
  lemma RemovedUnequal(hash: HashFn, less: Less<Elem>, s: set<Elem>, e: Elem)
    requires Compatible(hash, less) && Inequivalent(less, s) && Equal(less, s, e).Some?
    ensures Equal(less, s - {Equal(less, s, e).value}, e) == None
  {
    var x := Equal(less, s, e).value;
    forall y | y in s && y != x ensures !Same(less, y, e) {
      assert Same(less, x, e) && !Same(less, y, x);
      assert less(x, y) || less(y, x);
    }
  }

  /** hash_init, where ROOM says if malloc finds room for the buckets. */
  method HashInit(hash: HashFn, less: Less<Elem>, room: bool) returns (t: Table?)
    requires Compatible(hash, less)
    ensures t == null <==> !room
    ensures t != null ==> fresh(t) && t.Valid() && t.elems == {} && t.hash == hash && t.less == less
  {
    if !room {
      return null;
    }
    t := new Table(hash, less);
  }
}
