/** Sequences of calls of the allocator and of other users of the page pool: a block keeps its bytes and its capacity
    until it is freed or resized (threads/malloc.c). */
module MallocRuns {
  import opened Arithmetic
  import opened Bitmap
  import opened Collections
  import opened Arenas
  import opened MallocMeaning
  import opened MallocSteps
  import opened Malloc

  datatype Memory = Memory(heap: Heap, data: int -> int, outside: set<int>)

  ghost function MemoryOf(a: Allocator): Memory
    requires a.pool.Valid()
    reads a, a.pool.bits
  {
    Memory(a.Now(), a.data, a.outside)
  }

  /** A call of malloc, calloc, with the size that it computes, free or realloc, and of another user that gets pages or
      gives pages of its own back. */
  datatype Call = CMalloc(size: nat) | CCalloc(a: nat, b: nat, size: nat) | CFree(block: Option<int>)
    | CRealloc(block: Option<int>, size: nat)
    | CGet(n: nat) | CGive(p: nat, n: nat)

  ghost predicate May(ds: seq<Desc>, m: Memory, c: Call) {
    match c
    case CMalloc(size) => size < TWO32
    case CCalloc(a, b, size) => a < TWO32 && b < TWO32 && size == Product32(a, b) && size + HEADER <= TWO32
    case CFree(block) => block.Some? ==> block.value in m.heap.live
    case CRealloc(block, size) =>
      size < TWO32 &&
      (block.Some? ==> block.value in m.heap.live && CopyFits(ds, m.heap.arenas, block.value, size))
    case CGet(n) => true
    case CGive(p, n) => p + n <= |m.heap.used| && Span(p, n) <= m.outside
  }

  /** A call with result R ends block X: it frees or replaces it. */
  ghost predicate Ends(c: Call, r: Option<int>, x: int) {
    c == CFree(Some(x)) || (c.CRealloc? && c.block == Some(x) && (c.size == 0 || r.Some?))
  }

  /** Block X of M is a block of M', as large and with the same bytes. */
  ghost predicate Survives(ds: seq<Desc>, m: Memory, m': Memory, x: int) {
    && x in m'.heap.live && CapacityOf(ds, m'.heap.arenas, x) == CapacityOf(ds, m.heap.arenas, x)
    && Agree(m.data, m'.data, x, CapacityOf(ds, m.heap.arenas, x))
  }

  ghost predicate Asks(c: Call) {
    c.CMalloc? || c.CCalloc? || c.CRealloc?
  }

  /** The blocks after the call are those it does not end and, if it returns one, a new one that is as large as asked,
      unless its size with a header is more than 32 bits hold. */
  ghost predicate BlocksAfter(ds: seq<Desc>, m: Memory, c: Call, r: Option<int>, m': Memory) {
    && (forall x :: x in m'.heap.live <==> (x in m.heap.live && !Ends(c, r, x)) || (Asks(c) && r == Some(x)))
    && (Asks(c) && r.Some? ==>
          && r.value !in m.heap.live && c.size > 0
          && (c.size + HEADER <= TWO32 ==> CapacityOf(ds, m'.heap.arenas, r.value) >= c.size))
  }

  /** What a call promises. */
  ghost predicate Done(ds: seq<Desc>, m: Memory, c: Call, r: Option<int>, m': Memory) {
    && Good(ds, m'.heap, m'.outside) && BlocksAfter(ds, m, c, r, m')
    && forall x :: x in m.heap.live && !Ends(c, r, x) ==> Survives(ds, m, m', x)
  }

  lemma KeptSurvives(ds: seq<Desc>, m: Memory, m': Memory, live: set<int>)
    requires Kept(ds, m.heap.arenas, live, m.data, m'.data) && SameCapacity(ds, m.heap.arenas, m'.heap.arenas, live)
    ensures forall x :: x in live && x in m'.heap.live ==> Survives(ds, m, m', x)
  {
  }

  lemma KeptBackwards(ds: seq<Desc>, arenas: map<int, Arena>, arenas': map<int, Arena>, live: set<int>, a: int -> int,
                      b: int -> int)
    requires Kept(ds, arenas', live, a, b) && SameCapacity(ds, arenas, arenas', live)
    ensures Kept(ds, arenas, live, a, b)
  {
  }

  lemma NoneEnds(c: Call, r: Option<int>)
    requires c.CMalloc? || c.CCalloc?
    ensures forall x :: !Ends(c, r, x)
  {
  }

  lemma MallocBlocks(ds: seq<Desc>, m: Memory, c: Call, r: Option<int>, m': Memory)
    requires (c.CMalloc? || c.CCalloc?) && c.size < TWO32 && |m.heap.lists| == |ds|
    requires AllocDone(ds, m.heap, m'.heap, r, c.size)
    ensures BlocksAfter(ds, m, c, r, m') && (forall x :: x in m.heap.live ==> x in m'.heap.live)
    ensures SameCapacity(ds, m.heap.arenas, m'.heap.arenas, m.heap.live)
  {
    if r.Some? {
      AskedFor(ds, m.heap, m'.heap, r.value, c.size);
    }
  }

  lemma MallocDone(ds: seq<Desc>, m: Memory, c: Call, r: Option<int>, m': Memory)
    requires (c.CMalloc? || c.CCalloc?) && c.size < TWO32 && |m.heap.lists| == |ds| && Good(ds, m'.heap, m'.outside)
    requires AllocDone(ds, m.heap, m'.heap, r, c.size) && Kept(ds, m.heap.arenas, m.heap.live, m.data, m'.data)
    ensures Done(ds, m, c, r, m')
  {
    NoneEnds(c, r);
    MallocBlocks(ds, m, c, r, m');
    KeptSurvives(ds, m, m', m.heap.live);
  }

  lemma FreeDone(ds: seq<Desc>, m: Memory, x: int, m': Memory)
    requires x in m.heap.live && Good(ds, m'.heap, m'.outside) && Released(ds, m.heap, m'.heap, x)
    requires Kept(ds, m'.heap.arenas, m'.heap.live, m.data, m'.data)
    ensures Done(ds, m, CFree(Some(x)), None, m')
  {
    KeptBackwards(ds, m.heap.arenas, m'.heap.arenas, m'.heap.live, m.data, m'.data);
    KeptSurvives(ds, m, m', m'.heap.live);
  }

  lemma SameDone(ds: seq<Desc>, m: Memory, c: Call, r: Option<int>, m': Memory)
    requires Good(ds, m'.heap, m'.outside) && m'.heap.live == m.heap.live && m'.heap.arenas == m.heap.arenas
    requires Kept(ds, m.heap.arenas, m.heap.live, m.data, m'.data)
    requires (forall x :: x in m.heap.live ==> !Ends(c, r, x)) && (Asks(c) ==> r.None?)
    ensures Done(ds, m, c, r, m')
  {
    KeptSurvives(ds, m, m', m.heap.live);
  }

  lemma ReplaceDone(ds: seq<Desc>, m: Memory, block: Option<int>, size: nat, y: int, m': Memory, others: set<int>)
    requires size > 0 && Good(ds, m'.heap, m'.outside)
    requires others == if block.Some? then m.heap.live - {block.value} else m.heap.live
    requires y !in m.heap.live && m'.heap.live == others + {y}
    requires size + HEADER <= TWO32 ==> CapacityOf(ds, m'.heap.arenas, y) >= size
    requires SameCapacity(ds, m.heap.arenas, m'.heap.arenas, others)
    requires Kept(ds, m.heap.arenas, others, m.data, m'.data)
    ensures Done(ds, m, CRealloc(block, size), Some(y), m')
  {
    ReplaceBlocks(block, size, y, m.heap.live, m'.heap.live, others);
    KeptSurvives(ds, m, m', others);
  }

  lemma ReplaceBlocks(block: Option<int>, size: nat, y: int, live: set<int>, live': set<int>, others: set<int>)
    requires size > 0 && y !in live && live' == others + {y}
    requires others == if block.Some? then live - {block.value} else live
    ensures forall x :: x in live && !Ends(CRealloc(block, size), Some(y), x) <==> x in others
    ensures forall x :: x in live' <==> (x in live && !Ends(CRealloc(block, size), Some(y), x)) || x == y
  {
  }

  lemma ResizedDone(ds: seq<Desc>, m: Memory, block: Option<int>, size: nat, y: int, m': Memory)
    requires size > 0 && Good(ds, m'.heap, m'.outside)
    requires Resized(ds, m.heap, m'.heap, block, y, size, m.data, m'.data)
    ensures Done(ds, m, CRealloc(block, size), Some(y), m')
  {
    ReplaceDone(ds, m, block, size, y, m', if block.Some? then m.heap.live - {block.value} else m.heap.live);
  }

  lemma DroppedDone(ds: seq<Desc>, m: Memory, block: Option<int>, m': Memory)
    requires (block.Some? ==> block.value in m.heap.live) && Good(ds, m'.heap, m'.outside)
    requires Dropped(ds, m.heap, m'.heap, block, m.data, m'.data)
    ensures Done(ds, m, CRealloc(block, 0), None, m')
  {
    if block.Some? {
      FreeDone(ds, m, block.value, m');
      assert forall x :: Ends(CRealloc(block, 0), None, x) <==> Ends(CFree(block), None, x);
    } else {
      SameDone(ds, m, CRealloc(block, 0), None, m');
    }
  }

  /** Any permitted call does what it promises. */
  method Perform(a: Allocator, c: Call, noise: int -> int, noise': int -> int) returns (r: Option<int>)
    requires a.Valid() && May(a.ds, MemoryOf(a), c)
    modifies a, a.pool.bits
    ensures a.Valid() && Done(a.ds, old(MemoryOf(a)), c, r, MemoryOf(a))
  {
    ghost var m := MemoryOf(a);
    match c {
      case CMalloc(size) =>
        r := a.Malloc(size, noise);
        MallocDone(a.ds, m, c, r, MemoryOf(a));
      case CCalloc(n, k, size) =>
        r := a.Calloc(n, k, noise);
        if size < n || size < k {
          SameDone(a.ds, m, c, r, MemoryOf(a));
        } else {
          MallocDone(a.ds, m, c, r, MemoryOf(a));
        }
      case CFree(block) =>
        a.Free(block, noise);
        r := None;
        if block.Some? {
          FreeDone(a.ds, m, block.value, MemoryOf(a));
        } else {
          SameDone(a.ds, m, c, r, MemoryOf(a));
        }
      case CRealloc(block, size) => r := PerformRealloc(a, block, size, noise, noise');
      case CGet(n) =>
        var p := a.OthersGet(n);
        r := None;
        SameDone(a.ds, m, c, r, MemoryOf(a));
      case CGive(p, n) =>
        a.OthersFree(p, n);
        r := None;
        SameDone(a.ds, m, c, r, MemoryOf(a));
    }
  }

  method PerformRealloc(a: Allocator, block: Option<int>, size: nat, noise: int -> int, noise': int -> int)
    returns (r: Option<int>)
    requires a.Valid() && May(a.ds, MemoryOf(a), CRealloc(block, size))
    modifies a, a.pool.bits
    ensures a.Valid() && Done(a.ds, old(MemoryOf(a)), CRealloc(block, size), r, MemoryOf(a))
  {
    ghost var m := MemoryOf(a);
    r := a.Realloc(block, size, noise, noise');
    if r.Some? {
      ResizedDone(a.ds, m, block, size, r.value, MemoryOf(a));
    } else if size == 0 {
      DroppedDone(a.ds, m, block, MemoryOf(a));
    } else {
      SameDone(a.ds, m, CRealloc(block, size), r, MemoryOf(a));
    }
  }

  // ---------- sequences of calls ----------

  lemma SurvivesOn(ds: seq<Desc>, m: Memory, m': Memory, m'': Memory, x: int)
    requires Survives(ds, m, m', x) && Survives(ds, m', m'', x)
    ensures Survives(ds, m, m'', x)
  {
  }

  /** CALLS lead, with RESULTS, through the memories MS. */
  ghost predicate Trace(ds: seq<Desc>, ms: seq<Memory>, calls: seq<Call>, results: seq<Option<int>>) {
    && |ms| == |calls| + 1 && |results| == |calls|
    && forall i :: 0 <= i < |calls| ==> Done(ds, ms[i], calls[i], results[i], ms[i + 1])
  }

  /** Over every sequence of calls a block keeps its bytes and its capacity until a call ends it. */
  lemma {:induction false} BlockLasts(ds: seq<Desc>, ms: seq<Memory>, calls: seq<Call>, results: seq<Option<int>>,
                                      x: int, n: nat)
    requires Trace(ds, ms, calls, results) && x in ms[0].heap.live && n <= |calls|
    requires forall i :: 0 <= i < n ==> !Ends(calls[i], results[i], x)
    ensures Survives(ds, ms[0], ms[n], x)
  {
    if n > 0 {
      BlockLasts(ds, ms, calls, results, x, n - 1);
      assert Done(ds, ms[n - 1], calls[n - 1], results[n - 1], ms[n]);
      SurvivesOn(ds, ms[0], ms[n - 1], ms[n], x);
    }
  }

  // ---------- a copy that leaves its block ----------

  /** A heap without arenas over the page pool USED, and the pages of others in it. */
  ghost function NewHeap(used: seq<bool>): Heap {
    Heap(used, map[], seq(7, _ => []), {}, {})
  }

  ghost function Others(used: seq<bool>): set<int> {
    set k | 0 <= k < |used| && used[k]
  }

  lemma NewGood(used: seq<bool>)
    ensures Good(DESCS, NewHeap(used), Others(used))
  {
    assert BlockMap(DESCS, map[]) == map[];
  }

  /** Two pages for 5000 bytes leave one of three free pages free. */
  lemma OnePageLeft(used: seq<bool>, p: nat, q: nat)
    requires AllAre(used, p, 3, false) && AllAre(used, q, 2, false)
    ensures !NoPages(Fill(used, q, 2, true), 1)
  {
    var r := Fill(used, q, 2, true);
    var k := if p != q && p != q + 1 then p else if p + 2 != q && p + 2 != q + 1 then p + 2 else p + 1;
    assert AllAre(r, k, 1, false);
  }

  lemma NoDescriptor(size: int)
    requires size > 1024
    ensures DescFor(DESCS, size, 0) == |DESCS|
  {
    var d := DescFor(DESCS, size, 0);
    assert BestDesc(DESCS, size, d);
    assert forall e :: 0 <= e < |DESCS| ==> DESCS[e].size <= 1024;
  }

  /** malloc (5000) with three free pages in a row. */
  lemma Gets8180(h0: Heap, outside: set<int>, p: nat) returns (h: Heap, x: int)
    requires Good(DESCS, h0, outside) && AllAre(h0.used, p, 3, false)
    ensures Alloc(DESCS, h0, outside, 5000) == Outcome(h, Some(x))
    ensures Good(DESCS, h, outside) && CapacityOf(DESCS, h.arenas, x) == 8180 && !NoPages(h.used, 1)
  {
    NoDescriptor(5000);
    assert BigPages(5000) == 2 && AllAre(h0.used, p, 2, false);
    var q := FirstFit(h0.used, 2, 0).value;
    BigGranted(DESCS, h0, outside, q, 2);
    OnePageLeft(h0.used, p, q);
    h, x := BigTaken(h0, q, 2), Addr(q, 0, 0);
  }

  /** With three free pages in a row malloc (5000) gives a block of 8180 bytes; the malloc (2^32 - 1) of a realloc then
      gives one of 4084, and the bytes to copy do not fit it. */
  lemma ReallocCopyCanOverrun(used: seq<bool>, p: nat) returns (h: Heap, x: int, h': Heap, y: int)
    requires AllAre(used, p, 3, false)
    ensures Good(DESCS, NewHeap(used), Others(used)) && Good(DESCS, h, Others(used))
    ensures Alloc(DESCS, NewHeap(used), Others(used), 5000) == Outcome(h, Some(x))
    ensures Alloc(DESCS, h, Others(used), TWO32 - 1) == Outcome(h', Some(y))
    ensures CapacityOf(DESCS, h.arenas, x) == 8180 && CapacityOf(DESCS, h'.arenas, y) == 4084
    ensures Min(TWO32 - 1, CapacityOf(DESCS, h.arenas, x)) > CapacityOf(DESCS, h'.arenas, y)
  {
    NewGood(used);
    h, x := Gets8180(NewHeap(used), Others(used), p);
    h', y := HugeRequest(h, Others(used));
  }

  lemma ProductWraps()
    ensures Product32(65537, 65537) == 131073 && BigPages(131073) == 33
  {
  }

  /** The test in calloc does not notice every product that is too large: with 33 free pages in a row calloc (65537,
      65537) succeeds with a block of 135156 bytes. */
  lemma CallocCanFallShort(h: Heap, outside: set<int>) returns (r: Heap, x: int)
    requires Good(DESCS, h, outside) && !NoPages(h.used, 33)
    ensures CallocDone(DESCS, h, r, Some(x), 65537, 65537) && Good(DESCS, r, outside)
    ensures CapacityOf(DESCS, r.arenas, x) == 135156 < 65537 * 65537
  {
    NoDescriptor(131073);
    AllocKeeps(DESCS, h, outside, 131073);
    ProductWraps();
    var o := Alloc(DESCS, h, outside, 131073);
    r, x := o.heap, o.block.value;
  }

  lemma HugeRequest(h: Heap, outside: set<int>) returns (h': Heap, y: int)
    requires Good(DESCS, h, outside) && !NoPages(h.used, 1)
    ensures Alloc(DESCS, h, outside, TWO32 - 1) == Outcome(h', Some(y)) && CapacityOf(DESCS, h'.arenas, y) == 4084
  {
    HugeRequestGetsOnePage(h, outside);
    var o := Alloc(DESCS, h, outside, TWO32 - 1);
    h', y := o.heap, o.block.value;
  }
}
