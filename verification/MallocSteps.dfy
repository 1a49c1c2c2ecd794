/** malloc, free and realloc (threads/malloc.c) as functions of the allocator's state. */
module MallocSteps {
  import opened Arithmetic
  import opened Bitmap
  import opened Collections
  import opened Arenas
  import opened MallocInvariant
  import opened MallocMeaning

  /** USED is the page pool's bitmap; FREE and LIVE are the blocks on the lists and those handed out. */
  datatype Heap = Heap(used: seq<bool>, arenas: map<int, Arena>, lists: seq<seq<int>>, free: set<int>, live: set<int>)

  ghost predicate Ok(ds: seq<Desc>, h: Heap, outside: set<int>) {
    Inv(ds, h.used, h.arenas, h.lists, h.free, h.live, outside)
  }

  ghost predicate Good(ds: seq<Desc>, h: Heap, outside: set<int>) {
    Ok(ds, h, outside) && Tight(ds, h.arenas)
  }

  ghost predicate HasDesc(arenas: map<int, Arena>, x: int, d: int) {
    PageOf(x) in arenas && arenas[PageOf(x)].Small? && arenas[PageOf(x)].desc == d
  }

  // ---------- the pieces ----------

  ghost function Carved(ds: seq<Desc>, h: Heap, d: int, p: nat): Heap
    requires 0 <= d < |ds| == |h.lists| && ds[d].count >= 0 && p + 1 <= |h.used|
  {
    Heap(Fill(h.used, p, 1, true), h.arenas[p := Small(d, ds[d].count)], h.lists[d := AddrList(p, ds[d])],
         h.free + Blocks(p, ds[d]), h.live)
  }

  ghost function Popped(h: Heap, d: int): Heap
    requires 0 <= d < |h.lists| && h.lists[d] != [] && HasDesc(h.arenas, h.lists[d][0], d)
  {
    var x := h.lists[d][0];
    var p := PageOf(x);
    Heap(h.used, h.arenas[p := Taken(h.arenas[p])], h.lists[d := h.lists[d][1..]], h.free - {x},
         h.live + {x})
  }

  ghost function BigTaken(h: Heap, p: nat, n: nat): Heap
    requires p + n <= |h.used|
  {
    Heap(Fill(h.used, p, n, true), h.arenas[p := Big(n)], h.lists, h.free, h.live + {Addr(p, 0, 0)})
  }

  /** Every arena has at most as many free blocks as blocks, and only the one at P may have all. */
  ghost predicate TightBut(ds: seq<Desc>, arenas: map<int, Arena>, p: int) {
    forall q :: q in arenas && arenas[q].Small? && 0 <= arenas[q].desc < |ds| ==>
      && arenas[q].freeCnt <= ds[arenas[q].desc].count
      && (q != p ==> arenas[q].freeCnt < ds[arenas[q].desc].count)
  }

  lemma PopTight(ds: seq<Desc>, arenas: map<int, Arena>, p: int)
    requires TightBut(ds, arenas, p) && p in arenas && arenas[p].Small?
    ensures Tight(ds, arenas[p := Taken(arenas[p])])
  {
  }

  lemma PopOk(ds: seq<Desc>, h: Heap, outside: set<int>, d: int)
    requires Ok(ds, h, outside) && 0 <= d < |ds| && h.lists[d] != []
    ensures HasDesc(h.arenas, h.lists[d][0], d) && h.lists[d][0] !in h.live
    ensures Ok(ds, Popped(h, d), outside)
  {
    StepPop(ds, h.used, h.arenas, h.lists, h.free, h.live, outside, d);
  }

  /** The first block of a list is handed out. */
  lemma PopGood(ds: seq<Desc>, h: Heap, outside: set<int>, d: int)
    requires Ok(ds, h, outside) && 0 <= d < |ds| && h.lists[d] != [] && TightBut(ds, h.arenas, PageOf(h.lists[d][0]))
    ensures HasDesc(h.arenas, h.lists[d][0], d) && h.lists[d][0] !in h.live
    ensures Good(ds, Popped(h, d), outside)
  {
    PopOk(ds, h, outside, d);
    PopTight(ds, h.arenas, PageOf(h.lists[d][0]));
  }

  lemma CarveOk(ds: seq<Desc>, h: Heap, outside: set<int>, d: int, p: nat)
    requires Good(ds, h, outside) && 0 <= d < |ds| && h.lists[d] == [] && AllAre(h.used, p, 1, false)
    ensures DescOk(ds[d]) && Ok(ds, Carved(ds, h, d, p), outside) && p !in h.arenas
  {
    StepCarve(ds, h.used, h.arenas, h.lists, h.free, h.live, outside, d, p);
    PageTaken(h.used, h.arenas, outside, p, Small(d, ds[d].count));
  }

  lemma CarveTight(ds: seq<Desc>, h: Heap, d: int, p: nat)
    requires 0 <= d < |ds| == |h.lists| && DescOk(ds[d]) && p + 1 <= |h.used| && Tight(ds, h.arenas)
    ensures var c := Carved(ds, h, d, p);
            c.lists[d] != [] && PageOf(c.lists[d][0]) == p && TightBut(ds, c.arenas, p)
  {
    BlockInPage(p, ds[d], 0);
    assert AddrList(p, ds[d])[0] == Addr(p, ds[d].size, 0);
  }

  lemma BigGood(ds: seq<Desc>, h: Heap, outside: set<int>, p: nat, n: nat)
    requires Good(ds, h, outside) && n >= 1 && AllAre(h.used, p, n, false)
    ensures Good(ds, BigTaken(h, p, n), outside) && Addr(p, 0, 0) !in h.live && p !in h.arenas
  {
    StepBig(ds, h.used, h.arenas, h.lists, h.free, h.live, outside, p, n);
    PageTaken(h.used, h.arenas, outside, p, Big(n));
  }

  // ---------- malloc ----------

  datatype Outcome = Outcome(heap: Heap, block: Option<int>)

  ghost function AllocSmall(ds: seq<Desc>, h: Heap, outside: set<int>, d: int): Outcome
    requires Good(ds, h, outside) && 0 <= d < |ds|
  {
    if h.lists[d] != [] then
      PopOk(ds, h, outside, d);
      Outcome(Popped(h, d), Some(h.lists[d][0]))
    else
      match FirstFit(h.used, 1, 0)
      case None => Outcome(h, None)
      case Some(p) =>
        CarveGood(ds, h, outside, d, p);
        var c := Carved(ds, h, d, p);
        Outcome(Popped(c, d), Some(c.lists[d][0]))
  }

  ghost function AllocBig(h: Heap, n: nat): Outcome {
    if n == 0 then Outcome(h, None)
    else
      match FirstFit(h.used, n, 0)
      case None => Outcome(h, None)
      case Some(p) => Outcome(BigTaken(h, p, n), Some(Addr(p, 0, 0)))
  }

  function DescFor(ds: seq<Desc>, size: int, d: nat): (r: nat)
    requires d <= |ds| && forall e :: 0 <= e < d ==> ds[e].size < size
    ensures BestDesc(ds, size, r)
    decreases |ds| - d
  {
    if d == |ds| || ds[d].size >= size then d else DescFor(ds, size, d + 1)
  }

  ghost function Alloc(ds: seq<Desc>, h: Heap, outside: set<int>, size: int): Outcome
    requires Good(ds, h, outside) && 0 <= size < TWO32
  {
    var d := DescFor(ds, size, 0);
    if size == 0 then Outcome(h, None)
    else if d < |ds| then AllocSmall(ds, h, outside, d)
    else AllocBig(h, BigPages(size))
  }

  /** A new arena, and its first block handed out. */
  lemma CarveGood(ds: seq<Desc>, h: Heap, outside: set<int>, d: int, p: nat)
    requires Good(ds, h, outside) && 0 <= d < |ds| && h.lists[d] == [] && AllAre(h.used, p, 1, false)
    ensures DescOk(ds[d]) && p !in h.arenas
    ensures var c := Carved(ds, h, d, p);
            && c.lists[d] != [] && PageOf(c.lists[d][0]) == p && HasDesc(c.arenas, c.lists[d][0], d)
            && c.lists[d][0] !in h.live && Good(ds, Popped(c, d), outside)
  {
    CarveOk(ds, h, outside, d, p);
    CarveTight(ds, h, d, p);
    PopGood(ds, Carved(ds, h, d, p), outside, d);
  }

  // ---------- free ----------

  /** L without the first X on it, if there is one: list_remove. */
  function Unlinked(l: seq<int>, x: int): seq<int> {
    if l == [] then [] else if l[0] == x then l[1..] else [l[0]] + Unlinked(l[1..], x)
  }

  /** The blocks of an arena come off the list one after the other. */
  function UnlinkedAll(l: seq<int>, p: int, size: int, n: nat): seq<int> {
    if n == 0 then l else Unlinked(UnlinkedAll(l, p, size, n - 1), Addr(p, size, n - 1))
  }

  lemma {:induction false} UnlinkedWithout(l: seq<int>, x: int)
    requires NoDup(l)
    ensures Without(l, {x}, Unlinked(l, x))
  {
    if l != [] {
      var t := l[1..];
      assert l == [l[0]] + t;
      assert l[0] !in t;
      UnlinkedWithout(t, x);
    }
  }

  lemma {:induction false} UnlinkedAllWithout(l: seq<int>, p: int, size: int, n: nat)
    requires NoDup(l)
    ensures Without(l, set i | 0 <= i < n :: Addr(p, size, i), UnlinkedAll(l, p, size, n))
  {
    var b := set i | 0 <= i < n :: Addr(p, size, i);
    if n > 0 {
      var c, x := set i | 0 <= i < n - 1 :: Addr(p, size, i), Addr(p, size, n - 1);
      UnlinkedAllWithout(l, p, size, n - 1);
      UnlinkedWithout(UnlinkedAll(l, p, size, n - 1), x);
      assert b == c + {x};
    }
  }

  ghost function Pushed(h: Heap, x: int): Heap
    requires PageOf(x) in h.arenas && h.arenas[PageOf(x)].Small? && 0 <= h.arenas[PageOf(x)].desc < |h.lists|
  {
    var p := PageOf(x);
    var d := h.arenas[p].desc;
    Heap(h.used, h.arenas[p := Returned(h.arenas[p])], h.lists[d := [x] + h.lists[d]], h.free + {x}, h.live - {x})
  }

  ghost function Dismantled(ds: seq<Desc>, h: Heap, p: nat): Heap
    requires p in h.arenas && h.arenas[p].Small? && 0 <= h.arenas[p].desc < |ds| == |h.lists| && p + 1 <= |h.used|
    requires ds[h.arenas[p].desc].count >= 0
  {
    var d := h.arenas[p].desc;
    Heap(Fill(h.used, p, 1, false), h.arenas - {p},
         h.lists[d := UnlinkedAll(h.lists[d], p, ds[d].size, ds[d].count)], h.free - Blocks(p, ds[d]), h.live)
  }

  ghost function BigFreed(h: Heap, p: nat): Heap
    requires p in h.arenas && h.arenas[p].Big? && h.arenas[p].pages >= 0 && p + h.arenas[p].pages <= |h.used|
  {
    Heap(Fill(h.used, p, h.arenas[p].pages, false), h.arenas - {p}, h.lists, h.free, h.live - {Addr(p, 0, 0)})
  }

  lemma PushOk(ds: seq<Desc>, h: Heap, outside: set<int>, x: int)
    requires Ok(ds, h, outside) && x in h.live
    ensures IsBlock(ds, h.arenas, PageOf(x), x)
    ensures h.arenas[PageOf(x)].Small? ==>
              && 0 <= h.arenas[PageOf(x)].desc < |ds| == |h.lists|
              && Ok(ds, Pushed(h, x), outside)
  {
    StepPush(ds, h.used, h.arenas, h.lists, h.free, h.live, outside, x);
  }

  lemma DismantleOk(ds: seq<Desc>, h: Heap, outside: set<int>, p: nat)
    requires Ok(ds, h, outside) && p in h.arenas && h.arenas[p].Small? && 0 <= h.arenas[p].desc < |ds|
    requires h.arenas[p].freeCnt == ds[h.arenas[p].desc].count
    ensures DescOk(ds[h.arenas[p].desc]) && AllAre(h.used, p, 1, true) && Ok(ds, Dismantled(ds, h, p), outside)
  {
    var d := h.arenas[p].desc;
    assert ListOk(h.arenas, d, h.lists[d], h.free);
    UnlinkedAllWithout(h.lists[d], p, ds[d].size, ds[d].count);
    StepDismantle(ds, h.used, h.arenas, h.lists, h.free, h.live, outside, p,
                  UnlinkedAll(h.lists[d], p, ds[d].size, ds[d].count));
  }

  lemma BigFreeOk(ds: seq<Desc>, h: Heap, outside: set<int>, p: nat)
    requires Ok(ds, h, outside) && p in h.arenas && h.arenas[p].Big? && Addr(p, 0, 0) in h.live
    ensures h.arenas[p].pages >= 1 && AllAre(h.used, p, h.arenas[p].pages, true) && Ok(ds, BigFreed(h, p), outside)
  {
    StepBigFree(ds, h.used, h.arenas, h.lists, h.free, h.live, outside, p);
  }

  ghost function Release(ds: seq<Desc>, h: Heap, outside: set<int>, x: int): Heap
    requires Good(ds, h, outside) && x in h.live
  {
    PushOk(ds, h, outside, x);
    if h.arenas[PageOf(x)].Big? then
      BigFreeOk(ds, h, outside, PageOf(x));
      BigFreed(h, PageOf(x))
    else
      PushTight(ds, h.arenas, PageOf(x));
      GivenBack(ds, Pushed(h, x), outside, PageOf(x))
  }

  /** The end of free: an arena without live blocks is taken apart. */
  ghost function GivenBack(ds: seq<Desc>, h: Heap, outside: set<int>, p: nat): Heap
    requires Ok(ds, h, outside) && TightBut(ds, h.arenas, p)
    requires p in h.arenas && h.arenas[p].Small? && 0 <= h.arenas[p].desc < |ds|
  {
    if h.arenas[p].freeCnt >= ds[h.arenas[p].desc].count then
      DismantleOk(ds, h, outside, p);
      Dismantled(ds, h, p)
    else h
  }

  lemma PushTight(ds: seq<Desc>, arenas: map<int, Arena>, p: int)
    requires Tight(ds, arenas) && p in arenas && arenas[p].Small?
    ensures TightBut(ds, arenas[p := Returned(arenas[p])], p)
  {
  }

  lemma DropTight(ds: seq<Desc>, arenas: map<int, Arena>, p: int)
    requires TightBut(ds, arenas, p)
    ensures Tight(ds, arenas - {p})
  {
  }

  // ---------- what a call keeps and changes ----------

  ghost predicate SameCapacity(ds: seq<Desc>, arenas: map<int, Arena>, arenas': map<int, Arena>, live: set<int>) {
    forall x :: x in live ==> CapacityOf(ds, arenas', x) == CapacityOf(ds, arenas, x)
  }

  lemma LivePages(ds: seq<Desc>, h: Heap, outside: set<int>)
    requires Ok(ds, h, outside)
    ensures forall x :: x in h.live ==> PageOf(x) in h.arenas
  {
    forall x | x in h.live ensures PageOf(x) in h.arenas {
      FreeIsBlock(ds, h.arenas, h.free, h.live, x);
    }
  }

  lemma PopCapacity(ds: seq<Desc>, arenas: map<int, Arena>, p: int, live: set<int>)
    requires p in arenas && arenas[p].Small?
    ensures SameCapacity(ds, arenas, arenas[p := Taken(arenas[p])], live)
    ensures SameCapacity(ds, arenas, arenas[p := Returned(arenas[p])], live)
  {
  }

  lemma NewCapacity(ds: seq<Desc>, arenas: map<int, Arena>, p: int, a: Arena, live: set<int>)
    requires p !in arenas && forall x :: x in live ==> PageOf(x) in arenas
    ensures SameCapacity(ds, arenas, arenas[p := a], live)
  {
  }

  lemma DropCapacity(ds: seq<Desc>, arenas: map<int, Arena>, p: int, live: set<int>)
    requires forall x :: x in live ==> PageOf(x) in arenas - {p}
    ensures SameCapacity(ds, arenas, arenas - {p}, live)
  {
  }

  /** What a successful call of malloc has done. */
  ghost predicate Granted(ds: seq<Desc>, h: Heap, r: Heap, x: int, capacity: int) {
    && x !in h.live && r.live == h.live + {x}
    && CapacityOf(ds, r.arenas, x) == capacity && SameCapacity(ds, h.arenas, r.arenas, h.live)
  }

  lemma AllocSmallKeeps(ds: seq<Desc>, h: Heap, outside: set<int>, d: int)
    requires Good(ds, h, outside) && 0 <= d < |ds|
    ensures var o := AllocSmall(ds, h, outside, d);
            && Good(ds, o.heap, outside)
            && (o.block.None? <==> h.lists[d] == [] && NoPages(h.used, 1))
            && if o.block.Some? then Granted(ds, h, o.heap, o.block.value, ds[d].size) else o.heap == h
  {
    if h.lists[d] != [] {
      ListGranted(ds, h, outside, d);
    } else if FirstFit(h.used, 1, 0).Some? {
      SmallGranted(ds, h, outside, d, FirstFit(h.used, 1, 0).value);
    }
  }

  lemma TightIsTightBut(ds: seq<Desc>, arenas: map<int, Arena>, p: int)
    requires Tight(ds, arenas)
    ensures TightBut(ds, arenas, p)
  {
  }

  lemma ListGranted(ds: seq<Desc>, h: Heap, outside: set<int>, d: int)
    requires Good(ds, h, outside) && 0 <= d < |ds| && h.lists[d] != []
    ensures HasDesc(h.arenas, h.lists[d][0], d)
    ensures Good(ds, Popped(h, d), outside) && Granted(ds, h, Popped(h, d), h.lists[d][0], ds[d].size)
  {
    TightIsTightBut(ds, h.arenas, PageOf(h.lists[d][0]));
    PopGood(ds, h, outside, d);
    PopCapacity(ds, h.arenas, PageOf(h.lists[d][0]), h.live);
  }

  lemma SmallGranted(ds: seq<Desc>, h: Heap, outside: set<int>, d: int, p: nat)
    requires Good(ds, h, outside) && 0 <= d < |ds| && h.lists[d] == [] && AllAre(h.used, p, 1, false)
    ensures DescOk(ds[d])
    ensures var c := Carved(ds, h, d, p);
            && c.lists[d] != [] && HasDesc(c.arenas, c.lists[d][0], d)
            && Good(ds, Popped(c, d), outside) && Granted(ds, h, Popped(c, d), c.lists[d][0], ds[d].size)
  {
    CarveGood(ds, h, outside, d, p);
    LivePages(ds, h, outside);
    var c := Carved(ds, h, d, p);
    NewCapacity(ds, h.arenas, p, Small(d, ds[d].count), h.live);
    PopCapacity(ds, c.arenas, p, h.live);
  }

  lemma AllocBigKeeps(ds: seq<Desc>, h: Heap, outside: set<int>, n: nat)
    requires Good(ds, h, outside)
    ensures var o := AllocBig(h, n);
            && Good(ds, o.heap, outside)
            && (o.block.None? <==> n == 0 || NoPages(h.used, n))
            && if o.block.Some? then Granted(ds, h, o.heap, o.block.value, n * PGSIZE - HEADER) else o.heap == h
  {
    var fit := FirstFit(h.used, n, 0);
    if n > 0 && fit.Some? {
      BigGranted(ds, h, outside, fit.value, n);
    }
  }

  lemma BigGranted(ds: seq<Desc>, h: Heap, outside: set<int>, p: nat, n: nat)
    requires Good(ds, h, outside) && n >= 1 && AllAre(h.used, p, n, false)
    ensures Good(ds, BigTaken(h, p, n), outside)
    ensures Granted(ds, h, BigTaken(h, p, n), Addr(p, 0, 0), n * PGSIZE - HEADER)
  {
    BigGood(ds, h, outside, p, n);
    BigCapacity(ds, h, outside, p, n);
    BigBlockCapacity(ds, h.arenas, p, n);
  }

  lemma BigBlockCapacity(ds: seq<Desc>, arenas: map<int, Arena>, p: int, n: int)
    ensures CapacityOf(ds, arenas[p := Big(n)], Addr(p, 0, 0)) == n * PGSIZE - HEADER
  {
    assert PageOf(Addr(p, 0, 0)) == p;
  }

  lemma BigCapacity(ds: seq<Desc>, h: Heap, outside: set<int>, p: nat, n: nat)
    requires Ok(ds, h, outside) && p !in h.arenas
    ensures SameCapacity(ds, h.arenas, h.arenas[p := Big(n)], h.live)
  {
    LivePages(ds, h, outside);
    NewCapacity(ds, h.arenas, p, Big(n), h.live);
  }

  lemma ReleaseKeeps(ds: seq<Desc>, h: Heap, outside: set<int>, x: int)
    requires Good(ds, h, outside) && x in h.live
    ensures var r := Release(ds, h, outside, x);
            Good(ds, r, outside) && Released(ds, h, r, x)
  {
    var p := PageOf(x);
    PushOk(ds, h, outside, x);
    if h.arenas[p].Big? {
      BigReleased(ds, h, outside, p);
    } else {
      SmallReleased(ds, h, outside, x);
    }
  }

  ghost predicate Released(ds: seq<Desc>, h: Heap, r: Heap, x: int) {
    r.live == h.live - {x} && SameCapacity(ds, h.arenas, r.arenas, r.live)
  }

  lemma BigReleased(ds: seq<Desc>, h: Heap, outside: set<int>, p: nat)
    requires Good(ds, h, outside) && p in h.arenas && h.arenas[p].Big? && Addr(p, 0, 0) in h.live
    ensures h.arenas[p].pages >= 1 && AllAre(h.used, p, h.arenas[p].pages, true)
    ensures Good(ds, BigFreed(h, p), outside) && Released(ds, h, BigFreed(h, p), Addr(p, 0, 0))
  {
    BigFreeOk(ds, h, outside, p);
    TightIsTightBut(ds, h.arenas, p);
    DropTight(ds, h.arenas, p);
    LivePages(ds, BigFreed(h, p), outside);
    DropCapacity(ds, h.arenas, p, h.live - {Addr(p, 0, 0)});
  }

  lemma SmallReleased(ds: seq<Desc>, h: Heap, outside: set<int>, x: int)
    requires Good(ds, h, outside) && x in h.live && PageOf(x) in h.arenas && h.arenas[PageOf(x)].Small?
    ensures var r := Release(ds, h, outside, x);
            Good(ds, r, outside) && Released(ds, h, r, x)
  {
    PushOk(ds, h, outside, x);
    PushTight(ds, h.arenas, PageOf(x));
    PopCapacity(ds, h.arenas, PageOf(x), Pushed(h, x).live);
    GivenBackKeeps(ds, Pushed(h, x), outside, PageOf(x));
  }

  lemma GivenBackKeeps(ds: seq<Desc>, h: Heap, outside: set<int>, p: nat)
    requires Ok(ds, h, outside) && TightBut(ds, h.arenas, p)
    requires p in h.arenas && h.arenas[p].Small? && 0 <= h.arenas[p].desc < |ds|
    ensures var r := GivenBack(ds, h, outside, p);
            Good(ds, r, outside) && r.live == h.live && SameCapacity(ds, h.arenas, r.arenas, h.live)
  {
    if h.arenas[p].freeCnt >= ds[h.arenas[p].desc].count {
      DismantleReleased(ds, h, outside, p);
    } else {
      PartTight(ds, h.arenas, p);
    }
  }

  lemma DismantleReleased(ds: seq<Desc>, c: Heap, outside: set<int>, p: nat)
    requires Ok(ds, c, outside) && p in c.arenas && c.arenas[p].Small? && 0 <= c.arenas[p].desc < |ds|
    requires c.arenas[p].freeCnt >= ds[c.arenas[p].desc].count && TightBut(ds, c.arenas, p)
    ensures DescOk(ds[c.arenas[p].desc]) && AllAre(c.used, p, 1, true) && Good(ds, Dismantled(ds, c, p), outside)
    ensures SameCapacity(ds, c.arenas, Dismantled(ds, c, p).arenas, c.live)
  {
    DismantleOk(ds, c, outside, p);
    DropTight(ds, c.arenas, p);
    LivePages(ds, Dismantled(ds, c, p), outside);
    DropCapacity(ds, c.arenas, p, c.live);
  }

  lemma PartTight(ds: seq<Desc>, arenas: map<int, Arena>, p: int)
    requires TightBut(ds, arenas, p) && p in arenas && arenas[p].Small? && 0 <= arenas[p].desc < |ds|
    requires arenas[p].freeCnt < ds[arenas[p].desc].count
    ensures Tight(ds, arenas)
  {
  }
}
