/** malloc, free and realloc (threads/malloc.c) over the page pool of threads/palloc.c, which is kept in a bitmap.
    Locks are left out: a call runs alone.  Headers and free-list links lie in the memory the blocks are cut from; what
    they make of its bytes is the argument NOISE. */
module Malloc {
  import opened Arithmetic
  import opened Bitmap
  import opened Collections
  import opened Arenas
  import opened MallocInvariant
  import opened MallocMeaning
  import opened MallocSteps

  const DESCS: seq<Desc> := [Desc(16, 255), Desc(32, 127), Desc(64, 63), Desc(128, 31), Desc(256, 15), Desc(512, 7),
                             Desc(1024, 3)]

  /** malloc_init. */
  method MallocInit() returns (ds: seq<Desc>)
    ensures ds == DESCS && DescsOk(ds)
  {
    ds := [];
    var blockSize := 16;
    while blockSize < PGSIZE / 2
      invariant |ds| <= 7 && ds == DESCS[..|ds|]
      invariant blockSize == if |ds| < 7 then DESCS[|ds|].size else 2048
      decreases 7 - |ds|
    {
      ds := ds + [Desc(blockSize, (PGSIZE - HEADER) / blockSize)];
      blockSize := blockSize * 2;
    }
  }

  class Allocator {
    const ds: seq<Desc>
    const pool: Map
    var arenas: map<int, Arena>
    var lists: seq<seq<int>>
    var data: int -> int
    ghost var free: set<int>
    ghost var live: set<int>
    ghost var outside: set<int>

    ghost function Now(): Heap
      requires pool.Valid()
      reads this, pool.bits
    {
      Heap(pool.Contents(), arenas, lists, free, live)
    }

    ghost predicate Valid()
      reads this, pool.bits
    {
      pool.Valid() && Good(ds, Now(), outside)
    }

    /** malloc_init, over a pool whose pages in use belong to others. */
    constructor (pool: Map)
      requires pool.Valid()
      ensures Valid() && this.pool == pool && ds == DESCS && live == {}
      ensures forall k :: k in outside <==> 0 <= k < pool.bitCnt && pool.Contents()[k]
    {
      var descs := MallocInit();
      ds := descs;
      this.pool := pool;
      arenas, lists, data, free, live := map[], [[], [], [], [], [], [], []], _ => 0, {}, {};
      outside := set k | 0 <= k < pool.bitCnt && pool.Contents()[k];
      new;
      assert BlockMap(ds, map[]) == map[];
    }

    /** palloc_get_multiple, from the kernel pool. */
    method GetPages(n: nat) returns (p: Option<nat>)
      requires pool.Valid()
      modifies pool.bits
      ensures pool.Valid() && p == if n == 0 then None else FirstFit(old(pool.Contents()), n, 0)
      ensures pool.Contents() == if p.Some? then Fill(old(pool.Contents()), p.value, n, true) else old(pool.Contents())
    {
      if n == 0 {
        return None;
      }
      ghost var c := pool.Contents();
      p := pool.ScanAndFlip(0, n, false);
      FirstGroupUnique(c, 0, n, false, p, FirstFit(c, n, 0));
    }

    /** palloc_free_multiple. */
    method FreePages(p: nat, n: nat)
      requires pool.Valid() && AllAre(pool.Contents(), p, n, true)
      modifies pool.bits
      ensures pool.Valid() && pool.Contents() == Fill(old(pool.Contents()), p, n, false)
    {
      pool.SetMultiple(p, n, false);
    }

    /** Another user of the pool gets pages. */
    method OthersGet(n: nat) returns (p: Option<nat>)
      requires Valid()
      modifies this`outside, pool.bits
      ensures Valid() && p == if n == 0 then None else FirstFit(old(pool.Contents()), n, 0)
      ensures outside == if p.Some? then old(outside) + Span(p.value, n) else old(outside)
    {
      ghost var c := pool.Contents();
      p := GetPages(n);
      if p.Some? {
        OthersTakePages(c, arenas, outside, p.value, n);
        outside := outside + Span(p.value, n);
      }
    }

    /** Another user of the pool gives pages of its own back; they are wiped, and no live block changes. */
    method OthersFree(p: nat, n: nat)
      requires Valid() && p + n <= pool.bitCnt && Span(p, n) <= outside
      modifies this`outside, this`data, pool.bits
      ensures Valid() && outside == old(outside) - Span(p, n)
      ensures pool.Contents() == Fill(old(pool.Contents()), p, n, false) && Kept(ds, arenas, live, old(data), data)
    {
      OthersGivePages(pool.Contents(), arenas, outside, p, n);
      WipePagesKeeps(ds, pool.Contents(), arenas, lists, free, live, outside, data, p, n);
      data := Wiped(data, p * PGSIZE, n * PGSIZE);
      FreePages(p, n);
      outside := outside - Span(p, n);
    }

    /** The loop of malloc over the descriptors. */
    method FindDesc(size: nat) returns (d: nat)
      ensures d == DescFor(ds, size, 0)
    {
      d := 0;
      while d < |ds| && ds[d].size < size
        invariant d <= |ds| && forall e :: 0 <= e < d ==> ds[e].size < size
        invariant DescFor(ds, size, d) == DescFor(ds, size, 0)
      {
        d := d + 1;
      }
    }

    /** The part of malloc that cuts a new arena into blocks for the free list of D. */
    method Carve(d: nat, p: nat)
      requires d < |ds| == |lists| && ds[d].count >= 0
      modifies this`arenas, this`lists, this`free
      ensures arenas == old(arenas)[p := Small(d, ds[d].count)] && lists == old(lists)[d := AddrList(p, ds[d])]
      ensures free == old(free) + Blocks(p, ds[d])
    {
      arenas := arenas[p := Small(d, ds[d].count)];
      var l, i := [], 0;
      while i < ds[d].count
        invariant 0 <= i <= ds[d].count && l == AddrList(p, ds[d])[..i]
      {
        l := l + [Addr(p, ds[d].size, i)];
        i := i + 1;
      }
      assert l == AddrList(p, ds[d]);
      lists := lists[d := l];
      free := free + Blocks(p, ds[d]);
    }

    /** The part of malloc that takes a block off the free list of D. */
    method PopBlock(d: nat) returns (x: int)
      requires pool.Valid() && d < |lists| && lists[d] != [] && HasDesc(arenas, lists[d][0], d)
      modifies this`arenas, this`lists, this`free, this`live
      ensures Now() == Popped(old(Now()), d) && x == old(lists[d][0])
    {
      x := lists[d][0];
      var p := PageOf(x);
      lists := lists[d := lists[d][1..]];
      arenas := arenas[p := Taken(arenas[p])];
      free, live := free - {x}, live + {x};
    }

    /** malloc for a size that descriptor D serves. */
    method SmallBlock(d: nat) returns (r: Option<int>)
      requires Valid() && d < |ds|
      modifies this`arenas, this`lists, this`free, this`live, pool.bits
      ensures pool.Valid() && Outcome(Now(), r) == AllocSmall(ds, old(Now()), old(outside), d)
    {
      ghost var h := Now();
      if lists[d] == [] {
        var page := GetPages(1);
        if page.None? {
          return None;
        }
        CarveGood(ds, h, outside, d, page.value);
        Carve(d, page.value);
        assert Now() == Carved(ds, h, d, page.value);
      } else {
        PopOk(ds, h, outside, d);
      }
      var x := PopBlock(d);
      r := Some(x);
    }

    /** malloc for a size too big for any descriptor. */
    method BigBlock(n: nat) returns (r: Option<int>)
      requires pool.Valid()
      modifies this`arenas, this`live, pool.bits
      ensures pool.Valid() && Outcome(Now(), r) == AllocBig(old(Now()), n)
    {
      var page := GetPages(n);
      if page.None? {
        return None;
      }
      arenas := arenas[page.value := Big(n)];
      live := live + {Addr(page.value, 0, 0)};
      r := Some(Addr(page.value, 0, 0));
    }

    /** Headers and links are written; live blocks keep their bytes. */
    method Scribble(noise: int -> int)
      requires Valid()
      modifies this`data
      ensures Valid() && Now() == old(Now()) && Kept(ds, arenas, live, old(data), data)
    {
      ScribbleKeeps(ds, pool.Contents(), arenas, lists, free, live, outside, data, noise);
      data := Scribbled(arenas, lists, data, noise);
    }

    method Malloc(size: nat, noise: int -> int) returns (r: Option<int>)
      requires Valid() && size < TWO32
      modifies this`arenas, this`lists, this`free, this`live, this`data, pool.bits
      ensures Valid() && Outcome(Now(), r) == Alloc(ds, old(Now()), old(outside), size)
      ensures AllocDone(ds, old(Now()), Now(), r, size)
      ensures Kept(ds, old(arenas), old(live), old(data), data)
    {
      r := FindBlock(size);
      Scribble(noise);
      GrantedKeeps(ds, old(Now()), Now(), r, size, old(data), data);
    }

    /** calloc: the product of A and B in 32 bits, unless it is less than one of them, is asked for, and cleared. */
    method Calloc(a: nat, b: nat, noise: int -> int) returns (r: Option<int>)
      requires Valid() && a < TWO32 && b < TWO32 && Product32(a, b) + HEADER <= TWO32
      modifies this`arenas, this`lists, this`free, this`live, this`data, pool.bits
      ensures Valid() && CallocDone(ds, old(Now()), Now(), r, a, b)
      ensures Kept(ds, old(arenas), old(live), old(data), data)
      ensures r.Some? ==> forall k :: r.value <= k < r.value + Product32(a, b) ==> data(k) == 0
    {
      var size := Product32(a, b);
      if size < a || size < b {
        return None;
      }
      r := Malloc(size, noise);
      if r.Some? {
        AskedFor(ds, old(Now()), Now(), r.value, size);
        ClearedKeeps(ds, old(Now()), Now(), outside, r.value, size, old(data), data);
        Clear(r.value, size);
      }
    }

    /** memset with zeros. */
    method Clear(dst: int, n: int)
      requires Valid()
      modifies this`data
      ensures Valid() && Now() == old(Now()) && data == Cleared(old(data), dst, n)
    {
      data := Cleared(data, dst, n);
    }

    method Free(p: Option<int>, noise: int -> int)
      requires Valid() && (p.Some? ==> p.value in live)
      modifies this`arenas, this`lists, this`free, this`live, this`data, pool.bits
      ensures Valid()
      ensures p.None? ==> Now() == old(Now()) && data == old(data)
      ensures p.Some? ==> Now() == Release(ds, old(Now()), old(outside), p.value)
      ensures p.Some? ==> Released(ds, old(Now()), Now(), p.value) && Kept(ds, arenas, live, old(data), data)
    {
      if p.None? {
        return;
      }
      WipeAndPutBack(p.value);
      ghost var c := data;
      Scribble(noise);
      KeptOn(ds, arenas, live, old(data), c, data);
    }

    /** free, but for the links it writes. */
    method WipeAndPutBack(x: int)
      requires Valid() && x in live
      modifies this`arenas, this`lists, this`free, this`live, this`data, pool.bits
      ensures Valid() && Now() == Release(ds, old(Now()), old(outside), x)
      ensures Released(ds, old(Now()), Now(), x) && Kept(ds, arenas, live, old(data), data)
    {
      var before := arenas;
      data := BlockWiped(ds, arenas, x, data);
      PutBack(x);
      data := PagesWiped(before, arenas, PageOf(x), data);
      FreeKeeps(ds, old(Now()), outside, x, old(data), data);
    }

    /** realloc: the bytes of the old block that fit are those of the new one, and no other block changes. */
    method Realloc(block: Option<int>, size: nat, noise: int -> int, noise': int -> int) returns (r: Option<int>)
      requires Valid() && size < TWO32
      requires block.Some? ==> block.value in live && CopyFits(ds, arenas, block.value, size)
      modifies this`arenas, this`lists, this`free, this`live, this`data, pool.bits
      ensures Valid()
      ensures size == 0 ==> r.None? && Dropped(ds, old(Now()), Now(), block, old(data), data)
      ensures size > 0 && r.None? ==> Now() == old(Now()) && Kept(ds, old(arenas), old(live), old(data), data)
      ensures r.Some? ==> Resized(ds, old(Now()), Now(), block, r.value, size, old(data), data)
    {
      if size == 0 {
        Free(block, noise);
        return None;
      }
      r := Malloc(size, noise);
      if r.Some? {
        AskedFor(ds, old(Now()), Now(), r.value, size);
        if block.Some? {
          CopyFitsIff(ds, old(Now()), Now(), block.value, r.value, size);
          MoveBlock(block.value, r.value, size, noise', old(Now()), old(data));
        }
      }
    }

    /** The end of realloc: the old block is copied into the new one and freed. */
    method MoveBlock(x: int, y: int, size: nat, noise: int -> int, ghost h: Heap, ghost before: int -> int)
      requires Valid() && x in h.live && Kept(ds, h.arenas, h.live, before, data)
      requires GrantedFor(ds, h, Now(), y, Min(size, CapacityOf(ds, h.arenas, x)))
      requires size + HEADER <= TWO32 ==> CapacityOf(ds, arenas, y) >= size
      modifies this`arenas, this`lists, this`free, this`live, this`data, pool.bits
      ensures Valid() && Resized(ds, h, Now(), Some(x), y, size, before, data)
    {
      ghost var h', data' := Now(), data;
      var m := Min(size, CapacityOf(ds, arenas, x));
      assert m == Min(size, CapacityOf(ds, h.arenas, x));
      Copy(x, y, m);
      Free(Some(x), noise);
      ReallocBytes(ds, h, h', Now(), outside, x, y, size, m, before, data', data);
    }

    /** memcpy between blocks. */
    method Copy(src: int, dst: int, n: int)
      requires Valid()
      modifies this`data
      ensures Valid() && Now() == old(Now()) && data == Copied(old(data), src, dst, n)
    {
      data := Copied(data, src, dst, n);
    }

    /** free, but for the bytes it writes. */
    method PutBack(x: int)
      requires Valid() && x in live
      modifies this`arenas, this`lists, this`free, this`live, pool.bits
      ensures pool.Valid() && Now() == Release(ds, old(Now()), old(outside), x)
    {
      ghost var h, o := Now(), outside;
      PushOk(ds, h, o, x);
      var p := PageOf(x);
      if arenas[p].Big? {
        BigFreeOk(ds, h, o, p);
        FreePages(p, arenas[p].pages);
        arenas := arenas - {p};
        live := live - {x};
      } else {
        PushBlock(x);
        var d := arenas[p].desc;
        if arenas[p].freeCnt >= ds[d].count {
          PushTight(ds, h.arenas, p);
          DismantleOk(ds, Now(), o, p);
          assert arenas[p].freeCnt == ds[d].count;
          Dismantle(d, p);
        }
      }
    }

    /** The part of free that puts a block on its free list. */
    method PushBlock(x: int)
      requires pool.Valid() && PageOf(x) in arenas && arenas[PageOf(x)].Small? && 0 <= arenas[PageOf(x)].desc < |lists|
      modifies this`arenas, this`lists, this`free, this`live
      ensures Now() == Pushed(old(Now()), x)
    {
      var p := PageOf(x);
      var d := arenas[p].desc;
      lists := lists[d := [x] + lists[d]];
      arenas := arenas[p := Returned(arenas[p])];
      free, live := free + {x}, live - {x};
    }

    /** The part of free that takes an arena apart. */
    method Dismantle(d: nat, p: nat)
      requires pool.Valid() && p in arenas && arenas[p].Small? && arenas[p].desc == d < |ds| == |lists|
      requires ds[d].count >= 0 && AllAre(pool.Contents(), p, 1, true)
      modifies this`arenas, this`lists, this`free, pool.bits
      ensures pool.Valid() && Now() == Dismantled(ds, old(Now()), p)
    {
      var l, i := lists[d], 0;
      while i < ds[d].count
        invariant 0 <= i <= ds[d].count && l == UnlinkedAll(lists[d], p, ds[d].size, i)
      {
        l := Unlinked(l, Addr(p, ds[d].size, i));
        i := i + 1;
      }
      lists := lists[d := l];
      arenas := arenas - {p};
      free := free - Blocks(p, ds[d]);
      FreePages(p, 1);
    }

    /** malloc, but for the bytes it writes. */
    method FindBlock(size: nat) returns (r: Option<int>)
      requires Valid() && size < TWO32
      modifies this`arenas, this`lists, this`free, this`live, pool.bits
      ensures Valid() && Outcome(Now(), r) == Alloc(ds, old(Now()), old(outside), size)
      ensures AllocDone(ds, old(Now()), Now(), r, size)
    {
      AllocKeeps(ds, Now(), outside, size);
      r := TakeBlock(size);
    }

    method TakeBlock(size: nat) returns (r: Option<int>)
      requires Valid() && size < TWO32
      modifies this`arenas, this`lists, this`free, this`live, pool.bits
      ensures pool.Valid() && Outcome(Now(), r) == Alloc(ds, old(Now()), old(outside), size)
    {
      if size == 0 {
        return None;
      }
      var d := FindDesc(size);
      if d < |ds| {
        r := SmallBlock(d);
      } else {
        r := BigBlock(BigPages(size));
      }
    }
  }

  /** A product as a size_t. */
  function Product32(a: nat, b: nat): nat {
    (a * b) % TWO32
  }

  /** What calloc promises: null if the product is less than one of its factors, and else what malloc promises for it.
      */
  ghost predicate CallocDone(ds: seq<Desc>, h: Heap, r: Heap, block: Option<int>, a: nat, b: nat)
    requires |h.lists| == |ds|
  {
    if Product32(a, b) < a || Product32(a, b) < b then block.None? && r == h
    else AllocDone(ds, h, r, block, Product32(a, b))
  }

  function Cleared(data: int -> int, dst: int, n: int): int -> int {
    b => if dst <= b < dst + n then 0 else data(b)
  }

  lemma ClearedKeeps(ds: seq<Desc>, h: Heap, r: Heap, outside: set<int>, y: int, size: nat, data: int -> int,
                     data': int -> int)
    requires Ok(ds, r, outside) && size < TWO32 && |h.lists| == |ds| && AllocDone(ds, h, r, Some(y), size)
    requires CapacityOf(ds, r.arenas, y) >= size && Kept(ds, h.arenas, h.live, data, data')
    ensures Kept(ds, h.arenas, h.live, data, Cleared(data', y, size))
  {
    forall z, b | z in h.live && z <= b < z + CapacityOf(ds, h.arenas, z)
      ensures Cleared(data', y, size)(b) == data(b)
    {
      OthersKept(ds, h, r, outside, y, size, z, b);
    }
  }

  /** A block that calloc returns holds A times B bytes if and only if these, with a header, do not exceed 2^32. */
  lemma CallocEnoughIff(ds: seq<Desc>, h: Heap, r: Heap, x: int, a: nat, b: nat)
    requires DescsOk(ds) && |h.lists| == |ds| && CallocDone(ds, h, r, Some(x), a, b)
    ensures CapacityOf(ds, r.arenas, x) >= a * b <==> a * b + HEADER <= TWO32
  {
    AskedFor(ds, h, r, x, Product32(a, b));
    if Product32(a, b) + HEADER > TWO32 {
      WrapsToOnePage(ds, Product32(a, b));
    }
  }

  /** memcpy of N bytes. */
  function Copied(data: int -> int, src: int, dst: int, n: int): int -> int {
    b => if dst <= b < dst + n then data(src + (b - dst)) else data(b)
  }

  ghost predicate GrantedFor(ds: seq<Desc>, h: Heap, r: Heap, y: int, size: int) {
    && y !in h.live && r.live == h.live + {y}
    && CapacityOf(ds, r.arenas, y) >= size && SameCapacity(ds, h.arenas, r.arenas, h.live)
  }

  /** The N bytes from Y on are what those from X on were. */
  ghost predicate SameBytes(data: int -> int, data': int -> int, x: int, y: int, n: int) {
    forall b :: y <= b < y + n ==> data'(b) == data(x + (b - y))
  }

  ghost predicate Dropped(ds: seq<Desc>, h: Heap, r: Heap, block: Option<int>, data: int -> int, data': int -> int) {
    if block.None? then r == h && data' == data
    else Released(ds, h, r, block.value) && Kept(ds, r.arenas, r.live, data, data')
  }

  /** Block Y has taken the place of BLOCK, with its bytes as far as they fit; it has at least SIZE bytes, unless SIZE
      with a header is more than 32 bits hold. */
  ghost predicate Resized(ds: seq<Desc>, h: Heap, r: Heap, block: Option<int>, y: int, size: int, data: int -> int,
                          data': int -> int)
  {
    var others := if block.Some? then h.live - {block.value} else h.live;
    && y !in h.live && r.live == others + {y} && (size + HEADER <= TWO32 ==> CapacityOf(ds, r.arenas, y) >= size)
    && SameCapacity(ds, h.arenas, r.arenas, others) && Kept(ds, h.arenas, others, data, data')
    && (block.Some? ==>
          SameBytes(data, data', block.value, y, Min(size, CapacityOf(ds, h.arenas, block.value))))
  }

  /** realloc's copy of block X stays inside the new block. */
  predicate CopyFits(ds: seq<Desc>, arenas: map<int, Arena>, x: int, size: int) {
    size + HEADER <= TWO32 || CapacityOf(ds, arenas, x) <= PGSIZE - HEADER
  }

  /** The bytes realloc copies fit the block it got exactly if SIZE and a header do not wrap around, or the old block
      is no bigger than a page less a header. */
  lemma CopyFitsIff(ds: seq<Desc>, h: Heap, r: Heap, x: int, y: int, size: int)
    requires 0 < size < TWO32 && |h.lists| == |ds| && DescsOk(ds) && AllocDone(ds, h, r, Some(y), size)
    ensures Min(size, CapacityOf(ds, h.arenas, x)) <= CapacityOf(ds, r.arenas, y) <==> CopyFits(ds, h.arenas, x, size)
  {
    AskedFor(ds, h, r, y, size);
    if size + HEADER > TWO32 {
      WrapsToOnePage(ds, size);
    }
  }

  lemma ReallocBytes(ds: seq<Desc>, h0: Heap, h1: Heap, h2: Heap, outside: set<int>, x: int, y: int, size: int, m: int,
                     data0: int -> int, data1: int -> int, data2: int -> int)
    requires Ok(ds, h1, outside) && x in h0.live && GrantedFor(ds, h0, h1, y, m) && Released(ds, h1, h2, x)
    requires size + HEADER <= TWO32 ==> CapacityOf(ds, h1.arenas, y) >= size
    requires Kept(ds, h0.arenas, h0.live, data0, data1) && m == Min(size, CapacityOf(ds, h0.arenas, x))
    requires Kept(ds, h2.arenas, h2.live, Copied(data1, x, y, m), data2)
    ensures Resized(ds, h0, h2, Some(x), y, size, data0, data2)
  {
    CapacitiesStay(ds, h0, h1, h2, x, y, m);
    BlockKept(ds, h0.arenas, h0.live, data0, data1, x, m);
    BlockKept(ds, h2.arenas, h2.live, Copied(data1, x, y, m), data2, y, m);
    CopyIs(data1, x, y, m);
    CopyArrives(x, y, m, data0, data1, Copied(data1, x, y, m), data2);
    OthersStay(ds, h0, h1, h2, outside, x, y, m, data0, data1, data2);
  }

  lemma OthersStay(ds: seq<Desc>, h0: Heap, h1: Heap, h2: Heap, outside: set<int>, x: int, y: int, m: int,
                   data0: int -> int, data1: int -> int, data2: int -> int)
    requires Ok(ds, h1, outside) && x in h0.live && GrantedFor(ds, h0, h1, y, m) && Released(ds, h1, h2, x)
    requires Kept(ds, h0.arenas, h0.live, data0, data1)
    requires Kept(ds, h2.arenas, h2.live, Copied(data1, x, y, m), data2)
    ensures Kept(ds, h0.arenas, h0.live - {x}, data0, data2)
  {
    forall z, b | z in h0.live - {x} && z <= b < z + CapacityOf(ds, h0.arenas, z) ensures data2(b) == data0(b) {
      OthersKept(ds, h0, h1, outside, y, m, z, b);
      OtherByte(ds, h0, h1, h2, x, y, m, data0, data1, data2, z, b);
    }
  }

  /** The N bytes from X on are what they were. */
  ghost predicate Agree(data: int -> int, data': int -> int, x: int, n: int) {
    forall b :: x <= b < x + n ==> data'(b) == data(b)
  }

  lemma BlockKept(ds: seq<Desc>, arenas: map<int, Arena>, live: set<int>, data: int -> int, data': int -> int, x: int,
                  m: int)
    requires Kept(ds, arenas, live, data, data') && x in live && m <= CapacityOf(ds, arenas, x)
    ensures Agree(data, data', x, m)
  {
  }

  lemma CopyIs(data: int -> int, x: int, y: int, m: int)
    ensures SameBytes(data, Copied(data, x, y, m), x, y, m)
  {
  }

  lemma CopyArrives(x: int, y: int, m: int, data0: int -> int, data1: int -> int, copy: int -> int, data2: int -> int)
    requires Agree(data0, data1, x, m) && SameBytes(data1, copy, x, y, m) && Agree(copy, data2, y, m)
    ensures SameBytes(data0, data2, x, y, m)
  {
    forall b | y <= b < y + m ensures data2(b) == data0(x + (b - y)) {
      assert data2(b) == copy(b) == data1(x + (b - y));
    }
  }

  lemma CapacitiesStay(ds: seq<Desc>, h0: Heap, h1: Heap, h2: Heap, x: int, y: int, m: int)
    requires x in h0.live && GrantedFor(ds, h0, h1, y, m) && Released(ds, h1, h2, x)
    ensures h2.live == h0.live - {x} + {y} && CapacityOf(ds, h2.arenas, y) == CapacityOf(ds, h1.arenas, y)
    ensures SameCapacity(ds, h0.arenas, h2.arenas, h0.live - {x})
  {
    assert x != y && y in h2.live;
  }

  lemma OtherByte(ds: seq<Desc>, h0: Heap, h1: Heap, h2: Heap, x: int, y: int, m: int, data0: int -> int,
                  data1: int -> int, data2: int -> int, z: int, b: int)
    requires GrantedFor(ds, h0, h1, y, m) && Released(ds, h1, h2, x)
    requires Kept(ds, h0.arenas, h0.live, data0, data1) && Kept(ds, h2.arenas, h2.live, Copied(data1, x, y, m), data2)
    requires z in h0.live - {x} && z <= b < z + CapacityOf(ds, h0.arenas, z) && !(y <= b < y + m)
    ensures data2(b) == data0(b)
  {
    assert z in h2.live;
    assert data2(b) == Copied(data1, x, y, m)(b);
  }

  /** A byte of a block that was live before is not one of the first M of the new block. */
  lemma OthersKept(ds: seq<Desc>, h0: Heap, h1: Heap, outside: set<int>, y: int, m: int, z: int, b: int)
    requires Ok(ds, h1, outside) && GrantedFor(ds, h0, h1, y, m)
    requires z in h0.live && z <= b < z + CapacityOf(ds, h0.arenas, z)
    ensures !(y <= b < y + m)
  {
    LiveDisjoint(ds, h1.used, h1.arenas, h1.lists, h1.free, h1.live, outside, z, y);
  }

  /** free's own wiping of a block of a small arena. */
  function BlockWiped(ds: seq<Desc>, arenas: map<int, Arena>, x: int, data: int -> int): int -> int {
    if PageOf(x) in arenas && arenas[PageOf(x)].Small? then Wiped(data, x, CapacityOf(ds, arenas, x)) else data
  }

  /** palloc_free_multiple's wiping of the pages of the arena at P that is no longer there. */
  function PagesWiped(arenas: map<int, Arena>, arenas': map<int, Arena>, p: int, data: int -> int): int -> int {
    if p in arenas && p !in arenas' then Wiped(data, p * PGSIZE, PageCnt(arenas[p]) * PGSIZE) else data
  }

  ghost predicate Uncovered(arenas: map<int, Arena>, p: int, n: int) {
    forall k :: p <= k < p + n ==> !Covered(arenas, k)
  }

  lemma BlockWipedKeeps(ds: seq<Desc>, h: Heap, r: Heap, outside: set<int>, x: int, data: int -> int)
    requires Ok(ds, h, outside) && x in h.live && Released(ds, h, r, x)
    ensures Kept(ds, r.arenas, r.live, data, BlockWiped(ds, h.arenas, x, data))
  {
    WipeBlockKeeps(ds, h.used, h.arenas, h.lists, h.free, h.live, outside, data, x);
    LivesOn(ds, h, r, x, data, BlockWiped(ds, h.arenas, x, data));
  }

  lemma PagesWipedKeeps(ds: seq<Desc>, arenas: map<int, Arena>, r: Heap, outside: set<int>, p: int, data: int -> int)
    requires Ok(ds, r, outside) && p in arenas && (p !in r.arenas ==> Uncovered(r.arenas, p, PageCnt(arenas[p])))
    ensures Kept(ds, r.arenas, r.live, data, PagesWiped(arenas, r.arenas, p, data))
  {
    if p !in r.arenas {
      WipePagesKeeps(ds, r.used, r.arenas, r.lists, r.free, r.live, outside, data, p, PageCnt(arenas[p]));
    }
  }

  lemma ReleasePages(ds: seq<Desc>, h: Heap, outside: set<int>, x: int)
    requires Good(ds, h, outside) && x in h.live
    ensures var r := Release(ds, h, outside, x);
            && PageOf(x) in h.arenas
            && (PageOf(x) !in r.arenas ==> Uncovered(r.arenas, PageOf(x), PageCnt(h.arenas[PageOf(x)])))
  {
    var p := PageOf(x);
    PushOk(ds, h, outside, x);
    if h.arenas[p].Big? {
      GoneUncovered(h.used, h.arenas, outside, p);
    } else {
      GoneUncovered(h.used, Pushed(h, x).arenas, outside, p);
    }
  }

  /** What free does to the bytes keeps those of the blocks that are left. */
  lemma FreeKeeps(ds: seq<Desc>, h: Heap, outside: set<int>, x: int, data: int -> int, c: int -> int)
    requires Good(ds, h, outside) && x in h.live
    requires c == PagesWiped(h.arenas, Release(ds, h, outside, x).arenas, PageOf(x), BlockWiped(ds, h.arenas, x, data))
    ensures var r := Release(ds, h, outside, x);
            Good(ds, r, outside) && Released(ds, h, r, x) && Kept(ds, r.arenas, r.live, data, c)
  {
    var r := Release(ds, h, outside, x);
    ReleaseKeeps(ds, h, outside, x);
    ReleasePages(ds, h, outside, x);
    BlockWipedKeeps(ds, h, r, outside, x, data);
    PagesWipedKeeps(ds, h.arenas, r, outside, PageOf(x), BlockWiped(ds, h.arenas, x, data));
    KeptOn(ds, r.arenas, r.live, data, BlockWiped(ds, h.arenas, x, data), c);
  }

  lemma LivesOn(ds: seq<Desc>, h: Heap, r: Heap, x: int, data: int -> int, data': int -> int)
    requires Released(ds, h, r, x) && Kept(ds, h.arenas, h.live - {x}, data, data')
    ensures Kept(ds, r.arenas, r.live, data, data')
  {
  }

  lemma KeptOn(ds: seq<Desc>, arenas: map<int, Arena>, live: set<int>, a: int -> int, b: int -> int, c: int -> int)
    requires Kept(ds, arenas, live, a, b) && Kept(ds, arenas, live, b, c)
    ensures Kept(ds, arenas, live, a, c)
  {
  }

  /** The pages of an arena that is no longer there are not covered. */
  lemma GoneUncovered(used: seq<bool>, arenas: map<int, Arena>, outside: set<int>, p: int)
    requires Pages(used, arenas, outside) && p in arenas
    ensures Uncovered(arenas - {p}, p, PageCnt(arenas[p]))
  {
  }

  /** What malloc promises: null for size 0 or without room, and otherwise a new block of the right capacity. */
  ghost predicate AllocDone(ds: seq<Desc>, h: Heap, r: Heap, block: Option<int>, size: int)
    requires 0 <= size < TWO32 && |h.lists| == |ds|
  {
    var d := DescFor(ds, size, 0);
    && (block.None? <==> size == 0 || if d < |ds| then h.lists[d] == [] && NoPages(h.used, 1)
                                      else BigPages(size) == 0 || NoPages(h.used, BigPages(size)))
    && if block.None? then r == h
       else Granted(ds, h, r, block.value, if d < |ds| then ds[d].size else BigPages(size) * PGSIZE - HEADER)
  }

  lemma AllocKeeps(ds: seq<Desc>, h: Heap, outside: set<int>, size: int)
    requires Good(ds, h, outside) && 0 <= size < TWO32
    ensures var o := Alloc(ds, h, outside, size);
            Good(ds, o.heap, outside) && AllocDone(ds, h, o.heap, o.block, size)
  {
    var d := DescFor(ds, size, 0);
    if size > 0 {
      if d < |ds| {
        AllocSmallKeeps(ds, h, outside, d);
      } else {
        AllocBigKeeps(ds, h, outside, BigPages(size));
      }
    }
  }

  /** A block malloc returns is as big as asked, unless the size with a header is more than 32 bits hold. */
  lemma AskedFor(ds: seq<Desc>, h: Heap, r: Heap, x: int, size: int)
    requires 0 <= size < TWO32 && |h.lists| == |ds| && AllocDone(ds, h, r, Some(x), size)
    ensures size + HEADER <= TWO32 ==> CapacityOf(ds, r.arenas, x) >= size
    ensures DescFor(ds, size, 0) == |ds| ==> (CapacityOf(ds, r.arenas, x) >= size <==> size + HEADER <= TWO32)
  {
    if DescFor(ds, size, 0) == |ds| {
      BigEnough(size);
    }
  }

  /** A size that wraps around together with a header is served by one page, which is less than asked for. */
  lemma WrapsToOnePage(ds: seq<Desc>, size: int)
    requires DescsOk(ds) && TWO32 - HEADER < size < TWO32
    ensures DescFor(ds, size, 0) == |ds| && BigPages(size) == 1 && PGSIZE - HEADER < size
  {
    var d := DescFor(ds, size, 0);
    assert d < |ds| ==> DescOk(ds[d]);
  }

  /** malloc (2^32 - 1), while a page is free, succeeds with a block of 4084 bytes. */
  lemma HugeRequestGetsOnePage(h: Heap, outside: set<int>)
    requires Good(DESCS, h, outside) && !NoPages(h.used, 1)
    ensures var o := Alloc(DESCS, h, outside, TWO32 - 1);
            o.block.Some? && CapacityOf(DESCS, o.heap.arenas, o.block.value) == 4084
  {
    WrapsToOnePage(DESCS, TWO32 - 1);
    AllocKeeps(DESCS, h, outside, TWO32 - 1);
  }

  lemma GrantedKeeps(ds: seq<Desc>, h: Heap, r: Heap, block: Option<int>, size: int, data: int -> int,
                     data': int -> int)
    requires 0 <= size < TWO32 && |h.lists| == |ds| && AllocDone(ds, h, r, block, size)
    requires Kept(ds, r.arenas, r.live, data, data')
    ensures Kept(ds, h.arenas, h.live, data, data')
  {
    if block.Some? {
      assert SameCapacity(ds, h.arenas, r.arenas, h.live);
    }
  }
}
