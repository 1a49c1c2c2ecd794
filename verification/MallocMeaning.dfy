/** What the allocator's invariant means for its callers: blocks apart, counts right, pages returned, bytes kept. */
module MallocMeaning {
  import opened Arithmetic
  import opened Bitmap
  import opened Arenas
  import opened MallocInvariant

  // ---------- what the invariant means ----------

  function CapacityOf(ds: seq<Desc>, arenas: map<int, Arena>, x: int): int {
    if PageOf(x) in arenas then Capacity(ds, arenas[PageOf(x)]) else 0
  }

  /** Live blocks do not overlap each other or free blocks. */
  lemma LiveDisjoint(ds: seq<Desc>, used: seq<bool>, arenas: map<int, Arena>, lists: seq<seq<int>>, free: set<int>,
                     live: set<int>, outside: set<int>, x: int, y: int)
    requires Inv(ds, used, arenas, lists, free, live, outside) && x in live && (y in live || y in free) && x != y
    ensures x + CapacityOf(ds, arenas, x) <= y || y + CapacityOf(ds, arenas, y) <= x
  {
    FreeIsBlock(ds, arenas, free, live, x);
    FreeIsBlock(ds, arenas, free, live, y);
    BlocksDisjoint(ds, used, arenas, outside, PageOf(x), x, PageOf(y), y);
  }

  /** The free count in a header is the number of the arena's blocks on the free list. */
  lemma FreeCountIsListed(ds: seq<Desc>, used: seq<bool>, arenas: map<int, Arena>, lists: seq<seq<int>>,
                          free: set<int>, live: set<int>, outside: set<int>, p: int)
    requires Inv(ds, used, arenas, lists, free, live, outside) && p in arenas && arenas[p].Small?
    ensures 0 <= arenas[p].desc < |lists|
    ensures arenas[p].freeCnt == |set x | x in lists[arenas[p].desc] && PageOf(x) == p|
  {
    var d := arenas[p].desc;
    assert Counted(BlockMap(ds, arenas)[p], CountMap(arenas)[p], free, live);
    BlocksInPage(p, ds[d]);
    OnlyItsBlocks(ds, arenas, free, live, p);
    ListedInPage(arenas, d, lists[d], free, p, Blocks(p, ds[d]));
  }

  lemma ListedInPage(arenas: map<int, Arena>, d: int, l: seq<int>, free: set<int>, p: int, b: set<int>)
    requires ListOk(arenas, d, l, free) && p in arenas && arenas[p].Small? && arenas[p].desc == d
    requires forall x :: x in b ==> PageOf(x) == p
    requires forall x :: x in free && x !in b ==> PageOf(x) != p
    ensures (set x | x in l && PageOf(x) == p) == b * free
  {
    var s := set x | x in l && PageOf(x) == p;
    forall x ensures x in s <==> x in b * free {
      assert x in l <==> x in free && OnList(arenas, d, x);
    }
    assert s == b * free;
  }

  /** When every block has been freed, every page is back. */
  lemma AllFreed(ds: seq<Desc>, used: seq<bool>, arenas: map<int, Arena>, lists: seq<seq<int>>, free: set<int>,
                 live: set<int>, outside: set<int>)
    requires Inv(ds, used, arenas, lists, free, live, outside) && Tight(ds, arenas) && live == {}
    ensures arenas == map[] && forall k :: 0 <= k < |used| ==> (used[k] <==> k in outside)
  {
    forall p ensures p !in arenas {
      if p in arenas {
        NothingLive(BlockMap(ds, arenas), CountMap(arenas), free, live, p);
        if arenas[p].Small? {
          BlockCount(p, ds[arenas[p].desc], ds[arenas[p].desc].count);
        }
      }
    }
    assert arenas == map[];
  }

  // ---------- the bytes of headers and links ----------

  /** X is a byte of an arena header or of the links of a free block. */
  predicate Metadata(arenas: map<int, Arena>, lists: seq<seq<int>>, x: int) {
    || (PageOf(x) in arenas && x % PGSIZE < HEADER)
    || exists d, y :: 0 <= d < |lists| && y in lists[d] && y <= x < y + 8
  }

  lemma LiveUntouched(ds: seq<Desc>, used: seq<bool>, arenas: map<int, Arena>, lists: seq<seq<int>>, free: set<int>,
                      live: set<int>, outside: set<int>, x: int, b: int)
    requires Inv(ds, used, arenas, lists, free, live, outside) && x in live && x <= b < x + CapacityOf(ds, arenas, x)
    ensures !Metadata(arenas, lists, b)
  {
    var p := PageOf(x);
    FreeIsBlock(ds, arenas, free, live, x);
    Extent(ds, p, arenas[p], x);
    forall d, y | 0 <= d < |lists| && y in lists[d] ensures !(y <= b < y + 8) {
      assert ListOk(arenas, d, lists[d], free);
      FreeIsBlock(ds, arenas, free, live, y);
      Extent(ds, PageOf(y), arenas[PageOf(y)], y);
      assert Split(BlockMap(ds, arenas)[p], free, live);
      LiveDisjoint(ds, used, arenas, lists, free, live, outside, x, y);
    }
    HeaderUntouched(used, arenas, outside, p, b);
  }

  lemma HeaderUntouched(used: seq<bool>, arenas: map<int, Arena>, outside: set<int>, p: int, x: int)
    requires Pages(used, arenas, outside) && p in arenas
    requires p * PGSIZE + HEADER <= x < (p + PageCnt(arenas[p])) * PGSIZE
    ensures !(PageOf(x) in arenas && x % PGSIZE < HEADER)
  {
    var q := PageOf(x);
    assert p <= q < p + PageCnt(arenas[p]);
  }

  ghost predicate Kept(ds: seq<Desc>, arenas: map<int, Arena>, live: set<int>, data: int -> int, data': int -> int) {
    forall x, b :: x in live && x <= b < x + CapacityOf(ds, arenas, x) ==> data'(b) == data(b)
  }

  function Scribbled(arenas: map<int, Arena>, lists: seq<seq<int>>, data: int -> int, noise: int -> int): int -> int {
    x => if Metadata(arenas, lists, x) then noise(x) else data(x)
  }

  lemma ScribbleKeeps(ds: seq<Desc>, used: seq<bool>, arenas: map<int, Arena>, lists: seq<seq<int>>, free: set<int>,
                      live: set<int>, outside: set<int>, data: int -> int, noise: int -> int)
    requires Inv(ds, used, arenas, lists, free, live, outside)
    ensures Kept(ds, arenas, live, data, Scribbled(arenas, lists, data, noise))
  {
    forall x, b | x in live && x <= b < x + CapacityOf(ds, arenas, x)
      ensures Scribbled(arenas, lists, data, noise)(b) == data(b)
    {
      LiveUntouched(ds, used, arenas, lists, free, live, outside, x, b);
    }
  }

  /** N bytes from START on are set to 0xcc. */
  function Wiped(data: int -> int, start: int, n: int): int -> int {
    b => if start <= b < start + n then 0xcc else data(b)
  }

  /** Wiping one live block keeps the bytes of the others. */
  lemma WipeBlockKeeps(ds: seq<Desc>, used: seq<bool>, arenas: map<int, Arena>, lists: seq<seq<int>>, free: set<int>,
                       live: set<int>, outside: set<int>, data: int -> int, x: int)
    requires Inv(ds, used, arenas, lists, free, live, outside) && x in live
    ensures Kept(ds, arenas, live - {x}, data, Wiped(data, x, CapacityOf(ds, arenas, x)))
  {
    forall y, b | y in live - {x} && y <= b < y + CapacityOf(ds, arenas, y)
      ensures Wiped(data, x, CapacityOf(ds, arenas, x))(b) == data(b)
    {
      LiveDisjoint(ds, used, arenas, lists, free, live, outside, x, y);
    }
  }

  /** Wiping pages that no arena has keeps the bytes of all live blocks. */
  lemma WipePagesKeeps(ds: seq<Desc>, used: seq<bool>, arenas: map<int, Arena>, lists: seq<seq<int>>, free: set<int>,
                       live: set<int>, outside: set<int>, data: int -> int, p: int, n: int)
    requires Inv(ds, used, arenas, lists, free, live, outside)
    requires forall k :: p <= k < p + n ==> !Covered(arenas, k)
    ensures Kept(ds, arenas, live, data, Wiped(data, p * PGSIZE, n * PGSIZE))
  {
    forall y, b | y in live && y <= b < y + CapacityOf(ds, arenas, y)
      ensures Wiped(data, p * PGSIZE, n * PGSIZE)(b) == data(b)
    {
      var q := PageOf(y);
      FreeIsBlock(ds, arenas, free, live, y);
      Extent(ds, q, arenas[q], y);
      assert q <= PageOf(b) < q + PageCnt(arenas[q]);
      assert Covered(arenas, PageOf(b));
    }
  }

  // ---------- sizes ----------

  /** D is the smallest descriptor for SIZE, or the number of descriptors if there is none. */
  ghost predicate BestDesc(ds: seq<Desc>, size: int, d: int) {
    && 0 <= d <= |ds|
    && (d < |ds| ==> ds[d].size >= size)
    && forall e :: 0 <= e < d ==> ds[e].size < size
  }

  /** The pages for a block of SIZE bytes and a header, in 32-bit arithmetic. */
  function BigPages(size: int): (n: int)
    requires 0 <= size < TWO32
    ensures n >= 0
  {
    ((size + HEADER) % TWO32 + PGSIZE - 1) % TWO32 / PGSIZE
  }

  /** The pages got hold SIZE bytes exactly if SIZE and the header do not wrap around together. */
  lemma BigEnough(size: int)
    requires 0 <= size < TWO32 && BigPages(size) > 0
    ensures BigPages(size) * PGSIZE - HEADER >= size <==> size + HEADER <= TWO32
  {
  }

  ghost predicate NoPages(used: seq<bool>, n: nat) {
    forall i: nat :: !AllAre(used, i, n, false)
  }
}
