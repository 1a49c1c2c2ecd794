/** The layout of the memory that malloc.c manages: arenas on pages, blocks in arenas, free lists, and what holds of
    them between calls.  Addresses count from the base of the page pool. */
module Arenas {
  import opened Arithmetic
  import opened Bitmap

  const PGSIZE: int := 4096
  const HEADER: int := 12

  /** A descriptor: the size of its blocks, and how many an arena has. */
  datatype Desc = Desc(size: int, count: int)

  /** An arena header: the descriptor and the number of free blocks, or the number of pages of a big block. */
  datatype Arena = Small(desc: int, freeCnt: int) | Big(pages: int)

  function Taken(a: Arena): Arena {
    if a.Small? then Small(a.desc, a.freeCnt - 1) else a
  }

  function Returned(a: Arena): Arena {
    if a.Small? then Small(a.desc, a.freeCnt + 1) else a
  }

  ghost predicate DescOk(d: Desc) {
    d.size >= 16 && d.count > 0 && d.count * d.size <= PGSIZE - HEADER
  }

  ghost predicate DescsOk(ds: seq<Desc>) {
    forall d :: 0 <= d < |ds| ==> DescOk(ds[d])
  }

  // ---------- blocks ----------

  /** The page of an address: pg_round_down as a page number. */
  function PageOf(x: int): int {
    x / PGSIZE
  }

  /** arena_to_block. */
  function Addr(p: int, size: int, i: int): int {
    p * PGSIZE + HEADER + i * size
  }

  ghost function Blocks(p: int, d: Desc): set<int> {
    set i | 0 <= i < d.count :: Addr(p, d.size, i)
  }

  /** A block lies in its arena's page. */
  lemma BlockInPage(p: int, d: Desc, i: int)
    requires DescOk(d) && 0 <= i < d.count
    ensures PageOf(Addr(p, d.size, i)) == p
    ensures p * PGSIZE + HEADER <= Addr(p, d.size, i) && Addr(p, d.size, i) + d.size <= (p + 1) * PGSIZE
  {
    MulMono(0, i, d.size);
    MulMono(i + 1, d.count, d.size);
    assert (i + 1) * d.size == i * d.size + d.size;
  }

  /** Blocks of an arena do not overlap. */
  lemma BlocksApart(p: int, d: Desc, i: int, j: int)
    requires DescOk(d) && i < j
    ensures Addr(p, d.size, i) + d.size <= Addr(p, d.size, j)
  {
    MulMono(i + 1, j, d.size);
    assert (i + 1) * d.size == i * d.size + d.size;
  }

  lemma BlocksInPage(p: int, d: Desc)
    requires DescOk(d)
    ensures forall x :: x in Blocks(p, d) ==> PageOf(x) == p
  {
    forall x | x in Blocks(p, d) ensures PageOf(x) == p {
      var i :| 0 <= i < d.count && x == Addr(p, d.size, i);
      BlockInPage(p, d, i);
    }
  }

  lemma {:induction false} BlockCount(p: int, d: Desc, n: nat)
    requires DescOk(d)
    ensures |set i | 0 <= i < n :: Addr(p, d.size, i)| == n
  {
    var s := set i | 0 <= i < n :: Addr(p, d.size, i);
    if n == 0 {
      assert s == {};
    } else {
      var t := set i | 0 <= i < n - 1 :: Addr(p, d.size, i);
      var x := Addr(p, d.size, n - 1);
      BlockCount(p, d, n - 1);
      forall i | 0 <= i < n - 1 ensures Addr(p, d.size, i) != x {
        BlocksApart(p, d, i, n - 1);
      }
      assert s == t + {x};
    }
  }

  // ---------- pages ----------

  function PageCnt(a: Arena): int {
    if a.Big? then a.pages else 1
  }

  ghost predicate Covered(arenas: map<int, Arena>, k: int) {
    exists p :: p in arenas && p <= k < p + PageCnt(arenas[p])
  }

  /** Every page in use belongs to one arena or to someone else (OUTSIDE), and no page to both. */
  ghost predicate Pages(used: seq<bool>, arenas: map<int, Arena>, outside: set<int>) {
    && (forall p :: p in arenas ==> 0 <= p && 1 <= PageCnt(arenas[p]) && p + PageCnt(arenas[p]) <= |used|)
    && (forall p, q :: p in arenas && q in arenas && p < q ==> p + PageCnt(arenas[p]) <= q)
    && (forall k :: 0 <= k < |used| ==> (used[k] <==> k in outside || Covered(arenas, k)))
    && (forall k :: k in outside ==> !Covered(arenas, k))
  }

  lemma PageTaken(used: seq<bool>, arenas: map<int, Arena>, outside: set<int>, p: int, a: Arena)
    requires Pages(used, arenas, outside) && 0 <= p && PageCnt(a) >= 1 && AllAre(used, p, PageCnt(a), false)
    ensures p !in arenas && Pages(Fill(used, p, PageCnt(a), true), arenas[p := a], outside)
  {
    var n, arenas' := PageCnt(a), arenas[p := a];
    assert !used[p];
    assert p in arenas ==> Covered(arenas, p);
    forall q | q in arenas ensures q + PageCnt(arenas[q]) <= p || p + n <= q {
      assert q <= p < q + PageCnt(arenas[q]) ==> Covered(arenas, p);
      assert Covered(arenas, q) && used[q];
    }
    forall k ensures Covered(arenas', k) <==> Covered(arenas, k) || p <= k < p + n {
      if Covered(arenas, k) {
        var q :| q in arenas && q <= k < q + PageCnt(arenas[q]);
        assert q in arenas' && arenas'[q] == arenas[q];
      }
      if p <= k < p + n {
        assert p in arenas';
      }
    }
  }

  /** The N pages from P on. */
  ghost function Span(p: int, n: int): (s: set<int>)
    ensures forall k :: k in s <==> p <= k < p + n
    decreases n
  {
    if n <= 0 then {} else Span(p, n - 1) + {p + n - 1}
  }

  /** Another user of the pool takes free pages, or gives pages of its own back. */
  lemma OthersTakePages(used: seq<bool>, arenas: map<int, Arena>, outside: set<int>, p: nat, n: nat)
    requires Pages(used, arenas, outside) && AllAre(used, p, n, false)
    ensures Pages(Fill(used, p, n, true), arenas, outside + Span(p, n))
  {
  }

  lemma OthersGivePages(used: seq<bool>, arenas: map<int, Arena>, outside: set<int>, p: nat, n: nat)
    requires Pages(used, arenas, outside) && p + n <= |used| && Span(p, n) <= outside
    ensures AllAre(used, p, n, true) && Pages(Fill(used, p, n, false), arenas, outside - Span(p, n))
    ensures forall k :: p <= k < p + n ==> !Covered(arenas, k)
  {
    forall k | p <= k < p + n ensures k in outside {
      assert k in Span(p, n);
    }
  }

  lemma PageGiven(used: seq<bool>, arenas: map<int, Arena>, outside: set<int>, p: int)
    requires Pages(used, arenas, outside) && p in arenas
    ensures AllAre(used, p, PageCnt(arenas[p]), true)
    ensures Pages(Fill(used, p, PageCnt(arenas[p]), false), arenas - {p}, outside)
  {
    var n, arenas' := PageCnt(arenas[p]), arenas - {p};
    forall k | p <= k < p + n ensures Covered(arenas, k) && !Covered(arenas', k) {
    }
    forall k | !(p <= k < p + n) ensures Covered(arenas', k) <==> Covered(arenas, k) {
      if Covered(arenas, k) {
        var q :| q in arenas && q <= k < q + PageCnt(arenas[q]);
        assert q in arenas';
      }
    }
  }

  // ---------- blocks in use and free ----------

  ghost predicate Split(b: set<int>, free: set<int>, live: set<int>) {
    forall x :: x in b ==> (x in free <==> x !in live)
  }

  ghost predicate InSome(bs: map<int, set<int>>, x: int) {
    exists p :: p in bs && x in bs[p]
  }

  /** The arena at page P has the blocks BS[P], of which COUNTS[P] are free.  Each block is either free or live, nothing
      else is, and no two arenas share a block. */
  ghost predicate Layout(bs: map<int, set<int>>, counts: map<int, int>, free: set<int>, live: set<int>) {
    && (forall p :: p in bs ==> p in counts && Counted(bs[p], counts[p], free, live))
    && NoShared(bs) && Known(bs, free) && Known(bs, live)
  }

  ghost predicate Counted(b: set<int>, n: int, free: set<int>, live: set<int>) {
    Split(b, free, live) && n == |b * free|
  }

  ghost predicate NoShared(bs: map<int, set<int>>) {
    forall p, q :: p in bs && q in bs && p != q ==> Apart(bs[p], bs[q])
  }

  ghost predicate Apart(a: set<int>, b: set<int>) {
    forall x :: x in a ==> x !in b
  }

  ghost predicate Known(bs: map<int, set<int>>, s: set<int>) {
    forall x :: x in s ==> InSome(bs, x)
  }

  lemma SameSplit(b: set<int>, free: set<int>, live: set<int>, free': set<int>, live': set<int>)
    requires Split(b, free, live)
    requires forall x :: x in b ==> (x in free' <==> x in free)
    requires forall x :: x in b ==> (x in live' <==> x in live)
    ensures Split(b, free', live') && |b * free'| == |b * free|
  {
    forall x ensures x in b * free' <==> x in b * free {
      assert x in b ==> (x in free' <==> x in free);
    }
    assert b * free' == b * free;
  }

  lemma TakeSplit(b: set<int>, free: set<int>, live: set<int>, x: int)
    requires Split(b, free, live) && x in b && x in free
    ensures Split(b, free - {x}, live + {x}) && |b * (free - {x})| == |b * free| - 1
  {
    assert b * free == b * (free - {x}) + {x};
  }

  lemma GiveSplit(b: set<int>, free: set<int>, live: set<int>, x: int)
    requires Split(b, free, live) && x in b && x in live
    ensures Split(b, free + {x}, live - {x}) && |b * (free + {x})| == |b * free| + 1
  {
    assert b * (free + {x}) == b * free + {x};
  }

  /** A free block is handed out. */
  lemma Take(bs: map<int, set<int>>, counts: map<int, int>, free: set<int>, live: set<int>, p: int, x: int, n: int)
    requires Layout(bs, counts, free, live) && p in bs && x in bs[p] && x in free && n == counts[p] - 1
    ensures Layout(bs, counts[p := n], free - {x}, live + {x})
  {
    TakeSplit(bs[p], free, live, x);
    forall q | q in bs && q != p ensures Counted(bs[q], counts[q], free - {x}, live + {x}) {
      assert Apart(bs[p], bs[q]);
      SameSplit(bs[q], free, live, free - {x}, live + {x});
    }
  }

  /** A live block comes back. */
  lemma Give(bs: map<int, set<int>>, counts: map<int, int>, free: set<int>, live: set<int>, p: int, x: int, n: int)
    requires Layout(bs, counts, free, live) && p in bs && x in bs[p] && x in live && n == counts[p] + 1
    ensures Layout(bs, counts[p := n], free + {x}, live - {x})
  {
    GiveSplit(bs[p], free, live, x);
    forall q | q in bs && q != p ensures Counted(bs[q], counts[q], free + {x}, live - {x}) {
      assert Apart(bs[p], bs[q]);
      SameSplit(bs[q], free, live, free + {x}, live - {x});
    }
  }

  ghost predicate FreshBlocks(bs: map<int, set<int>>, b: set<int>) {
    forall q :: q in bs ==> Apart(bs[q], b)
  }

  lemma FreshNowhere(bs: map<int, set<int>>, b: set<int>, s: set<int>)
    requires FreshBlocks(bs, b) && Known(bs, s)
    ensures Apart(b, s)
  {
    forall x | x in b ensures x !in s {
      assert !InSome(bs, x);
    }
  }

  lemma StillKnown(bs: map<int, set<int>>, p: int, b: set<int>, s: set<int>, t: set<int>)
    requires p !in bs && Known(bs, s) && t <= b
    ensures Known(bs[p := b], s + t)
  {
    forall x | x in s + t ensures InSome(bs[p := b], x) {
      if x in s {
        var q :| q in bs && x in bs[q];
        assert q in bs[p := b] && x in bs[p := b][q];
      } else {
        assert p in bs[p := b] && x in bs[p := b][p];
      }
    }
  }

  lemma NewSplit(b: set<int>, free: set<int>, live: set<int>, f: set<int>)
    requires Apart(b, free) && Apart(b, live) && f <= b
    ensures Counted(b, |f|, free + f, live + (b - f))
  {
    forall x ensures x in b * (free + f) <==> x in f {
    }
    assert b * (free + f) == f;
  }

  lemma ApartSplit(c: set<int>, n: int, free: set<int>, live: set<int>, b: set<int>, f: set<int>)
    requires Counted(c, n, free, live) && Apart(c, b) && f <= b
    ensures Counted(c, n, free + f, live + (b - f))
  {
    SameSplit(c, free, live, free + f, live + (b - f));
  }

  lemma StillNoShared(bs: map<int, set<int>>, p: int, b: set<int>)
    requires NoShared(bs) && FreshBlocks(bs, b) && p !in bs
    ensures NoShared(bs[p := b])
  {
  }

  /** A new arena: of its blocks B those in F are free, the others live. */
  lemma AddArena(bs: map<int, set<int>>, counts: map<int, int>, free: set<int>, live: set<int>, p: int, b: set<int>,
                 f: set<int>, n: int)
    requires Layout(bs, counts, free, live) && p !in bs && FreshBlocks(bs, b) && f <= b && n == |f|
    ensures Layout(bs[p := b], counts[p := n], free + f, live + (b - f))
  {
    FreshNowhere(bs, b, free);
    FreshNowhere(bs, b, live);
    NewSplit(b, free, live, f);
    StillNoShared(bs, p, b);
    StillKnown(bs, p, b, free, f);
    StillKnown(bs, p, b, live, b - f);
    forall q | q in bs ensures Counted(bs[q], counts[q], free + f, live + (b - f)) {
      ApartSplit(bs[q], counts[q], free, live, b, f);
    }
  }

  /** An arena goes, with its blocks. */
  lemma DropArena(bs: map<int, set<int>>, counts: map<int, int>, free: set<int>, live: set<int>, p: int)
    requires Layout(bs, counts, free, live) && p in bs
    ensures Layout(bs - {p}, counts - {p}, free - bs[p], live - bs[p])
  {
    var b := bs[p];
    forall q | q in bs && q != p ensures Counted(bs[q], counts[q], free - b, live - b) {
      assert Apart(bs[q], b);
      SameSplit(bs[q], free, live, free - b, live - b);
    }
    KnownWithout(bs, p, free);
    KnownWithout(bs, p, live);
  }

  lemma KnownWithout(bs: map<int, set<int>>, p: int, s: set<int>)
    requires Known(bs, s) && p in bs
    ensures Known(bs - {p}, s - bs[p])
  {
    forall x | x in s - bs[p] ensures InSome(bs - {p}, x) {
      var q :| q in bs && x in bs[q];
      assert q in bs - {p} && x in (bs - {p})[q];
    }
  }

  /** When nothing is live, every arena is wholly free. */
  lemma NothingLive(bs: map<int, set<int>>, counts: map<int, int>, free: set<int>, live: set<int>, p: int)
    requires Layout(bs, counts, free, live) && p in bs && live == {}
    ensures counts[p] == |bs[p]|
  {
    forall x | x in bs[p] ensures x in bs[p] * free {
      assert Split(bs[p], free, live);
    }
    assert bs[p] * free == bs[p];
  }

  /** An arena with as many free blocks as it has blocks has none that is live. */
  lemma AllFree(bs: map<int, set<int>>, counts: map<int, int>, free: set<int>, live: set<int>, p: int)
    requires Layout(bs, counts, free, live) && p in bs && counts[p] == |bs[p]|
    ensures bs[p] <= free && bs[p] !! live
  {
    SubsetOfSameSize(bs[p] * free, bs[p]);
    forall x | x in bs[p] ensures x in free && x !in live {
      assert x in bs[p] * free;
    }
  }

  lemma SubsetOfSameSize(a: set<int>, b: set<int>)
    requires a <= b && |a| == |b|
    ensures a == b
  {
    assert b == a + (b - a);
  }

  // ---------- from headers to blocks ----------

  ghost function BlocksAt(ds: seq<Desc>, p: int, a: Arena): set<int> {
    match a
    case Small(d, n) => if 0 <= d < |ds| then Blocks(p, ds[d]) else {}
    case Big(pages) => {Addr(p, 0, 0)}
  }

  ghost function BlockMap(ds: seq<Desc>, arenas: map<int, Arena>): map<int, set<int>> {
    map p | p in arenas :: BlocksAt(ds, p, arenas[p])
  }

  ghost function CountMap(arenas: map<int, Arena>): map<int, int> {
    map p | p in arenas :: if arenas[p].Small? then arenas[p].freeCnt else 0
  }

  ghost predicate DescIn(ds: seq<Desc>, arenas: map<int, Arena>) {
    forall p :: p in arenas && arenas[p].Small? ==> 0 <= arenas[p].desc < |ds|
  }

  /** No arena has only free blocks. */
  ghost predicate Tight(ds: seq<Desc>, arenas: map<int, Arena>) {
    forall p :: p in arenas && arenas[p].Small? && 0 <= arenas[p].desc < |ds| ==>
      arenas[p].freeCnt < ds[arenas[p].desc].count
  }

  function Capacity(ds: seq<Desc>, a: Arena): int {
    match a
    case Small(d, n) => if 0 <= d < |ds| then ds[d].size else 0
    case Big(pages) => pages * PGSIZE - HEADER
  }

  /** A block with all its bytes lies within its arena's pages, behind the header. */
  lemma Extent(ds: seq<Desc>, p: int, a: Arena, x: int)
    requires DescsOk(ds) && x in BlocksAt(ds, p, a)
    ensures p * PGSIZE + HEADER <= x && x + Capacity(ds, a) <= (p + PageCnt(a)) * PGSIZE
    ensures PageOf(x) == p
    ensures a.Small? ==> 0 <= a.desc < |ds| && Capacity(ds, a) >= 16
  {
    if a.Small? {
      var i :| 0 <= i < ds[a.desc].count && x == Addr(p, ds[a.desc].size, i);
      BlockInPage(p, ds[a.desc], i);
    }
  }

  /** Different blocks of one arena do not overlap. */
  lemma SameArenaApart(ds: seq<Desc>, p: int, a: Arena, x: int, y: int)
    requires DescsOk(ds) && x in BlocksAt(ds, p, a) && y in BlocksAt(ds, p, a) && x != y
    ensures x + Capacity(ds, a) <= y || y + Capacity(ds, a) <= x
  {
    if a.Small? {
      var d := ds[a.desc];
      var i :| 0 <= i < d.count && x == Addr(p, d.size, i);
      var j :| 0 <= j < d.count && y == Addr(p, d.size, j);
      if i < j {
        BlocksApart(p, d, i, j);
      } else if j < i {
        BlocksApart(p, d, j, i);
      }
    }
  }

  ghost predicate IsBlock(ds: seq<Desc>, arenas: map<int, Arena>, p: int, x: int) {
    p in arenas && x in BlocksAt(ds, p, arenas[p])
  }

  /** Different blocks never overlap. */
  lemma BlocksDisjoint(ds: seq<Desc>, used: seq<bool>, arenas: map<int, Arena>, outside: set<int>, p: int, x: int,
                       q: int, y: int)
    requires DescsOk(ds) && Pages(used, arenas, outside)
    requires IsBlock(ds, arenas, p, x) && IsBlock(ds, arenas, q, y) && x != y
    ensures x + Capacity(ds, arenas[p]) <= y || y + Capacity(ds, arenas[q]) <= x
  {
    Extent(ds, p, arenas[p], x);
    Extent(ds, q, arenas[q], y);
    if p == q {
      SameArenaApart(ds, p, arenas[p], x, y);
    }
  }

  lemma BlocksFresh(ds: seq<Desc>, arenas: map<int, Arena>, p: int, a: Arena)
    requires DescsOk(ds) && p !in arenas
    ensures FreshBlocks(BlockMap(ds, arenas), BlocksAt(ds, p, a))
  {
    forall q | q in arenas ensures Apart(BlocksAt(ds, q, arenas[q]), BlocksAt(ds, p, a)) {
      forall x | x in BlocksAt(ds, q, arenas[q]) ensures x !in BlocksAt(ds, p, a) {
        Extent(ds, q, arenas[q], x);
        if x in BlocksAt(ds, p, a) {
          Extent(ds, p, a, x);
        }
      }
    }
  }

  lemma MapsOfUpdate(ds: seq<Desc>, arenas: map<int, Arena>, p: int, a: Arena)
    ensures BlockMap(ds, arenas[p := a]) == BlockMap(ds, arenas)[p := BlocksAt(ds, p, a)]
    ensures CountMap(arenas[p := a]) == CountMap(arenas)[p := if a.Small? then a.freeCnt else 0]
  {
  }

  lemma MapsOfRemoval(ds: seq<Desc>, arenas: map<int, Arena>, p: int)
    ensures BlockMap(ds, arenas - {p}) == BlockMap(ds, arenas) - {p}
    ensures CountMap(arenas - {p}) == CountMap(arenas) - {p}
  {
  }
}
