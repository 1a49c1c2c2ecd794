/** What every call of malloc.c keeps: the free lists, the headers, the blocks handed out and the page pool agree. */
module MallocInvariant {
  import opened Bitmap
  import opened Collections
  import opened Arenas

  ghost predicate OnList(arenas: map<int, Arena>, d: int, x: int) {
    PageOf(x) in arenas && arenas[PageOf(x)].Small? && arenas[PageOf(x)].desc == d
  }

  /** The free list of descriptor D. */
  ghost predicate ListOk(arenas: map<int, Arena>, d: int, l: seq<int>, free: set<int>) {
    NoDup(l) && forall x :: x in l <==> x in free && OnList(arenas, d, x)
  }

  ghost predicate ListsOk(arenas: map<int, Arena>, lists: seq<seq<int>>, free: set<int>) {
    forall d :: 0 <= d < |lists| ==> ListOk(arenas, d, lists[d], free)
  }

  ghost predicate Inv(ds: seq<Desc>, used: seq<bool>, arenas: map<int, Arena>, lists: seq<seq<int>>, free: set<int>,
                      live: set<int>, outside: set<int>)
  {
    && DescsOk(ds) && |lists| == |ds| && DescIn(ds, arenas)
    && Pages(used, arenas, outside)
    && Layout(BlockMap(ds, arenas), CountMap(arenas), free, live)
    && ListsOk(arenas, lists, free)
  }

  // ---------- the free lists ----------

  lemma ListFront(arenas: map<int, Arena>, d: int, l: seq<int>, free: set<int>)
    requires ListOk(arenas, d, l, free) && l != []
    ensures ListOk(arenas, d, l[1..], free - {l[0]}) && l[0] in free && OnList(arenas, d, l[0])
  {
    var x := l[0];
    assert x in l && x in free && OnList(arenas, d, x);
    assert l == [x] + l[1..] && x !in l[1..];
    assert NoDup(l[1..]);
  }

  lemma ListPush(arenas: map<int, Arena>, d: int, l: seq<int>, free: set<int>, x: int)
    requires ListOk(arenas, d, l, free) && x !in free && OnList(arenas, d, x)
    ensures ListOk(arenas, d, [x] + l, free + {x})
  {
  }

  /** Another list has nothing to do with X. */
  lemma ListOther(arenas: map<int, Arena>, d: int, l: seq<int>, free: set<int>, free': set<int>, c: set<int>)
    requires ListOk(arenas, d, l, free)
    requires forall x :: x in c ==> !OnList(arenas, d, x)
    requires forall x :: x !in c ==> (x in free' <==> x in free)
    ensures ListOk(arenas, d, l, free')
  {
  }

  ghost predicate SameDesc(a: Arena, b: Arena) {
    a.Small? && b.Small? && a.desc == b.desc
  }

  /** A changed free count does not matter to the lists. */
  lemma ListsCount(arenas: map<int, Arena>, lists: seq<seq<int>>, free: set<int>, p: int, a: Arena)
    requires ListsOk(arenas, lists, free) && p in arenas && SameDesc(arenas[p], a)
    ensures ListsOk(arenas[p := a], lists, free)
  {
    var arenas' := arenas[p := a];
    forall d | 0 <= d < |lists| ensures ListOk(arenas', d, lists[d], free) {
      assert forall x :: OnList(arenas', d, x) <==> OnList(arenas, d, x);
    }
  }

  lemma ListsPop(arenas: map<int, Arena>, lists: seq<seq<int>>, free: set<int>, d: int)
    requires ListsOk(arenas, lists, free) && 0 <= d < |lists| && lists[d] != []
    ensures ListsOk(arenas, lists[d := lists[d][1..]], free - {lists[d][0]})
    ensures lists[d][0] in free && OnList(arenas, d, lists[d][0])
  {
    var x := lists[d][0];
    ListFront(arenas, d, lists[d], free);
    forall e | 0 <= e < |lists| && e != d ensures ListOk(arenas, e, lists[e], free - {x}) {
      ListOther(arenas, e, lists[e], free, free - {x}, {x});
    }
  }

  lemma ListsPush(arenas: map<int, Arena>, lists: seq<seq<int>>, free: set<int>, d: int, x: int)
    requires ListsOk(arenas, lists, free) && 0 <= d < |lists| && x !in free && OnList(arenas, d, x)
    ensures ListsOk(arenas, lists[d := [x] + lists[d]], free + {x})
  {
    ListPush(arenas, d, lists[d], free, x);
    forall e | 0 <= e < |lists| && e != d ensures ListOk(arenas, e, lists[e], free + {x}) {
      ListOther(arenas, e, lists[e], free, free + {x}, {x});
    }
  }

  // ---------- steps ----------

  /** The front block of a free list is handed out. */
  lemma StepPop(ds: seq<Desc>, used: seq<bool>, arenas: map<int, Arena>, lists: seq<seq<int>>, free: set<int>,
                live: set<int>, outside: set<int>, d: int)
    requires Inv(ds, used, arenas, lists, free, live, outside) && 0 <= d < |ds| && lists[d] != []
    ensures var x := lists[d][0];
            var p := PageOf(x);
            && p in arenas && arenas[p].Small? && arenas[p].desc == d && IsBlock(ds, arenas, p, x)
            && x in free && x !in live
            && Inv(ds, used, arenas[p := Taken(arenas[p])], lists[d := lists[d][1..]], free - {x},
                   live + {x}, outside)
  {
    var x := lists[d][0];
    var p := PageOf(x);
    ListsPop(arenas, lists, free, d);
    FreeIsBlock(ds, arenas, free, live, x);
    HeaderCount(ds, used, arenas, outside, p, Taken(arenas[p]));
    Take(BlockMap(ds, arenas), CountMap(arenas), free, live, p, x, Taken(arenas[p]).freeCnt);
    ListsCount(arenas, lists[d := lists[d][1..]], free - {x}, p, Taken(arenas[p]));
    assert Split(BlockMap(ds, arenas)[p], free, live);
  }

  /** A free or live address is a block of the arena in its page. */
  lemma FreeIsBlock(ds: seq<Desc>, arenas: map<int, Arena>, free: set<int>, live: set<int>, x: int)
    requires DescsOk(ds) && Layout(BlockMap(ds, arenas), CountMap(arenas), free, live) && (x in free || x in live)
    ensures IsBlock(ds, arenas, PageOf(x), x)
  {
    assert InSome(BlockMap(ds, arenas), x);
    var p :| p in arenas && x in BlocksAt(ds, p, arenas[p]);
    Extent(ds, p, arenas[p], x);
  }

  /** A header with another free count. */
  lemma HeaderCount(ds: seq<Desc>, used: seq<bool>, arenas: map<int, Arena>, outside: set<int>, p: int, a: Arena)
    requires Pages(used, arenas, outside) && DescIn(ds, arenas) && p in arenas && SameDesc(arenas[p], a)
    ensures var arenas' := arenas[p := a];
            && Pages(used, arenas', outside) && DescIn(ds, arenas')
            && BlockMap(ds, arenas') == BlockMap(ds, arenas) && CountMap(arenas') == CountMap(arenas)[p := a.freeCnt]
  {
    HeaderPages(used, arenas, outside, p, a);
    HeaderMaps(ds, arenas, p, a);
  }

  lemma HeaderPages(used: seq<bool>, arenas: map<int, Arena>, outside: set<int>, p: int, a: Arena)
    requires Pages(used, arenas, outside) && p in arenas && PageCnt(arenas[p]) == PageCnt(a)
    ensures Pages(used, arenas[p := a], outside)
  {
    var arenas' := arenas[p := a];
    forall k ensures Covered(arenas', k) <==> Covered(arenas, k) {
      if Covered(arenas, k) {
        var q :| q in arenas && q <= k < q + PageCnt(arenas[q]);
        assert q in arenas' && PageCnt(arenas'[q]) == PageCnt(arenas[q]);
      }
    }
  }

  lemma HeaderMaps(ds: seq<Desc>, arenas: map<int, Arena>, p: int, a: Arena)
    requires p in arenas && SameDesc(arenas[p], a)
    ensures BlockMap(ds, arenas[p := a]) == BlockMap(ds, arenas)
    ensures CountMap(arenas[p := a]) == CountMap(arenas)[p := a.freeCnt]
  {
    assert BlocksAt(ds, p, a) == BlocksAt(ds, p, arenas[p]);
  }

  // ---------- arenas come and go ----------

  /** The blocks of a new arena in the order in which malloc puts them on the list. */
  function AddrList(p: int, d: Desc): (l: seq<int>)
    requires d.count >= 0
    ensures |l| == d.count && forall i :: 0 <= i < d.count ==> l[i] == Addr(p, d.size, i)
  {
    seq(d.count, i => Addr(p, d.size, i))
  }

  lemma AddrListBlocks(p: int, d: Desc)
    requires DescOk(d)
    ensures NoDup(AddrList(p, d)) && forall x :: x in AddrList(p, d) <==> x in Blocks(p, d)
  {
    var l := AddrList(p, d);
    forall i, j | 0 <= i < j < |l| ensures l[i] != l[j] {
      BlocksApart(p, d, i, j);
    }
    forall x | x in Blocks(p, d) ensures x in l {
      var i :| 0 <= i < d.count && x == Addr(p, d.size, i);
      assert l[i] == x;
    }
  }

  /** An arena at a page where there was none: other lists stay as they are. */
  lemma ListNewArena(arenas: map<int, Arena>, d: int, l: seq<int>, free: set<int>, p: int, a: Arena, b: set<int>)
    requires ListOk(arenas, d, l, free) && p !in arenas && (a.Small? ==> a.desc != d)
    requires forall x :: x in free ==> PageOf(x) in arenas
    requires forall x :: x in b ==> PageOf(x) == p
    ensures ListOk(arenas[p := a], d, l, free + b)
  {
    var arenas' := arenas[p := a];
    forall x ensures x in l <==> x in free + b && OnList(arenas', d, x) {
      assert x in l <==> x in free && OnList(arenas, d, x);
    }
  }

  lemma ListOfNewArena(arenas: map<int, Arena>, d: int, l: seq<int>, free: set<int>, p: int, a: Arena, b: set<int>)
    requires ListOk(arenas, d, [], free) && p !in arenas && a.Small? && a.desc == d
    requires forall x :: x in free ==> PageOf(x) in arenas
    requires forall x :: x in b ==> PageOf(x) == p
    requires NoDup(l) && forall x :: x in l <==> x in b
    ensures ListOk(arenas[p := a], d, l, free + b)
  {
    var arenas' := arenas[p := a];
    forall x ensures x in l <==> x in free + b && OnList(arenas', d, x) {
      assert !(x in free && OnList(arenas, d, x));
    }
  }

  lemma FreeInArenas(ds: seq<Desc>, arenas: map<int, Arena>, free: set<int>, live: set<int>)
    requires DescsOk(ds) && Layout(BlockMap(ds, arenas), CountMap(arenas), free, live)
    ensures forall x :: x in free ==> PageOf(x) in arenas
  {
    forall x | x in free ensures PageOf(x) in arenas {
      FreeIsBlock(ds, arenas, free, live, x);
    }
  }

  /** A new arena is carved up, and all its blocks are put on the empty list of its descriptor. */
  lemma StepCarve(ds: seq<Desc>, used: seq<bool>, arenas: map<int, Arena>, lists: seq<seq<int>>, free: set<int>,
                  live: set<int>, outside: set<int>, d: int, p: int)
    requires Inv(ds, used, arenas, lists, free, live, outside) && 0 <= d < |ds| && lists[d] == []
    requires 0 <= p && AllAre(used, p, 1, false)
    ensures Inv(ds, Fill(used, p, 1, true), arenas[p := Small(d, ds[d].count)], lists[d := AddrList(p, ds[d])],
                free + Blocks(p, ds[d]), live, outside)
  {
    var a, b := Small(d, ds[d].count), Blocks(p, ds[d]);
    PageTaken(used, arenas, outside, p, a);
    SmallLayout(ds, arenas, free, live, p, d);
    FreeInArenas(ds, arenas, free, live);
    BlocksInPage(p, ds[d]);
    AddrListBlocks(p, ds[d]);
    ListOfNewArena(arenas, d, AddrList(p, ds[d]), free, p, a, b);
    forall e | 0 <= e < |lists| && e != d ensures ListOk(arenas[p := a], e, lists[e], free + b) {
      ListNewArena(arenas, e, lists[e], free, p, a, b);
    }
  }

  lemma SmallLayout(ds: seq<Desc>, arenas: map<int, Arena>, free: set<int>, live: set<int>, p: int, d: int)
    requires DescsOk(ds) && Layout(BlockMap(ds, arenas), CountMap(arenas), free, live) && p !in arenas && 0 <= d < |ds|
    ensures var arenas' := arenas[p := Small(d, ds[d].count)];
            Layout(BlockMap(ds, arenas'), CountMap(arenas'), free + Blocks(p, ds[d]), live)
  {
    var a, b := Small(d, ds[d].count), Blocks(p, ds[d]);
    BlocksFresh(ds, arenas, p, a);
    BlockCount(p, ds[d], ds[d].count);
    AddArena(BlockMap(ds, arenas), CountMap(arenas), free, live, p, b, b, ds[d].count);
    assert live + (b - b) == live;
    MapsOfUpdate(ds, arenas, p, a);
  }

  /** A big block is handed out. */
  lemma StepBig(ds: seq<Desc>, used: seq<bool>, arenas: map<int, Arena>, lists: seq<seq<int>>, free: set<int>,
                live: set<int>, outside: set<int>, p: int, n: int)
    requires Inv(ds, used, arenas, lists, free, live, outside) && 0 <= p && n >= 1 && AllAre(used, p, n, false)
    ensures Addr(p, 0, 0) !in live
    ensures Inv(ds, Fill(used, p, n, true), arenas[p := Big(n)], lists, free, live + {Addr(p, 0, 0)}, outside)
  {
    PageTaken(used, arenas, outside, p, Big(n));
    BigLayout(ds, arenas, free, live, p, n);
    FreeInArenas(ds, arenas, free, live);
    ListsNewBig(arenas, lists, free, p, n);
  }

  lemma ListsNewBig(arenas: map<int, Arena>, lists: seq<seq<int>>, free: set<int>, p: int, n: int)
    requires ListsOk(arenas, lists, free) && p !in arenas && forall x :: x in free ==> PageOf(x) in arenas
    ensures ListsOk(arenas[p := Big(n)], lists, free)
  {
    assert free + {} == free;
    forall e | 0 <= e < |lists| ensures ListOk(arenas[p := Big(n)], e, lists[e], free) {
      ListNewArena(arenas, e, lists[e], free, p, Big(n), {});
    }
  }

  lemma BigLayout(ds: seq<Desc>, arenas: map<int, Arena>, free: set<int>, live: set<int>, p: int, n: int)
    requires DescsOk(ds) && Layout(BlockMap(ds, arenas), CountMap(arenas), free, live) && p !in arenas
    ensures var arenas' := arenas[p := Big(n)];
            Layout(BlockMap(ds, arenas'), CountMap(arenas'), free, live + {Addr(p, 0, 0)})
    ensures Addr(p, 0, 0) !in live
  {
    var b := {Addr(p, 0, 0)};
    BlocksFresh(ds, arenas, p, Big(n));
    FreshNowhere(BlockMap(ds, arenas), b, live);
    AddArena(BlockMap(ds, arenas), CountMap(arenas), free, live, p, b, {}, 0);
    assert b - {} == b && free + {} == free;
    MapsOfUpdate(ds, arenas, p, Big(n));
  }

  /** A live block of a small arena goes back to the front of its list. */
  lemma StepPush(ds: seq<Desc>, used: seq<bool>, arenas: map<int, Arena>, lists: seq<seq<int>>, free: set<int>,
                 live: set<int>, outside: set<int>, x: int)
    requires Inv(ds, used, arenas, lists, free, live, outside) && x in live
    ensures IsBlock(ds, arenas, PageOf(x), x)
    ensures var p := PageOf(x);
            arenas[p].Small? ==>
              var d := arenas[p].desc;
              && 0 <= d < |ds|
              && Inv(ds, used, arenas[p := Returned(arenas[p])], lists[d := [x] + lists[d]], free + {x},
                     live - {x}, outside)
  {
    var p := PageOf(x);
    FreeIsBlock(ds, arenas, free, live, x);
    if arenas[p].Small? {
      var d := arenas[p].desc;
      assert Split(BlockMap(ds, arenas)[p], free, live);
      HeaderCount(ds, used, arenas, outside, p, Returned(arenas[p]));
      Give(BlockMap(ds, arenas), CountMap(arenas), free, live, p, x, Returned(arenas[p]).freeCnt);
      ListsPush(arenas, lists, free, d, x);
      ListsCount(arenas, lists[d := [x] + lists[d]], free + {x}, p, Returned(arenas[p]));
    }
  }

  /** L without the members of B. */
  ghost predicate Without(l: seq<int>, b: set<int>, r: seq<int>) {
    NoDup(r) && forall x :: x in r <==> x in l && x !in b
  }

  lemma ListDropArena(arenas: map<int, Arena>, d: int, l: seq<int>, free: set<int>, p: int, b: set<int>, r: seq<int>)
    requires ListOk(arenas, d, l, free) && Without(l, b, r)
    requires forall x :: x in free && x !in b ==> PageOf(x) != p
    ensures ListOk(arenas - {p}, d, r, free - b)
  {
    forall x ensures x in r <==> x in free - b && OnList(arenas - {p}, d, x) {
      assert x in l <==> x in free && OnList(arenas, d, x);
    }
  }

  lemma OnlyItsBlocks(ds: seq<Desc>, arenas: map<int, Arena>, free: set<int>, live: set<int>, p: int)
    requires DescsOk(ds) && Layout(BlockMap(ds, arenas), CountMap(arenas), free, live) && p in arenas
    ensures forall x :: x in free && x !in BlocksAt(ds, p, arenas[p]) ==> PageOf(x) != p
  {
    forall x | x in free && x !in BlocksAt(ds, p, arenas[p]) ensures PageOf(x) != p {
      FreeIsBlock(ds, arenas, free, live, x);
    }
  }

  /** A list of another descriptor has no block of the arena. */
  lemma OtherWithout(arenas: map<int, Arena>, e: int, l: seq<int>, free: set<int>, p: int, b: set<int>)
    requires ListOk(arenas, e, l, free) && p in arenas && (arenas[p].Small? ==> arenas[p].desc != e)
    requires forall x :: x in b ==> PageOf(x) == p
    ensures Without(l, b, l)
  {
  }

  /** An arena with only free blocks is taken apart and its page given back. */
  lemma StepDismantle(ds: seq<Desc>, used: seq<bool>, arenas: map<int, Arena>, lists: seq<seq<int>>, free: set<int>,
                      live: set<int>, outside: set<int>, p: int, r: seq<int>)
    requires Inv(ds, used, arenas, lists, free, live, outside)
    requires p in arenas && arenas[p].Small? && arenas[p].freeCnt == ds[arenas[p].desc].count
    requires Without(lists[arenas[p].desc], Blocks(p, ds[arenas[p].desc]), r)
    ensures AllAre(used, p, 1, true)
    ensures Inv(ds, Fill(used, p, 1, false), arenas - {p}, lists[arenas[p].desc := r],
                free - Blocks(p, ds[arenas[p].desc]), live, outside)
  {
    PageGiven(used, arenas, outside, p);
    DismantleLayout(ds, arenas, free, live, p);
    DismantleLists(ds, arenas, lists, free, live, p, r);
  }

  lemma DismantleLayout(ds: seq<Desc>, arenas: map<int, Arena>, free: set<int>, live: set<int>, p: int)
    requires DescsOk(ds) && DescIn(ds, arenas) && Layout(BlockMap(ds, arenas), CountMap(arenas), free, live)
    requires p in arenas && arenas[p].Small? && arenas[p].freeCnt == ds[arenas[p].desc].count
    ensures var b := Blocks(p, ds[arenas[p].desc]);
            Layout(BlockMap(ds, arenas - {p}), CountMap(arenas - {p}), free - b, live)
  {
    var d := arenas[p].desc;
    BlockCount(p, ds[d], ds[d].count);
    AllFree(BlockMap(ds, arenas), CountMap(arenas), free, live, p);
    DropArena(BlockMap(ds, arenas), CountMap(arenas), free, live, p);
    assert live - Blocks(p, ds[d]) == live;
    MapsOfRemoval(ds, arenas, p);
  }

  lemma DismantleLists(ds: seq<Desc>, arenas: map<int, Arena>, lists: seq<seq<int>>, free: set<int>, live: set<int>,
                       p: int, r: seq<int>)
    requires DescsOk(ds) && DescIn(ds, arenas) && |lists| == |ds| && ListsOk(arenas, lists, free)
    requires Layout(BlockMap(ds, arenas), CountMap(arenas), free, live) && p in arenas && arenas[p].Small?
    requires Without(lists[arenas[p].desc], Blocks(p, ds[arenas[p].desc]), r)
    ensures ListsOk(arenas - {p}, lists[arenas[p].desc := r], free - Blocks(p, ds[arenas[p].desc]))
  {
    var d := arenas[p].desc;
    var b := Blocks(p, ds[d]);
    OnlyItsBlocks(ds, arenas, free, live, p);
    BlocksInPage(p, ds[d]);
    ListDropArena(arenas, d, lists[d], free, p, b, r);
    forall e | 0 <= e < |lists| && e != d ensures ListOk(arenas - {p}, e, lists[e], free - b) {
      OtherListDrop(arenas, e, lists[e], free, p, b);
    }
  }

  /** A big block is given back with its pages. */
  lemma StepBigFree(ds: seq<Desc>, used: seq<bool>, arenas: map<int, Arena>, lists: seq<seq<int>>, free: set<int>,
                    live: set<int>, outside: set<int>, p: int)
    requires Inv(ds, used, arenas, lists, free, live, outside) && p in arenas && arenas[p].Big?
    requires Addr(p, 0, 0) in live
    ensures AllAre(used, p, arenas[p].pages, true)
    ensures Inv(ds, Fill(used, p, arenas[p].pages, false), arenas - {p}, lists, free, live - {Addr(p, 0, 0)}, outside)
  {
    PageGiven(used, arenas, outside, p);
    BigFreeLayout(ds, arenas, free, live, p);
    BigFreeLists(ds, arenas, lists, free, live, p);
  }

  lemma BigFreeLayout(ds: seq<Desc>, arenas: map<int, Arena>, free: set<int>, live: set<int>, p: int)
    requires Layout(BlockMap(ds, arenas), CountMap(arenas), free, live) && p in arenas && arenas[p].Big?
    requires Addr(p, 0, 0) in live
    ensures Addr(p, 0, 0) !in free
    ensures Layout(BlockMap(ds, arenas - {p}), CountMap(arenas - {p}), free, live - {Addr(p, 0, 0)})
  {
    DropArena(BlockMap(ds, arenas), CountMap(arenas), free, live, p);
    assert Split(BlockMap(ds, arenas)[p], free, live);
    assert free - {Addr(p, 0, 0)} == free;
    MapsOfRemoval(ds, arenas, p);
  }

  lemma BigFreeLists(ds: seq<Desc>, arenas: map<int, Arena>, lists: seq<seq<int>>, free: set<int>, live: set<int>,
                     p: int)
    requires DescsOk(ds) && ListsOk(arenas, lists, free) && p in arenas && arenas[p].Big?
    requires Layout(BlockMap(ds, arenas), CountMap(arenas), free, live) && Addr(p, 0, 0) !in free
    ensures ListsOk(arenas - {p}, lists, free)
  {
    var x := Addr(p, 0, 0);
    OnlyItsBlocks(ds, arenas, free, live, p);
    assert PageOf(x) == p && free - {x} == free;
    forall e | 0 <= e < |lists| ensures ListOk(arenas - {p}, e, lists[e], free) {
      OtherListDrop(arenas, e, lists[e], free, p, {x});
    }
  }

  lemma OtherListDrop(arenas: map<int, Arena>, e: int, l: seq<int>, free: set<int>, p: int, b: set<int>)
    requires ListOk(arenas, e, l, free) && p in arenas && (arenas[p].Small? ==> arenas[p].desc != e)
    requires forall x :: x in b ==> PageOf(x) == p
    requires forall x :: x in free && x !in b ==> PageOf(x) != p
    ensures ListOk(arenas - {p}, e, l, free - b)
  {
    OtherWithout(arenas, e, l, free, p, b);
    ListDropArena(arenas, e, l, free, p, b, l);
  }
}
