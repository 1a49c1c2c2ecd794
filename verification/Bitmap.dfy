/** The word-packed bitmap of lib/kernel/bitmap.c.  The OR, AND and XOR instructions that change a word are taken to do
    what their comments say. */
module Bitmap {
  import opened Arithmetic
  import opened Bits
  import opened Collections

  // ---------- words and flags ----------

  ghost predicate WordsOk(words: seq<int>, n: nat) {
    |words| == (n + 31) / 32 && forall i :: 0 <= i < |words| ==> 0 <= words[i] < TWO32
  }

  /** The flags that N bits of WORDS stand for. */
  ghost function Flags(words: seq<int>, n: nat): (c: seq<bool>)
    requires WordsOk(words, n)
    ensures |c| == n
    ensures forall i :: 0 <= i < n ==> c[i] == Bit(words[i / 32], i % 32)
  {
    seq(n, i requires 0 <= i < n => Bit(words[i / 32], i % 32))
  }

  /** Changing one bit of a word changes one flag. */
  lemma OneFlag(words: seq<int>, n: nat, i: nat, w: int, v: bool)
    requires WordsOk(words, n) && i < n && 0 <= w < TWO32
    requires forall k :: 0 <= k < 32 ==> Bit(w, k) == if k == i % 32 then v else Bit(words[i / 32], k)
    ensures WordsOk(words[i / 32 := w], n) && Flags(words[i / 32 := w], n) == Flags(words, n)[i := v]
  {
    var c, d := Flags(words, n), Flags(words[i / 32 := w], n);
    forall j | 0 <= j < n ensures d[j] == c[i := v][j] {
      assert j == i <==> j / 32 == i / 32 && j % 32 == i % 32;
    }
  }

  /** COUNT flags from START on, all V. */
  predicate AllAre(c: seq<bool>, start: nat, count: nat, v: bool) {
    start + count <= |c| && forall i :: start <= i < start + count ==> c[i] == v
  }

  function Fill(c: seq<bool>, start: nat, count: nat, v: bool): (r: seq<bool>)
    requires start + count <= |c|
    ensures |r| == |c|
    ensures forall i :: 0 <= i < |c| ==> r[i] == if start <= i < start + count then v else c[i]
  {
    seq(|c|, i requires 0 <= i < |c| => if start <= i < start + count then v else c[i])
  }

  /** R is the first place at or after START where COUNT flags are V, if there is one. */
  ghost predicate FirstGroup(c: seq<bool>, start: nat, count: nat, v: bool, r: Option<nat>) {
    && (r.Some? ==> start <= r.value && AllAre(c, r.value, count, v))
    && forall i: nat :: start <= i && (r.Some? ==> i < r.value) ==> !AllAre(c, i, count, v)
  }

  /** The first place at or after I where N flags are off. */
  ghost function FirstFit(used: seq<bool>, n: nat, i: nat): (r: Option<nat>)
    ensures FirstGroup(used, i, n, false, r)
    decreases |used| - i
  {
    if i + n > |used| then None
    else if AllAre(used, i, n, false) then Some(i)
    else FirstFit(used, n, i + 1)
  }

  class Map {
    const bitCnt: nat
    const bits: array<int>

    ghost predicate Valid()
      reads bits
    {
      WordsOk(bits[..], bitCnt)
    }

    ghost function Contents(): (c: seq<bool>)
      requires Valid()
      reads bits
      ensures |c| == bitCnt
    {
      Flags(bits[..], bitCnt)
    }

    /** bitmap_create, once there is room. */
    constructor (n: nat)
      ensures Valid() && fresh(bits) && bitCnt == n && Contents() == seq(n, _ => false)
    {
      bitCnt := n;
      bits := new int[(n + 31) / 32](_ => 0);
      new;
      forall k | 0 <= k < 32 ensures !Bit(0, k) {
        ZeroBits(k);
      }
    }

    method Test(i: nat) returns (v: bool)
      requires Valid() && i < bitCnt
      ensures v == Contents()[i]
    {
      MaskTest(bits[i / 32], i % 32);
      v := And(bits[i / 32], Pow2(i % 32)) != 0;
    }

    method Mark(i: nat)
      requires Valid() && i < bitCnt
      modifies bits
      ensures Valid() && Contents() == old(Contents())[i := true]
    {
      var mask, w := Pow2(i % 32), bits[i / 32];
      MaskIsWord(i % 32);
      OrFits(w, mask, 32);
      forall k | 0 <= k < 32 ensures Bit(Or(w, mask), k) == if k == i % 32 then true else Bit(w, k) {
        BitOfOr(w, mask, k);
        BitOfMask(i % 32, k);
      }
      OneFlag(bits[..], bitCnt, i, Or(w, mask), true);
      bits[i / 32] := Or(w, mask);
    }

    method Reset(i: nat)
      requires Valid() && i < bitCnt
      modifies bits
      ensures Valid() && Contents() == old(Contents())[i := false]
    {
      var mask, w := Pow2(i % 32), bits[i / 32];
      MaskIsWord(i % 32);
      forall k | 0 <= k < 32
        ensures Bit(And(w, Not(mask, 32)), k) == if k == i % 32 then false else Bit(w, k)
      {
        BitOfAnd(w, Not(mask, 32), k);
        BitOfNot(mask, 32, k);
        BitOfMask(i % 32, k);
      }
      OneFlag(bits[..], bitCnt, i, And(w, Not(mask, 32)), false);
      bits[i / 32] := And(w, Not(mask, 32));
    }

    method Flip(i: nat)
      requires Valid() && i < bitCnt
      modifies bits
      ensures Valid() && Contents() == old(Contents())[i := !old(Contents())[i]]
    {
      var mask, w := Pow2(i % 32), bits[i / 32];
      MaskIsWord(i % 32);
      XorFits(w, mask, 32);
      forall k | 0 <= k < 32 ensures Bit(Xor(w, mask), k) == if k == i % 32 then !Bit(w, k) else Bit(w, k) {
        BitOfXor(w, mask, k);
        BitOfMask(i % 32, k);
      }
      OneFlag(bits[..], bitCnt, i, Xor(w, mask), !Contents()[i]);
      bits[i / 32] := Xor(w, mask);
    }

    method Set(i: nat, v: bool)
      requires Valid() && i < bitCnt
      modifies bits
      ensures Valid() && Contents() == old(Contents())[i := v]
    {
      if v {
        Mark(i);
      } else {
        Reset(i);
      }
    }

    method SetMultiple(start: nat, count: nat, v: bool)
      requires Valid() && start + count <= bitCnt
      modifies bits
      ensures Valid() && Contents() == Fill(old(Contents()), start, count, v)
    {
      ghost var c := Contents();
      var i := 0;
      assert Contents() == Fill(c, start, 0, v);
      while i < count
        invariant i <= count && Valid() && Contents() == Fill(c, start, i, v)
      {
        assert Fill(c, start, i, v)[start + i := v] == Fill(c, start, i + 1, v);
        Set(start + i, v);
        i := i + 1;
      }
    }

    method Contains(start: nat, count: nat, v: bool) returns (r: bool)
      requires Valid() && start + count <= bitCnt
      ensures r <==> !AllAre(Contents(), start, count, !v)
    {
      var i := 0;
      while i < count
        invariant i <= count && AllAre(Contents(), start, i, !v)
      {
        var b := Test(start + i);
        if b == v {
          return true;
        }
        i := i + 1;
      }
      return false;
    }

    /** bitmap_scan. */
    method Scan(start: nat, count: nat, v: bool) returns (r: Option<nat>)
      requires Valid() && start <= bitCnt
      ensures FirstGroup(Contents(), start, count, v, r)
    {
      if count <= bitCnt {
        var last := bitCnt - count;
        var i := start;
        while i <= last
          invariant start <= i
          invariant forall j: nat :: start <= j < i ==> !AllAre(Contents(), j, count, v)
          decreases last - i
        {
          var other := Contains(i, count, !v);
          if !other {
            return Some(i);
          }
          i := i + 1;
        }
      }
      r := None;
    }

    /** bitmap_scan_and_flip. */
    method ScanAndFlip(start: nat, count: nat, v: bool) returns (r: Option<nat>)
      requires Valid() && start <= bitCnt
      modifies bits
      ensures Valid() && FirstGroup(old(Contents()), start, count, v, r)
      ensures Contents() == if r.Some? then Fill(old(Contents()), r.value, count, !v) else old(Contents())
    {
      r := Scan(start, count, v);
      if r.Some? {
        SetMultiple(r.value, count, !v);
      }
    }
  }

  lemma MaskIsWord(k: nat)
    requires k < 32
    ensures Pow2(k) < Pow2(32) == TWO32
  {
    Pow2Values();
    MaskFits(k, 32);
  }

  /** There is one first group. */
  lemma FirstGroupUnique(c: seq<bool>, start: nat, count: nat, v: bool, r: Option<nat>, q: Option<nat>)
    requires FirstGroup(c, start, count, v, r) && FirstGroup(c, start, count, v, q)
    ensures r == q
  {
  }

  /** Taking a group and giving it back changes nothing. */
  lemma FillBack(c: seq<bool>, start: nat, count: nat, v: bool)
    requires AllAre(c, start, count, v)
    ensures Fill(Fill(c, start, count, !v), start, count, v) == c
  {
  }

  /** bitmap_create, where ROOM and BITSROOM say if malloc finds room for the bitmap and for its bits; none is needed
      for no bits. */
  method BitmapCreate(n: nat, room: bool, bitsRoom: bool) returns (b: Map?)
    ensures b == null <==> !room || (!bitsRoom && n > 0)
    ensures b != null ==>
              fresh(b) && fresh(b.bits) && b.Valid() && b.bitCnt == n && forall i :: 0 <= i < n ==> !b.Contents()[i]
  {
    if !room || (!bitsRoom && n > 0) {
      return null;
    }
    b := new Map(n);
  }
}
