/** Words as natural numbers, and the bit operations of C on them. */
module Bits {
  import opened Arithmetic

  /** The bitwise "and" of two words. */
  function And(a: nat, b: nat): (r: nat)
    ensures r <= a && r <= b
  {
    if a == 0 || b == 0 then 0 else (if a % 2 == 1 && b % 2 == 1 then 1 else 0) + 2 * And(a / 2, b / 2)
  }

  lemma {:induction false} AndSelf(a: nat)
    ensures And(a, a) == a
  {
    if a > 0 {
      AndSelf(a / 2);
    }
  }

  /** Masking with a power of two less one is the remainder. */
  lemma {:induction false} AndMask(a: nat, k: nat)
    ensures And(a, Pow2(k) - 1) == a % Pow2(k)
  {
    if k == 0 {
      AndNothing(a, Pow2(0));
    } else {
      AndMask(a / 2, k - 1);
      AndMaskStep(a, Pow2(k - 1), Pow2(k));
    }
  }

  lemma AndNothing(a: nat, q: nat)
    requires q == 1
    ensures And(a, q - 1) == a % q
  {
  }

  lemma AndMaskStep(a: nat, p: nat, q: nat)
    requires p > 0 && q == 2 * p && And(a / 2, p - 1) == a / 2 % p
    ensures And(a, q - 1) == a % q
  {
    AndOdd(a, p);
    RemainderHalves(a, p);
  }

  lemma AndOdd(a: nat, p: nat)
    requires p > 0
    ensures And(a, 2 * p - 1) == a % 2 + 2 * And(a / 2, p - 1)
  {
    assert (2 * p - 1) / 2 == p - 1;
  }

  lemma RemainderHalves(a: nat, p: nat)
    requires p > 0
    ensures a % (2 * p) == a % 2 + 2 * (a / 2 % p)
  {
    DivIsQuot(a, 2);
    DivIsQuot(a / 2, p);
    QuotQuot(a, 2, p, a / 2, a / 2 / p);
    QuotIsDiv(a, 2 * p, a / 2 / p);
    Remainder(a, 2 * p);
    Remainder(a, 2);
    Remainder(a / 2, p);
    Double(a / 2 / p, p);
  }

  lemma Remainder(a: nat, d: nat)
    requires d > 0
    ensures a % d == a - a / d * d
  {
  }

  // ---------- single bits ----------

  predicate Bit(w: nat, k: nat) {
    if k == 0 then w % 2 == 1 else Bit(w / 2, k - 1)
  }

  function Or(a: nat, b: nat): nat {
    if a == 0 then b
    else if b == 0 then a
    else (if a % 2 == 1 || b % 2 == 1 then 1 else 0) + 2 * Or(a / 2, b / 2)
  }

  function Xor(a: nat, b: nat): nat {
    if a == 0 then b
    else if b == 0 then a
    else (if a % 2 == b % 2 then 0 else 1) + 2 * Xor(a / 2, b / 2)
  }

  /** The complement of a word of N bits. */
  function Not(a: nat, n: nat): nat
    requires a < Pow2(n)
  {
    Pow2(n) - 1 - a
  }

  lemma {:induction false} ZeroBits(k: nat)
    ensures !Bit(0, k)
  {
    if k > 0 {
      ZeroBits(k - 1);
    }
  }

  lemma BitOfSum(c: bool, r: nat, k: nat)
    ensures Bit((if c then 1 else 0) + 2 * r, k) == if k == 0 then c else Bit(r, k - 1)
  {
    assert ((if c then 1 else 0) + 2 * r) / 2 == r;
  }

  lemma {:induction false} BitOfAnd(a: nat, b: nat, k: nat)
    ensures Bit(And(a, b), k) <==> Bit(a, k) && Bit(b, k)
  {
    ZeroBits(k);
    if a > 0 && b > 0 {
      BitOfSum(a % 2 == 1 && b % 2 == 1, And(a / 2, b / 2), k);
      if k > 0 {
        BitOfAnd(a / 2, b / 2, k - 1);
      }
    }
  }

  lemma {:induction false} BitOfOr(a: nat, b: nat, k: nat)
    ensures Bit(Or(a, b), k) <==> Bit(a, k) || Bit(b, k)
  {
    ZeroBits(k);
    if a > 0 && b > 0 {
      BitOfSum(a % 2 == 1 || b % 2 == 1, Or(a / 2, b / 2), k);
      if k > 0 {
        BitOfOr(a / 2, b / 2, k - 1);
      }
    }
  }

  lemma {:induction false} BitOfXor(a: nat, b: nat, k: nat)
    ensures Bit(Xor(a, b), k) <==> Bit(a, k) != Bit(b, k)
  {
    ZeroBits(k);
    if a > 0 && b > 0 {
      BitOfSum(a % 2 != b % 2, Xor(a / 2, b / 2), k);
      if k > 0 {
        BitOfXor(a / 2, b / 2, k - 1);
      }
    }
  }

  lemma {:induction false} BitOfMask(j: nat, k: nat)
    ensures Bit(Pow2(j), k) <==> j == k
  {
    if j == 0 {
      if k > 0 {
        ZeroBits(k - 1);
      }
    } else if k > 0 {
      BitOfMask(j - 1, k - 1);
    }
  }

  lemma {:induction false} BitOfNot(a: nat, n: nat, k: nat)
    requires a < Pow2(n) && k < n
    ensures Bit(Not(a, n), k) <==> !Bit(a, k)
  {
    if k > 0 {
      assert Not(a, n) / 2 == Not(a / 2, n - 1);
      BitOfNot(a / 2, n - 1, k - 1);
    }
  }

  lemma {:induction false} OrFits(a: nat, b: nat, n: nat)
    requires a < Pow2(n) && b < Pow2(n)
    ensures Or(a, b) < Pow2(n)
  {
    if a > 0 && b > 0 {
      OrFits(a / 2, b / 2, n - 1);
    }
  }

  lemma {:induction false} XorFits(a: nat, b: nat, n: nat)
    requires a < Pow2(n) && b < Pow2(n)
    ensures Xor(a, b) < Pow2(n)
  {
    if a > 0 && b > 0 {
      XorFits(a / 2, b / 2, n - 1);
    }
  }

  lemma {:induction false} MaskFits(k: nat, n: nat)
    requires k < n
    ensures Pow2(k) < Pow2(n)
  {
    if n > 1 && k > 0 {
      MaskFits(k - 1, n - 1);
    }
  }

  /** A word is not 0 exactly if it has a bit. */
  lemma {:induction false} SomeBit(w: nat) returns (k: nat)
    requires w > 0
    ensures Bit(w, k)
  {
    if w % 2 == 1 {
      k := 0;
    } else {
      k := SomeBit(w / 2);
      k := k + 1;
    }
  }

  /** Testing against a mask is testing the bit. */
  lemma MaskTest(w: nat, k: nat)
    ensures And(w, Pow2(k)) != 0 <==> Bit(w, k)
  {
    BitOfAnd(w, Pow2(k), k);
    BitOfMask(k, k);
    ZeroBits(k);
    if And(w, Pow2(k)) != 0 {
      var j := SomeBit(And(w, Pow2(k)));
      BitOfAnd(w, Pow2(k), j);
      BitOfMask(k, j);
    }
  }

  // ---------- powers of two ----------

  /** X with its lowest-order bit set to 1 turned off; 0 - 1 is all ones. */
  function TurnOffLeast1Bit(x: nat): nat {
    if x == 0 then 0 else And(x, x - 1)
  }

  predicate IsPowerOf2(x: nat) {
    x != 0 && TurnOffLeast1Bit(x) == 0
  }

  /** The greatest power of two that is at most X. */
  function Top(x: nat): (p: nat)
    requires x > 0
    ensures p <= x < 2 * p
  {
    if x == 1 then 1 else 2 * Top(x / 2)
  }

  lemma TurnOffStep(x: nat)
    requires x > 0
    ensures TurnOffLeast1Bit(x) == if x % 2 == 1 then x - 1 else 2 * TurnOffLeast1Bit(x / 2)
  {
    if x % 2 == 1 {
      AndSelf(x / 2);
    } else {
      assert (x - 1) / 2 == x / 2 - 1;
    }
  }

  /** Turning off a bit that is not the only one leaves the top bit; otherwise the top bit was all. */
  lemma {:induction false} TurnOffKeepsTop(x: nat)
    requires x > 0
    ensures var y := TurnOffLeast1Bit(x);
            y < x && if y == 0 then x == Top(x) else Top(y) == Top(x)
  {
    TurnOffStep(x);
    if x % 2 == 1 {
      assert (x - 1) / 2 == x / 2;
    } else {
      TurnOffKeepsTop(x / 2);
      DoubleTop(x / 2);
      DoubleTop(TurnOffLeast1Bit(x / 2));
    }
  }

  lemma DoubleTop(x: nat)
    ensures x > 0 ==> Top(2 * x) == 2 * Top(x)
  {
    assert 2 * x / 2 == x;
  }

  lemma {:induction false} TopIsPower(x: nat)
    requires x > 0
    ensures exists k: nat :: Top(x) == Pow2(k)
  {
    if x == 1 {
      assert Top(x) == Pow2(0);
    } else {
      TopIsPower(x / 2);
      var k: nat :| Top(x / 2) == Pow2(k);
      assert Top(x) == Pow2(k + 1);
    }
  }

  lemma {:induction false} PowerTurnsOff(k: nat)
    ensures IsPowerOf2(Pow2(k))
  {
    if k > 0 {
      PowerTurnsOff(k - 1);
      TurnOffStep(Pow2(k));
    }
  }

  /** is_power_of_2 is right. */
  lemma PowersOf2(x: nat)
    ensures IsPowerOf2(x) <==> exists k: nat :: x == Pow2(k)
  {
    if IsPowerOf2(x) {
      TurnOffKeepsTop(x);
      TopIsPower(x);
    }
    if k: nat :| x == Pow2(k) {
      PowerTurnsOff(k);
    }
  }
}
