/** 64-bit division built from the 64-by-32-bit DIVL instruction (lib/arithmetic.c).

    Machine integers are ranges of `int`.  An unsigned intermediate result is given its C type,
    so the verifier also proves that it does not wrap around; where the C code does rely on
    wrap-around or truncation it is written out (`% TWO32`, `% TWO64`, `WrapI32`, `WrapI64`). */
module Arithmetic {

  const TWO31: int := 0x8000_0000
  const TWO32: int := 0x1_0000_0000
  const TWO63: int := 0x8000_0000_0000_0000
  const TWO64: int := 0x1_0000_0000_0000_0000

  type U32 = x: int | 0 <= x < TWO32
  type U64 = x: int | 0 <= x < TWO64
  type I32 = x: int | -TWO31 <= x < TWO31
  type I64 = x: int | -TWO63 <= x < TWO63

  /** Conversion of an arbitrary integer to int64_t (two's complement). */
  function WrapI64(x: int): (r: int)
    ensures -TWO63 <= r < TWO63
    ensures (x - r) % TWO64 == 0
  {
    var u := x % TWO64;
    if u < TWO63 then u else u - TWO64
  }

  /** Conversion of an arbitrary integer to int32_t (two's complement). */
  function WrapI32(x: int): (r: int)
    ensures -TWO31 <= r < TWO31
    ensures (x - r) % TWO32 == 0
  {
    var u := x % TWO32;
    if u < TWO31 then u else u - TWO32
  }

  function Abs(x: int): nat {
    if x < 0 then -x else x
  }

  /** C's quotient: truncated toward zero. */
  function TruncDiv(n: int, d: int): int
    requires d != 0
  {
    if (n < 0) == (d < 0) then Abs(n) / Abs(d) else -(Abs(n) / Abs(d))
  }

  function Pow2(k: nat): (p: nat)
    ensures p >= 1
  {
    if k == 0 then 1 else 2 * Pow2(k - 1)
  }

  lemma {:induction false} Pow2Add(a: nat, b: nat)
    ensures Pow2(a + b) == Pow2(a) * Pow2(b)
  {
    if a == 0 {
    } else {
      Pow2Add(a - 1, b);
      assert Pow2(a + b) == 2 * Pow2(a - 1 + b);
      Double(Pow2(a - 1), Pow2(b));
    }
  }

  // ---------- floor division without a division sign ----------

  /** Q is the quotient of N by D. */
  ghost predicate Quot(n: int, d: int, q: int) {
    q * d <= n < q * d + d
  }

  lemma MulMono(a: int, b: int, c: nat)
    ensures a <= b ==> a * c <= b * c
  {
  }

  lemma MulGap(a: int, b: int, c: nat, gap: nat)
    ensures b >= a + gap ==> b * c >= a * c + gap * c
  {
    MulMono(a + gap, b, c);
    assert (a + gap) * c == a * c + gap * c;
  }

  lemma QuotUnique(n: int, d: int, q: int, k: int)
    requires d > 0 && Quot(n, d, q) && Quot(n, d, k)
    ensures q == k
  {
    MulGap(k, q, d, 1);
    MulGap(q, k, d, 1);
  }

  lemma QuotIsDiv(n: int, d: int, q: int)
    requires d > 0 && Quot(n, d, q)
    ensures n / d == q
  {
    DivIsQuot(n, d);
    QuotUnique(n, d, q, n / d);
  }

  lemma DivIsQuot(n: int, d: int)
    requires d > 0
    ensures Quot(n, d, n / d)
  {
  }

  lemma QuotQuot(n: int, a: nat, b: nat, x: int, y: int)
    requires Quot(n, a, x) && Quot(x, b, y)
    ensures Quot(n, a * b, y)
  {
    MulMono(y * b, x, a);
    MulMono(x + 1, y * b + b, a);
    assert (y * b) * a == y * (a * b);
    assert (y * b + b) * a == y * (a * b) + a * b;
    assert (x + 1) * a == x * a + a;
  }

  lemma QuotBound(n: nat, d: nat, q: int)
    requires d > 0 && Quot(n, d, q)
    ensures 0 <= q <= n
  {
    MulGap(q, 0, d, 1);
    MulMono(1, d, q);
  }

  // ---------- divl and nlz ----------

  /** The DIVL instruction traps unless the quotient fits in 32 bits; that is what it demands
      of its callers. */
  method Divl(n: U64, d: U32) returns (q: U32)
    requires 0 < d && n < TWO32 * d
    ensures Quot(n, d, q)
  {
    DivIsQuot(n, d);
    QuotBound(n, d, n / d);
    MulMono(TWO32, n / d, d);
    q := n / d;
  }

  /** X shifted left by N. */
  ghost function Shl(x: nat, n: nat): nat {
    if n == 0 then x else 2 * Shl(x, n - 1)
  }

  lemma Double(a: int, b: int)
    ensures 2 * (a * b) == a * (2 * b) == (2 * a) * b
  {
  }

  lemma {:induction false} ShlIsMul(x: nat, n: nat)
    ensures Shl(x, n) == x * Pow2(n)
  {
    if n > 0 {
      ShlIsMul(x, n - 1);
      Double(x, Pow2(n - 1));
    }
  }

  lemma {:induction false} ShlAdd(x: nat, n: nat, k: nat)
    ensures Shl(x, n + k) == Shl(Shl(x, n), k)
  {
    if k > 0 {
      ShlAdd(x, n, k - 1);
      assert n + k - 1 == n + (k - 1);
    }
  }

  lemma Pow2Values()
    ensures Pow2(0) == 1 && Pow2(1) == 2 && Pow2(2) == 4 && Pow2(4) == 0x10
    ensures Pow2(8) == 0x100 && Pow2(16) == 0x1_0000
    ensures Pow2(31) == TWO31 && Pow2(32) == TWO32
  {
    assert Pow2(4) == 0x10;
    assert Pow2(8) == 0x100 by { Pow2Add(4, 4); }
    assert Pow2(16) == 0x1_0000 by { Pow2Add(8, 8); }
    assert Pow2(32) == TWO32 by { Pow2Add(16, 16); }
    assert Pow2(32) == 2 * Pow2(31);
  }

  /** One of the five tests of nlz: if the top K bits of X are clear, shift them out. */
  method NlzStep(x: U32, n: nat, k: nat, p: U32, limit: U32, ghost x0: nat) returns (x': U32, n': nat)
    requires x == Shl(x0, n) && p == Pow2(k) && p * (limit + 1) <= TWO32 && limit < x * p
    ensures x' == Shl(x0, n') && limit < x' && n <= n' <= n + k
  {
    x', n' := x, n;
    if x <= limit {
      ShlAdd(x0, n, k);
      ShlIsMul(x, k);
      ShiftFits(x, p, limit);
      n', x' := n + k, x * p;
    }
  }

  lemma ShiftFits(x: nat, p: nat, limit: nat)
    requires x <= limit && p * (limit + 1) <= TWO32 && p > 0
    ensures x * p < TWO32
  {
    MulMono(x + 1, limit + 1, p);
  }

  /** Number of leading zeros of a nonzero word: the shift that moves its top bit to bit 31. */
  method Nlz(x0: U32) returns (n: nat)
    requires x0 != 0
    ensures n <= 31
    ensures TWO31 <= x0 * Pow2(n) < TWO32
  {
    Pow2Values();
    var x: U32 := x0;
    x, n := NlzStep(x, 0, 16, 0x1_0000, 0x0000FFFF, x0);
    x, n := NlzStep(x, n, 8, 0x100, 0x00FFFFFF, x0);
    x, n := NlzStep(x, n, 4, 0x10, 0x0FFFFFFF, x0);
    x, n := NlzStep(x, n, 2, 4, 0x3FFFFFFF, x0);
    x, n := NlzStep(x, n, 1, 2, 0x7FFFFFFF, x0);
    ShlIsMul(x0, n);
  }

  /** Only one count of leading zeros is right. */
  lemma NlzUnique(x: nat, m: nat, n: nat)
    requires TWO31 <= x * Pow2(m) < TWO32
    requires TWO31 <= x * Pow2(n) < TWO32
    ensures m == n
  {
    NlzNotSmaller(x, m, n);
    NlzNotSmaller(x, n, m);
  }

  lemma NlzNotSmaller(x: nat, m: nat, n: nat)
    requires TWO31 <= x * Pow2(m)
    requires x * Pow2(n) < TWO32
    ensures n <= m
  {
    ShlIsMul(x, m);
    ShlIsMul(x, n);
    if m < n {
      ShlAdd(x, m, n - m);
      ShlGrows(Shl(x, m), n - m);
    }
  }

  lemma {:induction false} ShlGrows(x: nat, k: nat)
    ensures k > 0 ==> Shl(x, k) >= 2 * x
  {
    if k > 1 {
      ShlGrows(x, k - 1);
    }
  }

  // ---------- udiv64 by one word ----------

  /** Schoolbook division by a single 32-bit digit: the high digit N1 gives quotient T and
      remainder R, which is carried into the low digit. */
  lemma DivideByDigit(n1: nat, n0: nat, d: nat, t: nat, r: nat, low: nat)
    requires n1 == t * d + r && r < d && n0 < TWO32
    requires Quot(TWO32 * r + n0, d, low)
    ensures Quot(TWO32 * n1 + n0, d, low + TWO32 * t)
  {
    assert (low + TWO32 * t) * d == low * d + TWO32 * (t * d);
  }

  /** udiv64 for a divisor of one word. */
  method UdivByWord(n: U64, d: U32) returns (q: U64)
    requires d != 0
    ensures Quot(n, d, q)
  {
    var n1: U32, n0: U32 := n / TWO32, n % TWO32;
    var t, r := DivModWord(n1, d);
    var low := Divl(TWO32 * r + n0, d);
    DivideByDigit(n1, n0, d, t, r, low);
    QuotBound(n, d, low + TWO32 * t);
    q := low + TWO32 * t;
  }

  /** 32-bit division and remainder, which the machine has. */
  method DivModWord(n: U32, d: U32) returns (q: U32, r: U32)
    requires d != 0
    ensures n == q * d + r && r < d
  {
    DivIsQuot(n, d);
    QuotBound(n, d, n / d);
    q, r := n / d, n % d;
  }

  // ---------- udiv64 by two words ----------

  /** K is the quotient by the true divisor C + E and K' the quotient by C, which is C + E
      rounded down to a multiple of Q.  If C is large enough against the dividend, the estimate
      K' is exact or one too large. */
  lemma EstimateOffByOne(n: nat, c: nat, q: nat, e: nat, k: nat, k': nat)
    requires n < TWO64 && (q == 2 || q >= 4) && c >= TWO31 * q && e < q
    requires Quot(n, c + e, k) && Quot(n, c, k')
    ensures k <= k' <= k + 1
  {
    assert k * (c + e) == k * c + k * e;
    EstimateSlack(n, c, e, q, k);
    MulGap(k', k, c, 1);
    MulGap(k, k', c, 2);
  }

  /** What rounding the divisor C + E down to C adds to the quotient is less than one. */
  lemma EstimateSlack(n: nat, c: nat, e: nat, q: nat, k: nat)
    requires n < TWO64 && e < q && (q == 2 || q >= 4) && c >= TWO31 * q
    requires k * c + k * e <= n
    ensures k * e + e <= c
  {
    if q == 2 {
      if e == 1 {
        MulMono(TWO32, c, k);
        MulMono(TWO32, k, TWO32);
      }
    } else {
      var m := k * q;
      assert TWO31 * m <= n by {
        MulMono(TWO31 * q, c, k);
        assert (TWO31 * q) * k == TWO31 * m;
      }
      assert k * e <= k * (q - 1) by { MulMono(e, q - 1, k); }
      assert k * (q - 1) == m - k;
      if k <= 1 {
        assert m <= q;
      }
    }
  }

  /** The top word of the normalized divisor, times Q = 2^(32-s), is the divisor rounded down
      to a multiple of Q. */
  lemma NormalizedDivisor(d: nat, p: nat, q: nat, top: nat, rem: nat)
    requires p > 0 && p * q == TWO32 && d * p == top * TWO32 + rem && rem < TWO32
    ensures 0 <= d - top * q < q
  {
    assert (d - top * q) * p == rem by { assert (top * q) * p == top * (p * q); }
    MulGap(d - top * q, 0, p, 1);
    MulMono(q, d - top * q, p);
  }

  lemma DivisorRange(d: nat, d1: nat, p: nat, q: nat)
    requires p * q == TWO32 && d1 * TWO32 <= d < d1 * TWO32 + TWO32
    requires TWO31 <= d1 * p < TWO32
    ensures TWO63 <= d * p < TWO64
  {
    MulMono(q, d1, p);
    assert d1 < q;
    MulMono(d + 1, q * TWO32, p);
    assert (q * TWO32) * p == TWO32 * (p * q);
    MulMono(d1 * TWO32, d, p);
    assert (d1 * TWO32) * p == TWO32 * (d1 * p);
  }

  /** The quotient computed from the top 32 bits of the normalized divisor: exact or one too
      large. */
  method Estimate(n: U64, d: U64, ghost k: nat) returns (q: U64)
    requires TWO32 <= d && Quot(n, d, k)
    ensures k <= q <= k + 1
  {
    var s := Nlz(d / TWO32);
    ghost var w := Pow2(32 - s);
    assert Pow2(s) * w == TWO32 && w == 2 * Pow2(31 - s) by {
      Pow2Values();
      Pow2Add(s, 32 - s);
    }
    DivisorRange(d, d / TWO32, Pow2(s), w);
    var shifted: U64 := d * Pow2(s);
    var half: U64, top: U32 := n / 2, shifted / TWO32;
    var wide := Divl(half, top);
    q := DivPow2(wide, Pow2(31 - s));
    EstimateCorrect(n, d, Pow2(s), Pow2(31 - s), top, wide, q, k);
  }

  method DivPow2(x: U32, h: nat) returns (y: U32)
    requires h > 0
    ensures Quot(x, h, y)
  {
    DivIsQuot(x, h);
    QuotBound(x, h, x / h);
    y := x / h;
  }

  lemma EstimateCorrect(n: nat, d: nat, p: nat, h: nat, top: nat, wide: nat, q: nat, k: nat)
    requires n < TWO64 && p > 0 && h > 0 && p * (2 * h) == TWO32 && TWO31 <= top
    requires top * TWO32 <= d * p < top * TWO32 + TWO32
    requires Quot(n / 2, top, wide) && Quot(wide, h, q) && Quot(n, d, k)
    ensures k <= q <= k + 1
  {
    var w := 2 * h;
    NormalizedDivisor(d, p, w, top, d * p - top * TWO32);
    QuotQuot(n / 2, top, h, wide, q);
    QuotQuot(n, 2, top * h, n / 2, q);
    assert 2 * (top * h) == top * w;
    MulMono(TWO31, top, w);
    EstimateOffByOne(n, top * w, w, d - top * w, k, q);
  }

  /** The final test of udiv64 tells an exact estimate from one that is one too large. */
  lemma Correction(n: nat, d: nat, q: nat, k: nat)
    requires 0 < d <= n && Quot(n, d, k) && k <= q <= k + 1
    ensures q >= 1 && 0 <= n - (q - 1) * d <= n
    ensures k == if n - (q - 1) * d < d then q - 1 else q
  {
    assert (q - 1) * d == q * d - d && (k + 1) * d == k * d + d;
    assert k >= 1;
    MulMono(0, k - 1, d);
  }

  // ---------- the four division routines ----------

  /** udiv64: the exact quotient for every dividend and every nonzero divisor; both calls of
      Divl meet its no-trap condition. */
  method Udiv64(n: U64, d: U64) returns (r: U64)
    requires d != 0
    ensures r == n / d
  {
    if d / TWO32 == 0 {
      r := UdivByWord(n, d);
      QuotIsDiv(n, d, r);
    } else if n < d {
      QuotIsDiv(n, d, 0);
      r := 0;
    } else {
      ghost var k := n / d;
      DivIsQuot(n, d);
      QuotBound(n, d, k);
      var q := Estimate(n, d, k);
      Correction(n, d, q, k);
      var rest: U64 := n - (q - 1) * d;
      r := if rest < d then q - 1 else q;
    }
  }

  /** umod64 returns only 32 bits: the remainder modulo 2^32. */
  method Umod64(n: U64, d: U64) returns (r: U32)
    requires d != 0
    ensures r == (n % d) % TWO32
    ensures r == n % d <==> n % d < TWO32
    ensures d <= TWO32 ==> r == n % d
  {
    var q := Udiv64(n, d);
    DivIsQuot(n, d);
    var rest: U64 := n - d * q;
    assert rest == n % d;
    r := rest % TWO32;
  }

  /** sdiv64 truncates toward zero for every pair but the one whose quotient is not an
      int64_t; that one gives INT64_MIN back. */
  method Sdiv64(n: I64, d: I64) returns (r: I64)
    requires d != 0
    ensures r == WrapI64(TruncDiv(n, d))
    ensures r == TruncDiv(n, d) <==> !(n == -TWO63 && d == -1)
    ensures n == -TWO63 && d == -1 ==> r == -TWO63
  {
    var q := Udiv64(Magnitude(n), Magnitude(d));
    r := if (n < 0) == (d < 0) then WrapI64(q) else WrapI64(0 - WrapI64(q));
    SignedQuotient(n, d, q, r);
  }

  /** The absolute value as a uint64_t, negated modulo 2^64 where needed. */
  function Magnitude(x: I64): (r: U64)
    ensures r == Abs(x)
  {
    if x >= 0 then x else (0 - x as int) % TWO64
  }

  lemma SignedQuotient(n: int, d: int, q: int, r: int)
    requires -TWO63 <= n < TWO63 && d != 0 && q == Abs(n) / Abs(d)
    requires r == if (n < 0) == (d < 0) then WrapI64(q) else WrapI64(0 - WrapI64(q))
    ensures r == WrapI64(TruncDiv(n, d))
    ensures r == TruncDiv(n, d) <==> !(n == -TWO63 && d == -1)
    ensures n == -TWO63 && d == -1 ==> r == -TWO63
  {
    QuotientMagnitude(Abs(n), Abs(d));
    WrapSmall(q);
  }

  lemma WrapSmall(q: int)
    requires 0 <= q <= TWO63
    ensures WrapI64(q) == if q == TWO63 then -TWO63 else q
    ensures WrapI64(0 - WrapI64(q)) == 0 - q == WrapI64(0 - q)
  {
  }

  lemma QuotientMagnitude(n: nat, d: nat)
    requires 0 < d && n <= TWO63
    ensures n / d <= TWO63
    ensures n / d == TWO63 <==> n == TWO63 && d == 1
  {
    DivIsQuot(n, d);
    MulMono(2, d, n / d);
    MulMono(1, d, n / d);
  }

  /** smod64 returns only 32 bits: the truncated remainder, wrapped to int32_t.  It is exact
      precisely when that remainder is an int32_t, in particular for every |d| <= 2^31. */
  method Smod64(n: I64, d: I64) returns (r: I32)
    requires d != 0
    ensures r == WrapI32(n - d * TruncDiv(n, d))
    ensures r == n - d * TruncDiv(n, d) <==> -TWO31 <= n - d * TruncDiv(n, d) < TWO31
    ensures Abs(d) <= TWO31 ==> r == n - d * TruncDiv(n, d)
  {
    var q := Sdiv64(n, d);
    ghost var t := TruncDiv(n, d);
    TruncRemainder(n, d);
    WrapProduct(n, d, q, t);
    WrapExact(n - d * t);
    r := WrapI32(WrapI64(n - d * q));
  }

  /** The truncated remainder is smaller than the divisor and has the sign of the dividend. */
  lemma TruncRemainder(n: int, d: int)
    requires d != 0
    ensures var rem := n - d * TruncDiv(n, d);
            Abs(rem) < Abs(d) && (rem == 0 || (rem < 0 <==> n < 0))
  {
    var a := Abs(n) / Abs(d);
    DivIsQuot(Abs(n), Abs(d));
    assert d * TruncDiv(n, d) == if n < 0 then -(a * Abs(d)) else a * Abs(d);
  }

  /** Computing modulo 2^64 and then keeping 32 bits forgets nothing that 32 bits keep. */
  lemma WrapProduct(n: int, d: int, q: int, t: int)
    requires (t - q) % TWO64 == 0
    ensures WrapI32(WrapI64(n - d * q)) == WrapI32(n - d * t)
  {
    var k := (t - q) / TWO64;
    var x, y := n - d * q, n - d * t;
    assert x == y + TWO64 * (d * k) by {
      assert t == q + TWO64 * k;
      assert d * t == d * q + TWO64 * (d * k) by { MulShift(d, q, k, t); }
    }
    var j := (x - WrapI64(x)) / TWO64;
    assert WrapI64(x) == y + TWO32 * (TWO32 * (d * k - j));
    WrapShift(y, TWO32 * (d * k - j));
  }

  lemma WrapExact(x: int)
    ensures WrapI32(x) == x <==> -TWO31 <= x < TWO31
  {
  }

  lemma MulShift(d: int, q: int, k: int, t: int)
    requires t == q + TWO64 * k
    ensures d * t == d * q + TWO64 * (d * k)
  {
    assert d * (TWO64 * k) == TWO64 * (d * k);
  }

  lemma WrapShift(y: int, c: int)
    ensures WrapI32(y + TWO32 * c) == WrapI32(y)
  {
    assert (y + TWO32 * c) % TWO32 == y % TWO32;
  }
}
