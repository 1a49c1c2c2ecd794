/** ustar archive headers (lib/ustar.c), with the octal output of lib/stdio.c.  Characters are bytes; a C string is the
    bytes before its null terminator.  The layout is that of the "ustar Interchange Format" section of the pax utility
    in IEEE Std 1003.1-2001. */
module Ustar {
  import opened Collections

  type Bytes = seq<int>

  ghost predicate IsBytes(s: Bytes) {
    forall i :: 0 <= i < |s| ==> 0 <= s[i] <= 255
  }

  ghost predicate CString(s: Bytes) {
    forall i :: 0 <= i < |s| ==> 1 <= s[i] <= 255
  }

  const ZERO: int := 48
  const SPACE: int := 32
  const DOT: int := 46
  const SLASH: int := 47
  const REGULAR: int := 48
  const DIRECTORY: int := 53
  const ULONG_MAX: int := 0xFFFF_FFFF
  const INT_MAX: int := 0x7FFF_FFFF
  const INT_MIN: int := -0x8000_0000

  function Zeros(n: nat): (s: Bytes)
    ensures |s| == n && forall i :: 0 <= i < n ==> s[i] == 0
  {
    seq(n, _ => 0)
  }

  // ---------- names ----------

  /** The name starts with a slash, "./" or "../". */
  predicate Antisocial(s: Bytes) {
    || (|s| >= 1 && s[0] == SLASH)
    || (|s| >= 2 && s[0] == DOT && s[1] == SLASH)
    || (|s| >= 3 && s[0] == DOT && s[1] == DOT && s[2] == SLASH)
  }

  /** strchr for a slash, less the terminator: the position of the first slash, or the length. */
  function FirstSlash(s: Bytes): (i: nat)
    ensures i <= |s|
    ensures i < |s| ==> s[i] == SLASH
    ensures forall j :: 0 <= j < i ==> s[j] != SLASH
  {
    if s == [] || s[0] == SLASH then 0 else 1 + FirstSlash(s[1..])
  }

  lemma AntisocialHasSlash(s: Bytes)
    requires Antisocial(s)
    ensures FirstSlash(s) < |s|
  {
  }

  ghost function Dropped(s: Bytes): Bytes
    decreases |s|
  {
    if Antisocial(s) then AntisocialHasSlash(s); Dropped(s[FirstSlash(s) + 1..]) else s
  }

  ghost function Strip(s: Bytes): Bytes {
    var r := Dropped(s);
    if r == [] || r == [DOT, DOT] then [DOT] else r
  }

  lemma {:induction false} DroppedIsSocial(s: Bytes)
    ensures !Antisocial(Dropped(s)) && (CString(s) ==> CString(Dropped(s)))
    decreases |s|
  {
    if Antisocial(s) {
      AntisocialHasSlash(s);
      DroppedIsSocial(s[FirstSlash(s) + 1..]);
    }
  }

  /** Stripping a second time changes nothing. */
  lemma StripIdempotent(s: Bytes)
    ensures Strip(Strip(s)) == Strip(s) && (CString(s) ==> CString(Strip(s))) && Strip(s) != []
  {
    DroppedIsSocial(s);
    assert !Antisocial([DOT]);
  }

  /** What is left never leads out of the directory it is put in by its first step. */
  lemma StripIsSocial(s: Bytes)
    ensures !Antisocial(Strip(s)) && Strip(s) != [DOT, DOT]
  {
    DroppedIsSocial(s);
    assert !Antisocial([DOT]);
  }

  lemma {:induction false} DroppedShorter(s: Bytes)
    ensures |Dropped(s)| <= |s|
    decreases |s|
  {
    if Antisocial(s) {
      AntisocialHasSlash(s);
      DroppedShorter(s[FirstSlash(s) + 1..]);
    }
  }

  lemma StripShorter(s: Bytes)
    ensures |Strip(s)| <= |s| || Strip(s) == [DOT]
  {
    DroppedShorter(s);
  }

  /** S is made of the prefixes "/", "./" and "../" only. */
  predicate OnlyPrefixes(s: Bytes) {
    || s == []
    || (s[0] == SLASH && OnlyPrefixes(s[1..]))
    || (|s| >= 2 && s[0] == DOT && s[1] == SLASH && OnlyPrefixes(s[2..]))
    || (|s| >= 3 && s[0] == DOT && s[1] == DOT && s[2] == SLASH && OnlyPrefixes(s[3..]))
  }

  lemma {:induction false} DropsPrefixes(s: Bytes) returns (dropped: Bytes)
    ensures s == dropped + Dropped(s) && OnlyPrefixes(dropped)
    decreases |s|
  {
    if Antisocial(s) {
      AntisocialHasSlash(s);
      var n := FirstSlash(s) + 1;
      var more := DropsPrefixes(s[n..]);
      dropped := s[..n] + more;
      assert n <= 3 && dropped[n..] == more;
    } else {
      dropped := [];
    }
  }

  /** Stripping takes nothing but prefixes away, as long as there are any; a name that is left empty or ".." becomes
      ".". */
  lemma StripDropsPrefixes(s: Bytes) returns (dropped: Bytes, rest: Bytes)
    ensures s == dropped + rest && OnlyPrefixes(dropped) && !Antisocial(rest)
    ensures Strip(s) == if rest == [] || rest == [46, 46] then [46] else rest
  {
    dropped := DropsPrefixes(s);
    rest := Dropped(s);
    DroppedIsSocial(s);
  }

  /** strip_antisocial_prefixes. */
  method StripPrefixes(name: Bytes) returns (r: Bytes)
    ensures r == Strip(name)
  {
    r := name;
    while Antisocial(r)
      invariant Dropped(r) == Dropped(name)
      decreases |r|
    {
      AntisocialHasSlash(r);
      r := r[FirstSlash(r) + 1..];
    }
    if r == [] || r == [DOT, DOT] {
      r := [DOT];
    }
  }

  // ---------- octal numbers ----------

  function Digits(v: nat): Bytes {
    if v == 0 then [] else Digits(v / 8) + [ZERO + v % 8]
  }

  function Pad(n: int): (s: Bytes)
    ensures |s| == (if n < 0 then 0 else n) && forall i :: 0 <= i < |s| ==> s[i] == ZERO
  {
    if n < 0 then [] else seq(n, _ => ZERO)
  }

  /** What the conversion %0Wo puts out. */
  function Octal(v: nat, width: nat): Bytes {
    var d := if v == 0 then [ZERO] else Digits(v);
    Pad(width - |d|) + d
  }

  function Reverse(s: Bytes): Bytes {
    if s == [] then [] else Reverse(s[1..]) + [s[0]]
  }

  /** format_integer for %0Wo: the digits come out in reverse, and are put out after the padding. */
  method FormatOctal(value: nat, width: nat) returns (out: Bytes)
    ensures out == Octal(value, width)
  {
    var buf := CollectDigits(value);
    ReverseLength(buf);
    out := PutReversed(Pad(width - |buf|), buf);
  }

  /** The digit and precision loops of format_integer. */
  method CollectDigits(value: nat) returns (buf: Bytes)
    ensures Reverse(buf) == if value == 0 then [ZERO] else Digits(value)
  {
    var v := value;
    buf := [];
    while v > 0
      invariant Digits(v) + Reverse(buf) == Digits(value) && (buf == [] <==> v == value)
    {
      ReverseLast(buf, ZERO + v % 8);
      assert Digits(v / 8) + [ZERO + v % 8] + Reverse(buf) == Digits(v / 8) + ([ZERO + v % 8] + Reverse(buf));
      buf := buf + [ZERO + v % 8];
      v := v / 8;
    }
    assert Digits(0) + Reverse(buf) == Reverse(buf);
    while |buf| < 1
      invariant |buf| < 1 ==> value == 0
      invariant Reverse(buf) == if buf == [ZERO] && value == 0 then [ZERO] else Digits(value)
    {
      buf := buf + [ZERO];
    }
  }

  /** The output loop of format_integer, after what is out already. */
  method PutReversed(start: Bytes, digits: Bytes) returns (out: Bytes)
    ensures out == start + Reverse(digits)
  {
    var buf := digits;
    out := start;
    while buf != []
      invariant out + Reverse(buf) == start + Reverse(digits)
      decreases |buf|
    {
      var n := |buf| - 1;
      ReverseLast(buf[..n], buf[n]);
      assert buf[..n] + [buf[n]] == buf;
      assert out + ([buf[n]] + Reverse(buf[..n])) == out + [buf[n]] + Reverse(buf[..n]);
      out := out + [buf[n]];
      buf := buf[..n];
    }
    assert out + Reverse([]) == out;
  }

  lemma {:induction false} ReverseLast(s: Bytes, x: int)
    ensures Reverse(s + [x]) == [x] + Reverse(s)
  {
    if s != [] {
      assert (s + [x])[1..] == s[1..] + [x];
      ReverseLast(s[1..], x);
    }
  }

  lemma {:induction false} ReverseLength(s: Bytes)
    ensures |Reverse(s)| == |s|
  {
    if s != [] {
      ReverseLength(s[1..]);
    }
  }

  ghost predicate IsOctal(s: Bytes) {
    forall i :: 0 <= i < |s| ==> ZERO <= s[i] <= ZERO + 7
  }

  ghost function ValueOf(s: Bytes): int {
    if s == [] then 0 else 8 * ValueOf(s[..|s| - 1]) + s[|s| - 1] - ZERO
  }

  lemma {:induction false} DigitsValue(v: nat)
    ensures IsOctal(Digits(v)) && ValueOf(Digits(v)) == v
  {
    if v > 0 {
      DigitsValue(v / 8);
      assert Digits(v)[..|Digits(v)| - 1] == Digits(v / 8);
    }
  }

  lemma {:induction false} PaddedValue(pad: Bytes, s: Bytes)
    requires IsOctal(s) && forall i :: 0 <= i < |pad| ==> pad[i] == ZERO
    ensures IsOctal(pad + s) && ValueOf(pad + s) == ValueOf(s)
  {
    var r := pad + s;
    if s != [] {
      var n := |s| - 1;
      assert r[..|r| - 1] == pad + s[..n];
      PaddedValue(pad, s[..n]);
    } else if pad != [] {
      assert r[..|r| - 1] == pad[..|pad| - 1] + [];
      PaddedValue(pad[..|pad| - 1], []);
    }
  }

  lemma {:induction false} DigitCount(v: nat, w: nat)
    ensures |Digits(v)| <= w <==> v < Power8(w)
  {
    if v > 0 {
      assert |Digits(v)| == |Digits(v / 8)| + 1;
      if w > 0 {
        DigitCount(v / 8, w - 1);
      }
    }
  }

  function Power8(w: nat): (p: nat)
    ensures p > 0
  {
    if w == 0 then 1 else 8 * Power8(w - 1)
  }

  /** What is put out has the value of the number, and it fills a field of W exactly when the number is below 8^W. */
  lemma OctalValue(v: nat, w: nat)
    requires w > 0
    ensures |Octal(v, w)| == w <==> v < Power8(w)
    ensures IsOctal(Octal(v, w)) && ValueOf(Octal(v, w)) == v && Octal(v, w) != []
  {
    DigitsValue(v);
    DigitCount(v, w);
    ZeroValue();
    var d := if v == 0 then [ZERO] else Digits(v);
    PaddedValue(Pad(w - |d|), d);
  }

  lemma ZeroValue()
    ensures IsOctal([ZERO]) && ValueOf([ZERO]) == 0
  {
    assert [ZERO][..0] == [];
  }

  /** parse_octal_field from OFS on, with VALUE read so far. */
  function ParseFrom(s: Bytes, ofs: nat, value: nat): Option<int>
    requires ofs <= |s|
    decreases |s| - ofs
  {
    if ofs == |s| then None
    else
      var c := s[ofs];
      if ZERO <= c <= ZERO + 7 then
        if value > ULONG_MAX / 8 then None else ParseFrom(s, ofs + 1, c - ZERO + value * 8)
      else if c == SPACE || c == 0 then
        if ofs > 0 then Some(value) else None
      else None
  }

  /** The first N bytes of S are octal digits with value V, and a space or a null byte ends them. */
  ghost predicate OctalField(s: Bytes, n: int, v: int) {
    && 0 < n < |s| && IsOctal(s[..n]) && (s[n] == SPACE || s[n] == 0)
    && v == ValueOf(s[..n]) <= ULONG_MAX
  }

  /** parse_octal_field: a value is read exactly where there is a field with it. */
  method ParseOctal(s: Bytes) returns (r: Option<int>)
    ensures r == ParseFrom(s, 0, 0)
    ensures r.Some? ==> exists n :: OctalField(s, n, r.value)
    ensures r.None? ==> forall n, v :: !OctalField(s, n, v)
  {
    OctalFields(s);
    var ofs, value := 0, 0;
    while ofs < |s|
      invariant 0 <= ofs <= |s| && value >= 0
      invariant ParseFrom(s, ofs, value) == ParseFrom(s, 0, 0)
    {
      var c := s[ofs];
      if ZERO <= c <= ZERO + 7 {
        if value > ULONG_MAX / 8 {
          return None;
        }
        value := c - ZERO + value * 8;
      } else if c == SPACE || c == 0 {
        return if ofs > 0 then Some(value) else None;
      } else {
        return None;
      }
      ofs := ofs + 1;
    }
    return None;
  }

  lemma {:induction false} PrefixValue(s: Bytes, k: nat)
    requires IsOctal(s) && k <= |s|
    ensures 0 <= ValueOf(s[..k]) <= ValueOf(s)
  {
    if k < |s| {
      var n := |s| - 1;
      assert s[..n][..k] == s[..k];
      PrefixValue(s[..n], k);
    } else {
      assert s[..k] == s;
      if s != [] {
        PrefixValue(s[..|s| - 1], |s| - 1);
      }
    }
  }

  /** With the first K digits read, a field gives its value. */
  lemma {:induction false} FieldParses(s: Bytes, n: int, v: int, k: nat)
    requires OctalField(s, n, v) && k <= n
    ensures 0 <= ValueOf(s[..k]) && ParseFrom(s, k, ValueOf(s[..k])) == Some(v)
    decreases n - k
  {
    NextPrefix(s, n, k);
    if k < n {
      FieldParses(s, n, v, k + 1);
    }
  }

  lemma NextPrefix(s: Bytes, n: nat, k: nat)
    requires k <= n < |s| && IsOctal(s[..n])
    ensures 0 <= ValueOf(s[..k]) <= ValueOf(s[..n])
    ensures k < n ==> ValueOf(s[..k + 1]) == 8 * ValueOf(s[..k]) + s[k] - ZERO <= ValueOf(s[..n])
    ensures k < n ==> s[k] == s[..n][k]
  {
    assert s[..n][..k] == s[..k];
    PrefixValue(s[..n], k);
    if k < n {
      assert s[..n][..k + 1] == s[..k + 1] && s[..k + 1][..k] == s[..k];
      PrefixValue(s[..n], k + 1);
    }
  }

  /** With the first K bytes read as digits, a value read is the value of a field. */
  lemma {:induction false} ParsedIsField(s: Bytes, k: nat) returns (n: int)
    requires k <= |s| && IsOctal(s[..k]) && 0 <= ValueOf(s[..k]) <= ULONG_MAX
    requires ParseFrom(s, k, ValueOf(s[..k])).Some?
    ensures OctalField(s, n, ParseFrom(s, k, ValueOf(s[..k])).value)
    decreases |s| - k
  {
    if ZERO <= s[k] <= ZERO + 7 {
      assert s[..k + 1][..k] == s[..k];
      n := ParsedIsField(s, k + 1);
    } else {
      n := k;
    }
  }

  lemma OctalFields(s: Bytes)
    ensures var r := ParseFrom(s, 0, 0);
            && (r.Some? ==> exists n :: OctalField(s, n, r.value))
            && (r.None? ==> forall n, v :: !OctalField(s, n, v))
  {
    assert s[..0] == [];
    if ParseFrom(s, 0, 0).Some? {
      var n := ParsedIsField(s, 0);
    } else {
      forall n, v ensures !OctalField(s, n, v) {
        if OctalField(s, n, v) {
          FieldParses(s, n, v, 0);
        }
      }
    }
  }

  /** What %0Wo writes, parse_octal_field reads. */
  lemma OctalRoundTrip(v: nat, w: nat)
    requires v < Power8(w) && w > 0 && v <= ULONG_MAX
    ensures |Octal(v, w)| == w && ParseFrom(Octal(v, w) + [0], 0, 0) == Some(v)
  {
    OctalValue(v, w);
    var s := Octal(v, w);
    assert (s + [0])[..|s|] == s && (s + [0])[..0] == [];
    FieldParses(s + [0], |s|, v, 0);
  }
}
