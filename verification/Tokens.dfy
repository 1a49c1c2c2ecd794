/** Tokens separated by blanks and tabs: strtok_r and strtok_c of lib/string.c.  A string in memory is its bytes, none
    of them 0, and a 0 after them. */
module Tokens {
  import opened Collections

  type Bytes = seq<int>

  datatype Token = Token(start: int, end: int)

  predicate IsDelimiter(c: int) {
    c == 32 || c == 9
  }

  function SkipDelimiters(s: Bytes, i: nat): (j: nat)
    requires i <= |s|
    ensures i <= j <= |s| && (j < |s| ==> !IsDelimiter(s[j]))
    ensures forall k :: i <= k < j ==> IsDelimiter(s[k])
    decreases |s| - i
  {
    if i < |s| && IsDelimiter(s[i]) then SkipDelimiters(s, i + 1) else i
  }

  function TokenEnd(s: Bytes, i: nat): (j: nat)
    requires i <= |s|
    ensures i <= j <= |s| && (j < |s| ==> IsDelimiter(s[j]))
    ensures forall k :: i <= k < j ==> !IsDelimiter(s[k])
    decreases |s| - i
  {
    if i < |s| && !IsDelimiter(s[i]) then TokenEnd(s, i + 1) else i
  }

  /** Where strtok_r goes on after a token that ends at B. */
  function Resume(s: Bytes, b: nat): nat {
    if b < |s| then b + 1 else b
  }

  /** The tokens from position I on, in order. */
  ghost function TokensFrom(s: Bytes, i: nat): (ts: seq<Token>)
    requires i <= |s|
    ensures forall k :: 0 <= k < |ts| ==> i <= ts[k].start < ts[k].end <= |s|
    decreases |s| - i
  {
    var a := SkipDelimiters(s, i);
    if a == |s| then []
    else
      var b := TokenEnd(s, a);
      [Token(a, b)] + TokensFrom(s, Resume(s, b))
  }

  /** A token is a longest stretch without delimiters. */
  ghost predicate IsToken(s: Bytes, t: Token) {
    && 0 <= t.start < t.end <= |s|
    && (forall k :: t.start <= k < t.end ==> !IsDelimiter(s[k]))
    && (t.start > 0 ==> IsDelimiter(s[t.start - 1])) && (t.end < |s| ==> IsDelimiter(s[t.end]))
  }

  /** The tokens are exactly these stretches. */
  lemma {:induction false} TokensAreStretches(s: Bytes, i: nat, t: Token)
    requires i <= |s| && (i > 0 ==> i == |s| || IsDelimiter(s[i - 1]))
    ensures t in TokensFrom(s, i) <==> IsToken(s, t) && t.start >= i
    decreases |s| - i
  {
    var a := SkipDelimiters(s, i);
    assert IsToken(s, t) ==> !IsDelimiter(s[t.start]);
    if a < |s| {
      var b := TokenEnd(s, a);
      assert !IsDelimiter(s[a]) && IsToken(s, Token(a, b));
      TokensAreStretches(s, Resume(s, b), t);
      if IsToken(s, t) && t.start >= i {
        SameStretch(s, i, t);
      }
      assert TokensFrom(s, i) == [Token(a, b)] + TokensFrom(s, Resume(s, b));
    }
  }

  /** A stretch from I on is the next token or lies after it. */
  lemma SameStretch(s: Bytes, i: nat, t: Token)
    requires i <= |s| && IsToken(s, t) && t.start >= i && SkipDelimiters(s, i) < |s|
    ensures var a := SkipDelimiters(s, i);
            t == Token(a, TokenEnd(s, a)) || t.start >= Resume(s, TokenEnd(s, a))
  {
    var a := SkipDelimiters(s, i);
    var b := TokenEnd(s, a);
    assert !IsDelimiter(s[t.start]);
    assert t.start >= a;
    if t.start == a {
      assert t.end < |s| ==> IsDelimiter(s[t.end]);
      assert b < |s| ==> IsDelimiter(s[b]);
    }
    var c := if t.start > 0 then t.start - 1 else 0;
    assert IsDelimiter(s[c]) ==> !(a <= c < b);
  }

  /** There is a delimiter between two tokens. */
  lemma {:induction false} TokenCount(s: Bytes, i: nat)
    requires i <= |s|
    ensures 2 * |TokensFrom(s, i)| <= |s| - i + 1
    decreases |s| - i
  {
    var a := SkipDelimiters(s, i);
    if a < |s| {
      var b := TokenEnd(s, a);
      TokenCount(s, Resume(s, b));
    }
  }

  // ---------- strtok_c ----------

  method CountTokens(s: Bytes) returns (n: nat)
    ensures n == |TokensFrom(s, 0)|
  {
    n := 0;
    var i := 0;
    while i < |s| && IsDelimiter(s[i])
      invariant i <= |s| && SkipDelimiters(s, i) == SkipDelimiters(s, 0)
    {
      i := i + 1;
    }
    if i == |s| {
      return;
    }
    while true
      invariant i < |s| && SkipDelimiters(s, i) == i && n + |TokensFrom(s, i)| == |TokensFrom(s, 0)|
      decreases |s| - i
    {
      ghost var a := i;
      while i < |s| && !IsDelimiter(s[i])
        invariant a <= i <= |s| && TokenEnd(s, i) == TokenEnd(s, a)
      {
        i := i + 1;
      }
      n := n + 1;
      ghost var b := i;
      while i < |s| && IsDelimiter(s[i])
        invariant b <= i <= |s| && SkipDelimiters(s, i) == SkipDelimiters(s, b)
      {
        i := i + 1;
      }
      NextTokens(s, b);
      if i == |s| {
        return;
      }
    }
  }

  /** Tokens are found from the delimiter or from behind it alike. */
  lemma NextTokens(s: Bytes, b: nat)
    requires b <= |s| && (b < |s| ==> IsDelimiter(s[b]))
    ensures Resume(s, b) <= |s| && SkipDelimiters(s, Resume(s, b)) == SkipDelimiters(s, b)
    ensures TokensFrom(s, Resume(s, b)) == TokensFrom(s, SkipDelimiters(s, b))
  {
    assert SkipDelimiters(s, SkipDelimiters(s, b)) == SkipDelimiters(s, b);
  }

  // ---------- strtok_r ----------

  /** The string S from position I on is in MEM at BASE, with its terminator. */
  ghost predicate InMemory(mem: Bytes, base: int, s: Bytes, i: int) {
    && 0 <= base && base + |s| < |mem| && 0 <= i <= |s| && mem[base + |s|] == 0
    && forall k :: i <= k < |s| ==> mem[base + k] == s[k] != 0
  }

  /** strtok_r with the saved position I: the next token's start, and the position to save.  The delimiter behind the
      token becomes a null byte. */
  method NextToken(mem: array<int>, base: nat, i: nat, ghost s: Bytes) returns (start: Option<nat>, save: nat)
    requires InMemory(mem[..], base, s, i)
    modifies mem
    ensures start.None? <==> SkipDelimiters(s, i) == |s|
    ensures start.None? ==> save == |s| && mem[..] == old(mem[..])
    ensures start.Some? ==>
              var a := SkipDelimiters(s, i);
              var b := TokenEnd(s, a);
              start.value == a && save == Resume(s, b) && mem[..] == old(mem[..])[base + b := 0]
  {
    var j := i;
    while mem[base + j] == 0 || IsDelimiter(mem[base + j])
      invariant i <= j <= |s| && SkipDelimiters(s, j) == SkipDelimiters(s, i)
      decreases |s| - j
    {
      if mem[base + j] == 0 {
        return None, j;
      }
      j := j + 1;
    }
    var a := j;
    while mem[base + j] != 0 && !IsDelimiter(mem[base + j])
      invariant a <= j <= |s| && TokenEnd(s, j) == TokenEnd(s, a)
      decreases |s| - j
    {
      j := j + 1;
    }
    if mem[base + j] != 0 {
      mem[base + j] := 0;
      return Some(a), j + 1;
    }
    return Some(a), j;
  }
}
