/** The argument stack of a new process: load_arguments of userprog/process.c.  MEM is the process's one stack page; a
    stack pointer is an offset into it, and a user address is the page's address plus an offset. */
module Arguments {
  import opened Collections
  import opened Tokens

  const PGSIZE: int := 4096
  const MAX_LENGTH: int := 1024

  /** The stack pointer load_arguments starts from, 20 bytes below the top of the page. */
  const TOP: int := 4076

  // ---------- words ----------

  /** The 32-bit word at offset O, least significant byte first. */
  ghost function Word(mem: Bytes, o: int): int
    requires 0 <= o && o + 4 <= |mem|
  {
    mem[o] + 0x100 * mem[o + 1] + 0x1_0000 * mem[o + 2] + 0x100_0000 * mem[o + 3]
  }

  /** MEM' is MEM but for the N bytes at O. */
  ghost predicate Elsewhere(mem: Bytes, mem': Bytes, o: int, n: int) {
    |mem'| == |mem| && forall i :: 0 <= i < |mem| && !(o <= i < o + n) ==> mem'[i] == mem[i]
  }

  method PutWord(mem: array<int>, o: nat, v: int)
    requires o + 4 <= mem.Length && 0 <= v < 0x1_0000_0000
    modifies mem
    ensures Word(mem[..], o) == v && Elsewhere(old(mem[..]), mem[..], o, 4)
  {
    BytesOf(v);
    PutBytes(mem, o, v % 0x100, v / 0x100 % 0x100, v / 0x1_0000 % 0x100, v / 0x100_0000);
  }

  lemma BytesOf(v: int)
    requires 0 <= v < 0x1_0000_0000
    ensures v == v % 0x100 + 0x100 * (v / 0x100 % 0x100) + 0x1_0000 * (v / 0x1_0000 % 0x100)
                 + 0x100_0000 * (v / 0x100_0000)
  {
  }

  method PutBytes(mem: array<int>, o: nat, a: int, b: int, c: int, d: int)
    requires o + 4 <= mem.Length
    modifies mem
    ensures Word(mem[..], o) == a + 0x100 * b + 0x1_0000 * c + 0x100_0000 * d
    ensures Elsewhere(old(mem[..]), mem[..], o, 4)
  {
    mem[o], mem[o + 1], mem[o + 2], mem[o + 3] := a, b, c, d;
  }

  lemma ElsewhereTwice(a: Bytes, b: Bytes, c: Bytes, o: int, n: int, p: int, m: int)
    requires Elsewhere(a, b, o, n) && Elsewhere(b, c, p, m) && o <= p && p + m <= o + n
    ensures Elsewhere(a, c, o, n)
  {
  }

  lemma WordKept(mem: Bytes, mem': Bytes, o: int, n: int, w: int)
    requires Elsewhere(mem, mem', o, n) && 0 <= w && w + 4 <= |mem| && (w + 4 <= o || o + n <= w)
    ensures Word(mem', w) == Word(mem, w)
  {
  }

  // ---------- what main finds ----------

  /** The string S[a..b], null-terminated, is at offset O. */
  ghost predicate StringAt(mem: Bytes, o: int, s: Bytes, t: Token) {
    && 0 <= t.start <= t.end <= |s| && 0 <= o && o + (t.end - t.start) < |mem|
    && mem[o + (t.end - t.start)] == 0
    && forall k :: t.start <= k < t.end ==> mem[o + (k - t.start)] == s[k]
  }

  /** The first N entries of argv point to the first N tokens of S, which is at BASE. */
  ghost predicate Pointers(mem: Bytes, page: int, argv: int, base: int, s: Bytes, ts: seq<Token>, n: int) {
    && 0 <= n <= |ts| && 0 <= argv && argv + 4 * n <= base
    && forall i :: 0 <= i < n ==>
         && argv + 4 * i + 4 <= |mem| && Word(mem, argv + 4 * i) == page + base + ts[i].start
         && StringAt(mem, base + ts[i].start, s, ts[i])
  }

  /** N tokens have been pushed, and the tokenizer stands at position I of the string. */
  ghost predicate Pushed(mem: Bytes, page: int, argv: int, base: int, s: Bytes, ts: seq<Token>, n: int, i: int) {
    && Pointers(mem, page, argv, base, s, ts, n) && InMemory(mem, base, s, i)
    && TokensFrom(s, i) == ts[n..] && forall j :: 0 <= j < n ==> ts[j].end <= i
  }

  /** One more token: its delimiter becomes a null byte, and its address is written. */
  lemma PushOne(mem: Bytes, mem': Bytes, page: int, argv: int, base: int, s: Bytes, ts: seq<Token>, n: int, i: int)
    requires Pushed(mem, page, argv, base, s, ts, n, i) && n < |ts| && argv + 4 * n + 4 <= base
    requires Elsewhere(mem[base + ts[n].end := 0], mem', argv + 4 * n, 4)
    requires Word(mem', argv + 4 * n) == page + base + ts[n].start
    requires ts[n] == Token(SkipDelimiters(s, i), TokenEnd(s, SkipDelimiters(s, i)))
    ensures Pushed(mem', page, argv, base, s, ts, n + 1, Resume(s, ts[n].end))
  {
    NewToken(mem, mem', base, s, ts[n], i, argv + 4 * n);
    PushPointer(mem, mem', page, argv, base, s, ts, n, base + ts[n].end);
    TokensLeft(s, i, ts, n);
  }

  /** The entries written before still point to their tokens. */
  lemma PushPointer(mem: Bytes, mem': Bytes, page: int, argv: int, base: int, s: Bytes, ts: seq<Token>, n: int, z: int)
    requires Pointers(mem, page, argv, base, s, ts, n) && n < |ts| && argv + 4 * n + 4 <= base <= z < |mem|
    requires Elsewhere(mem[z := 0], mem', argv + 4 * n, 4) && forall j :: 0 <= j < n ==> base + ts[j].end < z
    requires Word(mem', argv + 4 * n) == page + base + ts[n].start && StringAt(mem', base + ts[n].start, s, ts[n])
    ensures Pointers(mem', page, argv, base, s, ts, n + 1)
  {
    forall j | 0 <= j < n
      ensures Word(mem', argv + 4 * j) == page + base + ts[j].start && StringAt(mem', base + ts[j].start, s, ts[j])
    {
      PushedBefore(mem, mem', page, argv, base, s, ts[j], argv + 4 * j, argv + 4 * n, z);
    }
  }

  lemma TokensLeft(s: Bytes, i: nat, ts: seq<Token>, n: nat)
    requires i <= |s| && n < |ts| && TokensFrom(s, i) == ts[n..]
    requires ts[n] == Token(SkipDelimiters(s, i), TokenEnd(s, SkipDelimiters(s, i)))
    ensures ts[n].end <= |s| && TokensFrom(s, Resume(s, ts[n].end)) == ts[n + 1..]
  {
    assert TokensFrom(s, i)[1..] == TokensFrom(s, Resume(s, ts[n].end));
    assert ts[n..][1..] == ts[n + 1..];
  }

  /** The token just found is there, and the rest of the string behind it. */
  lemma NewToken(mem: Bytes, mem': Bytes, base: int, s: Bytes, t: Token, i: int, o: int)
    requires InMemory(mem, base, s, i) && i <= t.start < t.end <= |s| && 0 <= o && o + 4 <= base
    requires Elsewhere(mem[base + t.end := 0], mem', o, 4)
    ensures StringAt(mem', base + t.start, s, t) && InMemory(mem', base, s, Resume(s, t.end))
  {
    forall k | t.start <= k < t.end ensures mem'[base + t.start + (k - t.start)] == s[k] {
      assert mem[base + k] == s[k];
    }
    forall k | t.end < k < |s| ensures mem'[base + k] == s[k] {
      assert mem[base + k] == s[k];
    }
  }

  /** A token pushed before, whose address is at A, is not touched by the byte at Z or the word at O. */
  lemma PushedBefore(mem: Bytes, mem': Bytes, page: int, argv: int, base: int, s: Bytes, t: Token, a: int, o: int,
                     z: int)
    requires 0 <= z < |mem| && Elsewhere(mem[z := 0], mem', o, 4) && 0 <= a && a + 4 <= o && o + 4 <= base && base <= z
    requires 0 <= t.start <= t.end && base + t.end < z
    requires Word(mem, a) == page + base + t.start && StringAt(mem, base + t.start, s, t)
    ensures Word(mem', a) == page + base + t.start && StringAt(mem', base + t.start, s, t)
  {
    WordKept(mem[z := 0], mem', o, 4, a);
    assert mem[z := 0][a] == mem[a] && mem[z := 0][a + 3] == mem[a + 3];
    assert mem[z := 0][a + 1] == mem[a + 1] && mem[z := 0][a + 2] == mem[a + 2];
  }

  /** What the new process finds from ESP up: a null return address, argc, argv; and argv points to the tokens of the
      command line S and ends with null.  ESP is 4 bytes below a multiple of 16.  ARGV is the offset of the pointers. */
  ghost predicate Loaded(mem: Bytes, page: int, s: Bytes, esp: int, argv: int) {
    && |mem| == PGSIZE && 0 <= esp && esp + 12 <= argv && esp % 16 == 12
    && var base, ts := TOP - |s| - 1, TokensFrom(s, 0);
       && argv + 4 * |ts| + 4 <= base <= TOP
       && Word(mem, esp) == 0 && Word(mem, esp + 4) == |ts| && Word(mem, esp + 8) == page + argv
       && Pointers(mem, page, argv, base, s, ts, |ts|) && Word(mem, argv + 4 * |ts|) == 0
  }

  // ---------- load_arguments ----------

  /** strlcpy into the room made for it. */
  method CopyString(mem: array<int>, base: nat, s: Bytes)
    requires base + |s| < mem.Length && forall k :: 0 <= k < |s| ==> s[k] != 0
    modifies mem
    ensures InMemory(mem[..], base, s, 0) && Elsewhere(old(mem[..]), mem[..], base, |s| + 1)
  {
    forall k | 0 <= k < |s| {
      mem[base + k] := s[k];
    }
    mem[base + |s|] := 0;
  }

  /** The loop that pushes token pointers. */
  method PushTokens(mem: array<int>, page: nat, argv: nat, base: nat, argc: nat, ghost s: Bytes)
    requires mem.Length == PGSIZE && InMemory(mem[..], base, s, 0) && argc == |TokensFrom(s, 0)| > 0
    requires argv + 4 * argc + 4 <= base && page + PGSIZE <= 0x1_0000_0000
    modifies mem
    ensures Pointers(mem[..], page, argv, base, s, TokensFrom(s, 0), argc) && Word(mem[..], argv + 4 * argc) == 0
    ensures Elsewhere(old(mem[..]), mem[..], argv, base + |s| - argv)
  {
    PushAll(mem, page, argv, base, argc, s, TokensFrom(s, 0));
    ghost var m := mem[..];
    PutWord(mem, argv + 4 * argc, 0);
    PointersKept(m, mem[..], page, argv, base, s, TokensFrom(s, 0), argc, argv + 4 * argc, 4);
    ElsewhereTwice(old(mem[..]), m, mem[..], argv, base + |s| - argv, argv + 4 * argc, 4);
  }

  /** The loop over the tokens. */
  method PushAll(mem: array<int>, page: nat, argv: nat, base: nat, argc: nat, ghost s: Bytes, ghost ts: seq<Token>)
    requires mem.Length == PGSIZE && Pushed(mem[..], page, argv, base, s, ts, 0, 0) && argc == |ts| > 0
    requires argv + 4 * argc + 4 <= base && page + PGSIZE <= 0x1_0000_0000
    modifies mem
    ensures Pointers(mem[..], page, argv, base, s, ts, argc)
    ensures Elsewhere(old(mem[..]), mem[..], argv, base + |s| - argv)
  {
    var more, save := PushNext(mem, page, argv, base, argc, 0, 0, s, ts);
    var index := 1;
    while more
      invariant 1 <= index <= argc + 1 && (more <==> index <= argc)
      invariant if more then Pushed(mem[..], page, argv, base, s, ts, index, save)
                else Pointers(mem[..], page, argv, base, s, ts, argc)
      invariant Elsewhere(old(mem[..]), mem[..], argv, base + |s| - argv)
      decreases argc + 1 - index
    {
      ghost var m := mem[..];
      more, save := PushNext(mem, page, argv, base, argc, index, save, s, ts);
      ElsewhereTwice(old(mem[..]), m, mem[..], argv, base + |s| - argv, argv, base + |s| - argv);
      index := index + 1;
    }
  }

  method PushNext(mem: array<int>, page: nat, argv: nat, base: nat, argc: nat, index: nat, i: nat, ghost s: Bytes,
                  ghost ts: seq<Token>)
    returns (more: bool, save: nat)
    requires Pushed(mem[..], page, argv, base, s, ts, index, i) && index <= argc == |ts|
    requires argv + 4 * argc + 4 <= base && mem.Length == PGSIZE && page + PGSIZE <= 0x1_0000_0000
    modifies mem
    ensures more <==> index < argc
    ensures more ==> Pushed(mem[..], page, argv, base, s, ts, index + 1, save)
    ensures !more ==> mem[..] == old(mem[..])
    ensures Elsewhere(old(mem[..]), mem[..], argv, base + |s| - argv)
  {
    ghost var m := mem[..];
    var token;
    token, save := NextToken(mem, base, i, s);
    if token.None? || index > argc {
      return false, save;
    }
    PutWord(mem, argv + 4 * index, page + base + token.value);
    PushOne(m, mem[..], page, argv, base, s, ts, index, i);
    more := true;
  }

  /** Words written elsewhere below the string leave the pointers alone. */
  lemma PointersKept(mem: Bytes, mem': Bytes, page: int, argv: int, base: int, s: Bytes, ts: seq<Token>, n: int, o: int,
                     k: int)
    requires Pointers(mem, page, argv, base, s, ts, n) && Elsewhere(mem, mem', o, k)
    requires o + k <= argv || (argv + 4 * n <= o && o + k <= base)
    ensures Pointers(mem', page, argv, base, s, ts, n)
  {
    forall i | 0 <= i < n
      ensures Word(mem', argv + 4 * i) == page + base + ts[i].start && StringAt(mem', base + ts[i].start, s, ts[i])
    {
      assert StringAt(mem, base + ts[i].start, s, ts[i]);
      WordKept(mem, mem', o, k, argv + 4 * i);
    }
  }

  /** load_arguments, for a command line with a token; ESP is where the process starts. */
  method LoadArguments(argument: Option<Bytes>, mem: array<int>, page: nat)
    returns (ok: bool, esp: int, ghost argv: int)
    requires mem.Length == PGSIZE && page % PGSIZE == 0 && page + PGSIZE <= 0x1_0000_0000
    requires argument.Some? ==> (forall k :: 0 <= k < |argument.value| ==> argument.value[k] != 0)
    requires argument.Some? ==> TokensFrom(argument.value, 0) != []
    modifies mem
    ensures ok <==> argument.None? || |argument.value| < MAX_LENGTH - 1
    ensures argument.None? || !ok ==> esp == TOP && mem[..] == old(mem[..])
    ensures argument.Some? && ok ==> Loaded(mem[..], page, argument.value, esp, argv)
    ensures argument.Some? && ok ==> Elsewhere(old(mem[..]), mem[..], 0, TOP)
  {
    esp, argv := TOP, 0;
    if argument.None? {
      return true, TOP, 0;
    }
    var s := argument.value;
    var length := 1 + if |s| < MAX_LENGTH then |s| else MAX_LENGTH;
    if length >= MAX_LENGTH {
      return false, TOP, 0;
    }
    ok := true;
    esp, argv := BuildStack(s, mem, page);
  }

  method BuildStack(s: Bytes, mem: array<int>, page: nat) returns (esp: int, argv: nat)
    requires mem.Length == PGSIZE && page + PGSIZE <= 0x1_0000_0000 && |s| < MAX_LENGTH - 1
    requires (forall k :: 0 <= k < |s| ==> s[k] != 0) && TokensFrom(s, 0) != []
    modifies mem
    ensures Loaded(mem[..], page, s, esp, argv) && Elsewhere(old(mem[..]), mem[..], 0, TOP)
  {
    var base := TOP - (|s| + 1);
    ghost var m0 := mem[..];
    CopyString(mem, base, s);
    ghost var m1 := mem[..];
    var argc := CountTokens(s);
    TokenCount(s, 0);
    argv := base - base % 4 - 4 * (argc + 1);
    PushTokens(mem, page, argv, base, argc, s);
    ghost var m2 := mem[..];
    BothBelow(m0, m1, m2, base, |s| + 1, argv, base + |s| - argv);
    esp := PushFrame(mem, page, argv, argc, s);
    BothBelow(m0, m2, mem[..], 0, TOP, esp, 12);
  }

  lemma BothBelow(a: Bytes, b: Bytes, c: Bytes, o: int, n: int, p: int, m: int)
    requires Elsewhere(a, b, o, n) && Elsewhere(b, c, p, m) && 0 <= o && o + n <= TOP && 0 <= p && p + m <= TOP
    ensures Elsewhere(a, c, 0, TOP)
  {
  }

  /** The end of load_arguments: the stack pointer is aligned, and argv, argc and a return address pushed. */
  method PushFrame(mem: array<int>, page: nat, argv: nat, argc: nat, ghost s: Bytes) returns (esp: nat)
    requires mem.Length == PGSIZE && page + PGSIZE <= 0x1_0000_0000 && 24 <= argv && argv % 4 == 0
    requires argc == |TokensFrom(s, 0)| && argv + 4 * argc + 4 <= TOP - |s| - 1
    requires Pointers(mem[..], page, argv, TOP - |s| - 1, s, TokensFrom(s, 0), argc)
    requires Word(mem[..], argv + 4 * argc) == 0
    modifies mem
    ensures Loaded(mem[..], page, s, esp, argv) && Elsewhere(old(mem[..]), mem[..], esp, 12) && esp + 12 <= argv
  {
    esp := AlignedBelow(argv);
    ghost var before := mem[..];
    PutThree(mem, esp, 0, argc, page + argv);
    FrameLoaded(before, mem[..], page, argv, s, esp);
  }

  /** The stack pointer for three words below ARGV, 4 bytes below a multiple of 16. */
  method AlignedBelow(argv: nat) returns (esp: int)
    requires argv % 4 == 0
    ensures esp % 16 == 12 && 12 <= argv - esp <= 24
  {
    var offset := argv % 16;
    while offset + 4 < 12
      invariant offset == argv % 16 || (offset == argv % 16 + 16 && argv % 16 < 8)
      decreases 16 - offset
    {
      offset := offset + 16;
    }
    esp := argv - (offset + 4);
  }

  method PutThree(mem: array<int>, o: nat, a: int, b: int, c: int)
    requires o + 12 <= mem.Length && 0 <= a < 0x1_0000_0000 && 0 <= b < 0x1_0000_0000 && 0 <= c < 0x1_0000_0000
    modifies mem
    ensures Word(mem[..], o) == a && Word(mem[..], o + 4) == b && Word(mem[..], o + 8) == c
    ensures Elsewhere(old(mem[..]), mem[..], o, 12)
  {
    PutWord(mem, o + 8, c);
    ghost var one := mem[..];
    PutWord(mem, o + 4, b);
    ghost var two := mem[..];
    PutWord(mem, o, a);
    WordKept(one, two, o + 4, 4, o + 8);
    WordKept(two, mem[..], o, 4, o + 8);
    WordKept(two, mem[..], o, 4, o + 4);
  }

  lemma FrameLoaded(mem: Bytes, mem': Bytes, page: int, argv: int, s: Bytes, esp: int)
    requires |mem| == PGSIZE && Elsewhere(mem, mem', esp, 12) && 0 <= esp && esp + 12 <= argv && esp % 16 == 12
    requires var base, ts := TOP - |s| - 1, TokensFrom(s, 0);
             && argv + 4 * |ts| + 4 <= base && Pointers(mem, page, argv, base, s, ts, |ts|)
             && Word(mem, argv + 4 * |ts|) == 0
             && Word(mem', esp) == 0 && Word(mem', esp + 4) == |ts| && Word(mem', esp + 8) == page + argv
    ensures Loaded(mem', page, s, esp, argv)
  {
    ArgvKept(mem, mem', page, argv, TOP - |s| - 1, s, TokensFrom(s, 0), |TokensFrom(s, 0)|, esp, 12);
  }

  /** A write of K bytes below argv leaves its entries and the null behind them. */
  lemma ArgvKept(mem: Bytes, mem': Bytes, page: int, argv: int, base: int, s: Bytes, ts: seq<Token>, n: int, o: int,
                 k: int)
    requires Elsewhere(mem, mem', o, k) && o + k <= argv && argv + 4 * n + 4 <= base <= |mem|
    requires Pointers(mem, page, argv, base, s, ts, n) && Word(mem, argv + 4 * n) == 0
    ensures Pointers(mem', page, argv, base, s, ts, n) && Word(mem', argv + 4 * n) == 0
  {
    PointersKept(mem, mem', page, argv, base, s, ts, n, o, k);
    WordKept(mem, mem', o, k, argv + 4 * n);
  }
}
