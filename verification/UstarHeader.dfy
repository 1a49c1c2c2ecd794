/** Composing and parsing a 512-byte ustar header (ustar_make_header and ustar_parse_header of lib/ustar.c). */
module UstarHeader {
  import opened Collections
  import opened Ustar

  const HEADER_SIZE: nat := 512
  const USTAR: Bytes := [117, 115, 116, 97, 114]
  const ROOT: Bytes := [114, 111, 111, 116]
  const SEVEN_ZEROS: Bytes := [48, 48, 48, 48, 48, 48, 48]
  const MTIME: nat := 1136102400

  // ---------- what a header holds ----------

  /** Byte K of a field with content B, filled up with null bytes. */
  function FieldByte(b: Bytes, k: int): int {
    if 0 <= k < |b| then b[k] else 0
  }

  function Mode(kind: int): nat {
    if kind == REGULAR then 420 else 493
  }

  /** Byte I of a header with the given fields. */
  function FieldsByte(name: Bytes, mode: Bytes, size: Bytes, mtime: Bytes, chksum: Bytes, kind: int, i: int): int {
    if i < 100 then FieldByte(name, i)
    else if i < 108 then FieldByte(mode, i - 100)
    else if i < 116 then FieldByte(SEVEN_ZEROS, i - 108)
    else if i < 124 then FieldByte(SEVEN_ZEROS, i - 116)
    else if i < 136 then FieldByte(size, i - 124)
    else if i < 148 then FieldByte(mtime, i - 136)
    else if i < 156 then FieldByte(chksum, i - 148)
    else if i < 157 then kind
    else if i < 257 then 0
    else if i < 263 then FieldByte(USTAR, i - 257)
    else if i < 265 then ZERO
    else if i < 297 then FieldByte(ROOT, i - 265)
    else if i < 329 then FieldByte(ROOT, i - 297)
    else 0
  }

  function HeaderByte(name: Bytes, kind: int, size: nat, chksum: Bytes, i: int): int {
    FieldsByte(name, Octal(Mode(kind), 7), Octal(size, 11), Octal(MTIME, 11), chksum, kind, i)
  }

  /** A header with the given checksum field. */
  function Filled(name: Bytes, kind: int, size: nat, chksum: Bytes): (h: Bytes)
    ensures |h| == HEADER_SIZE && forall i :: 0 <= i < HEADER_SIZE ==> h[i] == HeaderByte(name, kind, size, chksum, i)
  {
    seq(HEADER_SIZE, i => HeaderByte(name, kind, size, chksum, i))
  }

  /** The header of a file: its checksum is taken with the checksum field blank. */
  function Header(name: Bytes, kind: int, size: nat): Bytes {
    Filled(name, kind, size, Octal(Chksum(Filled(name, kind, size, [])), 7))
  }

  // ---------- the checksum ----------

  function SumTo(h: Bytes, n: nat): (s: int)
    requires n <= |h|
  {
    if n == 0 then 0 else SumTo(h, n - 1) + if 148 <= n - 1 < 156 then SPACE else h[n - 1]
  }

  function Chksum(h: Bytes): (s: nat) {
    var s := SumTo(h, |h|);
    if s < 0 then 0 else s
  }

  lemma {:induction false} SumBound(h: Bytes, n: nat)
    requires n <= |h| && IsBytes(h)
    ensures 0 <= SumTo(h, n) <= 255 * n
  {
    if n > 0 {
      SumBound(h, n - 1);
    }
  }

  lemma {:induction false} SumSame(h: Bytes, g: Bytes, n: nat)
    requires |h| == |g| && n <= |h| && forall i :: 0 <= i < |h| && !(148 <= i < 156) ==> h[i] == g[i]
    ensures SumTo(h, n) == SumTo(g, n)
  {
    if n > 0 {
      SumSame(h, g, n - 1);
    }
  }

  /** The sum of all of S. */
  function Sum(s: Bytes): int {
    if s == [] then 0 else Sum(s[..|s| - 1]) + s[|s| - 1]
  }

  /** The checksum is the sum of the bytes in front of and behind the checksum field, and of eight spaces for it. */
  lemma ChksumIs(h: Bytes)
    requires |h| == 512
    ensures SumTo(h, 512) == Sum(h[..148]) + 8 * 32 + Sum(h[156..])
  {
    SumFront(h, 148);
    SumSpaces(h);
    SumBehind(h, 356);
    assert h[156..512] == h[156..];
  }

  lemma {:induction false} SumFront(h: Bytes, n: nat)
    requires n <= |h| && n <= 148
    ensures SumTo(h, n) == Sum(h[..n])
  {
    if n > 0 {
      SumFront(h, n - 1);
      assert h[..n][..n - 1] == h[..n - 1];
    }
  }

  lemma SumSpaces(h: Bytes)
    requires |h| == 512
    ensures SumTo(h, 156) == SumTo(h, 148) + 8 * 32
  {
    assert SumTo(h, 152) == SumTo(h, 150) + 64 && SumTo(h, 150) == SumTo(h, 148) + 64;
    assert SumTo(h, 156) == SumTo(h, 154) + 64 && SumTo(h, 154) == SumTo(h, 152) + 64;
  }

  lemma {:induction false} SumBehind(h: Bytes, n: nat)
    requires |h| == 512 && 156 + n <= |h|
    ensures SumTo(h, 156 + n) == SumTo(h, 156) + Sum(h[156..156 + n])
  {
    if n > 0 {
      SumBehind(h, n - 1);
      assert h[156..156 + n][..n - 1] == h[156..156 + n - 1];
    }
  }

  /** calculate_chksum. */
  method CalculateChksum(h: Bytes) returns (s: int)
    requires |h| == HEADER_SIZE
    ensures s == SumTo(h, HEADER_SIZE)
  {
    s := 0;
    var i := 0;
    while i < HEADER_SIZE
      invariant 0 <= i <= HEADER_SIZE && s == SumTo(h, i)
    {
      s := s + if i >= 148 && i < 156 then SPACE else h[i];
      i := i + 1;
    }
  }

  // ---------- composing ----------

  method PutField(header: array<int>, ofs: nat, b: Bytes)
    requires ofs + |b| <= header.Length
    modifies header
    ensures forall i :: 0 <= i < header.Length ==>
              header[i] == if ofs <= i < ofs + |b| then b[i - ofs] else old(header[i])
  {
    forall i | 0 <= i < |b| {
      header[ofs + i] := b[i];
    }
  }

  lemma OctalBytes(v: nat, w: nat)
    requires v < Power8(w) && w > 0
    ensures |Octal(v, w)| == w && IsBytes(Octal(v, w))
  {
    OctalValue(v, w);
  }

  lemma Powers()
    ensures Power8(7) == 2097152 && Power8(11) == 8589934592
  {
    assert Power8(4) == 4096;
    assert Power8(7) == 8 * Power8(6) && Power8(6) == 8 * Power8(5);
    assert Power8(11) == 8 * Power8(10) && Power8(10) == 8 * Power8(9) && Power8(9) == 8 * Power8(8);
  }

  lemma FieldsFit(kind: int, size: nat)
    requires size <= ULONG_MAX
    ensures |Octal(Mode(kind), 7)| == 7 && |Octal(size, 11)| == 11 && |Octal(MTIME, 11)| == 11
    ensures IsBytes(Octal(Mode(kind), 7)) && IsBytes(Octal(size, 11)) && IsBytes(Octal(MTIME, 11))
  {
    Powers();
    OctalBytes(Mode(kind), 7);
    OctalBytes(size, 11);
    OctalBytes(MTIME, 11);
  }

  lemma FieldsByteIsByte(name: Bytes, mode: Bytes, size: Bytes, mtime: Bytes, kind: int, i: int)
    requires IsBytes(name) && IsBytes(mode) && IsBytes(size) && IsBytes(mtime) && 0 <= kind <= 255
    ensures 0 <= FieldsByte(name, mode, size, mtime, [], kind, i) <= 255
  {
  }

  lemma FilledBytes(name: Bytes, kind: int, size: nat)
    requires CString(name) && (kind == REGULAR || kind == DIRECTORY) && size <= ULONG_MAX
    ensures 0 <= SumTo(Filled(name, kind, size, []), HEADER_SIZE) < Power8(7)
  {
    FieldsFit(kind, size);
    var h := Filled(name, kind, size, []);
    forall i | 0 <= i < HEADER_SIZE ensures 0 <= h[i] <= 255 {
      FieldsByteIsByte(name, Octal(Mode(kind), 7), Octal(size, 11), Octal(MTIME, 11), kind, i);
    }
    SumBound(h, HEADER_SIZE);
    Powers();
  }

  /** An int as the %o conversion takes it. */
  function Unsigned(size: int): (u: nat)
    requires INT_MIN <= size <= INT_MAX
    ensures u <= ULONG_MAX && (size >= 0 <==> u <= INT_MAX)
  {
    if size < 0 then size + ULONG_MAX + 1 else size
  }

  /** ustar_make_header. */
  method MakeHeader(fileName: Bytes, kind: int, size: int, header: array<int>) returns (ok: bool)
    requires CString(fileName) && (kind == REGULAR || kind == DIRECTORY) && INT_MIN <= size <= INT_MAX
    requires header.Length == HEADER_SIZE
    modifies header
    ensures ok <==> |Strip(fileName)| <= 99
    ensures ok ==> header[..] == Header(Strip(fileName), kind, Unsigned(size))
    ensures !ok ==> header[..] == old(header[..])
  {
    var name := StripPrefixes(fileName);
    StripIdempotent(fileName);
    if |name| > 99 {
      return false;
    }
    Compose(name, kind, Unsigned(size), header);
    ok := true;
  }

  /** The header of a file whose name has been checked. */
  method Compose(name: Bytes, kind: int, size: nat, header: array<int>)
    requires CString(name) && |name| <= 99 && (kind == REGULAR || kind == DIRECTORY) && size <= ULONG_MAX
    requires header.Length == HEADER_SIZE
    modifies header
    ensures header[..] == Header(name, kind, size)
  {
    FilledBytes(name, kind, size);
    FieldsFit(kind, size);
    FillIn(name, kind, size, header);
    var chksum := FormatChksum(header[..]);
    PutChksum(name, kind, size, chksum, header);
  }

  /** The checksum as it is put out. */
  method FormatChksum(h: Bytes) returns (chksum: Bytes)
    requires |h| == HEADER_SIZE && 0 <= SumTo(h, HEADER_SIZE) < Power8(7)
    ensures chksum == Octal(Chksum(h), 7) && |chksum| == 7
  {
    var sum := CalculateChksum(h);
    OctalBytes(sum, 7);
    chksum := FormatOctal(sum, 7);
  }

  method PutChksum(ghost name: Bytes, ghost kind: int, ghost size: nat, chksum: Bytes, header: array<int>)
    requires |chksum| == 7 && header.Length == HEADER_SIZE && header[..] == Filled(name, kind, size, [])
    modifies header
    ensures header[..] == Filled(name, kind, size, chksum)
  {
    ghost var blank := header[..];
    PutField(header, 148, chksum + [0]);
    ChksumPut(name, kind, size, chksum, blank, header[..]);
  }

  lemma ChksumPut(name: Bytes, kind: int, size: nat, chksum: Bytes, blank: Bytes, h: Bytes)
    requires |chksum| == 7 && |h| == HEADER_SIZE && blank == Filled(name, kind, size, [])
    requires forall i :: 0 <= i < HEADER_SIZE ==> h[i] == if 148 <= i < 156 then (chksum + [0])[i - 148] else blank[i]
    ensures h == Filled(name, kind, size, chksum)
  {
    forall i | 0 <= i < HEADER_SIZE ensures h[i] == HeaderByte(name, kind, size, chksum, i) {
    }
  }

  /** All fields but the checksum. */
  method FillIn(name: Bytes, kind: int, size: nat, header: array<int>)
    requires |name| <= 99 && header.Length == HEADER_SIZE && size <= ULONG_MAX
    requires |Octal(Mode(kind), 7)| == 7 && |Octal(size, 11)| == 11 && |Octal(MTIME, 11)| == 11
    modifies header
    ensures header[..] == Filled(name, kind, size, [])
  {
    var mode := FormatOctal(Mode(kind), 7);
    var octal := FormatOctal(size, 11);
    var mtime := FormatOctal(MTIME, 11);
    PutField(header, 0, Zeros(HEADER_SIZE));
    FillFront(name, mode, octal, mtime, kind, header);
    FillBack(name, mode, octal, mtime, kind, header);
  }

  /** The fields in front of the checksum. */
  method FillFront(name: Bytes, mode: Bytes, size: Bytes, mtime: Bytes, ghost kind: int, header: array<int>)
    requires |name| <= 99 && |mode| == 7 && |size| == |mtime| == 11
    requires header.Length == HEADER_SIZE && forall i :: 0 <= i < HEADER_SIZE ==> header[i] == 0
    modifies header
    ensures forall i :: 0 <= i < HEADER_SIZE ==>
              header[i] == if i < 148 then FieldsByte(name, mode, size, mtime, [], kind, i) else 0
  {
    PutField(header, 0, name + [0]);
    PutField(header, 100, mode + [0]);
    PutField(header, 108, SEVEN_ZEROS + [0]);
    PutField(header, 116, SEVEN_ZEROS + [0]);
    PutField(header, 124, size + [0]);
    PutField(header, 136, mtime + [0]);
  }

  /** The fields behind the checksum. */
  method FillBack(ghost name: Bytes, ghost mode: Bytes, ghost size: Bytes, ghost mtime: Bytes, kind: int,
                  header: array<int>)
    requires header.Length == HEADER_SIZE
    requires forall i :: 0 <= i < HEADER_SIZE ==>
               header[i] == if i < 148 then FieldsByte(name, mode, size, mtime, [], kind, i) else 0
    modifies header
    ensures forall i :: 0 <= i < HEADER_SIZE ==> header[i] == FieldsByte(name, mode, size, mtime, [], kind, i)
  {
    PutField(header, 156, [kind]);
    PutField(header, 257, USTAR + [0]);
    PutField(header, 263, [ZERO, ZERO]);
    PutField(header, 297, ROOT + [0]);
    PutField(header, 265, ROOT + [0]);
  }

  // ---------- parsing ----------

  datatype Parsed = Failed(message: string) | EndOfArchive | File(name: Bytes, kind: int, size: int)

  /** The C string at the start of B. */
  function StringAt(b: Bytes): Bytes {
    if b == [] || b[0] == 0 then [] else [b[0]] + StringAt(b[1..])
  }

  ghost predicate AllZeros(h: Bytes) {
    forall i :: 0 <= i < |h| ==> h[i] == 0
  }

  /** ustar_parse_header. */
  ghost function Parse(h: Bytes): Parsed
    requires |h| == HEADER_SIZE
  {
    var chksum := ParseFrom(h[148..156], 0, 0);
    var size := if h[156] == REGULAR then ParseFrom(h[124..136], 0, 0) else Some(0);
    if AllZeros(h) then EndOfArchive
    else if h[257..263] != USTAR + [0] then Failed("not a ustar archive")
    else if h[263] != ZERO || h[264] != ZERO then Failed("invalid ustar version")
    else if chksum.None? then Failed("corrupt chksum field")
    else if chksum.value != SumTo(h, HEADER_SIZE) then Failed("checksum mismatch")
    else if h[99] != 0 || h[345] != 0 then Failed("file name too long")
    else if h[156] != REGULAR && h[156] != DIRECTORY then Failed("unimplemented file type")
    else if size.None? then Failed("corrupt file size field")
    else if size.value > INT_MAX then Failed("file too large")
    else File(Strip(StringAt(h[..100])), h[156], size.value)
  }

  /** What a header that is taken as a file's promises whoever extracts the file. */
  ghost predicate Extractable(h: Bytes, name: Bytes, size: int)
    requires |h| == HEADER_SIZE
  {
    && !Antisocial(name) && 1 <= |name| <= 99 && name != [DOT, DOT] && 0 <= size <= INT_MAX
    && exists n :: OctalField(h[148..156], n, SumTo(h, HEADER_SIZE))
  }

  lemma {:induction false} StringBeforeNull(b: Bytes, n: nat)
    requires n < |b| && b[n] == 0
    ensures |StringAt(b)| <= n
  {
    if n > 0 && b[0] != 0 {
      StringBeforeNull(b[1..], n - 1);
    }
  }

  /** A file read from a header has a non-empty name that stays in the directory it is put in, a size that is an int,
      and the checksum the header says. */
  lemma ParsedFile(h: Bytes)
    requires |h| == HEADER_SIZE
    ensures Parse(h).File? ==> Extractable(h, Parse(h).name, Parse(h).size)
  {
    if Parse(h).File? {
      StringBeforeNull(h[..100], 99);
      StripIsSocial(StringAt(h[..100]));
      StripIdempotent(StringAt(h[..100]));
      StripShorter(StringAt(h[..100]));
      OctalFields(h[148..156]);
      if h[156] == REGULAR {
        OctalFields(h[124..136]);
        var n :| OctalField(h[124..136], n, Parse(h).size);
        PrefixValue(h[124..136][..n], n);
      }
    }
  }

  /** The field reads as V. */
  ghost predicate Reads(s: Bytes, v: int) {
    exists n :: OctalField(s, n, v)
  }

  lemma ReadsIff(s: Bytes)
    ensures forall v :: Reads(s, v) <==> ParseFrom(s, 0, 0) == Some(v)
  {
    OctalFields(s);
    assert s[..0] == [];
    forall v | Reads(s, v) ensures ParseFrom(s, 0, 0) == Some(v) {
      var n :| OctalField(s, n, v);
      FieldParses(s, n, v, 0);
    }
  }

  /** The header has the magic and the version, and names that end inside their fields. */
  ghost predicate Recognized(h: Bytes)
    requires |h| == HEADER_SIZE
  {
    && h[257] == 117 && h[258] == 115 && h[259] == 116 && h[260] == 97 && h[261] == 114 && h[262] == 0
    && h[263] == h[264] == 48 && h[99] == h[345] == 0
  }

  lemma MagicIs(h: Bytes)
    requires |h| == HEADER_SIZE
    ensures h[257..263] == USTAR + [0] <==>
            h[257] == 117 && h[258] == 115 && h[259] == 116 && h[260] == 97 && h[261] == 114 && h[262] == 0
  {
    var m := h[257..263];
    if m == USTAR + [0] {
      assert h[257] == m[0] && h[258] == m[1] && h[259] == m[2] && h[260] == m[3] && h[261] == m[4] && h[262] == m[5];
    }
  }

  /** A header is taken as that of a file exactly if it is recognized, its checksum field has the right sum, and it is
      of a directory, or of a regular file with a size that is an int. */
  lemma AcceptedIff(h: Bytes)
    requires |h| == HEADER_SIZE
    ensures Parse(h).File? <==>
            && Recognized(h) && Reads(h[148..156], SumTo(h, HEADER_SIZE))
            && (h[156] == 53 || (h[156] == 48 && exists v :: Reads(h[124..136], v) && v <= 0x7FFF_FFFF))
    ensures Parse(h).File? ==> Parse(h).name == Strip(StringAt(h[..100])) && Parse(h).kind == h[156]
    ensures Parse(h).File? && h[156] == 48 ==> Reads(h[124..136], Parse(h).size)
    ensures Parse(h).File? && h[156] == 53 ==> Parse(h).size == 0
  {
    MagicIs(h);
    ReadsIff(h[148..156]);
    ReadsIff(h[124..136]);
    if AllZeros(h) {
      assert h[257] == 0;
    }
  }

  method ParseHeader(h: Bytes) returns (r: Parsed)
    requires |h| == HEADER_SIZE
    ensures r == Parse(h)
    ensures r.File? ==> Extractable(h, r.name, r.size)
  {
    ParsedFile(h);
    var zeros := IsAllZeros(h);
    if zeros {
      return EndOfArchive;
    }
    if h[257..263] != USTAR + [0] {
      return Failed("not a ustar archive");
    } else if h[263] != ZERO || h[264] != ZERO {
      return Failed("invalid ustar version");
    }
    var chksum := ParseOctal(h[148..156]);
    var sum := CalculateChksum(h);
    if chksum.None? {
      return Failed("corrupt chksum field");
    } else if chksum.value != sum {
      return Failed("checksum mismatch");
    } else if h[99] != 0 || h[345] != 0 {
      return Failed("file name too long");
    } else if h[156] != REGULAR && h[156] != DIRECTORY {
      return Failed("unimplemented file type");
    }
    var size := Some(0);
    if h[156] == REGULAR {
      size := ParseOctal(h[124..136]);
      if size.None? {
        return Failed("corrupt file size field");
      } else if size.value > INT_MAX {
        return Failed("file too large");
      }
    }
    var name := StripPrefixes(StringAt(h[..100]));
    return File(name, h[156], size.value);
  }

  /** is_all_zeros. */
  method IsAllZeros(h: Bytes) returns (r: bool)
    ensures r == AllZeros(h)
  {
    var i := 0;
    while i < |h|
      invariant 0 <= i <= |h| && forall j :: 0 <= j < i ==> h[j] == 0
    {
      if h[i] != 0 {
        return false;
      }
      i := i + 1;
    }
    return true;
  }

  // ---------- the round trip ----------

  lemma {:induction false} StringOfField(name: Bytes, b: Bytes)
    requires CString(name) && |name| < |b| && forall i :: 0 <= i < |b| ==> b[i] == FieldByte(name, i)
    ensures StringAt(b) == name
  {
    if name != [] {
      assert b[0] == name[0];
      forall i | 0 <= i < |b[1..]| ensures b[1..][i] == FieldByte(name[1..], i) {
        assert b[i + 1] == FieldByte(name, i + 1);
      }
      StringOfField(name[1..], b[1..]);
    }
  }

  /** What the fields of a header hold. */
  lemma HeaderFields(name: Bytes, kind: int, size: nat, chksum: Bytes)
    requires |name| <= 99 && |chksum| == 7 && |Octal(size, 11)| == 11
    ensures var h := Filled(name, kind, size, chksum);
            && h[257..263] == USTAR + [0] && h[263] == h[264] == ZERO && h[148..156] == chksum + [0]
            && h[99] == h[345] == 0 && h[156] == kind && h[124..136] == Octal(size, 11) + [0]
            && forall i :: 0 <= i < 100 ==> h[..100][i] == FieldByte(name, i)
  {
    var h := Filled(name, kind, size, chksum);
    assert h[257..263] == USTAR + [0];
  }

  lemma HeaderSum(name: Bytes, kind: int, size: nat)
    requires CString(name) && |name| <= 99 && (kind == REGULAR || kind == DIRECTORY) && size <= ULONG_MAX
    ensures var chksum := Octal(Chksum(Filled(name, kind, size, [])), 7);
            && |chksum| == 7
            && ParseFrom(chksum + [0], 0, 0) == Some(SumTo(Header(name, kind, size), HEADER_SIZE))
  {
    FilledBytes(name, kind, size);
    Powers();
    OctalRoundTrip(Chksum(Filled(name, kind, size, [])), 7);
    SumSame(Header(name, kind, size), Filled(name, kind, size, []), HEADER_SIZE);
  }

  /** A field that holds V as W octal digits and a null byte. */
  lemma FieldRead(b: Bytes, v: nat, w: nat)
    requires w > 0 && v < Power8(w) && v <= ULONG_MAX && b == Octal(v, w) + [0]
    ensures OctalField(b, w, v)
  {
    OctalValue(v, w);
    assert b[..w] == Octal(v, w);
  }

  lemma OtherFields(name: Bytes, kind: int, size: nat, chksum: Bytes)
    requires |Octal(Mode(kind), 7)| == 7 && |Octal(MTIME, 11)| == 11
    ensures var h := Filled(name, kind, size, chksum);
            && h[100..108] == Octal(Mode(kind), 7) + [0] && h[108..116] == h[116..124] == SEVEN_ZEROS + [0]
            && h[136..148] == Octal(MTIME, 11) + [0]
  {
  }

  lemma UserFields(name: Bytes, kind: int, size: nat, chksum: Bytes)
    ensures var h := Filled(name, kind, size, chksum);
            StringAt(h[265..297]) == StringAt(h[297..329]) == [114, 111, 111, 116]
  {
    var h := Filled(name, kind, size, chksum);
    StringOfField(ROOT, h[265..297]);
    StringOfField(ROOT, h[297..329]);
  }

  lemma SevenZeros()
    ensures Octal(0, 7) == SEVEN_ZEROS
  {
  }

  /** What the fields of a header that was made read as: mode 0644 for a file and 0755 for a directory, user and group
      0, named root, the size, and the modification time; each fills its field but for a null byte. */
  lemma MadeFields(name: Bytes, kind: int, size: nat)
    requires CString(name) && |name| <= 99 && (kind == REGULAR || kind == DIRECTORY) && size <= ULONG_MAX
    ensures var h := Header(name, kind, size);
            && StringAt(h[..100]) == name && h[156] == kind
            && OctalField(h[100..108], 7, if kind == 48 then 6 * 64 + 4 * 8 + 4 else 7 * 64 + 5 * 8 + 5)
            && OctalField(h[108..116], 7, 0) && OctalField(h[116..124], 7, 0)
            && OctalField(h[124..136], 11, size) && OctalField(h[136..148], 11, 1136102400)
            && StringAt(h[265..297]) == StringAt(h[297..329]) == [114, 111, 111, 116]
  {
    var chksum := Octal(Chksum(Filled(name, kind, size, [])), 7);
    FieldsFit(kind, size);
    FilledBytes(name, kind, size);
    OctalBytes(Chksum(Filled(name, kind, size, [])), 7);
    HeaderFields(name, kind, size, chksum);
    OtherFields(name, kind, size, chksum);
    UserFields(name, kind, size, chksum);
    StringOfField(name, Header(name, kind, size)[..100]);
    Powers();
    SevenZeros();
    FieldRead(Octal(Mode(kind), 7) + [0], Mode(kind), 7);
    FieldRead(Octal(0, 7) + [0], 0, 7);
    FieldRead(Octal(size, 11) + [0], size, 11);
    FieldRead(Octal(MTIME, 11) + [0], MTIME, 11);
  }

  /** Parsing a header gives back what it was made from, but for a regular file with a negative size, which is put out
      as the unsigned number of the same bits and refused. */
  lemma RoundTrip(fileName: Bytes, kind: int, size: int)
    requires CString(fileName) && (kind == REGULAR || kind == DIRECTORY) && INT_MIN <= size <= INT_MAX
    requires |Strip(fileName)| <= 99
    ensures Parse(Header(Strip(fileName), kind, Unsigned(size))) ==
            if kind == DIRECTORY then File(Strip(fileName), kind, 0)
            else if size >= 0 then File(Strip(fileName), kind, size)
            else Failed("file too large")
  {
    var name, printed := Strip(fileName), Unsigned(size);
    StripIdempotent(fileName);
    Powers();
    OctalRoundTrip(printed, 11);
    HeaderSum(name, kind, printed);
    var h := Header(name, kind, printed);
    HeaderFields(name, kind, printed, Octal(Chksum(Filled(name, kind, printed, [])), 7));
    StringOfField(name, h[..100]);
    assert h[263] != 0;
  }
}
