/** The file as a loader and a debugger read it: every place is found through the headers, by the field offsets of the
    System V ABI (chapters 4 and 5, 32-bit class). */
module Loader {
  import opened Words
  import opened Elf

  // ----- numbers in a file; -1 past its end -----

  function ByteAt(file: seq<Byte>, at: int): int {
    if 0 <= at < |file| then file[at] else -1
  }

  function HalfAt(file: seq<Byte>, at: int): int {
    if 0 <= at && at + 2 <= |file| then
      var lo: int, hi: int := file[at], file[at + 1];
      lo + 0x100 * hi
    else -1
  }

  function WordAt(file: seq<Byte>, at: int): int {
    if 0 <= at && at + 4 <= |file| then ReadInt(file, at) else -1
  }

  // ----- headers -----

  const E_CLASS := 4
  const E_DATA := 5
  const E_TYPE := 16
  const E_MACHINE := 18
  const E_VERSION := 20
  const E_ENTRY := 24
  const E_PHOFF := 28
  const E_SHOFF := 32
  const E_FLAGS := 36
  const E_EHSIZE := 40
  const E_PHENTSIZE := 42
  const E_PHNUM := 44
  const E_SHENTSIZE := 46
  const E_SHNUM := 48
  const E_SHSTRNDX := 50

  const CLASS_32 := 1
  const LITTLE_END := 1
  const EXECUTABLE := 2
  const LOADABLE := 1
  const READ_WRITE_EXECUTE := 7

  predicate IsElf(file: seq<Byte>) {
    ByteAt(file, 0) == 0x7f && ByteAt(file, 1) == 0x45 && ByteAt(file, 2) == 0x4c && ByteAt(file, 3) == 0x46
  }

  datatype Segment = Segment(kind: int, offset: int, vaddr: int, filesz: int, memsz: int, flags: int)

  /** Program header k, through the file's own offset and entry size. */
  function SegmentAt(file: seq<Byte>, k: nat): Segment {
    var at := WordAt(file, E_PHOFF) + HalfAt(file, E_PHENTSIZE) * k;
    Segment(WordAt(file, at), WordAt(file, at + 4), WordAt(file, at + 8), WordAt(file, at + 16), WordAt(file, at + 20),
            WordAt(file, at + 24))
  }

  datatype Section = Section(name: int, kind: int, flags: int, addr: int, offset: int, size: int, link: int,
                             entsize: int)

  function SectionAt(file: seq<Byte>, n: int): Section {
    var at := WordAt(file, E_SHOFF) + HalfAt(file, E_SHENTSIZE) * n;
    Section(WordAt(file, at), WordAt(file, at + 4), WordAt(file, at + 8), WordAt(file, at + 12), WordAt(file, at + 16),
            WordAt(file, at + 20), WordAt(file, at + 24), WordAt(file, at + 36))
  }

  // ----- loading -----

  /** The byte that segment s puts at address a: from the file, or a zero behind the file's part. */
  function SegmentByte(file: seq<Byte>, s: Segment, a: int): Option<Byte> {
    if s.kind != LOADABLE || !(s.vaddr <= a < s.vaddr + s.memsz) then None
    else if a >= s.vaddr + s.filesz then Some(0)
    else if 0 <= s.offset + (a - s.vaddr) < |file| then Some(file[s.offset + (a - s.vaddr)])
    else None
  }

  function LoadedFrom(file: seq<Byte>, k: nat, a: int): Option<Byte>
    decreases HalfAt(file, E_PHNUM) - k
  {
    if k >= HalfAt(file, E_PHNUM) then None
    else match SegmentByte(file, SegmentAt(file, k), a)
      case Some(b) => Some(b)
      case None => LoadedFrom(file, k + 1, a)
  }

  /** What memory holds at address a once the file is loaded. */
  function LoadedByte(file: seq<Byte>, a: int): Option<Byte> {
    LoadedFrom(file, 0, a)
  }

  // ----- what the compiler's files say -----

  lemma Halves(file: seq<Byte>, at: nat, lo: int, hi: int)
    requires at + 4 <= |file| && ReadInt(file, at) == lo + 0x1_0000 * hi && 0 <= lo < 0x1_0000
    ensures HalfAt(file, at) == lo && HalfAt(file, at + 2) == hi
  {
  }

  lemma Bytes(file: seq<Byte>, at: nat, b0: int, b1: int, b2: int, b3: int)
    requires at + 4 <= |file| && ReadInt(file, at) == b0 + 0x100 * b1 + 0x1_0000 * b2 + 0x100_0000 * b3
    requires 0 <= b0 < 0x100 && 0 <= b1 < 0x100 && 0 <= b2 < 0x100 && 0 <= b3 < 0x100
    ensures ByteAt(file, at) == b0 && ByteAt(file, at + 1) == b1 && ByteAt(file, at + 2) == b2
    ensures ByteAt(file, at + 3) == b3
  {
    var c0: int, c1: int, c2: int, c3: int := file[at], file[at + 1], file[at + 2], file[at + 3];
    SameDigits(c0, b0, c1 + 0x100 * c2 + 0x1_0000 * c3, b1 + 0x100 * b2 + 0x1_0000 * b3);
    SameDigits(c1, b1, c2 + 0x100 * c3, b2 + 0x100 * b3);
  }

  lemma SameDigits(a: int, b: int, more: int, rest: int)
    requires a + 0x100 * more == b + 0x100 * rest && 0 <= a < 0x100 && 0 <= b < 0x100
    ensures a == b && more == rest
  {
    hide *;
  }

  /** A machine number is one byte in these files. */
  predicate MachineOk(p: Parts) {
    0 <= p.machine < 0x100
  }

  /** A 32-bit little-endian executable for the machine. */
  lemma Identified(p: Parts)
    requires SmallFile(p) && MachineOk(p)
    ensures var file := FileBytes(p);
            && IsElf(file) && ByteAt(file, E_CLASS) == CLASS_32 && ByteAt(file, E_DATA) == LITTLE_END
            && HalfAt(file, E_TYPE) == EXECUTABLE && HalfAt(file, E_MACHINE) == p.machine
            && WordAt(file, E_VERSION) == 1
            && WordAt(file, E_FLAGS) == Wrap(p.flags)
  {
    hide FileBytes, ReadInt, HeaderInts, Wrap, HalfAt, ByteAt;
    var file := FileBytes(p);
    HeaderField(p, 0);
    HeaderField(p, 1);
    HeaderField(p, 4);
    HeaderField(p, 5);
    HeaderField(p, 9);
    HeaderValues(p);
    SmallWrap(0x464c457f);
    SmallWrap(0x10101);
    SmallWrap(2 + 0x1_0000 * p.machine);
    SmallWrap(1);
    Bytes(file, 0, 0x7f, 0x45, 0x4c, 0x46);
    Bytes(file, 4, 1, 1, 1, 0);
    Halves(file, 16, 2, p.machine);
  }

  lemma HeaderValues(p: Parts)
    ensures var h := HeaderInts(p);
            && h[0] == 0x464c457f && h[1] == 0x10101 && h[4] == 2 + 0x1_0000 * p.machine && h[5] == 1
            && h[6] == ELF_START + HEADER_LEN && h[7] == 0x34 && h[8] == SectionsAt(p) && h[9] == p.flags
            && h[10] == 0x20_0034 && h[11] == 0x28_0001 && h[12] == 0x5_0006
    ensures var h := HeaderInts(p);
            && h[13] == 1 && h[14] == HEADER_LEN && h[15] == ELF_START + HEADER_LEN
            && h[17] == h[18] == |p.code| + |p.data| && h[19] == 7
  {
  }

  /** The counts and sizes by which everything else is found. */
  lemma Counted(p: Parts)
    requires SmallFile(p)
    ensures var file := FileBytes(p);
            && HalfAt(file, E_EHSIZE) == 0x34 && WordAt(file, E_PHOFF) == 0x34 && HalfAt(file, E_PHENTSIZE) == 0x20
            && HalfAt(file, E_PHNUM) == 1 && WordAt(file, E_SHOFF) == SectionsAt(p) && HalfAt(file, E_SHENTSIZE) == 40
            && HalfAt(file, E_SHNUM) == 6 && HalfAt(file, E_SHSTRNDX) == 5
  {
    hide FileBytes, ReadInt, HeaderInts, Wrap, HalfAt, SectionsAt;
    var file := FileBytes(p);
    HeaderField(p, 7);
    HeaderField(p, 8);
    HeaderField(p, 10);
    HeaderField(p, 11);
    HeaderField(p, 12);
    HeaderValues(p);
    SmallWrap(0x34);
    SmallWrap(SectionsAt(p));
    SmallWrap(0x20_0034);
    SmallWrap(0x28_0001);
    SmallWrap(0x5_0006);
    Halves(file, 40, 0x34, 0x20);
    Halves(file, 44, 1, 0x28);
    Halves(file, 48, 6, 5);
  }

  /** There is one segment; it is loadable, may be read, written and executed, and has all its bytes in the file. */
  lemma OneSegment(p: Parts)
    requires SmallFile(p)
    ensures var file := FileBytes(p);
            var size := |p.code| + |p.data|;
            && HalfAt(file, E_PHNUM) == 1
            && SegmentAt(file, 0)
               == Segment(LOADABLE, HEADER_LEN, ELF_START + HEADER_LEN, size, size, READ_WRITE_EXECUTE)
            && WordAt(file, E_ENTRY) == SegmentAt(file, 0).vaddr
  {
    hide FileBytes, ReadInt, HeaderInts, Wrap, HalfAt, SectionsAt;
    Counted(p);
    HeaderField(p, 6);
    HeaderField(p, 13);
    HeaderField(p, 14);
    HeaderField(p, 15);
    HeaderField(p, 17);
    HeaderField(p, 18);
    HeaderField(p, 19);
    HeaderValues(p);
    SmallWrap(ELF_START + HEADER_LEN);
    SmallWrap(1);
    SmallWrap(HEADER_LEN);
    SmallSize(p);
    SmallWrap(|p.code| + |p.data|);
    SmallWrap(7);
  }

  lemma SmallSize(p: Parts)
    requires SmallFile(p)
    ensures |p.code| + |p.data| < 0x8000_0000
  {
  }

  /** Loaded, memory holds the code from the entry point on and the data behind it, and nothing else. */
  lemma Loaded(p: Parts, a: int)
    requires SmallFile(p)
    ensures var file := FileBytes(p);
            var d := a - WordAt(file, E_ENTRY);
            LoadedByte(file, a) == if 0 <= d < |p.code| + |p.data| then Some((p.code + p.data)[d]) else None
  {
    hide FileBytes, HalfAt, WordAt, SegmentAt, SectionsAt;
    OneSegment(p);
    var file := FileBytes(p);
    var d := a - WordAt(file, E_ENTRY);
    SectionPlace(p, 1);
    SectionPlace(p, 2);
    assert SectionBytes(p, 1) == p.code && SectionBytes(p, 2) == p.data;
    var at := PlaceOf(p, 2);
    if 0 <= d < |p.code| {
      assert file[HEADER_LEN..HEADER_LEN + |p.code|][d] == file[HEADER_LEN + d];
    } else if |p.code| <= d < |p.code| + |p.data| {
      assert file[at..at + |p.data|][d - |p.code|] == file[at + (d - |p.code|)];
    }
    NoMore(file, a);
  }

  lemma NoMore(file: seq<Byte>, a: int)
    requires HalfAt(file, E_PHNUM) == 1
    ensures LoadedByte(file, a) == SegmentByte(file, SegmentAt(file, 0), a)
  {
    hide SegmentAt, SegmentByte;
    assert LoadedFrom(file, 1, a) == None;
  }

  // ----- sections and symbols -----

  const PROGBITS := 1
  const SYMBOLS := 2
  const STRINGS := 3

  /** What section n is for: code, data, symbols, their names, and the names of the sections. */
  function KindOf(n: nat): int {
    match n
    case 1 => PROGBITS
    case 2 => PROGBITS
    case 3 => SYMBOLS
    case _ => STRINGS
  }

  /** Code may be written and executed, data written; the others are not loaded. */
  function FlagsOf(n: nat): int {
    match n case 1 => 7 case 2 => 3 case _ => 0
  }

  function AddrOf(p: Parts, n: nat): int {
    match n case 1 => ELF_START + HEADER_LEN case 2 => ELF_START + HEADER_LEN + |p.code| case _ => 0
  }

  lemma FieldAt(p: Parts, n: nat, k: nat)
    requires 1 <= n < 6 && k < 10 && SmallFile(p)
    ensures var file := FileBytes(p);
            var at := WordAt(file, E_SHOFF) + HalfAt(file, E_SHENTSIZE) * n + 4 * k;
            WordAt(file, at) == Wrap(SectionInts(p)[10 * n + k])
  {
    hide FileBytes, ReadInt, HeaderInts, SectionInts, Wrap, HalfAt, SectionsAt;
    Counted(p);
    SectionFieldIs(p, n, k);
    HeaderField(p, 8);
    HeaderField(p, 11);
    HeaderValues(p);
    SmallWrap(SectionsAt(p));
    SmallWrap(0x28_0001);
  }

  /** The ten words of section n's header. */
  function RowOf(p: Parts, n: nat): (r: seq<int>)
    ensures |r| == 10
  {
    match n
    case 1 => [0xb, 1, 7, ELF_START + HEADER_LEN, HEADER_LEN, |p.code|, 0, 0, 4, 0]
    case 2 => [0x11, 1, 3, ELF_START + HEADER_LEN + |p.code|, HEADER_LEN + |p.code|, |p.data|, 0, 0, 4, 0]
    case 3 => [0x17, 2, 0, 0, HEADER_LEN + |p.code| + |p.data|, |p.symtab|, 4, p.symbols, 4, 16]
    case 4 => [0x1f, 3, 0, 0, HEADER_LEN + |p.code| + |p.data| + |p.symtab|, |p.strtab|, 0, 0, 1, 0]
    case 5 => [1, 3, 0, 0, HEADER_LEN + |p.code| + |p.data| + |p.symtab| + |p.strtab|, 39, 0, 0, 1, 0]
    case _ => [0, 0, 0, 0, 0, 0, 0, 0, 0, 0]
  }

  lemma Rows(a: seq<int>, b: seq<int>, c: seq<int>, d: seq<int>, e: seq<int>, f: seq<int>)
    requires |a| == 10 && |b| == 10 && |c| == 10 && |d| == 10 && |e| == 10 && |f| == 10
    ensures var h := a + b + c + d + e + f;
            && h[10..20] == b && h[20..30] == c && h[30..40] == d && h[40..50] == e && h[50..60] == f
  {
  }

  lemma AllRows(p: Parts)
    ensures SectionInts(p) == RowOf(p, 0) + RowOf(p, 1) + RowOf(p, 2) + RowOf(p, 3) + RowOf(p, 4) + RowOf(p, 5)
  {
  }

  lemma RowIs(p: Parts, n: nat)
    requires 1 <= n < 6
    ensures SectionInts(p)[10 * n..10 * n + 10] == RowOf(p, n)
  {
    hide SectionInts, RowOf;
    AllRows(p);
    Rows(RowOf(p, 0), RowOf(p, 1), RowOf(p, 2), RowOf(p, 3), RowOf(p, 4), RowOf(p, 5));
  }

  lemma RowValues(p: Parts, n: nat)
    requires 1 <= n < 6
    ensures var h := RowOf(p, n);
            && h[0] == NameOffset(n) && h[1] == KindOf(n) && h[2] == FlagsOf(n) && h[3] == AddrOf(p, n)
            && h[4] == PlaceOf(p, n) && h[5] == |SectionBytes(p, n)| && h[6] == (if n == 3 then 4 else 0)
            && h[9] == (if n == 3 then 16 else 0)
  {
    hide SectionNames;
    NamesLength();
  }

  lemma SectionValues(p: Parts, n: nat)
    requires 1 <= n < 6
    ensures var h, i := SectionInts(p), 10 * n;
            && h[i] == NameOffset(n) && h[i + 1] == KindOf(n) && h[i + 2] == FlagsOf(n) && h[i + 3] == AddrOf(p, n)
            && h[i + 4] == PlaceOf(p, n) && h[i + 5] == |SectionBytes(p, n)| && h[i + 6] == (if n == 3 then 4 else 0)
            && h[i + 9] == (if n == 3 then 16 else 0)
  {
    hide SectionInts, RowOf, NameOffset, KindOf, FlagsOf, AddrOf, PlaceOf, SectionBytes;
    RowIs(p, n);
    RowValues(p, n);
    var h, i := SectionInts(p), 10 * n;
    var r := h[i..i + 10];
    assert r[0] == h[i] && r[1] == h[i + 1] && r[2] == h[i + 2] && r[3] == h[i + 3] && r[4] == h[i + 4];
    assert r[5] == h[i + 5] && r[6] == h[i + 6] && r[9] == h[i + 9];
  }

  lemma SmallPlaces(p: Parts, n: nat)
    requires 1 <= n < 6 && SmallFile(p)
    ensures 0 <= PlaceOf(p, n) < 0x8000_0000 && |SectionBytes(p, n)| < 0x8000_0000
    ensures 0 <= AddrOf(p, n) < 0x8002_0000 && 0 <= NameOffset(n) < 0x100
  {
    hide SectionNames;
    NamesLength();
  }

  /** Section n as its header describes it. */
  lemma SectionRead(p: Parts, n: nat)
    requires 1 <= n < 6 && SmallFile(p)
    ensures SectionAt(FileBytes(p), n)
         == Section(NameOffset(n), KindOf(n), FlagsOf(n), AddrOf(p, n), PlaceOf(p, n), |SectionBytes(p, n)|,
                    if n == 3 then 4 else 0, if n == 3 then 16 else 0)
  {
    hide FileBytes, SectionInts, WordAt, HalfAt, PlaceOf, SectionBytes, Wrap, NameOffset, AddrOf;
    FieldAt(p, n, 0);
    FieldAt(p, n, 1);
    FieldAt(p, n, 2);
    FieldAt(p, n, 3);
    FieldAt(p, n, 4);
    FieldAt(p, n, 5);
    FieldAt(p, n, 6);
    FieldAt(p, n, 9);
    SectionValues(p, n);
    SmallPlaces(p, n);
    SmallWrap(NameOffset(n));
    SmallWrap(KindOf(n));
    SmallWrap(FlagsOf(n));
    SmallWrap(AddrOf(p, n));
    SmallWrap(PlaceOf(p, n));
    SmallWrap(|SectionBytes(p, n)|);
    SmallWrap(if n == 3 then 4 else 0);
    SmallWrap(if n == 3 then 16 else 0);
  }

  /** A string that ends inside a piece of the file. */
  lemma {:induction false} CStringInside(file: seq<Byte>, piece: seq<Byte>, at: nat, k: nat)
    requires at + |piece| <= |file| && file[at..at + |piece|] == piece && k <= |piece|
    requires k + |CString(piece, k)| < |piece|
    ensures CString(file, at + k) == CString(piece, k)
    decreases |piece| - k
  {
    assert file[at..at + |piece|][k] == file[at + k] == piece[k];
    if piece[k] != 0 { CStringInside(file, piece, at, k + 1); }
  }

  lemma NamesEnd(n: nat)
    requires 1 <= n < 6
    ensures NameOffset(n) + |SectionName(n)| < |SectionNames()|
  {
    NamesLength();
  }

  /** A section's name is found through the section that the header says holds the names. */
  lemma SectionNamed(p: Parts, n: nat)
    requires 1 <= n < 6 && SmallFile(p)
    ensures var file := FileBytes(p);
            var names := SectionAt(file, HalfAt(file, E_SHSTRNDX));
            var at := names.offset + SectionAt(file, n).name;
            names.kind == STRINGS && 0 <= at <= |file| && CString(file, at) == SectionName(n)
  {
    hide FileBytes, SectionAt, WordAt, HalfAt, SectionName, SectionNames, CString, NameOffset;
    Counted(p);
    SectionRead(p, 5);
    SectionRead(p, n);
    SectionPlace(p, 5);
    assert SectionBytes(p, 5) == SectionNames();
    NameIs(n);
    NamesEnd(n);
    CStringInside(FileBytes(p), SectionNames(), PlaceOf(p, 5), NameOffset(n));
  }

  /** The tables hold these symbols. */
  predicate Holds(p: Parts, symbols: seq<Symbol>, pad: seq<Byte>) {
    && p.symtab == Ints(SymbolInts(symbols)) && p.strtab == StringTable(symbols) + pad
    && |StringTable(symbols)| < 0x1_0000_0000
  }

  /** Symbol k, through the symbol table's entry size and linked strings: its name, its value, and the section it is
      in. */
  lemma SymbolRead(p: Parts, symbols: seq<Symbol>, k: nat, pad: seq<Byte>)
    requires SmallFile(p) && Holds(p, symbols, pad) && k < |symbols| && NameOk(symbols[k].name)
    ensures var file := FileBytes(p);
            var table := SectionAt(file, 3);
            var strings := SectionAt(file, table.link);
            var at := table.offset + table.entsize * k;
            && table.kind == SYMBOLS && table.size == table.entsize * |symbols| && strings.kind == STRINGS
            && 0 <= strings.offset + WordAt(file, at) <= |file|
            && CString(file, strings.offset + WordAt(file, at)) == symbols[k].name
            && WordAt(file, at + 4) == Wrap(symbols[k].pc)
            && HalfAt(file, at + 14) == if symbols[k].pc == 0 then 0 else 1
  {
    hide FileBytes, SectionAt, ReadInt, CString, Ints, SymbolInts, StringTable, Wrap, HalfAt, SectionBytes;
    var file, at := FileBytes(p), PlaceOf(p, 3);
    SectionRead(p, 3);
    SectionRead(p, 4);
    SectionPlace(p, 3);
    SectionPlace(p, 4);
    TablesAre(p);
    SymbolNamed(symbols, k, pad);
    SymbolShape(symbols, k);
    var symtab, strtab := p.symtab, p.strtab;
    SameWord(file, symtab, at, 16 * k);
    SameWord(file, symtab, at, 16 * k + 4);
    SameWord(file, symtab, at, 16 * k + 12);
    var name := ReadInt(symtab, 16 * k);
    NameEnds(symbols, k, pad);
    CStringInside(file, strtab, PlaceOf(p, 4), name);
    var shndx := if symbols[k].pc == 0 then 0 else 1;
    Halves(file, at + 16 * k + 12, 0, shndx);
  }

  lemma TablesAre(p: Parts)
    ensures SectionBytes(p, 3) == p.symtab && SectionBytes(p, 4) == p.strtab
  {
  }

  lemma SameWord(file: seq<Byte>, piece: seq<Byte>, at: nat, k: nat)
    requires at + |piece| <= |file| && file[at..at + |piece|] == piece && k + 4 <= |piece|
    ensures WordAt(file, at + k) == ReadInt(piece, k)
  {
    hide WordOf;
    forall j | k <= j < k + 4 ensures file[at + j] == piece[j] { assert file[at..at + |piece|][j] == file[at + j]; }
  }

  lemma SymbolShape(symbols: seq<Symbol>, k: nat)
    requires k < |symbols|
    ensures |Ints(SymbolInts(symbols))| == 16 * |symbols|
    ensures ReadInt(Ints(SymbolInts(symbols)), 16 * k + 12) == if symbols[k].pc == 0 then 0 else 0x1_0000
  {
    hide ReadInt, Ints, StringTable;
    var ints := SymbolInts(symbols);
    SymbolIntsGrow(symbols, k + 1);
    EntryShape(symbols, k);
    IntsRead([], ints, [], 4 * k + 3);
    assert [] + Ints(ints) + [] == Ints(ints);
    SmallWrap(0x1_0000);
    SmallWrap(0);
  }

  lemma EntryShape(symbols: seq<Symbol>, k: nat)
    requires k < |symbols| && SymbolInts(symbols[..k + 1]) <= SymbolInts(symbols)
    ensures SymbolInts(symbols)[4 * k + 3] == if symbols[k].pc == 0 then 0 else 0x1_0000
  {
    hide StringTable, SymbolInts;
    EntryIs(symbols, k);
    var front, t := SymbolInts(symbols[..k]), SymbolInts(symbols[..k + 1]);
    assert |front| == 4 * k;
    assert t[4 * k + 3] == if symbols[k].pc == 0 then 0 else 0x1_0000;
  }

  lemma NameEnds(symbols: seq<Symbol>, k: nat, pad: seq<Byte>)
    requires k < |symbols| && NameOk(symbols[k].name) && |StringTable(symbols)| < 0x1_0000_0000
    ensures ReadInt(Ints(SymbolInts(symbols)), 16 * k) + |symbols[k].name| < |StringTable(symbols) + pad|
  {
    hide ReadInt, Ints, StringTable;
    var ints := SymbolInts(symbols);
    StringTableGrows(symbols, k);
    StringTableGrows(symbols, k + 1);
    SymbolIntsGrow(symbols, k + 1);
    EntryIs(symbols, k);
    IntsRead([], ints, [], 4 * k);
    assert [] + Ints(ints) + [] == Ints(ints);
    SmallWrap(|StringTable(symbols[..k])|);
  }
}
