/** The ELF file: header, code, data, symbol and string tables, and section headers, written piece by piece into buffers
    whose lengths the headers must agree with (System V gABI, chapter 4, Object Files). */
module Elf {
  import opened Words
  import opened CodeMemory

  const ELF_START := 0x10000
  const HEADER_LEN := 0x54

  // ----- numbers in bytes -----

  /** The host's own extraction, by arithmetic shift and mask. */
  function ExtractIntByte(v: int, b: nat): Byte
    requires b < 4
  {
    v / (if b == 0 then 1 else if b == 1 then 0x100 else if b == 2 then 0x1_0000 else 0x100_0000) % 0x100
  }

  function IntBytes(v: int): (r: seq<Byte>)
    ensures |r| == 4
  {
    [ExtractIntByte(v, 0), ExtractIntByte(v, 1), ExtractIntByte(v, 2), ExtractIntByte(v, 3)]
  }

  function Ints(vs: seq<int>): (r: seq<Byte>)
    ensures |r| == 4 * |vs|
  {
    if vs == [] then [] else IntBytes(vs[0]) + Ints(vs[1..])
  }

  /** The word at an offset of a file. */
  function ReadInt(file: seq<Byte>, at: nat): Word
    requires at + 4 <= |file|
  {
    WordOf(file[at], file[at + 1], file[at + 2], file[at + 3])
  }

  /** Arithmetic shifting and masking take the bytes of the two's complement word. */
  lemma IntBytesRead(v: int)
    ensures ReadInt(IntBytes(v), 0) == Wrap(v)
  {
    WrapIsMod(v);
    var w := Wrap(v);
    var q := v / 0x1_0000_0000;
    assert v == 0x1_0000_0000 * q + w;
    ByteSame(v, w, q);
    ExtractedBytes(w);
  }

  lemma ByteSame(v: int, w: Word, q: int)
    requires v == 0x1_0000_0000 * q + w
    ensures forall b :: 0 <= b < 4 ==> ExtractIntByte(v, b) == ExtractByte(w, b)
  {
    ByteOf(v, w, 0x1, 0x1_0000_0000 * q, 0x100_0000 * q);
    ByteOf(v, w, 0x100, 0x100_0000 * q, 0x1_0000 * q);
    ByteOf(v, w, 0x1_0000, 0x1_0000 * q, 0x100 * q);
    ByteOf(v, w, 0x100_0000, 0x100 * q, q);
  }

  lemma ByteOf(v: int, w: Word, d: int, high: int, higher: int)
    requires d > 0 && v == d * high + w && high == 0x100 * higher
    ensures v / d % 0x100 == w / d % 0x100
  {
    var a, r := w / d, w % d;
    assert w == d * a + r;
    assert v == d * (high + a) + r;
    RemainderUnique(v, d, high + a, r);
    RemainderUnique(high + a, 0x100, higher + a / 0x100, a % 0x100);
  }

  lemma {:induction false} IntsRead(before: seq<Byte>, vs: seq<int>, after: seq<Byte>, k: nat)
    requires k < |vs|
    ensures ReadInt(before + Ints(vs) + after, |before| + 4 * k) == Wrap(vs[k])
    decreases k
  {
    hide Wrap, ExtractIntByte, WordOf;
    var first, rest := IntBytes(vs[0]), Ints(vs[1..]);
    if k == 0 {
      IntBytesRead(vs[0]);
      ReadInside(before, first, rest + after, 0);
      assert before + (first + rest) + after == before + first + (rest + after);
    } else {
      IntsRead(before + first, vs[1..], after, k - 1);
      assert before + first + rest + after == before + (first + rest) + after;
    }
  }

  lemma ReadInside(before: seq<Byte>, piece: seq<Byte>, after: seq<Byte>, at: nat)
    requires at + 4 <= |piece|
    ensures ReadInt(before + piece + after, |before| + at) == ReadInt(piece, at)
  {
    hide WordOf;
  }

  lemma {:induction false} IntsJoin(xs: seq<int>, ys: seq<int>)
    ensures Ints(xs + ys) == Ints(xs) + Ints(ys)
  {
    hide ExtractIntByte;
    if xs == [] {
      assert xs + ys == ys;
    } else {
      assert (xs + ys)[1..] == xs[1..] + ys;
      IntsJoin(xs[1..], ys);
    }
  }

  // ----- symbols -----

  datatype Symbol = Symbol(name: seq<Byte>, pc: int)

  predicate NameOk(name: seq<Byte>) {
    forall k :: 0 <= k < |name| ==> name[k] != 0
  }

  function StringTable(symbols: seq<Symbol>): seq<Byte> {
    if symbols == [] then []
    else StringTable(symbols[..|symbols| - 1]) + symbols[|symbols| - 1].name + [0]
  }

  function SymbolInts(symbols: seq<Symbol>): (r: seq<int>)
    ensures |r| == 4 * |symbols|
  {
    if symbols == [] then []
    else
      var front, s := symbols[..|symbols| - 1], symbols[|symbols| - 1];
      SymbolInts(front) + [|StringTable(front)|, s.pc, 0, if s.pc == 0 then 0 else 0x1_0000]
  }

  /** A NUL-terminated string. */
  function CString(bytes: seq<Byte>, at: nat): seq<Byte>
    requires at <= |bytes|
    decreases |bytes| - at
  {
    if at == |bytes| || bytes[at] == 0 then [] else [bytes[at]] + CString(bytes, at + 1)
  }

  lemma {:induction false} CStringIs(before: seq<Byte>, name: seq<Byte>, after: seq<Byte>)
    requires NameOk(name)
    ensures CString(before + name + [0] + after, |before|) == name
    decreases |name|
  {
    var bytes := before + name + [0] + after;
    if name == [] {
      assert bytes[|before|] == 0;
    } else {
      assert bytes[|before|] == name[0];
      CStringIs(before + [name[0]], name[1..], after);
      assert before + [name[0]] + name[1..] + [0] + after == bytes;
      assert name == [name[0]] + name[1..];
    }
  }

  lemma {:induction false} StringTableGrows(symbols: seq<Symbol>, k: nat)
    requires k <= |symbols|
    ensures StringTable(symbols[..k]) <= StringTable(symbols)
    decreases |symbols|
  {
    if k == |symbols| {
      assert symbols[..k] == symbols;
    } else {
      var front := symbols[..|symbols| - 1];
      StringTableGrows(front, k);
      assert front[..k] == symbols[..k];
    }
  }

  lemma {:induction false} SymbolIntsGrow(symbols: seq<Symbol>, k: nat)
    requires k <= |symbols|
    ensures SymbolInts(symbols[..k]) <= SymbolInts(symbols)
    decreases |symbols|
  {
    if k == |symbols| {
      assert symbols[..k] == symbols;
    } else {
      var front := symbols[..|symbols| - 1];
      SymbolIntsGrow(front, k);
      assert front[..k] == symbols[..k];
    }
  }

  /** The name offset in entry k of the symbol table finds the name of symbol k, and its value is the symbol's
      address. */
  lemma SymbolNamed(symbols: seq<Symbol>, k: nat, pad: seq<Byte>)
    requires k < |symbols| && NameOk(symbols[k].name) && |StringTable(symbols)| < 0x1_0000_0000
    ensures var symtab, strtab := Ints(SymbolInts(symbols)), StringTable(symbols) + pad;
            var at := ReadInt(symtab, 16 * k);
            && at < |strtab| && CString(strtab, at) == symbols[k].name
            && ReadInt(symtab, 16 * k + 4) == Wrap(symbols[k].pc)
  {
    hide CString, StringTable, Ints, ReadInt, SymbolInts;
    var front, s := symbols[..k], symbols[k];
    var ints, table := SymbolInts(symbols), StringTable(symbols);
    StringTableGrows(symbols, k);
    StringTableGrows(symbols, k + 1);
    SymbolIntsGrow(symbols, k + 1);
    EntryIs(symbols, k);
    var name := StringTable(front);
    IntsRead([], ints, [], 4 * k);
    IntsRead([], ints, [], 4 * k + 1);
    assert [] + Ints(ints) + [] == Ints(ints);
    NameThere(table, name, s.name, pad);
    assert Wrap(|name|) == |name|;
  }

  lemma NameThere(table: seq<Byte>, front: seq<Byte>, name: seq<Byte>, pad: seq<Byte>)
    requires NameOk(name) && front + name + [0] <= table
    ensures |front| < |table| && CString(table + pad, |front|) == name
  {
    hide CString;
    var rest := table[|front| + |name| + 1..] + pad;
    assert table + pad == front + name + [0] + rest;
    CStringIs(front, name, rest);
  }

  lemma EntryIs(symbols: seq<Symbol>, k: nat)
    requires k < |symbols|
    ensures var front, s := symbols[..k], symbols[k];
            && StringTable(symbols[..k + 1]) == StringTable(front) + s.name + [0]
            && SymbolInts(symbols[..k + 1])
               == SymbolInts(front) + [|StringTable(front)|, s.pc, 0, if s.pc == 0 then 0 else 0x1_0000]
            && (SymbolInts(symbols[..k + 1]) <= SymbolInts(symbols) ==>
                  SymbolInts(symbols)[4 * k] == |StringTable(front)| && SymbolInts(symbols)[4 * k + 1] == s.pc)
  {
    var upto := symbols[..k + 1];
    assert upto[..|upto| - 1] == symbols[..k] && upto[|upto| - 1] == symbols[k];
    var t := SymbolInts(upto);
    assert t[4 * k] == |StringTable(symbols[..k])| && t[4 * k + 1] == symbols[k].pc;
  }

  // ----- the file -----

  function SectionNames(): seq<Byte> {
    [0] + SHSTRTAB + [0] + TEXT + [0] + DATA + [0] + SYMTAB + [0] + STRTAB + [0]
  }

  const SHSTRTAB: seq<Byte> := [46, 115, 104, 115, 116, 114, 116, 97, 98]
  const TEXT: seq<Byte> := [46, 116, 101, 120, 116]
  const DATA: seq<Byte> := [46, 100, 97, 116, 97]
  const SYMTAB: seq<Byte> := [46, 115, 121, 109, 116, 97, 98]
  const STRTAB: seq<Byte> := [46, 115, 116, 114, 116, 97, 98]

  /** What the headers are computed from. */
  datatype Parts = Parts(machine: int, flags: int, code: seq<Byte>, data: seq<Byte>, symtab: seq<Byte>,
                         strtab: seq<Byte>, symbols: nat)

  function SectionsAt(p: Parts): nat {
    HEADER_LEN + |p.code| + |p.data| + 39 + |p.symtab| + |p.strtab|
  }

  function FileHeaderInts(p: Parts): (r: seq<int>)
    ensures |r| == 13
  {
    [0x464c457f, 0x10101, 0, 0, 2 + 0x1_0000 * p.machine, 1, ELF_START + HEADER_LEN, 0x34, SectionsAt(p), p.flags,
     0x20_0034, 0x28_0001, 0x5_0006]
  }

  /** One segment with code and data. */
  function ProgramHeaderInts(p: Parts): (r: seq<int>)
    ensures |r| == 8
  {
    [1, HEADER_LEN, ELF_START + HEADER_LEN, ELF_START + HEADER_LEN, |p.code| + |p.data|, |p.code| + |p.data|, 7, 4]
  }

  function HeaderInts(p: Parts): (r: seq<int>)
    ensures |r| == 21
  {
    FileHeaderInts(p) + ProgramHeaderInts(p)
  }

  /** Ten numbers for each of the six sections: none, text, data, symbol table, string table, section names. */
  function SectionInts(p: Parts): (r: seq<int>)
    ensures |r| == 60
  {
    [0, 0, 0, 0, 0, 0, 0, 0, 0, 0]
    + [0xb, 1, 7, ELF_START + HEADER_LEN, HEADER_LEN, |p.code|, 0, 0, 4, 0]
    + [0x11, 1, 3, ELF_START + HEADER_LEN + |p.code|, HEADER_LEN + |p.code|, |p.data|, 0, 0, 4, 0]
    + [0x17, 2, 0, 0, HEADER_LEN + |p.code| + |p.data|, |p.symtab|, 4, p.symbols, 4, 16]
    + [0x1f, 3, 0, 0, HEADER_LEN + |p.code| + |p.data| + |p.symtab|, |p.strtab|, 0, 0, 1, 0]
    + [1, 3, 0, 0, HEADER_LEN + |p.code| + |p.data| + |p.symtab| + |p.strtab|, 39, 0, 0, 1, 0]
  }

  function HeaderBytes(p: Parts): seq<Byte> {
    Ints(HeaderInts(p))
  }

  function FooterBytes(p: Parts): seq<Byte> {
    p.symtab + p.strtab + SectionNames() + Ints(SectionInts(p))
  }

  function FileBytes(p: Parts): seq<Byte> {
    HeaderBytes(p) + p.code + p.data + FooterBytes(p)
  }

  /** Field k of the header of section n, found as a loader finds it: through the header's own section header offset and
      entry size. */
  function SectionField(file: seq<Byte>, n: nat, k: nat): Option<Word> {
    if |file| < HEADER_LEN then None
    else
      var at := ReadInt(file, 0x20) + ReadInt(file, 0x2c) / 0x1_0000 * n + 4 * k;
      if at + 4 <= |file| then Some(ReadInt(file, at)) else None
  }

  const SH_NAME := 0
  const SH_ADDR := 3
  const SH_OFFSET := 4
  const SH_SIZE := 5

  lemma HeaderField(p: Parts, k: nat)
    requires k < 21
    ensures |FileBytes(p)| >= HEADER_LEN && ReadInt(FileBytes(p), 4 * k) == Wrap(HeaderInts(p)[k])
  {
    hide ReadInt, Ints, HeaderInts, FooterBytes;
    IntsRead([], HeaderInts(p), p.code + p.data + FooterBytes(p), k);
    assert [] + Ints(HeaderInts(p)) + (p.code + p.data + FooterBytes(p)) == FileBytes(p);
  }

  lemma NamesLength()
    ensures |SectionNames()| == 39
  {
  }

  predicate SmallFile(p: Parts) {
    SectionsAt(p) + 240 < 0x8000_0000
  }

  lemma SectionFieldIs(p: Parts, n: nat, k: nat)
    requires n < 6 && k < 10 && SmallFile(p)
    ensures SectionField(FileBytes(p), n, k) == Some(Wrap(SectionInts(p)[10 * n + k]))
  {
    hide ReadInt, Ints, SectionInts, SectionNames;
    HeaderField(p, 8);
    HeaderField(p, 11);
    NamesLength();
    assert HeaderInts(p)[8] == SectionsAt(p) && HeaderInts(p)[11] == 0x28_0001;
    assert Wrap(0x28_0001) == 0x28_0001 && Wrap(SectionsAt(p)) == SectionsAt(p);
    assert 0x28_0001 / 0x1_0000 == 40;
    var before := HeaderBytes(p) + p.code + p.data + (p.symtab + p.strtab + SectionNames());
    IntsRead(before, SectionInts(p), [], 10 * n + k);
    assert before + Ints(SectionInts(p)) + [] == FileBytes(p);
    assert |before| == SectionsAt(p);
  }

  /** The bytes of section n. */
  function SectionBytes(p: Parts, n: nat): seq<Byte> {
    match n
    case 1 => p.code
    case 2 => p.data
    case 3 => p.symtab
    case 4 => p.strtab
    case 5 => SectionNames()
    case _ => []
  }

  function SectionName(n: nat): seq<Byte> {
    match n
    case 1 => TEXT
    case 2 => DATA
    case 3 => SYMTAB
    case 4 => STRTAB
    case 5 => SHSTRTAB
    case _ => []
  }

  /** Reading the file at a section header's offset and size returns exactly the section's bytes, and its name offset
      finds its name among the section names. */
  lemma SectionLocated(p: Parts, n: nat)
    requires 1 <= n < 6 && SmallFile(p)
    ensures var file := FileBytes(p);
            var at, size, name :=
              SectionField(file, n, SH_OFFSET), SectionField(file, n, SH_SIZE), SectionField(file, n, SH_NAME);
            && at.Some? && size.Some? && name.Some? && at.value + size.value <= |file|
            && file[at.value..at.value + size.value] == SectionBytes(p, n)
            && name.value <= 39 && CString(SectionNames(), name.value) == SectionName(n)
  {
    hide SectionField, Ints, CString, HeaderInts;
    SectionFieldIs(p, n, SH_OFFSET);
    SectionFieldIs(p, n, SH_SIZE);
    SectionFieldIs(p, n, SH_NAME);
    NamesLength();
    NameIs(n);
    SectionOffsets(p, n);
    SectionPlace(p, n);
  }

  /** The offset, size and name of section n, as its header gives them. */
  lemma SectionOffsets(p: Parts, n: nat)
    requires 1 <= n < 6 && SmallFile(p)
    ensures Wrap(SectionInts(p)[10 * n + SH_OFFSET]) == PlaceOf(p, n)
    ensures Wrap(SectionInts(p)[10 * n + SH_SIZE]) == |SectionBytes(p, n)|
    ensures Wrap(SectionInts(p)[10 * n + SH_NAME]) == NameOffset(n)
  {
    hide SectionNames;
    NamesLength();
    FieldValues(p, n);
  }

  lemma FieldValues(p: Parts, n: nat)
    requires 1 <= n < 6
    ensures SectionInts(p)[10 * n + 4] == PlaceOf(p, n)
    ensures SectionInts(p)[10 * n + 5] == |SectionBytes(p, n)|
    ensures SectionInts(p)[10 * n] == NameOffset(n)
  {
    hide SectionNames;
    NamesLength();
  }

  function PlaceOf(p: Parts, n: nat): nat {
    HEADER_LEN + (if n > 1 then |p.code| else 0) + (if n > 2 then |p.data| else 0) + (if n > 3 then |p.symtab| else 0)
    + (if n > 4 then |p.strtab| else 0)
  }

  function NameOffset(n: nat): nat {
    match n case 1 => 0xb case 2 => 0x11 case 3 => 0x17 case 4 => 0x1f case 5 => 1 case _ => 0
  }

  lemma SectionPlace(p: Parts, n: nat)
    requires 1 <= n < 6
    ensures var file, at, size := FileBytes(p), PlaceOf(p, n), |SectionBytes(p, n)|;
            at + size <= |file| && file[at..at + size] == SectionBytes(p, n)
  {
    hide SectionNames, Ints, SectionInts, HeaderInts;
    var h, sections := HeaderBytes(p), Ints(SectionInts(p));
    assert |h| == HEADER_LEN;
    match n {
      case 1 => Cut(h, p.code, p.data + FooterBytes(p), FileBytes(p));
      case 2 => Cut(h + p.code, p.data, FooterBytes(p), FileBytes(p));
      case 3 => Cut(h + p.code + p.data, p.symtab, p.strtab + SectionNames() + sections, FileBytes(p));
      case 4 => Cut(h + p.code + p.data + p.symtab, p.strtab, SectionNames() + sections, FileBytes(p));
      case 5 => Cut(h + p.code + p.data + p.symtab + p.strtab, SectionNames(), sections, FileBytes(p));
    }
  }

  lemma Cut(before: seq<Byte>, piece: seq<Byte>, after: seq<Byte>, whole: seq<Byte>)
    requires whole == before + piece + after
    ensures |before| + |piece| <= |whole| && whole[|before|..|before| + |piece|] == piece
  {
  }

  lemma NameIs(n: nat)
    requires 1 <= n < 6
    ensures NameOffset(n) <= |SectionNames()| && CString(SectionNames(), NameOffset(n)) == SectionName(n)
  {
    hide CString;
    var z: seq<Byte> := [0];
    match n {
      case 1 => NameAt(z + SHSTRTAB + z, TEXT, DATA + z + SYMTAB + z + STRTAB + z);
      case 2 => NameAt(z + SHSTRTAB + z + TEXT + z, DATA, SYMTAB + z + STRTAB + z);
      case 3 => NameAt(z + SHSTRTAB + z + TEXT + z + DATA + z, SYMTAB, STRTAB + z);
      case 4 => NameAt(z + SHSTRTAB + z + TEXT + z + DATA + z + SYMTAB + z, STRTAB, []);
      case 5 => NameAt(z, SHSTRTAB, TEXT + z + DATA + z + SYMTAB + z + STRTAB + z);
    }
  }

  lemma NameAt(before: seq<Byte>, name: seq<Byte>, after: seq<Byte>)
    requires NameOk(name) && before + name + [0] + after == SectionNames()
    ensures CString(SectionNames(), |before|) == name
  {
    CStringIs(before, name, after);
  }

  /** Code and data lie in memory where their section headers say and the load segment puts them. */
  lemma AddressesAgree(p: Parts, n: nat)
    requires (n == 1 || n == 2) && SmallFile(p)
    ensures var file := FileBytes(p);
            && |file| >= HEADER_LEN && SectionField(file, n, SH_ADDR).Some? && SectionField(file, n, SH_OFFSET).Some?
            && (var vaddr, offset, size := ReadInt(file, 0x3c), ReadInt(file, 0x38), ReadInt(file, 0x44);
                && ReadInt(file, 0x34) == 1 && ReadInt(file, 0x18) == vaddr
                && SectionField(file, n, SH_ADDR).value - vaddr == SectionField(file, n, SH_OFFSET).value - offset
                && offset <= SectionField(file, n, SH_OFFSET).value
                && SectionField(file, n, SH_OFFSET).value + |SectionBytes(p, n)| <= offset + size)
  {
    hide SectionField, ReadInt, FileBytes;
    SectionFieldIs(p, n, SH_ADDR);
    SectionFieldIs(p, n, SH_OFFSET);
    HeaderField(p, 6);
    HeaderField(p, 13);
    HeaderField(p, 14);
    HeaderField(p, 15);
    HeaderField(p, 17);
    SegmentValues(p, n);
  }

  lemma SegmentValues(p: Parts, n: nat)
    requires (n == 1 || n == 2) && SmallFile(p)
    ensures var start := ELF_START + HEADER_LEN;
            && Wrap(HeaderInts(p)[6]) == Wrap(HeaderInts(p)[15]) == start && Wrap(HeaderInts(p)[13]) == 1
            && Wrap(HeaderInts(p)[14]) == HEADER_LEN && Wrap(HeaderInts(p)[17]) == |p.code| + |p.data|
            && Wrap(SectionInts(p)[10 * n + SH_OFFSET]) == PlaceOf(p, n)
            && Wrap(SectionInts(p)[10 * n + SH_ADDR]) == ELF_START + PlaceOf(p, n)
  {
    hide SectionNames;
    FieldValues(p, n);
    AddressValues(p, n);
  }

  lemma AddressValues(p: Parts, n: nat)
    requires n == 1 || n == 2
    ensures SectionInts(p)[10 * n + 3] == ELF_START + PlaceOf(p, n)
  {
  }

  // ----- the writer -----

  class Writer {
    /** The backend's machine number and flags, and what the buffers happen to hold behind their contents. */
    const machine: Byte
    const flags: int
    const fill: Byte
    var header: seq<Byte>
    var code: seq<Byte>
    var data: seq<Byte>
    var symtab: seq<Byte>
    var strtab: seq<Byte>
    var footer: seq<Byte>
    ghost var symbols: seq<Symbol>
    var symbolIdx: nat

    constructor (machine: Byte, flags: int, fill: Byte, code: seq<Byte>, data: seq<Byte>)
      ensures this.machine == machine && this.flags == flags && this.code == code && this.data == data
      ensures header == [] && footer == [] && symbols == [] && Valid()
    {
      this.machine, this.flags, this.fill, this.code, this.data := machine, flags, fill, code, data;
      header, symtab, strtab, footer, symbols, symbolIdx := [], [], [], [], [], 0;
    }

    ghost predicate Valid()
      reads this
    {
      symtab == Ints(SymbolInts(symbols)) && strtab == StringTable(symbols) && symbolIdx == |symbols|
    }

    function Contents(): Parts
      reads this
    {
      Parts(machine, flags, code, data, symtab, strtab, symbolIdx)
    }

    /** The four bytes of a number behind a buffer. */
    method WriteInt(buf: seq<Byte>, val: int) returns (r: seq<Byte>)
      ensures r == buf + IntBytes(val)
    {
      r := buf;
      var i := 0;
      while i < 4
        invariant 0 <= i <= 4 && r == buf + IntBytes(val)[..i]
      {
        r := r + [ExtractIntByte(val, i)];
        i := i + 1;
      }
    }

    method WriteSymbolInt(val: int, ghost done: seq<int>)
      requires symtab == Ints(done)
      modifies `symtab
      ensures symtab == Ints(done + [val])
    {
      symtab := WriteInt(symtab, val);
      IntsMore(done, val);
    }

    /** A symbol's entry and its name. */
    method AddSymbol(symbol: seq<Byte>, pc: int)
      requires Valid()
      modifies `symtab, `strtab, `symbols, `symbolIdx
      ensures Valid() && symbols == old(symbols) + [Symbol(symbol, pc)]
    {
      hide Ints, StringTable, SymbolInts;
      ghost var done, entry := SymbolInts(symbols), symbols + [Symbol(symbol, pc)];
      EntryMore(symbols, Symbol(symbol, pc));
      var info := if pc == 0 then 0 else 0x1_0000;
      WriteSymbolInt(|strtab|, done);
      WriteSymbolInt(pc, done + [|strtab|]);
      WriteSymbolInt(0, done + [|strtab|] + [pc]);
      WriteSymbolInt(info, done + [|strtab|] + [pc] + [0]);
      assert done + [|strtab|] + [pc] + [0] + [info] == SymbolInts(entry);
      var i := 0;
      ghost var before := strtab;
      while i < |symbol|
        invariant 0 <= i <= |symbol| && strtab == before + symbol[..i]
        invariant symtab == Ints(SymbolInts(entry)) && symbols == old(symbols) && symbolIdx == |symbols|
      {
        strtab := strtab + [symbol[i]];
        i := i + 1;
      }
      assert symbol[..i] == symbol;
      strtab := strtab + [0];
      symbolIdx := symbolIdx + 1;
      symbols := entry;
    }

    /** Data and both tables are filled up to whole words. */
    method Align()
      requires Valid()
      modifies `data, `symtab, `strtab
      ensures |data| % 4 == 0 && |symtab| % 4 == 0 && |strtab| % 4 == 0
      ensures old(data) <= data && |data| < |old(data)| + 4
      ensures symtab == old(symtab) && StringTable(symbols) <= strtab
    {
      data := Filled(data);
      symtab := Filled(symtab);
      strtab := Filled(strtab);
    }

    method Filled(buf: seq<Byte>) returns (r: seq<Byte>)
      ensures |r| % 4 == 0 && buf <= r && |r| < |buf| + 4 && (|buf| % 4 == 0 ==> r == buf)
    {
      var remainder := |buf| % 4;
      r := buf;
      if remainder != 0 {
        r := r + seq(4 - remainder, _ => fill);
      }
    }

    /** Number k of the header. */
    method WriteHeaderInt(val: int, ghost before: seq<Byte>, ghost ints: seq<int>, ghost k: nat)
      requires k < |ints| && ints[k] == val && header == before + Ints(ints[..k])
      modifies `header
      ensures header == before + Ints(ints[..k + 1])
    {
      hide Ints;
      header := WriteInt(header, val);
      IntsMore(ints[..k], val);
      assert ints[..k + 1] == ints[..k] + [val];
    }

    method WriteHeaderByte(val: Byte)
      modifies `header
      ensures header == old(header) + [val]
    {
      header := header + [val];
    }

    /** Four bytes that make up one number. */
    method WriteHeaderBytes(b0: Byte, b1: Byte, b2: Byte, b3: Byte, ghost before: seq<Byte>, ghost ints: seq<int>,
                            ghost k: nat)
      requires k < |ints| && ints[k] == WordOf(b0, b1, b2, b3) && header == before + Ints(ints[..k])
      modifies `header
      ensures header == before + Ints(ints[..k + 1])
    {
      hide Ints, WordOf;
      ghost var here := header;
      WriteHeaderByte(b0);
      WriteHeaderByte(b1);
      WriteHeaderByte(b2);
      WriteHeaderByte(b3);
      BytesBack(b0, b1, b2, b3);
      assert header == here + IntBytes(ints[k]);
      IntsMore(ints[..k], ints[k]);
      assert ints[..k + 1] == ints[..k] + [ints[k]];
    }

    method GenerateHeader()
      requires header == []
      modifies `header
      ensures header == HeaderBytes(Contents()) && |header| == HEADER_LEN
    {
      hide Ints, FileHeaderInts, ProgramHeaderInts;
      GenerateFileHeader();
      GenerateProgramHeader();
      IntsJoin(FileHeaderInts(Contents()), ProgramHeaderInts(Contents()));
    }

    method GenerateFileHeader()
      requires header == []
      modifies `header
      ensures header == Ints(FileHeaderInts(Contents()))
    {
      hide Ints;
      IntsNone();
      ghost var ints := FileHeaderInts(Contents());
      assert ints[..0] == [];
      WriteHeaderInt(0x464c457f, [], ints, 0);
      WriteHeaderBytes(1, 1, 1, 0, [], ints, 1);
      WriteHeaderInt(0, [], ints, 2);
      WriteHeaderInt(0, [], ints, 3);
      WriteHeaderBytes(2, 0, machine, 0, [], ints, 4);
      WriteHeaderInt(1, [], ints, 5);
      WriteHeaderInt(ELF_START + HEADER_LEN, [], ints, 6);
      WriteHeaderInt(0x34, [], ints, 7);
      WriteHeaderInt(HEADER_LEN + |code| + |data| + 39 + |symtab| + |strtab|, [], ints, 8);
      WriteHeaderInt(flags, [], ints, 9);
      WriteHeaderBytes(0x34, 0, 0x20, 0, [], ints, 10);
      WriteHeaderBytes(1, 0, 0x28, 0, [], ints, 11);
      WriteHeaderBytes(6, 0, 5, 0, [], ints, 12);
      assert ints[..13] == ints;
    }

    method GenerateProgramHeader()
      modifies `header
      ensures header == old(header) + Ints(ProgramHeaderInts(Contents()))
    {
      hide Ints;
      IntsNone();
      ghost var ints, before := ProgramHeaderInts(Contents()), header;
      assert ints[..0] == [];
      WriteHeaderInt(1, before, ints, 0);
      WriteHeaderInt(HEADER_LEN, before, ints, 1);
      WriteHeaderInt(ELF_START + HEADER_LEN, before, ints, 2);
      WriteHeaderInt(ELF_START + HEADER_LEN, before, ints, 3);
      WriteHeaderInt(|code| + |data|, before, ints, 4);
      WriteHeaderInt(|code| + |data|, before, ints, 5);
      WriteHeaderInt(7, before, ints, 6);
      WriteHeaderInt(4, before, ints, 7);
      assert ints[..8] == ints;
    }

    method WriteFooterBytes(vals: seq<Byte>)
      modifies `footer
      ensures footer == old(footer) + vals
    {
      var i := 0;
      ghost var before := footer;
      while i < |vals|
        invariant 0 <= i <= |vals| && footer == before + vals[..i]
      {
        footer := footer + [vals[i]];
        i := i + 1;
      }
    }

    method WriteFooterInts(vals: seq<int>)
      modifies `footer
      ensures footer == old(footer) + Ints(vals)
    {
      hide Ints;
      var i := 0;
      ghost var before := footer;
      IntsNone();
      assert vals[..0] == [];
      while i < |vals|
        invariant 0 <= i <= |vals| && footer == before + Ints(vals[..i])
      {
        footer := WriteInt(footer, vals[i]);
        IntsMore(vals[..i], vals[i]);
        assert vals[..i + 1] == vals[..i] + [vals[i]];
        i := i + 1;
      }
      assert vals[..i] == vals;
    }

    method WriteSectionNames()
      modifies `footer
      ensures footer == old(footer) + SectionNames()
    {
      WriteFooterBytes([0]);
      WriteFooterBytes(SHSTRTAB);
      WriteFooterBytes([0]);
      WriteFooterBytes(TEXT);
      WriteFooterBytes([0]);
      WriteFooterBytes(DATA);
      WriteFooterBytes([0]);
      WriteFooterBytes(SYMTAB);
      WriteFooterBytes([0]);
      WriteFooterBytes(STRTAB);
      WriteFooterBytes([0]);
      NamesJoined(old(footer));
    }

    method GenerateFooter()
      requires footer == []
      modifies `footer
      ensures footer == FooterBytes(Contents())
    {
      hide Ints, SectionNames, SectionInts;
      WriteFooterBytes(symtab);
      WriteFooterBytes(strtab);
      WriteSectionNames();
      WriteSections(Contents());
    }

    /** The section header table. */
    method WriteSections(ghost p: Parts)
      requires p == Contents()
      modifies `footer
      ensures footer == old(footer) + Ints(SectionInts(p))
    {
      hide Ints;
      var start := HEADER_LEN;
      var none := [0, 0, 0, 0, 0, 0, 0, 0, 0, 0];
      var text := [0xb, 1, 7, ELF_START + start, start, |code|, 0, 0, 4, 0];
      var dat := [0x11, 1, 3, ELF_START + start + |code|, start + |code|, |data|, 0, 0, 4, 0];
      var sym := [0x17, 2, 0, 0, start + |code| + |data|, |symtab|, 4, symbolIdx, 4, 16];
      var str := [0x1f, 3, 0, 0, start + |code| + |data| + |symtab|, |strtab|, 0, 0, 1, 0];
      var names := [1, 3, 0, 0, start + |code| + |data| + |symtab| + |strtab|, 39, 0, 0, 1, 0];
      WriteFooterInts(none);
      WriteFooterInts(text);
      WriteFooterInts(dat);
      WriteFooterInts(sym);
      WriteFooterInts(str);
      WriteFooterInts(names);
      IntsJoin(none, text);
      IntsJoin(none + text, dat);
      IntsJoin(none + text + dat, sym);
      IntsJoin(none + text + dat + sym, str);
      IntsJoin(none + text + dat + sym + str, names);
      SectionsAre(p, none, text, dat, sym, str, names);
    }

    /** The whole file. */
    method Generate() returns (file: seq<Byte>)
      requires Valid() && header == [] && footer == []
      modifies `data, `symtab, `strtab, `header, `footer
      ensures file == FileBytes(Contents())
      ensures Contents().code == old(code) && old(data) <= Contents().data
      ensures Contents().symtab == Ints(SymbolInts(symbols)) && StringTable(symbols) <= Contents().strtab
    {
      hide Ints, StringTable, SymbolInts, HeaderBytes, FooterBytes;
      Align();
      GenerateHeader();
      GenerateFooter();
      file := header + code + data + footer;
    }
  }

  lemma IntsNone()
    ensures Ints([]) == []
  {
  }

  lemma IntsMore(done: seq<int>, val: int)
    ensures Ints(done + [val]) == Ints(done) + IntBytes(val)
  {
    hide ExtractIntByte;
    IntsJoin(done, [val]);
    assert [val][1..] == [];
    assert Ints([val]) == IntBytes(val) + Ints([]);
  }

  lemma NamesJoined(f: seq<Byte>)
    ensures f + [0] + SHSTRTAB + [0] + TEXT + [0] + DATA + [0] + SYMTAB + [0] + STRTAB + [0] == f + SectionNames()
  {
  }

  lemma BytesBack(b0: Byte, b1: Byte, b2: Byte, b3: Byte)
    ensures IntBytes(WordOf(b0, b1, b2, b3)) == [b0, b1, b2, b3]
  {
    var v: int := WordOf(b0, b1, b2, b3);
    ByteBack(v, 1, b1 + 0x100 * b2 + 0x1_0000 * b3, b0, 0);
    ByteBack(v, 0x100, b2 + 0x100 * b3, b1, b0);
    ByteBack(v, 0x1_0000, b3, b2, b0 + 0x100 * b1);
    ByteBack(v, 0x100_0000, 0, b3, b0 + 0x100 * b1 + 0x1_0000 * b2);
  }

  lemma ByteBack(v: int, d: int, high: int, b: int, low: int)
    requires d > 0 && 0 <= low < d && 0 <= b < 0x100 && v == d * (0x100 * high + b) + low
    ensures v / d % 0x100 == b
  {
    RemainderUnique(v, d, 0x100 * high + b, low);
    RemainderUnique(0x100 * high + b, 0x100, high, b);
  }

  lemma EntryMore(symbols: seq<Symbol>, s: Symbol)
    ensures StringTable(symbols + [s]) == StringTable(symbols) + s.name + [0]
    ensures SymbolInts(symbols + [s])
         == SymbolInts(symbols) + [|StringTable(symbols)|, s.pc, 0, if s.pc == 0 then 0 else 0x1_0000]
  {
    assert (symbols + [s])[..|symbols|] == symbols;
  }

  lemma SectionsAre(p: Parts, none: seq<int>, text: seq<int>, dat: seq<int>, sym: seq<int>, str: seq<int>,
                    names: seq<int>)
    requires none == [0, 0, 0, 0, 0, 0, 0, 0, 0, 0]
    requires text == [0xb, 1, 7, ELF_START + HEADER_LEN, HEADER_LEN, |p.code|, 0, 0, 4, 0]
    requires dat == [0x11, 1, 3, ELF_START + HEADER_LEN + |p.code|, HEADER_LEN + |p.code|, |p.data|, 0, 0, 4, 0]
    requires sym == [0x17, 2, 0, 0, HEADER_LEN + |p.code| + |p.data|, |p.symtab|, 4, p.symbols, 4, 16]
    requires str == [0x1f, 3, 0, 0, HEADER_LEN + |p.code| + |p.data| + |p.symtab|, |p.strtab|, 0, 0, 1, 0]
    requires names == [1, 3, 0, 0, HEADER_LEN + |p.code| + |p.data| + |p.symtab| + |p.strtab|, 39, 0, 0, 1, 0]
    ensures SectionInts(p) == none + text + dat + sym + str + names
  {
  }
}
