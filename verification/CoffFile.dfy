/** The COFF object file that carries the blob, and a reader that follows the file header to the
    section, the symbols and their names (PE/COFF specification, sections 3 to 5). */
module CoffFile {
  import opened Basics
  import opened Bytes

  datatype Header = Header(machine: nat, sections: nat, symtab: nat, symbols: nat)

  datatype Section = Section(name: seq<byte>, size: nat, offset: nat, flags: nat)

  // zeroes is 0 when the name is in the string table, at the offset.
  datatype Symbol = Symbol(zeroes: nat, offset: nat, value: nat, section: nat, kind: nat, storage: nat)

  const MACHINE_I386: nat := 0x14c
  const MACHINE_AMD64: nat := 0x8664
  const RDATA_FLAGS: nat := 0x4030_0040 // initialised data, aligned to 4, readable
  const TYPE_CHAR_ARRAY: nat := 0x302
  const CLASS_EXTERNAL: nat := 2

  const HEADER_SIZE: nat := 20
  const SECTION_SIZE: nat := 40
  const SYMBOL_SIZE: nat := 18
  const OBJ_SIZE: nat := 96

  const HEADER: seq<nat> := [2, 2, 4, 4, 4, 2, 2]
  const SECTION: seq<nat> := [4, 4, 4, 4, 4, 4, 2, 2, 4]
  const SYMBOL: seq<nat> := [4, 4, 4, 2, 2, 1, 1]

  function HeaderValues(h: Header): seq<nat> {
    [h.machine, h.sections, 0, h.symtab, h.symbols, 0, 0]
  }

  function SectionValues(s: Section): seq<nat> {
    [0, 0, s.size, s.offset, 0, 0, 0, 0, s.flags]
  }

  function SymbolValues(y: Symbol): seq<nat> {
    [y.zeroes, y.offset, y.value, y.section, y.kind, y.storage, 0]
  }

  function HeaderBytes(h: Header): (r: seq<byte>)
    ensures |r| == HEADER_SIZE
  {
    assert Total([2, 2, 4, 4, 4, 2, 2]) == 20;
    Encode(Zip(HEADER, HeaderValues(h)))
  }

  // The name is kept apart, in the eight bytes in front.
  function SectionBytes(s: Section): (r: seq<byte>)
    ensures |r| == SECTION_SIZE - 8
  {
    assert Total([4, 4, 4, 4, 4, 4, 2, 2, 4]) == 32;
    Encode(Zip(SECTION, SectionValues(s)))
  }

  function SymbolBytes(y: Symbol): (r: seq<byte>)
    ensures |r| == SYMBOL_SIZE
  {
    assert Total([4, 4, 4, 2, 2, 1, 1]) == 18;
    Encode(Zip(SYMBOL, SymbolValues(y)))
  }

  // ---------- the reader ----------

  function ReadHeader(file: seq<byte>): Option<Header> {
    match ReadStruct(HEADER, file, 0)
    case None => None
    case Some(v) => Some(Header(v[0], v[1], v[3], v[4]))
  }

  function ReadSection(file: seq<byte>): Option<Section> {
    match (Slice(file, HEADER_SIZE, 8), ReadStruct(SECTION, file, HEADER_SIZE + 8))
    case (Some(name), Some(v)) => Some(Section(CString(name), v[2], v[3], v[8]))
    case _ => None
  }

  // The bytes of the section.
  function RawData(file: seq<byte>): Option<seq<byte>> {
    match ReadSection(file)
    case None => None
    case Some(s) => Slice(file, s.offset, s.size)
  }

  function ReadSymbol(file: seq<byte>, j: nat): Option<Symbol> {
    match ReadHeader(file)
    case None => None
    case Some(h) =>
      if j >= h.symbols then None
      else match ReadStruct(SYMBOL, file, h.symtab + j * SYMBOL_SIZE)
        case None => None
        case Some(v) => Some(Symbol(v[0], v[1], v[2], v[3], v[4], v[5]))
  }

  // The string table, its own size in front, stands behind the symbols.
  function StringTable(file: seq<byte>): Option<seq<byte>> {
    match ReadHeader(file)
    case None => None
    case Some(h) =>
      var at := h.symtab + h.symbols * SYMBOL_SIZE;
      match Slice(file, at, 4)
      case None => None
      case Some(b) => Slice(file, at, FromLE(b))
  }

  function SymbolName(file: seq<byte>, j: nat): Option<seq<byte>> {
    match (ReadSymbol(file, j), StringTable(file))
    case (Some(y), Some(table)) => if y.zeroes != 0 then None else StringAt(table, y.offset)
    case _ => None
  }

  // ---------- a file put together from its pieces ----------

  // Header, section header with its name, two symbols, size of the string table, strings, padding, data.
  function Pieces(h: Header, s: Section, y0: Symbol, y1: Symbol, strings: seq<byte>, pad: nat, data: seq<byte>)
    : (r: seq<seq<byte>>)
    requires |s.name| < 8
    ensures |r| == 9
  {
    [HeaderBytes(h), s.name + Zeros(8 - |s.name|), SectionBytes(s), SymbolBytes(y0), SymbolBytes(y1),
     LE(|strings| + 4, 4), strings, Zeros(pad), data]
  }

  predicate Shaped(p: seq<seq<byte>>, strings: nat, pad: nat) {
    && |p| == 9 && |p[0]| == 20 && |p[1]| == 8 && |p[2]| == 32 && |p[3]| == 18 && |p[4]| == 18 && |p[5]| == 4
    && |p[6]| == strings && |p[7]| == pad
  }

  lemma PiecesShaped(h: Header, s: Section, y0: Symbol, y1: Symbol, strings: seq<byte>, pad: nat, data: seq<byte>)
    requires |s.name| < 8
    ensures Shaped(Pieces(h, s, y0, y1, strings, pad, data), |strings|, pad)
  {
    hide HeaderBytes, SectionBytes, SymbolBytes, LE;
  }

  lemma Starts(p: seq<seq<byte>>, strings: nat, pad: nat)
    requires Shaped(p, strings, pad)
    ensures Start(p, 0) == 0 && Start(p, 1) == 20 && Start(p, 2) == 28 && Start(p, 3) == 60 && Start(p, 4) == 78
    ensures Start(p, 5) == 96 && Start(p, 6) == 100
    ensures Start(p, 7) == 100 + strings && Start(p, 8) == 100 + strings + pad
    ensures |Join(p)| == 100 + strings + pad + |p[8]|
  {
    assert Start(p, 1) == 20 && Start(p, 2) == 28;
    assert Start(p, 3) == 60 && Start(p, 4) == 78;
    assert Start(p, 5) == 96 && Start(p, 6) == 100;
    assert Start(p, 7) == 100 + strings && Start(p, 8) == 100 + strings + pad;
    LengthOf(p);
  }

  // ---------- reading what was written ----------

  lemma HeaderRead(p: seq<seq<byte>>, strings: nat, pad: nat, h: Header)
    requires Shaped(p, strings, pad) && p[0] == HeaderBytes(h) && AllFit(HEADER, HeaderValues(h))
    ensures ReadHeader(Join(p)) == Some(h)
  {
    StructAt(p, 0, HEADER, HeaderValues(h));
  }

  lemma SectionRead(p: seq<seq<byte>>, strings: nat, pad: nat, s: Section)
    requires Shaped(p, strings, pad) && p[2] == SectionBytes(s) && AllFit(SECTION, SectionValues(s))
    requires |s.name| < 8 && 0 !in s.name && p[1] == s.name + Zeros(8 - |s.name|)
    ensures ReadSection(Join(p)) == Some(s)
  {
    Starts(p, strings, pad);
    PieceAt(p, 1);
    StructAt(p, 2, SECTION, SectionValues(s));
    StringEnds(s.name, Zeros(8 - |s.name|));
  }

  lemma DataRead(p: seq<seq<byte>>, strings: nat, pad: nat, s: Section)
    requires Shaped(p, strings, pad) && ReadSection(Join(p)) == Some(s)
    requires s.offset == 100 + strings + pad && s.size == |p[8]|
    ensures RawData(Join(p)) == Some(p[8])
  {
    Starts(p, strings, pad);
    PieceAt(p, 8);
  }

  lemma SymbolFrom(file: seq<byte>, h: Header, y: Symbol, j: nat)
    requires ReadHeader(file) == Some(h) && j < h.symbols
    requires ReadStruct(SYMBOL, file, h.symtab + j * SYMBOL_SIZE) == Some(SymbolValues(y))
    ensures ReadSymbol(file, j) == Some(y)
  {
    var v := SymbolValues(y);
    assert Symbol(v[0], v[1], v[2], v[3], v[4], v[5]) == y;
  }

  lemma SymbolRead(p: seq<seq<byte>>, strings: nat, pad: nat, h: Header, y: Symbol, j: nat)
    requires Shaped(p, strings, pad) && ReadHeader(Join(p)) == Some(h) && h.symtab == 60 && h.symbols == 2
    requires j < 2 && p[3 + j] == SymbolBytes(y) && AllFit(SYMBOL, SymbolValues(y))
    ensures ReadSymbol(Join(p), j) == Some(y)
  {
    Starts(p, strings, pad);
    StructAt(p, 3 + j, SYMBOL, SymbolValues(y));
    assert Start(p, 3 + j) == h.symtab + j * SYMBOL_SIZE by { if j == 0 {} else {} }
    SymbolFrom(Join(p), h, y, j);
  }

  lemma StringsFrom(file: seq<byte>, h: Header, strings: seq<byte>)
    requires ReadHeader(file) == Some(h) && h.symtab == 60 && h.symbols == 2 && |strings| <= 256
    requires Slice(file, 96, 4) == Some(LE(|strings| + 4, 4)) && Slice(file, 100, |strings|) == Some(strings)
    ensures StringTable(file) == Some(LE(|strings| + 4, 4) + strings)
  {
    ReadBack(|strings| + 4, 4);
    Word(|strings| + 4);
    SliceTwo(file, 96, LE(|strings| + 4, 4), strings);
  }

  lemma StringsRead(p: seq<seq<byte>>, strings: seq<byte>, pad: nat, h: Header)
    requires Shaped(p, |strings|, pad) && ReadHeader(Join(p)) == Some(h) && h.symtab == 60 && h.symbols == 2
    requires |strings| <= 256 && p[5] == LE(|strings| + 4, 4) && p[6] == strings
    ensures StringTable(Join(p)) == Some(LE(|strings| + 4, 4) + strings)
  {
    Starts(p, |strings|, pad);
    PieceAt(p, 5);
    PieceAt(p, 6);
    StringsFrom(Join(p), h, strings);
  }

  lemma NameRead(file: seq<byte>, j: nat, y: Symbol, front: seq<byte>, strings: seq<byte>, at: nat, name: seq<byte>)
    requires ReadSymbol(file, j) == Some(y) && StringTable(file) == Some(front + strings) && |front| == 4
    requires y.zeroes == 0 && y.offset == at + 4 && Named(strings, at, name) && 0 !in name
    ensures SymbolName(file, j) == Some(name)
  {
    var table := front + strings;
    assert table[at + 4..at + 4 + |name|] == strings[at..at + |name|];
    NameIsRead(table, at + 4, name);
  }

  // ---------- the writer ----------

  const UNDERSCORE: seq<byte> := [95]

  // The two names, an underscore before each for 32 bits, fit the table of 256 bytes.
  predicate NamesFit(x64: bool, dataName: seq<byte>, sizeName: seq<byte>, secName: seq<byte>) {
    && 0 !in dataName && 0 !in sizeName && 0 !in secName && |secName| < 8
    && |dataName| + |sizeName| <= (if x64 then 254 else 252)
  }

  function Decorated(x64: bool, name: seq<byte>): seq<byte> {
    if x64 then name else UNDERSCORE + name
  }

  // Adds a string to the table of 256 bytes and returns its offset, behind the four bytes in front.
  method AddString(table: seq<byte>, a: seq<byte>) returns (longer: seq<byte>, offset: nat)
    requires |table| + |a| < 256
    ensures longer == table + a + [0] && offset == |table| + 4 && Named(longer, offset - 4, a)
    ensures forall at: nat, b: seq<byte> :: Named(table, at, b) ==> Named(longer, at, b)
  {
    offset := |table|;
    var n := if |a| <= 256 - offset then |a| else 256 - offset;
    longer := table + a[..n] + [0];
    assert longer[offset..offset + |a|] == a;
    forall at: nat, b: seq<byte> | Named(table, at, b) ensures Named(longer, at, b) {
      assert longer[at..at + |b|] == table[at..at + |b|];
    }
    offset := offset + 4;
  }

  // Every offset that the headers hold fits 32 bits, and so does the size of the data.
  predicate InRange(data: seq<byte>) {
    |data| < 0x1_0000_0000
  }

  // What a reader makes of the file.
  predicate Gives(file: seq<byte>, x64: bool, dataName: seq<byte>, sizeName: seq<byte>, secName: seq<byte>,
                  data: seq<byte>) {
    && ReadHeader(file).Some? && ReadHeader(file).value.machine == (if x64 then MACHINE_AMD64 else MACHINE_I386)
    && ReadHeader(file).value.sections == 1 && ReadHeader(file).value.symbols == 2
    && ReadSection(file).Some? && ReadSection(file).value.name == secName
    && ReadSection(file).value.flags == RDATA_FLAGS
    && (RawData(file) == Some(data) <==> InRange(data))
    && SymbolName(file, 0) == Some((if x64 then [] else UNDERSCORE) + sizeName)
    && SymbolName(file, 1) == Some((if x64 then [] else UNDERSCORE) + dataName)
    && ReadSymbol(file, 0).Some? && External(ReadSymbol(file, 0).value, 0, 0)
    && ReadSymbol(file, 1).Some? && External(ReadSymbol(file, 1).value, 8, TYPE_CHAR_ARRAY)
    && RestIsZero(file)
  }

  // A symbol of the first section that other files can see.
  predicate External(y: Symbol, value: nat, kind: nat) {
    y.value == value && y.section == 1 && y.kind == kind && y.storage == CLASS_EXTERNAL
  }

  // No optional header, no relocations, no line numbers, no auxiliary symbols, no time and no addresses.
  predicate RestIsZero(file: seq<byte>) {
    match (ReadStruct(HEADER, file, 0), ReadStruct(SECTION, file, HEADER_SIZE + 8),
           ReadStruct(SYMBOL, file, HEADER_SIZE + SECTION_SIZE),
           ReadStruct(SYMBOL, file, HEADER_SIZE + SECTION_SIZE + SYMBOL_SIZE))
    case (Some(h), Some(s), Some(y0), Some(y1)) =>
      && h[2] == h[5] == h[6] == 0 && y0[6] == y1[6] == 0
      && s[0] == s[1] == s[4] == s[5] == s[6] == s[7] == 0
    case _ => false
  }

  // The regions do not overlap and end at the end of the file, the data on the next multiple of 4.
  predicate Apart(file: seq<byte>, data: seq<byte>) {
    && ReadHeader(file).Some? && ReadSection(file).Some? && StringTable(file).Some?
    && (var (h, s, t) := (ReadHeader(file).value, ReadSection(file).value, StringTable(file).value);
        && h.symtab == HEADER_SIZE + SECTION_SIZE
        && (var end := h.symtab + h.symbols * SYMBOL_SIZE + |t|; end <= s.offset < end + 4) && s.offset % 4 == 0
        && (s.offset + s.size == |file| <==> InRange(data)))
  }

  lemma NumbersFit(h: Header, s: Section)
    requires h.machine < 0x1_0000 && h.sections < 0x100 && h.symtab < 0x100 && h.symbols < 0x100
    requires s.size < 0x1_0000_0000 && s.offset < 0x1_0000_0000 && s.flags < 0x1_0000_0000
    ensures AllFit(HEADER, HeaderValues(h)) && AllFit(SECTION, SectionValues(s))
  {
    AllSmall(HEADER, HeaderValues(h));
    AllSmall(SECTION, SectionValues(s));
  }

  lemma RestRead(p: seq<seq<byte>>, strings: nat, pad: nat, h: Header, s: Section, y0: Symbol, y1: Symbol)
    requires Shaped(p, strings, pad) && |p| == 9
    requires p[0] == HeaderBytes(h) && p[2] == SectionBytes(s) && p[3] == SymbolBytes(y0) && p[4] == SymbolBytes(y1)
    requires AllFit(HEADER, HeaderValues(h)) && AllFit(SECTION, SectionValues(s))
    requires AllFit(SYMBOL, SymbolValues(y0)) && AllFit(SYMBOL, SymbolValues(y1))
    ensures RestIsZero(Join(p))
  {
    hide HeaderBytes, SectionBytes, SymbolBytes, Join, ReadStruct, AllFit, Start, Shaped;
    Starts(p, strings, pad);
    HeaderAt(p, h);
    SectionAt(p, s);
    SymbolAt(p, 3, y0);
    SymbolAt(p, 4, y1);
  }

  lemma HeaderAt(p: seq<seq<byte>>, h: Header)
    requires |p| == 9 && p[0] == HeaderBytes(h) && AllFit(HEADER, HeaderValues(h))
    ensures ReadStruct(HEADER, Join(p), Start(p, 0)) == Some(HeaderValues(h))
  {
    hide Encode, Zip, Join, ReadStruct, AllFit;
    StructAt(p, 0, HEADER, HeaderValues(h));
  }

  lemma SectionAt(p: seq<seq<byte>>, s: Section)
    requires |p| == 9 && p[2] == SectionBytes(s) && AllFit(SECTION, SectionValues(s))
    ensures ReadStruct(SECTION, Join(p), Start(p, 2)) == Some(SectionValues(s))
  {
    hide Encode, Zip, Join, ReadStruct, AllFit;
    StructAt(p, 2, SECTION, SectionValues(s));
  }

  lemma SymbolAt(p: seq<seq<byte>>, i: nat, y: Symbol)
    requires i < |p| && p[i] == SymbolBytes(y) && AllFit(SYMBOL, SymbolValues(y))
    ensures ReadStruct(SYMBOL, Join(p), Start(p, i)) == Some(SymbolValues(y))
  {
    hide Encode, Zip, Join, ReadStruct, AllFit;
    StructAt(p, i, SYMBOL, SymbolValues(y));
  }

  lemma SymbolFits(y: Symbol)
    requires y.zeroes == 0 && y.offset < 0x1_0000 && y.value < 0x100 && y.section < 0x100
    requires y.kind < 0x1_0000 && y.storage < 0x100
    ensures AllFit(SYMBOL, SymbolValues(y))
  {
    var v := SymbolValues(y);
    forall i | 0 <= i < 7 ensures Small(v[i], SYMBOL[i]) {
      if i == 0 {} else if i == 1 {} else if i == 2 {} else if i == 3 {} else if i == 4 {} else if i == 5 {} else {}
    }
    AllSmall(SYMBOL, v);
  }

  // The pieces as the writer lays them out.
  predicate Laid(p: seq<seq<byte>>, x64: bool, h: Header, s: Section, y0: Symbol, y1: Symbol, strings: seq<byte>,
                 data: seq<byte>) {
    && |s.name| < 8 && 0 !in s.name && |strings| <= 256
    && (var pad := Gap(100 + |strings|, 4);
        p == Pieces(h, s, y0, y1, strings, pad, data) && s.offset == 100 + |strings| + pad)
    && h == Header(if x64 then MACHINE_AMD64 else MACHINE_I386, 1, 60, 2)
    && s.size == Low(|data|, 4) && s.flags == RDATA_FLAGS
    && 4 <= y0.offset < 260 && 4 <= y1.offset < 260
    && y0 == Symbol(0, y0.offset, 0, 1, 0, CLASS_EXTERNAL)
    && y1 == Symbol(0, y1.offset, 8, 1, TYPE_CHAR_ARRAY, CLASS_EXTERNAL)
  }

  lemma HeadersRead(p: seq<seq<byte>>, x64: bool, h: Header, s: Section, y0: Symbol, y1: Symbol, strings: seq<byte>,
                    data: seq<byte>)
    requires Laid(p, x64, h, s, y0, y1, strings, data)
    ensures ReadHeader(Join(p)) == Some(h) && ReadSection(Join(p)) == Some(s)
    ensures StringTable(Join(p)) == Some(LE(|strings| + 4, 4) + strings)
  {
    hide HeaderBytes, SectionBytes, SymbolBytes, LE, ReadHeader, ReadSection, StringTable;
    var pad := Gap(100 + |strings|, 4);
    PiecesShaped(h, s, y0, y1, strings, pad, data);
    Word(|data|);
    NumbersFit(h, s);
    HeaderRead(p, |strings|, pad, h);
    SectionRead(p, |strings|, pad, s);
    StringsRead(p, strings, pad, h);
  }

  lemma SymbolsRead(p: seq<seq<byte>>, x64: bool, h: Header, s: Section, y0: Symbol, y1: Symbol, strings: seq<byte>,
                    data: seq<byte>)
    requires Laid(p, x64, h, s, y0, y1, strings, data)
    ensures ReadSymbol(Join(p), 0) == Some(y0) && ReadSymbol(Join(p), 1) == Some(y1)
    ensures RestIsZero(Join(p))
  {
    hide HeaderBytes, SectionBytes, SymbolBytes, LE, ReadHeader, ReadSection, ReadSymbol, StringTable;
    var pad := Gap(100 + |strings|, 4);
    PiecesShaped(h, s, y0, y1, strings, pad, data);
    HeadersRead(p, x64, h, s, y0, y1, strings, data);
    SymbolFits(y0);
    SymbolFits(y1);
    SymbolRead(p, |strings|, pad, h, y0, 0);
    SymbolRead(p, |strings|, pad, h, y1, 1);
    Word(|data|);
    NumbersFit(h, s);
    RestRead(p, |strings|, pad, h, s, y0, y1);
  }

  lemma RawDataRead(p: seq<seq<byte>>, x64: bool, h: Header, s: Section, y0: Symbol, y1: Symbol, strings: seq<byte>,
                    data: seq<byte>)
    requires Laid(p, x64, h, s, y0, y1, strings, data)
    ensures RawData(Join(p)) == Some(data) <==> InRange(data)
    ensures Apart(Join(p), data)
  {
    hide HeaderBytes, SectionBytes, SymbolBytes, LE, ReadHeader, ReadSection, StringTable;
    var pad := Gap(100 + |strings|, 4);
    PiecesShaped(h, s, y0, y1, strings, pad, data);
    HeadersRead(p, x64, h, s, y0, y1, strings, data);
    Word(|data|);
    Starts(p, |strings|, pad);
    if InRange(data) { DataRead(p, |strings|, pad, s); }
  }

  lemma NamesRead(file: seq<byte>, x64: bool, y0: Symbol, y1: Symbol, front: seq<byte>, strings: seq<byte>,
                  dataName: seq<byte>, sizeName: seq<byte>)
    requires StringTable(file) == Some(front + strings) && |front| == 4
    requires ReadSymbol(file, 0) == Some(y0) && ReadSymbol(file, 1) == Some(y1)
    requires 4 <= y0.offset && 4 <= y1.offset && y0.zeroes == 0 && y1.zeroes == 0
    requires 0 !in dataName && 0 !in sizeName
    requires Named(strings, y0.offset - 4, Decorated(x64, sizeName))
    requires Named(strings, y1.offset - 4, Decorated(x64, dataName))
    ensures SymbolName(file, 0) == Some(Decorated(x64, sizeName))
    ensures SymbolName(file, 1) == Some(Decorated(x64, dataName))
  {
    NameRead(file, 0, y0, front, strings, y0.offset - 4, Decorated(x64, sizeName));
    NameRead(file, 1, y1, front, strings, y1.offset - 4, Decorated(x64, dataName));
  }

  lemma DecoratedIs(x64: bool, name: seq<byte>)
    ensures Decorated(x64, name) == (if x64 then [] else UNDERSCORE) + name
  {
    assert [] + name == name;
  }

  lemma CoffReads(file: seq<byte>, x64: bool, h: Header, s: Section, y0: Symbol, y1: Symbol, strings: seq<byte>,
                  dataName: seq<byte>, sizeName: seq<byte>, data: seq<byte>)
    requires ReadHeader(file) == Some(h) && ReadSection(file) == Some(s)
    requires StringTable(file) == Some(LE(|strings| + 4, 4) + strings)
    requires ReadSymbol(file, 0) == Some(y0) && ReadSymbol(file, 1) == Some(y1)
    requires RawData(file) == Some(data) <==> InRange(data)
    requires h == Header(if x64 then MACHINE_AMD64 else MACHINE_I386, 1, 60, 2) && s.flags == RDATA_FLAGS
    requires RestIsZero(file)
    requires 4 <= y0.offset && 4 <= y1.offset
    requires y0 == Symbol(0, y0.offset, 0, 1, 0, CLASS_EXTERNAL)
    requires y1 == Symbol(0, y1.offset, 8, 1, TYPE_CHAR_ARRAY, CLASS_EXTERNAL)
    requires NamesFit(x64, dataName, sizeName, s.name)
    requires Named(strings, y0.offset - 4, Decorated(x64, sizeName))
    requires Named(strings, y1.offset - 4, Decorated(x64, dataName))
    ensures Gives(file, x64, dataName, sizeName, s.name, data)
  {
    hide LE, ReadHeader, ReadSection, ReadSymbol, StringTable, RawData, SymbolName, RestIsZero;
    DecoratedIs(x64, sizeName);
    DecoratedIs(x64, dataName);
    hide Decorated;
    NamesRead(file, x64, y0, y1, LE(|strings| + 4, 4), strings, dataName, sizeName);
  }

  // The two names in the string table, and the symbols for the size at 0 and the data at 8.
  method Symbols(dataName: seq<byte>, sizeName: seq<byte>, x64: bool)
    returns (table: seq<byte>, y0: Symbol, y1: Symbol)
    requires NamesFit(x64, dataName, sizeName, [])
    ensures |table| <= 256 && 4 <= y0.offset < 260 && 4 <= y1.offset < 260
    ensures y0 == Symbol(0, y0.offset, 0, 1, 0, CLASS_EXTERNAL)
    ensures y1 == Symbol(0, y1.offset, 8, 1, TYPE_CHAR_ARRAY, CLASS_EXTERNAL)
    ensures Named(table, y0.offset - 4, Decorated(x64, sizeName))
    ensures Named(table, y1.offset - 4, Decorated(x64, dataName))
  {
    y0, y1 := Symbol(0, 0, 0, 0, 0, 0), Symbol(0, 0, 0, 0, 0, 0);
    var at;
    if !x64 {
      table, at := AddString([], UNDERSCORE + dataName);
      y1 := y1.(offset := at);
      table, at := AddString(table, UNDERSCORE + sizeName);
      y0 := y0.(offset := at);
    } else {
      table, at := AddString([], dataName);
      y1 := y1.(offset := at);
      table, at := AddString(table, sizeName);
      y0 := y0.(offset := at);
    }
    y1 := y1.(value := 8, section := 1, kind := TYPE_CHAR_ARRAY, storage := CLASS_EXTERNAL);
    y0 := y0.(value := 0, section := 1, storage := CLASS_EXTERNAL);
  }

  // Headers, string table, padding up to the place the section header names, and the data.
  method WriteOut(h: Header, s: Section, y0: Symbol, y1: Symbol, table: seq<byte>, data: seq<byte>)
    returns (file: seq<byte>, ghost p: seq<seq<byte>>)
    requires |s.name| < 8 && s.offset >= 100 + |table|
    ensures p == Pieces(h, s, y0, y1, table, s.offset - (100 + |table|), data) && file == Join(p)
  {
    hide HeaderBytes, SectionBytes, SymbolBytes, LE;
    file, p := Put([], [], HeaderBytes(h));
    file, p := Put(file, p, s.name + Zeros(8 - |s.name|));
    file, p := Put(file, p, SectionBytes(s));
    file, p := Put(file, p, SymbolBytes(y0));
    file, p := Put(file, p, SymbolBytes(y1));
    file, p := Put(file, p, LE(|table| + 4, 4));
    file, p := Put(file, p, table);
    var padcount := s.offset - (OBJ_SIZE + |table| + 4);
    file, p := Put(file, p, Zeros(padcount));
    file, p := Put(file, p, data);
  }

  /** The object file for any data and any names that fit, followed from its header, gives back the
      names, the size at 0 and the data at 8 of the section; the section itself exactly when its size
      fits 32 bits. */
  method WriteObj(secName: seq<byte>, dataName: seq<byte>, sizeName: seq<byte>, data: seq<byte>, x64: bool)
    returns (file: seq<byte>)
    requires NamesFit(x64, dataName, sizeName, secName)
    ensures Gives(file, x64, dataName, sizeName, secName, data)
    ensures Apart(file, data)
  {
    hide HeaderBytes, SectionBytes, SymbolBytes, LE, Pieces, Named, ReadHeader, ReadSection, ReadSymbol, StringTable;
    hide RawData, SymbolName, Apart, Gives, RestIsZero, Join, Decorated;
    var sizeOfSection := |data|;
    var head := Header(if x64 then MACHINE_AMD64 else MACHINE_I386, 1, HEADER_SIZE + SECTION_SIZE, 2);
    var table, y0, y1 := Symbols(dataName, sizeName, x64);
    var stringTableSize := |table| + 4;
    var offset := (OBJ_SIZE + stringTableSize + 3) / 4 * 4;
    assert offset == 100 + |table| + Gap(100 + |table|, 4);
    var section := Section(secName, Low(sizeOfSection, 4), offset, RDATA_FLAGS);
    ghost var p;
    file, p := WriteOut(head, section, y0, y1, table, data);
    HeadersRead(p, x64, head, section, y0, y1, table, data);
    SymbolsRead(p, x64, head, section, y0, y1, table, data);
    RawDataRead(p, x64, head, section, y0, y1, table, data);
    CoffReads(file, x64, head, section, y0, y1, table, dataName, sizeName, data);
  }
}
