/** The ELF relocatable file that carries the blob, and a reader that follows the ELF header,
    section and symbol tables of the System V gABI (chapter 4) to the bytes a symbol names. */
module ElfFile {
  import opened Basics
  import opened Bytes

  datatype Class = Elf32 | Elf64

  datatype Ehdr = Ehdr(ident: seq<byte>, kind: nat, machine: nat, version: nat, entry: nat, phoff: nat, shoff: nat,
                       flags: nat, ehsize: nat, phentsize: nat, phnum: nat, shentsize: nat, shnum: nat, shstrndx: nat)

  datatype Shdr = Shdr(name: nat, kind: nat, flags: nat, addr: nat, offset: nat, size: nat, link: nat, info: nat,
                       addralign: nat, entsize: nat)

  datatype Sym = Sym(name: nat, value: nat, size: nat, info: nat, other: nat, shndx: nat)

  const ET_REL: nat := 1
  const EV_CURRENT: nat := 1
  const SHT_PROGBITS: nat := 1
  const SHT_SYMTAB: nat := 2
  const SHT_STRTAB: nat := 3
  const SHF_ALLOC_MERGE: nat := 0x12
  const GLOBAL_OBJECT: nat := 0x11
  const STV_HIDDEN: nat := 2

  // ---------- the three structures in the two classes ----------

  // The size of an address, an offset and a size.
  function Wide(k: Class): nat {
    if k.Elf32? then 4 else 8
  }

  function EhdrWidths(k: Class): seq<nat> {
    [2, 2, 4, Wide(k), Wide(k), Wide(k), 4, 2, 2, 2, 2, 2, 2]
  }

  function ShdrWidths(k: Class): seq<nat> {
    [4, 4, Wide(k), Wide(k), Wide(k), Wide(k), 4, 4, Wide(k), Wide(k)]
  }

  function SymWidths(k: Class): seq<nat> {
    if k.Elf32? then [4, 4, 4, 1, 1, 2] else [4, 1, 1, 2, 8, 8]
  }

  function EhdrSize(k: Class): nat { if k.Elf32? then 52 else 64 }

  function ShdrSize(k: Class): nat { if k.Elf32? then 40 else 64 }

  function SymSize(k: Class): nat { if k.Elf32? then 16 else 24 }

  lemma Ehdr32()
    ensures Total([2, 2, 4, 4, 4, 4, 4, 2, 2, 2, 2, 2, 2]) == 36
  {}

  lemma Ehdr64()
    ensures Total([2, 2, 4, 8, 8, 8, 4, 2, 2, 2, 2, 2, 2]) == 48
  {}

  lemma Shdr32()
    ensures Total([4, 4, 4, 4, 4, 4, 4, 4, 4, 4]) == 40
  {}

  lemma Shdr64()
    ensures Total([4, 4, 8, 8, 8, 8, 4, 4, 8, 8]) == 64
  {}

  lemma Sym32()
    ensures Total([4, 4, 4, 1, 1, 2]) == 16
  {}

  lemma Sym64()
    ensures Total([4, 1, 1, 2, 8, 8]) == 24
  {}

  lemma Sizes(k: Class)
    ensures 16 + Total(EhdrWidths(k)) == EhdrSize(k)
    ensures Total(ShdrWidths(k)) == ShdrSize(k)
    ensures Total(SymWidths(k)) == SymSize(k)
  {
    hide Total;
    if k.Elf32? {
      Ehdr32();
      Shdr32();
      Sym32();
    } else {
      Ehdr64();
      Shdr64();
      Sym64();
    }
  }

  function EhdrValues(h: Ehdr): seq<nat> {
    [h.kind, h.machine, h.version, h.entry, h.phoff, h.shoff, h.flags, h.ehsize, h.phentsize, h.phnum, h.shentsize,
     h.shnum, h.shstrndx]
  }

  function ShdrValues(s: Shdr): seq<nat> {
    [s.name, s.kind, s.flags, s.addr, s.offset, s.size, s.link, s.info, s.addralign, s.entsize]
  }

  function SymValues(k: Class, y: Sym): seq<nat> {
    if k.Elf32? then [y.name, y.value, y.size, y.info, y.other, y.shndx]
    else [y.name, y.info, y.other, y.shndx, y.value, y.size]
  }

  function EhdrBytes(k: Class, h: Ehdr): (r: seq<byte>)
    ensures |r| == |h.ident| + EhdrSize(k) - 16
  {
    Sizes(k);
    h.ident + Encode(Zip(EhdrWidths(k), EhdrValues(h)))
  }

  function ShdrBytes(k: Class, s: Shdr): (r: seq<byte>)
    ensures |r| == ShdrSize(k)
  {
    Sizes(k);
    Encode(Zip(ShdrWidths(k), ShdrValues(s)))
  }

  function SymBytes(k: Class, y: Sym): (r: seq<byte>)
    ensures |r| == SymSize(k)
  {
    Sizes(k);
    Encode(Zip(SymWidths(k), SymValues(k, y)))
  }

  function EhdrOf(k: Class, b: seq<byte>): Ehdr
    requires |b| == EhdrSize(k)
  {
    Sizes(k);
    var v := Decode(EhdrWidths(k), b[16..]);
    Ehdr(b[..16], v[0], v[1], v[2], v[3], v[4], v[5], v[6], v[7], v[8], v[9], v[10], v[11], v[12])
  }

  function ShdrOf(k: Class, b: seq<byte>): Shdr
    requires |b| == ShdrSize(k)
  {
    Sizes(k);
    var v := Decode(ShdrWidths(k), b);
    Shdr(v[0], v[1], v[2], v[3], v[4], v[5], v[6], v[7], v[8], v[9])
  }

  function SymOf(k: Class, b: seq<byte>): Sym
    requires |b| == SymSize(k)
  {
    Sizes(k);
    var v := Decode(SymWidths(k), b);
    if k.Elf32? then Sym(v[0], v[1], v[2], v[3], v[4], v[5]) else Sym(v[0], v[4], v[5], v[1], v[2], v[3])
  }

  lemma EhdrRoundTrip(k: Class, h: Ehdr)
    requires |h.ident| == 16 && AllFit(EhdrWidths(k), EhdrValues(h))
    ensures EhdrOf(k, EhdrBytes(k, h)) == h
  {
    hide Encode, Decode, Zip, Total, AllFit;
    Sizes(k);
    ZipRoundTrip(EhdrWidths(k), EhdrValues(h));
    var b := EhdrBytes(k, h);
    assert b[..16] == h.ident && b[16..] == Encode(Zip(EhdrWidths(k), EhdrValues(h)));
  }

  lemma ShdrRoundTrip(k: Class, s: Shdr)
    requires AllFit(ShdrWidths(k), ShdrValues(s))
    ensures ShdrOf(k, ShdrBytes(k, s)) == s
  {
    hide Encode, Decode;
    Sizes(k);
    ZipRoundTrip(ShdrWidths(k), ShdrValues(s));
  }

  lemma SymRoundTrip(k: Class, y: Sym)
    requires AllFit(SymWidths(k), SymValues(k, y))
    ensures SymOf(k, SymBytes(k, y)) == y
  {
    hide Encode, Decode, Zip, Total;
    Sizes(k);
    ZipRoundTrip(SymWidths(k), SymValues(k, y));
    if k.Elf32? {} else {}
  }

  // ---------- the reader ----------

  // A symbol with the bytes it stands for.
  datatype Symbol = Symbol(name: seq<byte>, content: seq<byte>)

  function HeaderOf(k: Class, file: seq<byte>): Option<Ehdr> {
    match Slice(file, 0, EhdrSize(k))
    case None => None
    case Some(b) => Some(EhdrOf(k, b))
  }

  function SectionHeader(k: Class, file: seq<byte>, i: nat): Option<Shdr> {
    match HeaderOf(k, file)
    case None => None
    case Some(h) =>
      if i >= h.shnum then None
      else match Slice(file, h.shoff + i * h.shentsize, ShdrSize(k))
        case None => None
        case Some(b) => Some(ShdrOf(k, b))
  }

  // The bytes of section i.
  function Section(k: Class, file: seq<byte>, i: nat): Option<seq<byte>> {
    match SectionHeader(k, file, i)
    case None => None
    case Some(sh) => Slice(file, sh.offset, sh.size)
  }

  // The first symbol table among the sections from i on.
  function SymbolTable(k: Class, file: seq<byte>, i: nat, left: nat): Option<Shdr>
    decreases left
  {
    if left == 0 then None
    else match SectionHeader(k, file, i)
      case None => None
      case Some(sh) => if sh.kind == SHT_SYMTAB then Some(sh) else SymbolTable(k, file, i + 1, left - 1)
  }

  function Symbols(k: Class, file: seq<byte>): Option<Shdr> {
    match HeaderOf(k, file)
    case None => None
    case Some(h) => SymbolTable(k, file, 0, h.shnum)
  }

  // Entry j of the symbol table.
  function SymbolEntry(k: Class, file: seq<byte>, j: nat): Option<Sym> {
    match Symbols(k, file)
    case None => None
    case Some(sh) =>
      if (j + 1) * sh.entsize > sh.size then None
      else match Slice(file, sh.offset + j * sh.entsize, SymSize(k))
        case None => None
        case Some(b) => Some(SymOf(k, b))
  }

  // Its name and the bytes of its section that it stands for.
  function ReadSymbol(k: Class, file: seq<byte>, j: nat): Option<Symbol> {
    match (Symbols(k, file), SymbolEntry(k, file, j))
    case (Some(sh), Some(y)) =>
      (match (Section(k, file, sh.link), Section(k, file, y.shndx))
       case (Some(strings), Some(bytes)) =>
         (match (StringAt(strings, y.name), Slice(bytes, y.value, y.size))
          case (Some(name), Some(content)) => Some(Symbol(name, content))
          case _ => None)
       case _ => None)
    case _ => None
  }

  // The name of section i.
  function SectionName(k: Class, file: seq<byte>, i: nat): Option<seq<byte>> {
    match (HeaderOf(k, file), SectionHeader(k, file, i))
    case (Some(h), Some(sh)) =>
      (match Section(k, file, h.shstrndx)
       case None => None
       case Some(strings) => StringAt(strings, sh.name))
    case _ => None
  }

  // All that the file records: header, section headers and symbols.
  function Recorded(k: Class, file: seq<byte>): Option<Image> {
    match (HeaderOf(k, file), SectionHeader(k, file, 0), SectionHeader(k, file, 1), SectionHeader(k, file, 2),
           SectionHeader(k, file, 3), SymbolEntry(k, file, 0), SymbolEntry(k, file, 1), SymbolEntry(k, file, 2))
    case (Some(h), Some(s0), Some(s1), Some(s2), Some(s3), Some(y0), Some(y1), Some(y2)) =>
      Some(Image(h, [s0, s1, s2, s3], [y0, y1, y2]))
    case _ => None
  }

  // A relocatable file for the processor: nothing to be run, the sections of their kinds and flags, the
  // symbols global objects of the last section that are not exported; every other field is zero.
  predicate Relocatable(k: Class, o: Image, ident: seq<byte>, arch: byte) {
    && |o.sections| == 4 && |o.symbs| == 3
    && (var h := o.head;
        h == Ehdr(ident, ET_REL, arch, EV_CURRENT, 0, 0, EhdrSize(k), 0, EhdrSize(k), 0, 0, ShdrSize(k), 4, 1))
    && o.sections[0] == Shdr(0, 0, 0, 0, 0, 0, 0, 0, 0, 0)
    && (var s := o.sections[1]; s == Shdr(s.name, SHT_STRTAB, 0, 0, s.offset, s.size, 0, 0, 1, 0))
    && (var s := o.sections[2]; s == Shdr(s.name, SHT_SYMTAB, 0, 0, s.offset, s.size, 1, 1, 8, SymSize(k)))
    && (var s := o.sections[3]; s == Shdr(s.name, SHT_PROGBITS, SHF_ALLOC_MERGE, 0, s.offset, s.size, 0, 0, 8, 0))
    && o.symbs[0] == Sym(0, 0, 0, 0, 0, 0)
    && (var y := o.symbs[1]; y == Sym(y.name, y.value, y.size, GLOBAL_OBJECT, STV_HIDDEN, 3))
    && (var y := o.symbs[2]; y == Sym(y.name, y.value, y.size, GLOBAL_OBJECT, STV_HIDDEN, 3))
  }

  // ---------- a file put together from its pieces ----------

  // What the writer fills in before it writes.
  datatype Image = Image(head: Ehdr, sections: seq<Shdr>, symbs: seq<Sym>)

  predicate ImageFits(k: Class, o: Image) {
    && |o.sections| == 4 && |o.symbs| == 3 && |o.head.ident| == 16
    && AllFit(EhdrWidths(k), EhdrValues(o.head))
    && (forall i | 0 <= i < 4 :: AllFit(ShdrWidths(k), ShdrValues(o.sections[i])))
    && (forall i | 0 <= i < 3 :: AllFit(SymWidths(k), SymValues(k, o.symbs[i])))
  }

  // Header, four section headers, three symbols, the section, the strings.
  function Pieces(k: Class, o: Image, section: seq<byte>, strings: seq<byte>): (r: seq<seq<byte>>)
    requires ImageFits(k, o)
    ensures |r| == 10
  {
    [EhdrBytes(k, o.head), ShdrBytes(k, o.sections[0]), ShdrBytes(k, o.sections[1]), ShdrBytes(k, o.sections[2]),
     ShdrBytes(k, o.sections[3]), SymBytes(k, o.symbs[0]), SymBytes(k, o.symbs[1]), SymBytes(k, o.symbs[2]),
     section, strings]
  }

  function ImageSize(k: Class): nat {
    if k.Elf32? then 260 else 392
  }

  // A header of e bytes, four structures of s, three of y, and two more pieces.
  predicate Shaped(p: seq<seq<byte>>, e: nat, s: nat, y: nat) {
    && |p| == 10 && |p[0]| == e
    && |p[1]| == s && |p[2]| == s && |p[3]| == s && |p[4]| == s
    && |p[5]| == y && |p[6]| == y && |p[7]| == y
  }

  lemma PiecesShaped(k: Class, o: Image, section: seq<byte>, strings: seq<byte>)
    requires ImageFits(k, o)
    ensures Shaped(Pieces(k, o, section, strings), EhdrSize(k), ShdrSize(k), SymSize(k))
  {
    hide EhdrBytes, ShdrBytes, SymBytes;
  }

  lemma StartSteps(p: seq<seq<byte>>, e: nat, s: nat, y: nat)
    requires Shaped(p, e, s, y)
    ensures Start(p, 0) == 0 && Start(p, 1) == e && Start(p, 2) == e + s && Start(p, 3) == e + 2 * s
    ensures Start(p, 4) == e + 3 * s && Start(p, 5) == e + 4 * s && Start(p, 6) == e + 4 * s + y
    ensures Start(p, 7) == e + 4 * s + 2 * y && Start(p, 8) == e + 4 * s + 3 * y
    ensures Start(p, 9) == e + 4 * s + 3 * y + |p[8]|
  {
    assert Start(p, 1) == e && Start(p, 2) == e + s;
    assert Start(p, 3) == e + 2 * s && Start(p, 4) == e + 3 * s;
    assert Start(p, 5) == e + 4 * s && Start(p, 6) == e + 4 * s + y;
    assert Start(p, 7) == e + 4 * s + 2 * y && Start(p, 8) == e + 4 * s + 3 * y;
  }

  lemma HeaderStart(p: seq<seq<byte>>, e: nat, s: nat, y: nat, i: nat)
    requires Shaped(p, e, s, y) && i < 4
    ensures Start(p, 1 + i) == e + i * s && |p[1 + i]| == s
  {
    StartSteps(p, e, s, y);
    if i == 0 {} else if i == 1 {} else if i == 2 {} else {}
  }

  lemma SymStart(p: seq<seq<byte>>, e: nat, s: nat, y: nat, j: nat)
    requires Shaped(p, e, s, y) && j < 3
    ensures Start(p, 5 + j) == e + 4 * s + j * y && |p[5 + j]| == y
  {
    StartSteps(p, e, s, y);
    if j == 0 {} else if j == 1 {} else {}
  }

  lemma HeadIs(k: Class, o: Image, section: seq<byte>, strings: seq<byte>)
    requires ImageFits(k, o)
    ensures HeaderOf(k, Join(Pieces(k, o, section, strings))) == Some(o.head)
  {
    hide EhdrBytes, ShdrBytes, SymBytes, EhdrOf;
    PiecesShaped(k, o, section, strings);
    PieceAt(Pieces(k, o, section, strings), 0);
    EhdrRoundTrip(k, o.head);
  }

  lemma HeaderIs(k: Class, o: Image, section: seq<byte>, strings: seq<byte>, i: nat)
    requires ImageFits(k, o) && i < 4
    requires o.head.shnum == 4 && o.head.shentsize == ShdrSize(k) && o.head.shoff == EhdrSize(k)
    ensures SectionHeader(k, Join(Pieces(k, o, section, strings)), i) == Some(o.sections[i])
  {
    hide EhdrBytes, ShdrBytes, SymBytes, ShdrOf;
    PiecesShaped(k, o, section, strings);
    HeadIs(k, o, section, strings);
    var p := Pieces(k, o, section, strings);
    HeaderStart(p, EhdrSize(k), ShdrSize(k), SymSize(k), i);
    PieceAt(p, 1 + i);
    assert p[1 + i] == ShdrBytes(k, o.sections[i]);
    ShdrRoundTrip(k, o.sections[i]);
  }

  // The structure at the place of symbol j.
  function SymAt(k: Class, file: seq<byte>, j: nat): Option<Sym> {
    match Slice(file, EhdrSize(k) + 4 * ShdrSize(k) + j * SymSize(k), SymSize(k))
    case None => None
    case Some(b) => Some(SymOf(k, b))
  }

  lemma SymIs(k: Class, o: Image, section: seq<byte>, strings: seq<byte>, j: nat)
    requires ImageFits(k, o) && j < 3
    ensures SymAt(k, Join(Pieces(k, o, section, strings)), j) == Some(o.symbs[j])
  {
    hide EhdrBytes, ShdrBytes, SymBytes, SymOf;
    PiecesShaped(k, o, section, strings);
    var p := Pieces(k, o, section, strings);
    SymStart(p, EhdrSize(k), ShdrSize(k), SymSize(k), j);
    PieceAt(p, 5 + j);
    assert p[5 + j] == SymBytes(k, o.symbs[j]);
    SymRoundTrip(k, o.symbs[j]);
  }

  // The file gives back what it was put together from.
  predicate Parses(k: Class, file: seq<byte>, o: Image, section: seq<byte>, strings: seq<byte>) {
    && |o.sections| == 4 && |o.symbs| == 3
    && HeaderOf(k, file) == Some(o.head)
    && (forall i | 0 <= i < 4 :: SectionHeader(k, file, i) == Some(o.sections[i]))
    && (forall j | 0 <= j < 3 :: SymAt(k, file, j) == Some(o.symbs[j]))
    && Slice(file, ImageSize(k), |section|) == Some(section)
    && Slice(file, ImageSize(k) + |section|, |strings|) == Some(strings)
    && |file| == ImageSize(k) + |section| + |strings|
  }

  lemma Placed(p: seq<seq<byte>>, e: nat, s: nat, y: nat)
    requires Shaped(p, e, s, y)
    ensures Slice(Join(p), e + 4 * s + 3 * y, |p[8]|) == Some(p[8])
    ensures Slice(Join(p), e + 4 * s + 3 * y + |p[8]|, |p[9]|) == Some(p[9])
    ensures |Join(p)| == e + 4 * s + 3 * y + |p[8]| + |p[9]|
  {
    StartSteps(p, e, s, y);
    PieceAt(p, 8);
    PieceAt(p, 9);
    LengthOf(p);
    assert Start(p, 10) == Start(p, 9) + |p[9]|;
  }

  lemma HeadersAre(k: Class, o: Image, section: seq<byte>, strings: seq<byte>)
    requires ImageFits(k, o)
    requires o.head.shnum == 4 && o.head.shentsize == ShdrSize(k) && o.head.shoff == EhdrSize(k)
    ensures forall i | 0 <= i < 4 ::
              SectionHeader(k, Join(Pieces(k, o, section, strings)), i) == Some(o.sections[i])
  {
    hide EhdrBytes, ShdrBytes, SymBytes, SymOf, EhdrOf, ShdrOf, SectionHeader;
    forall i | 0 <= i < 4
      ensures SectionHeader(k, Join(Pieces(k, o, section, strings)), i) == Some(o.sections[i])
    {
      HeaderIs(k, o, section, strings, i);
    }
  }

  lemma PiecesParse(k: Class, o: Image, section: seq<byte>, strings: seq<byte>)
    requires ImageFits(k, o)
    requires o.head.shnum == 4 && o.head.shentsize == ShdrSize(k) && o.head.shoff == EhdrSize(k)
    ensures Parses(k, Join(Pieces(k, o, section, strings)), o, section, strings)
  {
    hide EhdrBytes, ShdrBytes, SymBytes, SymOf, EhdrOf, ShdrOf, HeaderOf, SectionHeader;
    PiecesShaped(k, o, section, strings);
    var file := Join(Pieces(k, o, section, strings));
    HeadIs(k, o, section, strings);
    HeadersAre(k, o, section, strings);
    forall j | 0 <= j < 3 ensures SymAt(k, file, j) == Some(o.symbs[j]) {
      SymIs(k, o, section, strings, j);
    }
    Placed(Pieces(k, o, section, strings), EhdrSize(k), ShdrSize(k), SymSize(k));
  }

  // ---------- the writer ----------

  const SYMTAB: seq<byte> := [46, 115, 121, 109, 116, 97, 98]
  const STRTAB: seq<byte> := [46, 115, 116, 114, 116, 97, 98]
  const RODATA: seq<byte> := [46, 114, 111, 100, 97, 116, 97, 46]

  // The strings of the file, the fixed ones included, fit the table of 256 bytes.
  predicate NamesFit(dataName: seq<byte>, sizeName: seq<byte>, secName: seq<byte>) {
    0 !in dataName && 0 !in sizeName && 0 !in secName && |dataName| + |sizeName| + |secName| <= 228
  }

  // Adds a string to the table of 256 bytes and returns where it starts.
  method AddString(table: seq<byte>, a: seq<byte>) returns (longer: seq<byte>, offset: nat)
    requires |table| + |a| < 256
    ensures longer == table + a + [0] && Named(longer, offset, a)
    ensures forall at: nat, b: seq<byte> :: Named(table, at, b) ==> Named(longer, at, b)
  {
    offset := |table|;
    var n := if |a| <= 256 - offset then |a| else 256 - offset;
    longer := table + a[..n] + [0];
    assert longer[offset..offset + |a|] == a;
    forall at: nat, b: seq<byte> | Named(table, at, b) ensures Named(longer, at, b) {
      assert longer[at..at + |b|] == table[at..at + |b|];
    }
  }

  // Where the strings of the file are: the names of the two symbols and of the three sections.
  datatype Names = Names(data: nat, size: nat, symtab: nat, rodata: nat, strtab: nat)

  predicate StringsHold(strings: seq<byte>, n: Names, dataName: seq<byte>, sizeName: seq<byte>, secName: seq<byte>) {
    && |strings| <= 256
    && Named(strings, n.data, dataName) && Named(strings, n.size, sizeName) && Named(strings, n.symtab, SYMTAB)
    && Named(strings, n.rodata, RODATA + secName) && Named(strings, n.strtab, STRTAB)
  }

  // The section behind the headers, the strings behind it, one symbol on the size in front and one on
  // the data behind it.
  predicate Tables(k: Class, o: Image, n: Names, len: nat, strings: seq<byte>)
    requires len >= 8
  {
    && ImageFits(k, o)
    && o.head.shoff == EhdrSize(k) && o.head.shentsize == ShdrSize(k) && o.head.shnum == 4 && o.head.shstrndx == 1
    && o.sections[0].kind == 0
    && (var s := o.sections[1];
        s.name == n.strtab && s.kind == SHT_STRTAB && s.offset == Low(ImageSize(k) + len, 4) && s.size == |strings|)
    && (var s := o.sections[2];
        && s.name == n.symtab && s.kind == SHT_SYMTAB && s.offset == EhdrSize(k) + 4 * ShdrSize(k)
        && s.size == 3 * SymSize(k) && s.entsize == SymSize(k) && s.link == 1)
    && (var s := o.sections[3];
        s.name == n.rodata && s.kind == SHT_PROGBITS && s.offset == ImageSize(k) && s.size == Low(len, 4))
    && (var y := o.symbs[1]; y.name == n.size && y.shndx == 3 && y.value == 0 && y.size == 8)
    && (var y := o.symbs[2]; y.name == n.data && y.shndx == 3 && y.value == 8 && y.size == Low(len - 8, 4))
  }

  method Strings(dataName: seq<byte>, sizeName: seq<byte>, secName: seq<byte>) returns (table: seq<byte>, n: Names)
    requires NamesFit(dataName, sizeName, secName)
    ensures StringsHold(table, n, dataName, sizeName, secName)
  {
    n := Names(0, 0, 0, 0, 0);
    var at;
    table, at := AddString([0], dataName);
    n := n.(data := at);
    table, at := AddString(table, sizeName);
    n := n.(size := at);
    table, at := AddString(table, SYMTAB);
    n := n.(symtab := at);
    table, at := AddString(table, RODATA + secName);
    n := n.(rodata := at);
    table, at := AddString(table, STRTAB);
    n := n.(strtab := at);
  }

  method FillIn(k: Class, ident: seq<byte>, arch: byte, n: Names, sizeOfData: nat, strings: seq<byte>)
    returns (o: Image)
    requires |ident| == 16 && |strings| <= 256
    requires n.data < 256 && n.size < 256 && n.symtab < 256 && n.rodata < 256 && n.strtab < 256
    ensures Tables(k, o, n, sizeOfData + 8, strings)
    ensures Relocatable(k, o, ident, arch)
  {
    var sizeOfSection := sizeOfData + 8;
    var head := Ehdr(ident, 0, 0, 0, 0, 0, 0, 0, 0, 0, 0, 0, 0, 0);
    head := head.(kind := ET_REL, machine := arch, version := EV_CURRENT);
    head := head.(ehsize := EhdrSize(k), shentsize := ShdrSize(k), shnum := 4, shoff := EhdrSize(k), shstrndx := 1);
    var y0, s0 := Sym(0, 0, 0, 0, 0, 0), Shdr(0, 0, 0, 0, 0, 0, 0, 0, 0, 0);
    var y2 := y0.(name := n.data, value := 8, size := Low(sizeOfData, 4));
    y2 := y2.(info := GLOBAL_OBJECT, other := STV_HIDDEN, shndx := 3);
    var y1 := y0.(name := n.size, value := 0, size := 8);
    y1 := y1.(info := GLOBAL_OBJECT, other := STV_HIDDEN, shndx := 3);
    var s2 := s0.(name := n.symtab, kind := SHT_SYMTAB, offset := EhdrSize(k) + 4 * ShdrSize(k), addralign := 8);
    s2 := s2.(size := 3 * SymSize(k), entsize := SymSize(k), link := 1, info := 1);
    var s3 := s0.(name := n.rodata, kind := SHT_PROGBITS, flags := SHF_ALLOC_MERGE, offset := ImageSize(k));
    s3 := s3.(addralign := 8, size := Low(sizeOfSection, 4));
    var s1 := s0.(name := n.strtab, kind := SHT_STRTAB, offset := Low(ImageSize(k) + sizeOfSection, 4));
    s1 := s1.(addralign := 1, size := |strings|);
    o := Image(head, [s0, s1, s2, s3], [y0, y1, y2]);
    Word(sizeOfData);
    Word(sizeOfSection);
    Word(ImageSize(k) + sizeOfSection);
    Fitting(k, o);
  }

  // The numbers the writer fills in fit their fields.
  lemma Fitting(k: Class, o: Image)
    requires |o.sections| == 4 && |o.symbs| == 3 && |o.head.ident| == 16
    requires var h := o.head;
      && h.kind < 0x100 && h.machine < 0x100 && h.version < 0x100 && h.entry == 0 && h.phoff == 0 && h.shoff < 0x100
      && h.flags == 0 && h.ehsize < 0x100 && h.phentsize == 0 && h.phnum == 0 && h.shentsize < 0x100 && h.shnum < 0x100
      && h.shstrndx < 0x100
    requires forall i | 0 <= i < 4 :: var s := o.sections[i];
      && s.name < 0x100 && s.kind < 0x100 && s.flags < 0x100 && s.addr == 0 && s.offset < 0x1_0000_0000
      && s.size < 0x1_0000_0000 && s.link < 0x100 && s.info < 0x100 && s.addralign < 0x100 && s.entsize < 0x100
    requires forall i | 0 <= i < 3 :: var y := o.symbs[i];
      && y.name < 0x100 && y.value < 0x100 && y.size < 0x1_0000_0000
      && y.info < 0x100 && y.other < 0x100 && y.shndx < 0x100
    ensures ImageFits(k, o)
  {
    AllSmall(EhdrWidths(k), EhdrValues(o.head));
    forall i | 0 <= i < 4 ensures AllFit(ShdrWidths(k), ShdrValues(o.sections[i])) {
      AllSmall(ShdrWidths(k), ShdrValues(o.sections[i]));
    }
    forall i | 0 <= i < 3 ensures AllFit(SymWidths(k), SymValues(k, o.symbs[i])) {
      AllSmall(SymWidths(k), SymValues(k, o.symbs[i]));
    }
  }

  // ---------- reading what was written ----------

  // A file that was written with its tables.
  predicate Written(k: Class, file: seq<byte>, o: Image, n: Names, section: seq<byte>, strings: seq<byte>) {
    |section| >= 8 && Tables(k, o, n, |section|, strings) && Parses(k, file, o, section, strings)
  }

  predicate InRange(k: Class, section: seq<byte>) {
    ImageSize(k) + |section| < 0x1_0000_0000
  }

  lemma SectionsRead(k: Class, file: seq<byte>, o: Image, n: Names, section: seq<byte>, strings: seq<byte>)
    requires Written(k, file, o, n, section, strings) && InRange(k, section)
    ensures Section(k, file, 1) == Some(strings) && Section(k, file, 3) == Some(section)
  {
    Word(ImageSize(k) + |section|);
    Word(|section|);
  }

  lemma SymbolTableRead(k: Class, file: seq<byte>, o: Image, n: Names, section: seq<byte>, strings: seq<byte>)
    requires Written(k, file, o, n, section, strings)
    ensures Symbols(k, file) == Some(o.sections[2])
  {
    hide SectionHeader, HeaderOf;
    assert SymbolTable(k, file, 2, 2) == Some(o.sections[2]);
    assert SymbolTable(k, file, 1, 3) == SymbolTable(k, file, 2, 2);
  }

  lemma EntryRead(k: Class, file: seq<byte>, o: Image, n: Names, section: seq<byte>, strings: seq<byte>, j: nat)
    requires Written(k, file, o, n, section, strings) && j < 3
    ensures SymbolEntry(k, file, j) == Some(o.symbs[j])
  {
    hide Symbols;
    SymbolTableRead(k, file, o, n, section, strings);
    assert SymAt(k, file, j) == Some(o.symbs[j]);
    if j == 0 {} else if j == 1 {} else {}
  }

  lemma SymbolFrom(k: Class, file: seq<byte>, j: nat, sh: Shdr, y: Sym, strings: seq<byte>, bytes: seq<byte>,
                   name: seq<byte>)
    requires Symbols(k, file) == Some(sh) && SymbolEntry(k, file, j) == Some(y)
    requires Section(k, file, sh.link) == Some(strings) && StringAt(strings, y.name) == Some(name)
    requires Section(k, file, y.shndx) == Some(bytes) && y.value + y.size <= |bytes|
    ensures ReadSymbol(k, file, j) == Some(Symbol(name, bytes[y.value..y.value + y.size]))
  {
    hide Symbols, SymbolEntry, Section, StringAt;
  }

  lemma SizeSymbolRead(k: Class, file: seq<byte>, o: Image, n: Names, section: seq<byte>, strings: seq<byte>,
                       name: seq<byte>)
    requires Written(k, file, o, n, section, strings) && InRange(k, section)
    requires Named(strings, n.size, name) && 0 !in name
    ensures ReadSymbol(k, file, 1) == Some(Symbol(name, section[..8]))
  {
    hide ReadSymbol, Symbols, SymbolEntry, Section, StringAt, Parses;
    SectionsRead(k, file, o, n, section, strings);
    SymbolTableRead(k, file, o, n, section, strings);
    EntryRead(k, file, o, n, section, strings, 1);
    NameIsRead(strings, n.size, name);
    SymbolFrom(k, file, 1, o.sections[2], o.symbs[1], strings, section, name);
  }

  lemma DataSymbolRead(k: Class, file: seq<byte>, o: Image, n: Names, section: seq<byte>, strings: seq<byte>,
                       name: seq<byte>)
    requires Written(k, file, o, n, section, strings) && InRange(k, section)
    requires Named(strings, n.data, name) && 0 !in name
    ensures ReadSymbol(k, file, 2) == Some(Symbol(name, section[8..]))
  {
    hide ReadSymbol, Symbols, SymbolEntry, Section, StringAt, Parses;
    SectionsRead(k, file, o, n, section, strings);
    SymbolTableRead(k, file, o, n, section, strings);
    EntryRead(k, file, o, n, section, strings, 2);
    Word(|section| - 8);
    NameIsRead(strings, n.data, name);
    SymbolFrom(k, file, 2, o.sections[2], o.symbs[2], strings, section, name);
    assert section[8..8 + (|section| - 8)] == section[8..];
  }

  lemma SectionNameRead(k: Class, file: seq<byte>, o: Image, n: Names, section: seq<byte>, strings: seq<byte>, i: nat,
                        name: seq<byte>)
    requires Written(k, file, o, n, section, strings) && InRange(k, section) && i < 4
    requires Named(strings, o.sections[i].name, name) && 0 !in name
    ensures SectionName(k, file, i) == Some(name)
  {
    SectionsRead(k, file, o, n, section, strings);
    NameIsRead(strings, o.sections[i].name, name);
  }

  lemma SectionNamesRead(k: Class, file: seq<byte>, o: Image, n: Names, section: seq<byte>, strings: seq<byte>,
                         secName: seq<byte>)
    requires Written(k, file, o, n, section, strings) && InRange(k, section)
    requires Named(strings, n.strtab, STRTAB) && Named(strings, n.symtab, SYMTAB)
    requires Named(strings, n.rodata, RODATA + secName) && 0 !in secName
    ensures SectionName(k, file, 1) == Some(STRTAB) && SectionName(k, file, 2) == Some(SYMTAB)
    ensures SectionName(k, file, 3) == Some(RODATA + secName)
  {
    hide Parses, InRange, SectionName;
    SectionNameRead(k, file, o, n, section, strings, 1, STRTAB);
    SectionNameRead(k, file, o, n, section, strings, 2, SYMTAB);
    SectionNameRead(k, file, o, n, section, strings, 3, RODATA + secName);
  }

  /** Followed from its header, the file names its two symbols and its sections as given; the size
      symbol is the eight bytes at the front of the section and the data symbol the rest. */
  lemma ElfReads(k: Class, file: seq<byte>, o: Image, n: Names, section: seq<byte>, strings: seq<byte>,
                 dataName: seq<byte>, sizeName: seq<byte>, secName: seq<byte>)
    requires Written(k, file, o, n, section, strings) && InRange(k, section)
    requires NamesFit(dataName, sizeName, secName) && StringsHold(strings, n, dataName, sizeName, secName)
    ensures ReadSymbol(k, file, 1) == Some(Symbol(sizeName, section[..8]))
    ensures ReadSymbol(k, file, 2) == Some(Symbol(dataName, section[8..]))
    ensures SectionName(k, file, 1) == Some(STRTAB) && SectionName(k, file, 2) == Some(SYMTAB)
    ensures SectionName(k, file, 3) == Some(RODATA + secName)
  {
    hide Written, InRange, SectionName, ReadSymbol;
    SizeSymbolRead(k, file, o, n, section, strings, sizeName);
    DataSymbolRead(k, file, o, n, section, strings, dataName);
    SectionNamesRead(k, file, o, n, section, strings, secName);
  }

  /** The regions that the headers claim follow one another, from the section headers to the end of
      the file: the first three for any data, the string table for data in range and no other. */
  lemma Extents(k: Class, file: seq<byte>, o: Image, n: Names, section: seq<byte>, strings: seq<byte>)
    requires Written(k, file, o, n, section, strings)
    ensures o.head.shoff == EhdrSize(k)
    ensures o.head.shoff + o.head.shnum * o.head.shentsize == o.sections[2].offset
    ensures o.sections[2].offset + o.sections[2].size == o.sections[3].offset
    ensures (o.sections[3].offset + o.sections[3].size == o.sections[1].offset
             && o.sections[1].offset + o.sections[1].size == |file|)
            <==> InRange(k, section)
    ensures o.sections[1].offset + o.sections[1].size == |file| <==> InRange(k, section)
  {
    Word(ImageSize(k) + |section|);
    Word(|section|);
  }

  // The filled-in structures in their order in memory.
  method WriteHeaders(k: Class, o: Image, ghost section: seq<byte>, ghost strings: seq<byte>) returns (b: seq<byte>)
    requires ImageFits(k, o)
    ensures b == Join(Pieces(k, o, section, strings)[..5])
  {
    hide EhdrBytes, ShdrBytes, SymBytes;
    ghost var p := Pieces(k, o, section, strings);
    b := EhdrBytes(k, o.head);
    JoinMore(p, 0);
    assert p[..0] == [];
    var i := 0;
    while i < 4
      invariant 0 <= i <= 4 && b == Join(p[..1 + i])
    {
      JoinMore(p, 1 + i);
      assert p[1 + i] == ShdrBytes(k, o.sections[i]);
      b := b + ShdrBytes(k, o.sections[i]);
      i := i + 1;
    }
  }

  method WriteImage(k: Class, o: Image, ghost section: seq<byte>, ghost strings: seq<byte>) returns (b: seq<byte>)
    requires ImageFits(k, o)
    ensures b == Join(Pieces(k, o, section, strings)[..8])
  {
    hide EhdrBytes, ShdrBytes, SymBytes;
    ghost var p := Pieces(k, o, section, strings);
    b := WriteHeaders(k, o, section, strings);
    var i := 0;
    while i < 3
      invariant 0 <= i <= 3 && b == Join(p[..5 + i])
    {
      JoinMore(p, 5 + i);
      assert p[5 + i] == SymBytes(k, o.symbs[i]);
      b := b + SymBytes(k, o.symbs[i]);
      i := i + 1;
    }
  }

  // All of the file, in three writes.
  method WriteOut(k: Class, o: Image, data: seq<byte>, strings: seq<byte>) returns (file: seq<byte>)
    requires ImageFits(k, o)
    ensures file == Join(Pieces(k, o, data, strings))
  {
    hide EhdrBytes, ShdrBytes, SymBytes;
    ghost var p := Pieces(k, o, data, strings);
    file := WriteImage(k, o, data, strings);
    file := file + data;
    file := file + strings;
    JoinMore(p, 8);
    JoinMore(p, 9);
    assert p[..10] == p;
  }

  // The regions that the headers claim follow one another: the section headers, the symbols, the section,
  // and for data in range the strings, up to the end of the file.
  predicate Apart(k: Class, file: seq<byte>, data: seq<byte>) {
    match (HeaderOf(k, file), SectionHeader(k, file, 1), SectionHeader(k, file, 2), SectionHeader(k, file, 3))
    case (Some(h), Some(strings), Some(symbols), Some(section)) =>
      && h.shoff == EhdrSize(k) && h.shoff + h.shnum * h.shentsize == symbols.offset
      && symbols.offset + symbols.size == section.offset
      && ((section.offset + section.size == strings.offset && strings.offset + strings.size == |file|)
          <==> InRange(k, data))
    case _ => false
  }

  lemma FileRecords(k: Class, file: seq<byte>, o: Image, n: Names, section: seq<byte>, strings: seq<byte>)
    requires Written(k, file, o, n, section, strings)
    ensures Recorded(k, file) == Some(o)
  {
    hide HeaderOf, SectionHeader, SymbolEntry;
    EntryRead(k, file, o, n, section, strings, 0);
    EntryRead(k, file, o, n, section, strings, 1);
    EntryRead(k, file, o, n, section, strings, 2);
    var c := o.sections;
    assert SectionHeader(k, file, 0) == Some(c[0]) && SectionHeader(k, file, 1) == Some(c[1]);
    assert SectionHeader(k, file, 2) == Some(c[2]) && SectionHeader(k, file, 3) == Some(c[3]);
    assert o.symbs == [o.symbs[0], o.symbs[1], o.symbs[2]] && c == [c[0], c[1], c[2], c[3]];
  }

  lemma Described(k: Class, file: seq<byte>, o: Image, n: Names, data: seq<byte>, strings: seq<byte>)
    requires Written(k, file, o, n, data, strings)
    ensures HeaderOf(k, file) == Some(o.head) && Apart(k, file, data)
    ensures SectionHeader(k, file, 1).Some?
    ensures var s := SectionHeader(k, file, 1).value; s.offset + s.size == |file| <==> InRange(k, data)
  {
    hide HeaderOf, SectionHeader;
    Extents(k, file, o, n, data, strings);
  }

  /** The file written for data in range, followed from its header, gives back the names, the size
      and the data; for larger data the string table is not where its header says. */
  method WriteElf(k: Class, ident: seq<byte>, arch: byte, dataName: seq<byte>, sizeName: seq<byte>, secName: seq<byte>,
                  data: seq<byte>) returns (file: seq<byte>)
    requires |ident| == 16 && |data| >= 8
    requires NamesFit(dataName, sizeName, secName)
    ensures Recorded(k, file).Some? && Relocatable(k, Recorded(k, file).value, ident, arch)
    ensures ImageSize(k) + |data| <= |file| <= ImageSize(k) + |data| + 256
    ensures InRange(k, data) ==>
              && ReadSymbol(k, file, 1) == Some(Symbol(sizeName, data[..8]))
              && ReadSymbol(k, file, 2) == Some(Symbol(dataName, data[8..]))
              && SectionName(k, file, 3) == Some(RODATA + secName)
    ensures Apart(k, file, data)
    ensures SectionHeader(k, file, 1).Some?
    ensures var s := SectionHeader(k, file, 1).value; s.offset + s.size == |file| <==> InRange(k, data)
  {
    hide HeaderOf, SectionHeader, ReadSymbol, SectionName, Apart, InRange, Recorded, Relocatable;
    var sizeOfData := |data| - 8;
    var strings, names := Strings(dataName, sizeName, secName);
    var o := FillIn(k, ident, arch, names, sizeOfData, strings);
    file := WriteOut(k, o, data, strings);
    PiecesParse(k, o, data, strings);
    FileRecords(k, file, o, names, data, strings);
    Described(k, file, o, names, data, strings);
    if InRange(k, data) {
      ElfReads(k, file, o, names, data, strings, dataName, sizeName, secName);
    }
  }
}
