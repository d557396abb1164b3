/** The fat Mach-O file that carries the blob twice, for two processors, and a reader that follows
    the fat header to each part, its load commands, section and symbols (mach-o/fat.h, loader.h and
    nlist.h). */
module MachoFile {
  import opened Basics
  import opened Bytes

  const FAT_MAGIC: nat := 0xCAFE_BABE
  const MH_MAGIC_64: nat := 0xFEED_FACF
  const MH_OBJECT: nat := 1
  const LC_SEGMENT_64: nat := 0x19
  const LC_SYMTAB: nat := 2
  const CPU_X86_64: nat := 0x0100_0007
  const CPU_X86_64_ALL: nat := 3
  const CPU_ARM64: nat := 0x0100_000C
  const CPU_ARM64_ALL: nat := 0
  const EXTERNAL_IN_SECTION: nat := 0x0F
  const DEFINED: nat := 2
  const READ_ONLY: nat := 1
  const NO_RELOCATION: nat := 4
  const BY_EIGHT: nat := 3 // an alignment, as a power of two

  const FAT_SIZE: nat := 48
  const HEADER_SIZE: nat := 32
  const SEGMENT_SIZE: nat := 72
  const SECTION_SIZE: nat := 80
  const SYMTAB_SIZE: nat := 24
  const NLIST_SIZE: nat := 16
  const FRONT: nat := 208 // the header and the load commands

  const HEADER: seq<nat> := [4, 4, 4, 4, 4, 4, 4, 4]
  const SEGMENT: seq<nat> := [4, 4, 8, 8, 8, 8, 8, 8, 4, 4, 4, 4]
  const SECTION: seq<nat> := [8, 8, 4, 4, 4, 4, 4, 4, 4, 4]
  const SYMTAB: seq<nat> := [4, 4, 4, 4, 4, 4]
  const NLIST: seq<nat> := [4, 1, 1, 2, 8]

  // ---------- the reader of one part ----------

  datatype Symbol = Symbol(name: seq<byte>, kind: nat, section: nat, desc: nat, value: nat)

  // The first load command of a kind among those left from some place on.
  function Command(part: seq<byte>, at: nat, left: nat, kind: nat): Option<nat>
    decreases left
  {
    if left == 0 then None
    else match ReadStruct([4, 4], part, at)
      case None => None
      case Some(v) => if v[0] == kind then Some(at) else Command(part, at + v[1], left - 1, kind)
  }

  function FindCommand(part: seq<byte>, kind: nat): Option<nat> {
    match ReadStruct(HEADER, part, 0)
    case None => None
    case Some(v) => if v[0] != MH_MAGIC_64 then None else Command(part, HEADER_SIZE, v[4], kind)
  }

  // The bytes of the only section of the segment.
  function SectionBytes(part: seq<byte>): Option<seq<byte>> {
    match FindCommand(part, LC_SEGMENT_64)
    case None => None
    case Some(at) =>
      match ReadStruct(SECTION, part, at + SEGMENT_SIZE + 32)
      case None => None
      case Some(v) => Slice(part, v[2], v[1])
  }

  function SymbolOf(part: seq<byte>, j: nat): Option<Symbol> {
    match FindCommand(part, LC_SYMTAB)
    case None => None
    case Some(at) =>
      match ReadStruct(SYMTAB, part, at)
      case None => None
      case Some(t) =>
        if j >= t[3] then None
        else match (ReadStruct(NLIST, part, t[2] + j * NLIST_SIZE), Slice(part, t[4], t[5]))
          case (Some(v), Some(strings)) =>
            (match StringAt(strings, v[0])
             case None => None
             case Some(name) => Some(Symbol(name, v[1], v[2], v[3], v[4])))
          case _ => None
  }

  // ---------- one part, from its pieces ----------

  // What the writer works out: sizes and places, counted from the start of the part.
  datatype Plan = Plan(size: nat, symoff: nat, stroff: nat, strsize: nat)

  function HeaderValues(cpu: nat, subtype: nat): seq<nat> {
    [MH_MAGIC_64, cpu, subtype, MH_OBJECT, 2, SEGMENT_SIZE + SECTION_SIZE + SYMTAB_SIZE, 0, 0]
  }

  function SegmentValues(n: Plan): seq<nat> {
    [LC_SEGMENT_64, SEGMENT_SIZE + SECTION_SIZE, 0, 0, 0, n.size + Gap(n.size, 8), FRONT, n.size, READ_ONLY,
     READ_ONLY, 1, NO_RELOCATION]
  }

  function SectionValues(n: Plan): seq<nat> {
    [0, n.size, FRONT, BY_EIGHT, 0, 0, 0, 0, 0, 0]
  }

  function SymtabValues(n: Plan): seq<nat> {
    [LC_SYMTAB, SYMTAB_SIZE, n.symoff, 2, n.stroff, n.strsize]
  }

  function SymbolValues(strx: nat, value: nat): seq<nat> {
    [strx, EXTERNAL_IN_SECTION, 1, DEFINED, value]
  }

  function HeaderBytes(cpu: nat, subtype: nat): (r: seq<byte>)
    ensures |r| == HEADER_SIZE
  {
    assert Total([4, 4, 4, 4, 4, 4, 4, 4]) == 32;
    Encode(Zip(HEADER, HeaderValues(cpu, subtype)))
  }

  function SegmentBytes(n: Plan): (r: seq<byte>)
    ensures |r| == SEGMENT_SIZE
  {
    assert Total([4, 4, 8, 8, 8, 8, 8, 8, 4, 4, 4, 4]) == 72;
    Encode(Zip(SEGMENT, SegmentValues(n)))
  }

  // The section and segment names stand in front.
  function SectionHeaderBytes(n: Plan): (r: seq<byte>)
    ensures |r| == SECTION_SIZE - 32
  {
    assert Total([8, 8, 4, 4, 4, 4, 4, 4, 4, 4]) == 48;
    Encode(Zip(SECTION, SectionValues(n)))
  }

  function SymtabBytes(n: Plan): (r: seq<byte>)
    ensures |r| == SYMTAB_SIZE
  {
    assert Total([4, 4, 4, 4, 4, 4]) == 24;
    Encode(Zip(SYMTAB, SymtabValues(n)))
  }

  function SymbolBytes(strx: nat, value: nat): (r: seq<byte>)
    ensures |r| == NLIST_SIZE
  {
    assert Total([4, 1, 1, 2, 8]) == 16;
    Encode(Zip(NLIST, SymbolValues(strx, value)))
  }

  // "__const" and "__DATA", sixteen bytes each.
  const SECTION_NAMES: seq<byte> :=
    [95, 95, 99, 111, 110, 115, 116, 0, 0, 0, 0, 0, 0, 0, 0, 0, 95, 95, 68, 65, 84, 65, 0, 0, 0, 0, 0, 0, 0, 0, 0, 0]

  function Strings(sizeName: seq<byte>, dataName: seq<byte>): (r: seq<byte>)
    ensures |r| == |sizeName| + |dataName| + 3
  {
    [0] + (sizeName + [0]) + (dataName + [0])
  }

  function Pieces(cpu: nat, subtype: nat, n: Plan, data: seq<byte>, sizeName: seq<byte>, dataName: seq<byte>)
    : (r: seq<seq<byte>>)
    ensures |r| == 10
  {
    [HeaderBytes(cpu, subtype), SegmentBytes(n), SECTION_NAMES, SectionHeaderBytes(n), SymtabBytes(n), data,
     Zeros(Gap(FRONT + |data|, 8)), SymbolBytes(1, 0), SymbolBytes(|sizeName| + 2, 8), Strings(sizeName, dataName)]
  }

  predicate Shaped(p: seq<seq<byte>>, data: nat, strings: nat) {
    && |p| == 10 && |p[0]| == 32 && |p[1]| == 72 && |p[2]| == 32 && |p[3]| == 48 && |p[4]| == 24
    && |p[5]| == data && |p[6]| == Gap(FRONT + data, 8) && |p[7]| == 16 && |p[8]| == 16 && |p[9]| == strings
  }

  // Where the symbols start, behind the data.
  function SymbolsAt(data: nat): nat {
    FRONT + data + Gap(FRONT + data, 8)
  }

  lemma Starts(p: seq<seq<byte>>, data: nat, strings: nat)
    requires Shaped(p, data, strings)
    ensures Start(p, 0) == 0 && Start(p, 1) == 32 && Start(p, 2) == 104 && Start(p, 3) == 136 && Start(p, 4) == 184
    ensures Start(p, 5) == FRONT && Start(p, 6) == FRONT + data && Start(p, 7) == SymbolsAt(data)
    ensures Start(p, 8) == SymbolsAt(data) + 16 && Start(p, 9) == SymbolsAt(data) + 32
    ensures |Join(p)| == SymbolsAt(data) + 32 + strings
  {
    assert Start(p, 1) == 32 && Start(p, 2) == 104;
    assert Start(p, 3) == 136 && Start(p, 4) == 184;
    assert Start(p, 5) == FRONT && Start(p, 6) == FRONT + data;
    assert Start(p, 7) == SymbolsAt(data) && Start(p, 8) == SymbolsAt(data) + 16;
    assert Start(p, 9) == SymbolsAt(data) + 32;
    LengthOf(p);
  }

  lemma PiecesShaped(cpu: nat, subtype: nat, n: Plan, data: seq<byte>, sizeName: seq<byte>, dataName: seq<byte>)
    ensures Shaped(Pieces(cpu, subtype, n, data, sizeName, dataName), |data|, |sizeName| + |dataName| + 3)
  {
    hide HeaderBytes, SegmentBytes, SectionHeaderBytes, SymtabBytes, SymbolBytes, Strings;
  }

  // The numbers are the places where the pieces are.
  predicate Accurate(n: Plan, data: seq<byte>, sizeName: seq<byte>, dataName: seq<byte>) {
    && n.size == |data| && n.symoff == SymbolsAt(|data|) && n.stroff == n.symoff + 2 * NLIST_SIZE
    && n.strsize == |sizeName| + |dataName| + 3
  }

  // A defined symbol of the first section that other files can see.
  function Visible(name: seq<byte>, value: nat): Symbol {
    Symbol(name, EXTERNAL_IN_SECTION, 1, DEFINED, value)
  }

  // What a reader makes of one part.
  predicate Gives(part: seq<byte>, cpu: nat, subtype: nat, data: seq<byte>, sizeName: seq<byte>, dataName: seq<byte>) {
    && CommandsGive(part, cpu, subtype) && SegmentGives(part, data)
    && SectionBytes(part) == Some(data)
    && SymbolOf(part, 0) == Some(Visible(sizeName, 0))
    && SymbolOf(part, 1) == Some(Visible(dataName, 8)) && SymbolOf(part, 2) == None
  }

  // An object for the processor; its two commands, one behind the other, are as long as the header says.
  predicate CommandsGive(part: seq<byte>, cpu: nat, subtype: nat) {
    match (ReadStruct(HEADER, part, 0), FindCommand(part, LC_SEGMENT_64), FindCommand(part, LC_SYMTAB))
    case (Some(h), Some(segment), Some(symtab)) =>
      && h[1] == cpu && h[2] == subtype && h[3] == MH_OBJECT && h[4] == 2 && h[6] == h[7] == 0 && segment == HEADER_SIZE
      && (match (ReadStruct([4, 4], part, segment), ReadStruct([4, 4], part, symtab))
          case (Some(v), Some(t)) => segment + v[1] == symtab && HEADER_SIZE + h[5] == symtab + t[1]
          case _ => false)
    case _ => false
  }

  // The segment, from its own numbers: the data and nothing else of the file, in memory from 0 on in multiples
  // of eight bytes, only to be read; its only section is at the same place, with the same size and alignment.
  predicate SegmentGives(part: seq<byte>, data: seq<byte>) {
    match FindCommand(part, LC_SEGMENT_64)
    case None => false
    case Some(at) =>
      match (ReadStruct(SEGMENT, part, at), ReadStruct(SECTION, part, at + SEGMENT_SIZE + 32))
      case (Some(v), Some(w)) =>
        && Slice(part, v[6], v[7]) == Some(data)
        && v[2] == v[3] == v[4] == 0 && |data| <= v[5] < |data| + 8 && v[5] % 8 == 0
        && v[8] == v[9] == READ_ONLY && v[11] == NO_RELOCATION
        && v[10] == 1 && v[1] == SEGMENT_SIZE + v[10] * SECTION_SIZE
        && w[0] == v[4] && w[1] == v[7] && w[2] == v[6] && w[3] == BY_EIGHT
        && w[4] == w[5] == w[6] == w[7] == w[8] == w[9] == 0
        && Slice(part, at + SEGMENT_SIZE, 32) == Some(SECTION_NAMES)
      case _ => false
  }

  // The load commands, the data, the symbols and the strings follow one another without overlap, the
  // first two aligned to 8, up to the end of the part.
  predicate ExtentsApart(part: seq<byte>) {
    match (FindCommand(part, LC_SEGMENT_64), FindCommand(part, LC_SYMTAB))
    case (Some(segment), Some(symtab)) =>
      (match (ReadStruct(SECTION, part, segment + SEGMENT_SIZE + 32), ReadStruct(SYMTAB, part, symtab))
       case (Some(v), Some(t)) =>
         && symtab + SYMTAB_SIZE <= v[2] && v[2] % 8 == 0
         && v[2] + v[1] <= t[2] && t[2] % 8 == 0
         && t[2] + t[3] * NLIST_SIZE <= t[4] && t[4] + t[5] == |part|
       case _ => false)
    case _ => false
  }

  predicate InRange(n: Plan) {
    n.stroff + n.strsize < 0x1_0000_0000
  }

  lemma NumbersFit(n: Plan, data: seq<byte>, sizeName: seq<byte>, dataName: seq<byte>)
    requires Accurate(n, data, sizeName, dataName) && InRange(n)
    ensures AllFit(SEGMENT, SegmentValues(n)) && AllFit(SECTION, SectionValues(n)) && AllFit(SYMTAB, SymtabValues(n))
  {
    AllSmall(SEGMENT, SegmentValues(n));
    AllSmall(SECTION, SectionValues(n));
    AllSmall(SYMTAB, SymtabValues(n));
  }

  lemma MoreNumbersFit(cpu: nat, subtype: nat, strx: nat, value: nat)
    requires cpu < 0x1_0000_0000 && subtype < 0x100 && strx < 0x1_0000_0000 && value < 0x100
    ensures AllFit(HEADER, HeaderValues(cpu, subtype)) && AllFit(NLIST, SymbolValues(strx, value))
  {
    AllSmall(HEADER, HeaderValues(cpu, subtype));
    AllSmall(NLIST, SymbolValues(strx, value));
  }

  // ---------- reading one part ----------

  lemma StructuresRead(p: seq<seq<byte>>, cpu: nat, subtype: nat, n: Plan, data: seq<byte>, sizeName: seq<byte>,
                       dataName: seq<byte>)
    requires p == Pieces(cpu, subtype, n, data, sizeName, dataName)
    requires Accurate(n, data, sizeName, dataName) && InRange(n) && cpu < 0x1_0000_0000 && subtype < 0x100
    ensures ReadStruct(HEADER, Join(p), 0) == Some(HeaderValues(cpu, subtype))
    ensures ReadStruct(SEGMENT, Join(p), 32) == Some(SegmentValues(n))
    ensures ReadStruct(SECTION, Join(p), 136) == Some(SectionValues(n))
    ensures ReadStruct(SYMTAB, Join(p), 184) == Some(SymtabValues(n))
  {
    hide HeaderBytes, SegmentBytes, SectionHeaderBytes, SymtabBytes, SymbolBytes, Strings, ReadStruct;
    PiecesShaped(cpu, subtype, n, data, sizeName, dataName);
    Starts(p, |data|, |sizeName| + |dataName| + 3);
    NumbersFit(n, data, sizeName, dataName);
    MoreNumbersFit(cpu, subtype, 1, 0);
    HeaderAt(p, cpu, subtype);
    SegmentAt(p, n);
    SectionAt(p, n);
    SymtabAt(p, n);
  }

  lemma HeaderAt(p: seq<seq<byte>>, cpu: nat, subtype: nat)
    requires |p| == 10 && p[0] == HeaderBytes(cpu, subtype) && AllFit(HEADER, HeaderValues(cpu, subtype))
    ensures ReadStruct(HEADER, Join(p), Start(p, 0)) == Some(HeaderValues(cpu, subtype))
  {
    hide Encode, Zip, ReadStruct;
    StructAt(p, 0, HEADER, HeaderValues(cpu, subtype));
  }

  lemma SegmentAt(p: seq<seq<byte>>, n: Plan)
    requires |p| == 10 && p[1] == SegmentBytes(n) && AllFit(SEGMENT, SegmentValues(n))
    ensures ReadStruct(SEGMENT, Join(p), Start(p, 1)) == Some(SegmentValues(n))
  {
    hide Encode, Zip, ReadStruct;
    StructAt(p, 1, SEGMENT, SegmentValues(n));
  }

  lemma SectionAt(p: seq<seq<byte>>, n: Plan)
    requires |p| == 10 && p[3] == SectionHeaderBytes(n) && AllFit(SECTION, SectionValues(n))
    ensures ReadStruct(SECTION, Join(p), Start(p, 3)) == Some(SectionValues(n))
  {
    hide Encode, Zip, ReadStruct;
    StructAt(p, 3, SECTION, SectionValues(n));
  }

  lemma SymtabAt(p: seq<seq<byte>>, n: Plan)
    requires |p| == 10 && p[4] == SymtabBytes(n) && AllFit(SYMTAB, SymtabValues(n))
    ensures ReadStruct(SYMTAB, Join(p), Start(p, 4)) == Some(SymtabValues(n))
  {
    hide Encode, Zip, ReadStruct;
    StructAt(p, 4, SYMTAB, SymtabValues(n));
  }

  lemma SymbolAt(p: seq<seq<byte>>, i: nat, strx: nat, value: nat)
    requires i < |p| && p[i] == SymbolBytes(strx, value) && AllFit(NLIST, SymbolValues(strx, value))
    ensures ReadStruct(NLIST, Join(p), Start(p, i)) == Some(SymbolValues(strx, value))
  {
    hide Encode, Zip, ReadStruct;
    StructAt(p, i, NLIST, SymbolValues(strx, value));
  }

  lemma CommandsFound(part: seq<byte>, cpu: nat, subtype: nat, n: Plan)
    requires ReadStruct(HEADER, part, 0) == Some(HeaderValues(cpu, subtype))
    requires ReadStruct(SEGMENT, part, 32) == Some(SegmentValues(n))
    requires ReadStruct(SYMTAB, part, 184) == Some(SymtabValues(n))
    ensures FindCommand(part, LC_SEGMENT_64) == Some(32)
    ensures FindCommand(part, LC_SYMTAB) == Some(184)
  {
    hide ReadStruct;
    FirstTwo(part, 32, SEGMENT, SegmentValues(n));
    FirstTwo(part, 184, SYMTAB, SymtabValues(n));
    TwoCommands(part, [LC_SEGMENT_64, SEGMENT_SIZE + SECTION_SIZE], [LC_SYMTAB, SYMTAB_SIZE]);
  }

  lemma TwoCommands(part: seq<byte>, first: seq<nat>, second: seq<nat>)
    requires ReadStruct([4, 4], part, 32) == Some(first) && ReadStruct([4, 4], part, 184) == Some(second)
    requires |first| == 2 && first[0] == LC_SEGMENT_64 && first[1] == 152 && |second| == 2 && second[0] == LC_SYMTAB
    ensures Command(part, 32, 2, LC_SEGMENT_64) == Some(32) && Command(part, 32, 2, LC_SYMTAB) == Some(184)
  {
    hide ReadStruct;
    assert Command(part, 184, 1, LC_SYMTAB) == Some(184);
  }

  lemma DataRead(part: seq<byte>, n: Plan, data: seq<byte>)
    requires FindCommand(part, LC_SEGMENT_64) == Some(32)
    requires ReadStruct(SECTION, part, 136) == Some(SectionValues(n))
    requires n.size == |data| && Slice(part, FRONT, |data|) == Some(data)
    ensures SectionBytes(part) == Some(data)
  {
    hide ReadStruct, FindCommand;
  }

  lemma SymbolRead(part: seq<byte>, n: Plan, j: nat, strx: nat, value: nat, strings: seq<byte>, name: seq<byte>)
    requires FindCommand(part, LC_SYMTAB) == Some(184)
    requires ReadStruct(SYMTAB, part, 184) == Some(SymtabValues(n)) && j < 2
    requires ReadStruct(NLIST, part, n.symoff + j * NLIST_SIZE) == Some(SymbolValues(strx, value))
    requires Slice(part, n.stroff, n.strsize) == Some(strings) && StringAt(strings, strx) == Some(name)
    ensures SymbolOf(part, j) == Some(Visible(name, value))
  {
    hide ReadStruct, FindCommand, StringAt;
  }

  lemma NoMoreSymbols(part: seq<byte>, n: Plan)
    requires FindCommand(part, LC_SYMTAB) == Some(184)
    requires ReadStruct(SYMTAB, part, 184) == Some(SymtabValues(n))
    ensures SymbolOf(part, 2) == None
  {
    hide ReadStruct, FindCommand;
  }

  lemma CommandsRead(part: seq<byte>, cpu: nat, subtype: nat, n: Plan)
    requires ReadStruct(HEADER, part, 0) == Some(HeaderValues(cpu, subtype))
    requires ReadStruct(SEGMENT, part, 32) == Some(SegmentValues(n))
    requires ReadStruct(SYMTAB, part, 184) == Some(SymtabValues(n))
    requires FindCommand(part, LC_SEGMENT_64) == Some(32) && FindCommand(part, LC_SYMTAB) == Some(184)
    ensures CommandsGive(part, cpu, subtype)
  {
    hide ReadStruct, FindCommand;
    FirstTwo(part, 32, SEGMENT, SegmentValues(n));
    FirstTwo(part, 184, SYMTAB, SymtabValues(n));
  }

  lemma SegmentRead(part: seq<byte>, n: Plan, data: seq<byte>)
    requires FindCommand(part, LC_SEGMENT_64) == Some(32)
    requires ReadStruct(SEGMENT, part, 32) == Some(SegmentValues(n))
    requires ReadStruct(SECTION, part, 136) == Some(SectionValues(n))
    requires n.size == |data| && Slice(part, FRONT, |data|) == Some(data)
    requires Slice(part, 104, 32) == Some(SECTION_NAMES)
    ensures SegmentGives(part, data)
  {
    hide ReadStruct, FindCommand, Slice;
    assert (|data| + Gap(|data|, 8)) % 8 == 0;
  }

  lemma StringsRead(sizeName: seq<byte>, dataName: seq<byte>)
    requires 0 !in sizeName && 0 !in dataName
    ensures StringAt(Strings(sizeName, dataName), 1) == Some(sizeName)
    ensures StringAt(Strings(sizeName, dataName), |sizeName| + 2) == Some(dataName)
  {
    var t := Strings(sizeName, dataName);
    assert t[1..1 + |sizeName|] == sizeName && t[|sizeName| + 2..|sizeName| + 2 + |dataName|] == dataName;
    NameIsRead(t, 1, sizeName);
    NameIsRead(t, |sizeName| + 2, dataName);
  }

  lemma PlacesRead(p: seq<seq<byte>>, cpu: nat, subtype: nat, n: Plan, data: seq<byte>, sizeName: seq<byte>,
                   dataName: seq<byte>)
    requires p == Pieces(cpu, subtype, n, data, sizeName, dataName)
    requires Accurate(n, data, sizeName, dataName) && InRange(n)
    ensures Slice(Join(p), FRONT, |data|) == Some(data) && Slice(Join(p), 104, 32) == Some(SECTION_NAMES)
    ensures ReadStruct(NLIST, Join(p), n.symoff) == Some(SymbolValues(1, 0))
    ensures ReadStruct(NLIST, Join(p), n.symoff + NLIST_SIZE) == Some(SymbolValues(|sizeName| + 2, 8))
    ensures Slice(Join(p), n.stroff, n.strsize) == Some(Strings(sizeName, dataName))
    ensures |Join(p)| == n.stroff + n.strsize
  {
    hide HeaderBytes, SegmentBytes, SectionHeaderBytes, SymtabBytes, SymbolBytes, Strings, ReadStruct;
    PiecesShaped(cpu, subtype, n, data, sizeName, dataName);
    Starts(p, |data|, |sizeName| + |dataName| + 3);
    PieceAt(p, 2);
    PieceAt(p, 5);
    PieceAt(p, 9);
    MoreNumbersFit(0, 0, 1, 0);
    MoreNumbersFit(0, 0, |sizeName| + 2, 8);
    SymbolAt(p, 7, 1, 0);
    SymbolAt(p, 8, |sizeName| + 2, 8);
  }

  lemma ExtentsRead(part: seq<byte>, n: Plan, data: seq<byte>, sizeName: seq<byte>, dataName: seq<byte>)
    requires Accurate(n, data, sizeName, dataName)
    requires FindCommand(part, LC_SEGMENT_64) == Some(32) && FindCommand(part, LC_SYMTAB) == Some(184)
    requires ReadStruct(SECTION, part, 136) == Some(SectionValues(n))
    requires ReadStruct(SYMTAB, part, 184) == Some(SymtabValues(n))
    requires |part| == n.stroff + n.strsize
    ensures ExtentsApart(part)
  {
    hide ReadStruct, FindCommand;
    assert (FRONT + |data| + Gap(FRONT + |data|, 8)) % 8 == 0;
  }

  /** One part, followed from its header, gives back the data and the two symbols. */
  lemma PartReads(p: seq<seq<byte>>, cpu: nat, subtype: nat, n: Plan, data: seq<byte>, sizeName: seq<byte>,
                  dataName: seq<byte>)
    requires p == Pieces(cpu, subtype, n, data, sizeName, dataName)
    requires Accurate(n, data, sizeName, dataName) && InRange(n) && cpu < 0x1_0000_0000 && subtype < 0x100
    requires 0 !in sizeName && 0 !in dataName
    ensures Gives(Join(p), cpu, subtype, data, sizeName, dataName) && ExtentsApart(Join(p))
    ensures |Join(p)| == n.stroff + n.strsize
  {
    hide ReadStruct, Strings, Pieces, FindCommand, SectionBytes, SymbolOf, StringAt, Slice, ExtentsApart;
    hide CommandsGive, SegmentGives;
    StructuresRead(p, cpu, subtype, n, data, sizeName, dataName);
    PlacesRead(p, cpu, subtype, n, data, sizeName, dataName);
    CommandsFound(Join(p), cpu, subtype, n);
    ExtentsRead(Join(p), n, data, sizeName, dataName);
    CommandsRead(Join(p), cpu, subtype, n);
    SegmentRead(Join(p), n, data);
    DataRead(Join(p), n, data);
    NoMoreSymbols(Join(p), n);
    StringsRead(sizeName, dataName);
    SymbolRead(Join(p), n, 0, 1, 0, Strings(sizeName, dataName), sizeName);
    SymbolRead(Join(p), n, 1, |sizeName| + 2, 8, Strings(sizeName, dataName), dataName);
  }

  // ---------- the fat file ----------

  function Word(file: seq<byte>, i: nat): Option<nat> {
    match Slice(file, 4 * i, 4)
    case None => None
    case Some(b) => Some(FromBE(b))
  }

  // Part i of the file.
  function Part(file: seq<byte>, i: nat): Option<seq<byte>> {
    match (Word(file, 0), Word(file, 1), Word(file, 5 * i + 4), Word(file, 5 * i + 5))
    case (Some(magic), Some(parts), Some(offset), Some(size)) =>
      if magic != FAT_MAGIC || i >= parts then None else Slice(file, offset, size)
    case _ => None
  }

  function Words(vs: seq<nat>): (r: seq<byte>)
    ensures |r| == 4 * |vs|
  {
    if vs == [] then [] else BE(vs[0], 4) + Words(vs[1..])
  }

  lemma {:induction false} WordAt(vs: seq<nat>, rest: seq<byte>, i: nat)
    requires i < |vs|
    ensures Word(Words(vs) + rest, i) == Some(Low(vs[i], 4))
  {
    var file, first := Words(vs) + rest, BE(vs[0], 4);
    if i == 0 {
      assert file[..4] == first;
      ReadBackBE(vs[0], 4);
    } else {
      WordAt(vs[1..], rest, i - 1);
      var tail := Words(vs[1..]) + rest;
      assert file == first + tail;
      SliceLater(first, tail, 4 * (i - 1), 4);
    }
  }

  function FatValues(offset0: nat, size0: nat, offset1: nat, size1: nat): seq<nat> {
    [FAT_MAGIC, 2, CPU_X86_64, CPU_X86_64_ALL, offset0, size0, BY_EIGHT,
     CPU_ARM64, CPU_ARM64_ALL, offset1, size1, BY_EIGHT]
  }

  // The five words that a reader looks at hold their numbers as far as 32 bits go.
  lemma FatWords(file: seq<byte>, offset1: nat, size0: nat, size1: nat, rest: seq<byte>)
    requires file == Words(FatValues(FAT_SIZE, size0, offset1, size1)) + rest
    ensures Word(file, 0) == Some(FAT_MAGIC) && Word(file, 1) == Some(2) && Word(file, 4) == Some(FAT_SIZE)
    ensures Word(file, 5) == Some(Low(size0, 4)) && Word(file, 9) == Some(Low(offset1, 4))
    ensures Word(file, 10) == Some(Low(size1, 4))
  {
    hide Words, Word, Low;
    var vs := FatValues(FAT_SIZE, size0, offset1, size1);
    WordAt(vs, rest, 0);
    WordAt(vs, rest, 1);
    WordAt(vs, rest, 4);
    WordAt(vs, rest, 5);
    WordAt(vs, rest, 9);
    WordAt(vs, rest, 10);
    Bytes.Word(FAT_MAGIC);
    Bytes.Word(2);
    Bytes.Word(FAT_SIZE);
  }

  // The words that say what the parts are for.
  lemma FatKinds(file: seq<byte>, offset1: nat, size0: nat, size1: nat, rest: seq<byte>)
    requires file == Words(FatValues(FAT_SIZE, size0, offset1, size1)) + rest
    ensures ForProcessor(file, 0, CPU_X86_64, CPU_X86_64_ALL) && ForProcessor(file, 1, CPU_ARM64, CPU_ARM64_ALL)
  {
    hide Words, Word, Low;
    var vs := FatValues(FAT_SIZE, size0, offset1, size1);
    WordAt(vs, rest, 2);
    WordAt(vs, rest, 3);
    WordAt(vs, rest, 6);
    WordAt(vs, rest, 7);
    WordAt(vs, rest, 8);
    WordAt(vs, rest, 11);
    Bytes.Word(CPU_X86_64);
    Bytes.Word(CPU_X86_64_ALL);
    Bytes.Word(CPU_ARM64);
    Bytes.Word(CPU_ARM64_ALL);
    Bytes.Word(BY_EIGHT);
  }

  // Part i is announced for the processor, at a multiple of eight.
  predicate ForProcessor(file: seq<byte>, i: nat, cpu: nat, subtype: nat) {
    && Word(file, 5 * i + 2) == Some(cpu) && Word(file, 5 * i + 3) == Some(subtype)
    && Word(file, 5 * i + 6) == Some(BY_EIGHT)
  }

  lemma PartsAre(file: seq<byte>, part0: seq<byte>, gap: nat, part1: seq<byte>)
    requires var at := FAT_SIZE + |part0| + gap;
      && file == Words(FatValues(FAT_SIZE, |part0|, at, |part1|)) + (part0 + Zeros(gap) + part1)
      && |Words(FatValues(FAT_SIZE, |part0|, at, |part1|))| == FAT_SIZE
      && at < 0x1_0000_0000 && |part1| < 0x1_0000_0000
    ensures Part(file, 0) == Some(part0) && Part(file, 1) == Some(part1)
  {
    hide Words, Word, FatValues, Low;
    var at, rest := FAT_SIZE + |part0| + gap, part0 + Zeros(gap) + part1;
    FatWords(file, at, |part0|, |part1|, rest);
    Bytes.Word(|part0|);
    Bytes.Word(|part1|);
    Bytes.Word(at);
    assert Slice(file, FAT_SIZE, |part0|) == Some(part0) by {
      assert file[FAT_SIZE..FAT_SIZE + |part0|] == part0;
    }
    assert Slice(file, at, |part1|) == Some(part1) by {
      assert file[at..at + |part1|] == part1;
    }
    hide Slice;
  }

  // ---------- the writer ----------

  const UNDERSCORE: seq<byte> := [95]

  // Where the parts are: apart, aligned to 8, up to the end of the file.
  predicate PartsApart(file: seq<byte>) {
    && Word(file, 4).Some? && Word(file, 5).Some? && Word(file, 9).Some? && Word(file, 10).Some?
    && (var (at0, size0, at1, size1) :=
          (Word(file, 4).value, Word(file, 5).value, Word(file, 9).value, Word(file, 10).value);
        FAT_SIZE <= at0 && at0 % 8 == 0 && at0 + size0 <= at1 && at1 % 8 == 0 && at1 + size1 == |file|)
  }

  // Part i is for the processor and leads to the data and the symbols.
  predicate PartGives(file: seq<byte>, i: nat, cpu: nat, subtype: nat, data: seq<byte>, sizeName: seq<byte>,
                      dataName: seq<byte>) {
    match Part(file, i)
    case None => false
    case Some(part) =>
      ForProcessor(file, i, cpu, subtype) && Gives(part, cpu, subtype, data, sizeName, dataName) && ExtentsApart(part)
  }

  // What the fat file is for.
  predicate FatGives(file: seq<byte>, data: seq<byte>, sizeName: seq<byte>, dataName: seq<byte>) {
    && PartGives(file, 0, CPU_X86_64, CPU_X86_64_ALL, data, sizeName, dataName)
    && PartGives(file, 1, CPU_ARM64, CPU_ARM64_ALL, data, sizeName, dataName)
    && PartsApart(file)
  }

  // The length of one part, and the place of the second: the largest number that is recorded.
  function PartSize(data: nat, names: nat): nat {
    SymbolsAt(data) + 2 * NLIST_SIZE + names + 3
  }

  function SecondPart(data: nat, names: nat): nat {
    PartSize(data, names) + Gap(PartSize(data, names), 8) + FAT_SIZE
  }

  method WritePart(cpu: nat, subtype: nat, n: Plan, data: seq<byte>, sizeName: seq<byte>, dataName: seq<byte>)
    returns (part: seq<byte>, ghost p: seq<seq<byte>>)
    ensures p == Pieces(cpu, subtype, n, data, sizeName, dataName) && part == Join(p)
  {
    hide HeaderBytes, SegmentBytes, SectionHeaderBytes, SymtabBytes, SymbolBytes, Strings;
    part, p := Put([], [], HeaderBytes(cpu, subtype));
    part, p := Put(part, p, SegmentBytes(n));
    part, p := Put(part, p, SECTION_NAMES);
    part, p := Put(part, p, SectionHeaderBytes(n));
    part, p := Put(part, p, SymtabBytes(n));
    part, p := Put(part, p, data);
    part, p := Put(part, p, Zeros(Gap(FRONT + |data|, 8)));
    part, p := Put(part, p, SymbolBytes(1, 0));
    part, p := Put(part, p, SymbolBytes(|sizeName| + 2, 8));
    part, p := Put(part, p, Strings(sizeName, dataName));
  }

  /** The file gives back, for both processors, the data and the two symbols, with everything apart, if
      and only if the place of the second part fits the 32 bits in which it is recorded. */
  method WriteMacho(givenData: seq<byte>, givenSize: seq<byte>, data: seq<byte>) returns (file: seq<byte>)
    requires 0 !in givenData && 0 !in givenSize
    ensures FatGives(file, data, UNDERSCORE + givenSize, UNDERSCORE + givenData)
       <==> SecondPart(|data|, |givenData| + |givenSize| + 2) < 0x1_0000_0000
    ensures var names := |givenData| + |givenSize| + 2;
      |file| == SecondPart(|data|, names) + PartSize(|data|, names)
  {
    hide FatGives, Pieces, Words, Join, FatValues, Strings, Gap;
    var fpos := 0;
    var sizeOfSection := |data|;
    var dataName, sizeName := UNDERSCORE + givenData, UNDERSCORE + givenSize;
    var string_size := |dataName| + |sizeName| + 3;
    fpos := fpos + HEADER_SIZE + SEGMENT_SIZE + SECTION_SIZE + SYMTAB_SIZE;
    fpos := fpos + sizeOfSection;
    var sectionAligned := (fpos + 7) / 8 * 8;
    var sectionAlign := sectionAligned - fpos;
    fpos := sectionAligned;
    var n := Plan(sizeOfSection, fpos, 0, string_size);
    fpos := fpos + 2 * NLIST_SIZE;
    n := n.(stroff := fpos);
    fpos := fpos + string_size;
    var aligned := (fpos + 7) / 8 * 8;
    var align := aligned - fpos;
    var archs := FatValues(FAT_SIZE, fpos, aligned + FAT_SIZE, fpos);

    file := Words(archs);
    ghost var p0, p1;
    var part0, part1;
    part0, p0 := WritePart(CPU_X86_64, CPU_X86_64_ALL, n, data, sizeName, dataName);
    part1, p1 := WritePart(CPU_ARM64, CPU_ARM64_ALL, n, data, sizeName, dataName);
    file := file + (part0 + Zeros(align) + part1);
    RoundUp(FRONT + |data|);
    RoundUp(n.stroff + n.strsize);
    FatReads(file, p0, p1, n, align, data, sizeName, dataName);
  }

  lemma RoundUp(x: nat)
    ensures (x + 7) / 8 * 8 == x + Gap(x, 8)
  {
    var g := Gap(x, 8);
    assert (x + g) / 8 * 8 == x + g;
  }

  lemma FatReads(file: seq<byte>, p0: seq<seq<byte>>, p1: seq<seq<byte>>, n: Plan, gap: nat, data: seq<byte>,
                 sizeName: seq<byte>, dataName: seq<byte>)
    requires Accurate(n, data, sizeName, dataName) && 0 !in sizeName && 0 !in dataName
    requires p0 == Pieces(CPU_X86_64, CPU_X86_64_ALL, n, data, sizeName, dataName)
    requires p1 == Pieces(CPU_ARM64, CPU_ARM64_ALL, n, data, sizeName, dataName)
    requires var size := n.stroff + n.strsize;
      && gap == Gap(size, 8)
      && file == Words(FatValues(FAT_SIZE, size, size + gap + FAT_SIZE, size)) + (Join(p0) + Zeros(gap) + Join(p1))
    ensures FatGives(file, data, sizeName, dataName) <==> n.stroff + n.strsize + gap + FAT_SIZE < 0x1_0000_0000
    ensures |file| == FAT_SIZE + 2 * (n.stroff + n.strsize) + gap
  {
    hide Part, Gives, ExtentsApart, PartsApart, ForProcessor, Pieces, Words, Join, FatValues, Gap;
    var size := n.stroff + n.strsize;
    Lengths(p0, CPU_X86_64, CPU_X86_64_ALL, n, data, sizeName, dataName);
    Lengths(p1, CPU_ARM64, CPU_ARM64_ALL, n, data, sizeName, dataName);
    TwelveWords(FAT_SIZE, size, size + gap + FAT_SIZE, size);
    PartsAreApart(file, Join(p0), gap, Join(p1));
    if size + gap + FAT_SIZE < 0x1_0000_0000 {
      PartReads(p0, CPU_X86_64, CPU_X86_64_ALL, n, data, sizeName, dataName);
      PartReads(p1, CPU_ARM64, CPU_ARM64_ALL, n, data, sizeName, dataName);
      PartsAre(file, Join(p0), gap, Join(p1));
      FatKinds(file, size + gap + FAT_SIZE, size, size, Join(p0) + Zeros(gap) + Join(p1));
    }
  }

  lemma TwelveWords(offset0: nat, size0: nat, offset1: nat, size1: nat)
    ensures |Words(FatValues(offset0, size0, offset1, size1))| == FAT_SIZE
  {
  }

  lemma Lengths(p: seq<seq<byte>>, cpu: nat, subtype: nat, n: Plan, data: seq<byte>, sizeName: seq<byte>,
                dataName: seq<byte>)
    requires p == Pieces(cpu, subtype, n, data, sizeName, dataName) && Accurate(n, data, sizeName, dataName)
    ensures |Join(p)| == n.stroff + n.strsize
  {
    hide HeaderBytes, SegmentBytes, SectionHeaderBytes, SymtabBytes, SymbolBytes, Strings, Pieces;
    PiecesShaped(cpu, subtype, n, data, sizeName, dataName);
    Starts(p, |data|, |sizeName| + |dataName| + 3);
  }

  // The recorded places are those of the parts exactly when the second one fits 32 bits.
  lemma PartsAreApart(file: seq<byte>, part0: seq<byte>, gap: nat, part1: seq<byte>)
    requires var at := FAT_SIZE + |part0| + gap;
      && file == Words(FatValues(FAT_SIZE, |part0|, at, |part1|)) + (part0 + Zeros(gap) + part1)
      && |Words(FatValues(FAT_SIZE, |part0|, at, |part1|))| == FAT_SIZE
      && at % 8 == 0 && |part0| == |part1|
    ensures PartsApart(file) <==> FAT_SIZE + |part0| + gap < 0x1_0000_0000
  {
    hide Words, Word, FatValues, Low;
    var at, rest := FAT_SIZE + |part0| + gap, part0 + Zeros(gap) + part1;
    FatWords(file, at, |part0|, |part1|, rest);
    Bytes.Word(|part0|);
    Bytes.Word(at);
    assert |file| == at + |part1|;
  }
}
