/** The end of the asset compiler's main function: the collected files go into one blob, the blob into
    an object file, and what a program finds behind the two symbols is the files again. */
module AssetCompiler {
  import opened Basics
  import opened Bytes
  import BlobPack
  import CoffFile
  import ElfFile
  import MachoFile

  // What a program linked with the file sees: the data symbol read as a blob, up to the number that
  // the size symbol holds.
  function FilesInElf(k: ElfFile.Class, file: seq<byte>): Option<seq<BlobPack.Stored>> {
    match (ElfFile.ReadSymbol(k, file, 1), ElfFile.ReadSymbol(k, file, 2))
    case (Some(size), Some(data)) => BlobPack.Read(data.content, FromLE(size.content), 0)
    case _ => None
  }

  // The same for symbols that only have a place in their section.
  function FilesAt(section: seq<byte>, size: nat, data: nat): Option<seq<BlobPack.Stored>> {
    if size + 8 <= |section| && data <= |section| then
      BlobPack.Read(section[data..], FromLE(section[size..size + 8]), 0)
    else None
  }

  function FilesInObj(file: seq<byte>): Option<seq<BlobPack.Stored>> {
    match (CoffFile.RawData(file), CoffFile.ReadSymbol(file, 0), CoffFile.ReadSymbol(file, 1))
    case (Some(section), Some(size), Some(data)) => FilesAt(section, size.value, data.value)
    case _ => None
  }

  function FilesInMacho(file: seq<byte>, i: nat): Option<seq<BlobPack.Stored>> {
    match MachoFile.Part(file, i)
    case None => None
    case Some(part) =>
      match (MachoFile.SectionBytes(part), MachoFile.SymbolOf(part, 0), MachoFile.SymbolOf(part, 1))
      case (Some(section), Some(size), Some(data)) => FilesAt(section, size.value, data.value)
      case _ => None
  }

  lemma SmallBlobFits(size: nat)
    requires size < 0x1_0000_0000
    ensures Fits(size, 8)
  {
    Fits4(size);
    FitsMore(size, 4, 8);
  }

  /** The files appended to the packer, in order, if and only if their names are non-empty and free of
      NULs; for any blob that leaves the place of the string table within 32 bits. */
  method CompileElf(packer: BlobPack.Packer, k: ElfFile.Class, ident: seq<byte>, arch: byte, dataName: seq<byte>,
                    sizeName: seq<byte>, secName: seq<byte>) returns (sizeOfData: nat, file: seq<byte>)
    requires packer.Valid()
    requires |ident| == 16 && ElfFile.NamesFit(dataName, sizeName, secName)
    modifies packer
    ensures packer.files == old(packer.files)
    ensures sizeOfData == |packer.bin| + BlobPack.ENTRY_SIZE * |packer.directory|
    ensures ElfFile.ImageSize(k) + 8 + sizeOfData < 0x1_0000_0000 ==>
              (FilesInElf(k, file) == Some(packer.files) <==> BlobPack.GoodNames(packer.files))
  {
    hide BlobPack.Read, ElfFile.ReadSymbol, BlobPack.GoodNames;
    var data;
    sizeOfData, data := packer.Assemble();
    file := ElfFile.WriteElf(k, ident, arch, dataName, sizeName, secName, data);
    if ElfFile.ImageSize(k) + 8 + sizeOfData < 0x1_0000_0000 { SmallBlobFits(sizeOfData); }
  }

  /** The same for the COFF file, for any section within 32 bits. */
  method CompileObj(packer: BlobPack.Packer, x64: bool, dataName: seq<byte>, sizeName: seq<byte>, secName: seq<byte>)
    returns (sizeOfData: nat, file: seq<byte>)
    requires packer.Valid() && CoffFile.NamesFit(x64, dataName, sizeName, secName)
    modifies packer
    ensures packer.files == old(packer.files)
    ensures sizeOfData == |packer.bin| + BlobPack.ENTRY_SIZE * |packer.directory|
    ensures 8 + sizeOfData < 0x1_0000_0000 ==>
              (FilesInObj(file) == Some(packer.files) <==> BlobPack.GoodNames(packer.files))
  {
    hide BlobPack.Read, CoffFile.RawData, CoffFile.ReadSymbol, BlobPack.GoodNames;
    var data;
    sizeOfData, data := packer.Assemble();
    file := CoffFile.WriteObj(secName, dataName, sizeName, data, x64);
    if 8 + sizeOfData < 0x1_0000_0000 { SmallBlobFits(sizeOfData); }
  }

  lemma MachoFiles(file: seq<byte>, i: nat, cpu: nat, subtype: nat, data: seq<byte>, sizeName: seq<byte>,
                   dataName: seq<byte>)
    requires |data| >= 8 && MachoFile.PartGives(file, i, cpu, subtype, data, sizeName, dataName)
    ensures FilesInMacho(file, i) == BlobPack.Read(data[8..], FromLE(data[..8]), 0)
  {
    hide MachoFile.Part, MachoFile.SectionBytes, MachoFile.SymbolOf, MachoFile.CommandsGive, MachoFile.SegmentGives;
    hide MachoFile.ExtentsApart, MachoFile.ForProcessor, BlobPack.Read;
  }

  /** The same for both parts of the Mach-O file, for any blob that leaves the place of the second part
      within 32 bits. */
  method CompileMacho(packer: BlobPack.Packer, dataName: seq<byte>, sizeName: seq<byte>)
    returns (sizeOfData: nat, file: seq<byte>)
    requires packer.Valid() && 0 !in dataName && 0 !in sizeName
    modifies packer
    ensures packer.files == old(packer.files)
    ensures sizeOfData == |packer.bin| + BlobPack.ENTRY_SIZE * |packer.directory|
    ensures MachoFile.SecondPart(8 + sizeOfData, |dataName| + |sizeName| + 2) < 0x1_0000_0000 ==>
              && (FilesInMacho(file, 0) == Some(packer.files) <==> BlobPack.GoodNames(packer.files))
              && (FilesInMacho(file, 1) == Some(packer.files) <==> BlobPack.GoodNames(packer.files))
  {
    hide BlobPack.Read, BlobPack.GoodNames, MachoFile.PartGives, FilesInMacho;
    var data;
    sizeOfData, data := packer.Assemble();
    file := MachoFile.WriteMacho(dataName, sizeName, data);
    if MachoFile.SecondPart(8 + sizeOfData, |dataName| + |sizeName| + 2) < 0x1_0000_0000 {
      SmallBlobFits(sizeOfData);
      var size, name := MachoFile.UNDERSCORE + sizeName, MachoFile.UNDERSCORE + dataName;
      MachoFiles(file, 0, MachoFile.CPU_X86_64, MachoFile.CPU_X86_64_ALL, data, size, name);
      MachoFiles(file, 1, MachoFile.CPU_ARM64, MachoFile.CPU_ARM64_ALL, data, size, name);
    }
  }
}
