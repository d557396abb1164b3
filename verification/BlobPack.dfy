/** The asset packer: files appended to a directory and a data area, the blob assembled from them,
    and the reader that the source describes for it. */
module BlobPack {
  import opened Basics
  import opened Bytes

  const NAME_SIZE: nat := 256
  const ENTRY_SIZE: nat := 272
  const DOT: byte := 46

  datatype FsEntry = FsEntry(fname: seq<byte>, offset: nat, size: nat)

  // A file as it went in, and as it comes out.
  datatype Stored = Stored(name: seq<byte>, content: seq<byte>)

  datatype Outcome = Appended | Skipped | Exited

  // ---------- one directory entry ----------

  function Padded(name: seq<byte>): (r: seq<byte>)
    requires |name| < NAME_SIZE
    ensures |r| == NAME_SIZE
  {
    name + Zeros(NAME_SIZE - |name|)
  }

  function EntryBytes(e: FsEntry): (r: seq<byte>)
    requires |e.fname| == NAME_SIZE
    ensures |r| == ENTRY_SIZE
  {
    e.fname + LE(e.offset, 8) + LE(e.size, 8)
  }

  function EntryOf(b: seq<byte>): FsEntry
    requires |b| == ENTRY_SIZE
  {
    FsEntry(b[..NAME_SIZE], FromLE(b[NAME_SIZE..NAME_SIZE + 8]), FromLE(b[NAME_SIZE + 8..]))
  }

  lemma EntryRoundTrip(e: FsEntry)
    requires |e.fname| == NAME_SIZE && Fits(e.offset, 8) && Fits(e.size, 8)
    ensures EntryOf(EntryBytes(e)) == e
  {
    var b := EntryBytes(e);
    assert b[..NAME_SIZE] == e.fname;
    assert b[NAME_SIZE..NAME_SIZE + 8] == LE(e.offset, 8);
    assert b[NAME_SIZE + 8..] == LE(e.size, 8);
    ReadBack(e.offset, 8);
    ReadBack(e.size, 8);
    LowIsAll(e.offset, 8);
    LowIsAll(e.size, 8);
  }

  function DirectoryBytes(d: seq<FsEntry>): (r: seq<byte>)
    requires forall e | e in d :: |e.fname| == NAME_SIZE
    ensures |r| == ENTRY_SIZE * |d|
  {
    if d == [] then [] else EntryBytes(d[0]) + DirectoryBytes(d[1..])
  }

  lemma {:induction false} EntryAt(d: seq<FsEntry>, i: nat)
    requires forall e | e in d :: |e.fname| == NAME_SIZE
    requires i < |d|
    ensures DirectoryBytes(d)[ENTRY_SIZE * i..ENTRY_SIZE * i + ENTRY_SIZE] == EntryBytes(d[i])
  {
    var (first, rest) := (EntryBytes(d[0]), DirectoryBytes(d[1..]));
    if i == 0 {
      assert (first + rest)[..ENTRY_SIZE] == first;
    } else {
      EntryAt(d[1..], i - 1);
      var k := ENTRY_SIZE * (i - 1);
      assert (first + rest)[ENTRY_SIZE + k..ENTRY_SIZE + k + ENTRY_SIZE] == rest[k..k + ENTRY_SIZE];
    }
  }

  // ---------- the directory describes the data area ----------

  // Entry e, shifted by base, says where f lies.
  predicate Describes(e: FsEntry, f: Stored, area: seq<byte>, base: nat) {
    && |f.name| < NAME_SIZE && e.fname == Padded(f.name)
    && e.offset >= base && e.offset % 8 == 0 && e.size == |f.content|
    && e.offset - base + e.size <= |area|
    && area[e.offset - base..e.offset - base + e.size] == f.content
  }

  predicate Consistent(d: seq<FsEntry>, files: seq<Stored>, area: seq<byte>, base: nat) {
    && |d| == |files|
    && (forall i | 0 <= i < |d| :: Describes(d[i], files[i], area, base))
    && (forall i, j | 0 <= i < j < |d| :: d[i].offset + d[i].size <= d[j].offset)
  }

  lemma AreaGrows(d: seq<FsEntry>, files: seq<Stored>, area: seq<byte>, f: Stored)
    requires Consistent(d, files, area, 0) && |f.name| < NAME_SIZE
    ensures var gap := Gap(|area|, 8);
      Consistent(d + [FsEntry(Padded(f.name), |area| + gap, |f.content|)], files + [f],
                 area + Zeros(gap) + f.content, 0)
  {
    var gap := Gap(|area|, 8);
    var grown := area + Zeros(gap) + f.content;
    assert grown[|area| + gap..|area| + gap + |f.content|] == f.content;
    forall i | 0 <= i < |d| ensures Describes(d[i], files[i], grown, 0) {
      assert grown[d[i].offset..d[i].offset + d[i].size] == area[d[i].offset..d[i].offset + d[i].size];
    }
  }

  // ---------- the packer ----------

  // From the last dot on; nothing when there is none.
  function Extension(filename: seq<byte>): (r: seq<byte>)
    ensures r == [] <==> DOT !in filename
    ensures r != [] ==> |r| <= |filename| && filename[|filename| - |r|..] == r && r[0] == DOT && DOT !in r[1..]
  {
    if DOT !in filename then []
    else if DOT !in filename[1..] && filename[0] == DOT then filename
    else Extension(filename[1..])
  }

  class Packer {
    var directory: seq<FsEntry>
    var bin: seq<byte>
    const validExts: seq<seq<byte>>
    ghost var files: seq<Stored>

    constructor (validExts: seq<seq<byte>>)
      ensures Valid() && files == [] && this.validExts == validExts
    {
      directory, bin, files := [], [], [];
      this.validExts := validExts;
    }

    ghost predicate Valid()
      reads this
    {
      Consistent(directory, files, bin, 0)
    }

    // disk is what the file system holds under filename, None when it cannot be found or opened.
    method AppendFile(filename: seq<byte>, storename: seq<byte>, disk: Option<seq<byte>>)
      returns (r: Outcome)
      requires Valid()
      modifies this
      ensures Valid()
      ensures r.Skipped? <==> Extension(filename) !in validExts
      ensures r.Appended? <==> Extension(filename) in validExts && |storename| < NAME_SIZE && disk.Some?
      ensures files == old(files) + (if r.Appended? then [Stored(storename, disk.value)] else [])
      ensures old(directory) <= directory && old(bin) <= bin
      ensures !r.Appended? ==> directory == old(directory) && bin == old(bin)
      ensures r.Appended? ==>
                && |directory| == |old(directory)| + 1
                && (var at := directory[|old(directory)|].offset;
                    |old(bin)| <= at < |old(bin)| + 8 && bin == old(bin) + Zeros(at - |old(bin)|) + disk.value)
    {
      hide Consistent;
      var ext := Extension(filename);
      var valid, i := false, 0;
      while i < |validExts| && !valid
        invariant 0 <= i <= |validExts|
        invariant valid <==> ext in validExts[..i]
      {
        valid := ext == validExts[i];
        i := i + 1;
      }
      if !valid { return Skipped; }
      if |storename| > NAME_SIZE - 1 { return Exited; }
      if disk.None? { return Exited; }
      Store(storename, disk.value);
      return Appended;
    }

    // Behind the data so far, at the next multiple of 8.
    method Store(storename: seq<byte>, content: seq<byte>)
      requires Valid() && |storename| < NAME_SIZE
      modifies this
      ensures Valid() && files == old(files) + [Stored(storename, content)]
      ensures old(directory) <= directory && |directory| == |old(directory)| + 1
      ensures var at := directory[|old(directory)|].offset;
        |old(bin)| <= at < |old(bin)| + 8 && bin == old(bin) + Zeros(at - |old(bin)|) + content
    {
      var padding := Gap(|bin|, 8);
      var entry := FsEntry(Padded(storename), |bin| + padding, |content|);
      AreaGrows(directory, files, bin, Stored(storename, content));
      hide Consistent;
      directory := directory + [entry];
      bin := bin + Zeros(padding) + content;
      files := files + [Stored(storename, content)];
    }

    /** The size, the directory with its offsets moved behind itself and an empty entry at its end,
        and the data area. */
    method Assemble() returns (sizeOfData: nat, data: seq<byte>)
      requires Valid()
      modifies this
      ensures files == old(files) && bin == old(bin)
      ensures sizeOfData == |bin| + ENTRY_SIZE * |directory|
      ensures |data| == 8 + sizeOfData && data[..8] == LE(sizeOfData, 8)
      ensures Fits(sizeOfData, 8) ==> Assembled(data[8..], directory, files, bin)
      ensures Fits(sizeOfData, 8) ==>
                (Read(data[8..], FromLE(data[..8]), 0) == Some(files) <==> GoodNames(files))
    {
      var baseOffset := ENTRY_SIZE * (|directory| + 1);
      var i := 0;
      while i < |directory|
        invariant 0 <= i <= |directory| == |old(directory)|
        invariant forall k | 0 <= k < i ::
                    directory[k] == old(directory)[k].(offset := old(directory)[k].offset + baseOffset)
        invariant forall k | i <= k < |directory| :: directory[k] == old(directory)[k]
        invariant files == old(files) && bin == old(bin)
      {
        directory := directory[i := directory[i].(offset := directory[i].offset + baseOffset)];
        i := i + 1;
      }
      Shifted(old(directory), directory, files, bin, baseOffset);
      directory := directory + [Terminator()];
      assert directory[..|files|] == directory[..|directory| - 1];
      var sizeOfDir := ENTRY_SIZE * |directory|;
      sizeOfData := |bin| + sizeOfDir;
      data := LE(sizeOfData, 8) + (DirectoryBytes(directory) + bin);
      SectionReads(data, directory, files, bin, sizeOfData);
    }
  }

  // The size in front of the blob is the reader's limit.
  lemma SectionReads(data: seq<byte>, d: seq<FsEntry>, files: seq<Stored>, bin: seq<byte>, size: nat)
    requires |d| == |files| + 1 && d[|files|] == Terminator()
    requires Consistent(d[..|files|], files, bin, ENTRY_SIZE * |d|)
    requires forall e | e in d :: |e.fname| == NAME_SIZE
    requires size == |bin| + ENTRY_SIZE * |d| && data == LE(size, 8) + (DirectoryBytes(d) + bin)
    ensures |data| == 8 + size && data[..8] == LE(size, 8)
    ensures Fits(size, 8) ==> Assembled(data[8..], d, files, bin)
    ensures Fits(size, 8) ==> (Read(data[8..], FromLE(data[..8]), 0) == Some(files) <==> GoodNames(files))
  {
    hide Read, DirectoryBytes, Consistent, GoodNames;
    assert data[8..] == DirectoryBytes(d) + bin && data[..8] == LE(size, 8);
    if Fits(size, 8) {
      ReadBack(size, 8);
      LowIsAll(size, 8);
      BlobRoundTrip(data[8..], d, files, bin, size);
    }
  }

  function Terminator(): FsEntry {
    FsEntry(Zeros(NAME_SIZE), 0, 0)
  }

  lemma Shifted(was: seq<FsEntry>, now: seq<FsEntry>, files: seq<Stored>, area: seq<byte>, base: nat)
    requires Consistent(was, files, area, 0) && |was| == |now| && base % 8 == 0
    requires forall k | 0 <= k < |was| :: now[k] == was[k].(offset := was[k].offset + base)
    ensures Consistent(now, files, area, base)
  {
    forall i | 0 <= i < |now| ensures Describes(now[i], files[i], area, base) {
      assert Describes(was[i], files[i], area, 0);
      assert now[i].offset - base == was[i].offset;
    }
    forall i, j | 0 <= i < j < |now| ensures now[i].offset + now[i].size <= now[j].offset {
      assert was[i].offset + was[i].size <= was[j].offset;
    }
  }

  // ---------- the reader ----------

  // Entry after entry, at most limit of them, up to one with an empty name; None when the reader
  // would look outside the blob.
  function Read(blob: seq<byte>, limit: nat, i: nat): Option<seq<Stored>>
    decreases limit - i
  {
    if i >= limit then Some([])
    else if ENTRY_SIZE * i + ENTRY_SIZE > |blob| then None
    else
      var e := EntryOf(blob[ENTRY_SIZE * i..ENTRY_SIZE * i + ENTRY_SIZE]);
      if e.fname[0] == 0 then Some([])
      else if e.offset + e.size > |blob| then None
      else
        var rest := Read(blob, limit, i + 1);
        if rest.None? then None
        else Some([Stored(CString(e.fname), blob[e.offset..e.offset + e.size])] + rest.value)
  }

  predicate GoodName(name: seq<byte>) {
    name != [] && 0 !in name
  }

  predicate GoodNames(files: seq<Stored>) {
    forall f | f in files :: GoodName(f.name)
  }

  // An assembled blob, as Assemble leaves it.
  predicate Assembled(blob: seq<byte>, d: seq<FsEntry>, files: seq<Stored>, bin: seq<byte>) {
    && |d| == |files| + 1 && d[|files|] == Terminator()
    && Consistent(d[..|files|], files, bin, ENTRY_SIZE * |d|)
    && (forall e | e in d :: |e.fname| == NAME_SIZE)
    && blob == DirectoryBytes(d) + bin
    && Fits(|blob|, 8)
  }

  lemma {:induction false} FitsLess(v: nat, u: nat, w: nat)
    requires Fits(v, w) && u <= v
    ensures Fits(u, w)
  {
    if w != 0 { FitsLess(v / 256, u / 256, w - 1); }
  }

  // Entry i as the reader sees it.
  lemma EntryInBlob(blob: seq<byte>, d: seq<FsEntry>, files: seq<Stored>, bin: seq<byte>, i: nat)
    requires Assembled(blob, d, files, bin) && i <= |files|
    ensures ENTRY_SIZE * i + ENTRY_SIZE <= |blob|
    ensures EntryOf(blob[ENTRY_SIZE * i..ENTRY_SIZE * i + ENTRY_SIZE]) == d[i]
  {
    EntryAt(d, i);
    assert blob[ENTRY_SIZE * i..ENTRY_SIZE * i + ENTRY_SIZE]
        == DirectoryBytes(d)[ENTRY_SIZE * i..ENTRY_SIZE * i + ENTRY_SIZE];
    if i < |files| {
      assert d[i] == d[..|files|][i];
      assert Describes(d[..|files|][i], files[i], bin, ENTRY_SIZE * |d|);
    }
    FitsLess(|blob|, d[i].offset, 8);
    FitsLess(|blob|, d[i].size, 8);
    EntryRoundTrip(d[i]);
  }

  lemma ContentInBlob(blob: seq<byte>, d: seq<FsEntry>, files: seq<Stored>, bin: seq<byte>, i: nat)
    requires Assembled(blob, d, files, bin) && i < |files|
    ensures d[i].offset + d[i].size <= |blob| && blob[d[i].offset..d[i].offset + d[i].size] == files[i].content
    ensures |files[i].name| < NAME_SIZE && d[i].fname == Padded(files[i].name)
    ensures d[i].offset % 8 == 0 && d[i].offset >= ENTRY_SIZE * |d|
  {
    var base := ENTRY_SIZE * |d|;
    assert d[i] == d[..|files|][i];
    assert Describes(d[..|files|][i], files[i], bin, base);
    assert blob[d[i].offset..d[i].offset + d[i].size] == bin[d[i].offset - base..d[i].offset - base + d[i].size];
  }

  lemma NameInEntry(name: seq<byte>)
    requires GoodName(name) && |name| < NAME_SIZE
    ensures Padded(name)[0] != 0 && CString(Padded(name)) == name
  {
    assert name[0] in name;
    StringEnds(name, Zeros(NAME_SIZE - |name|));
  }

  lemma ReadOne(blob: seq<byte>, d: seq<FsEntry>, files: seq<Stored>, bin: seq<byte>, limit: nat, i: nat)
    requires Assembled(blob, d, files, bin) && GoodNames(files)
    requires i < |files| < limit
    ensures Read(blob, limit, i) == match Read(blob, limit, i + 1)
                                    case None => None
                                    case Some(rest) => Some([files[i]] + rest)
  {
    EntryInBlob(blob, d, files, bin, i);
    ContentInBlob(blob, d, files, bin, i);
    assert files[i] in files;
    NameInEntry(files[i].name);
  }

  lemma ReadEnd(blob: seq<byte>, d: seq<FsEntry>, files: seq<Stored>, bin: seq<byte>, limit: nat)
    requires Assembled(blob, d, files, bin) && |files| < limit
    ensures Read(blob, limit, |files|) == Some([])
  {
    EntryInBlob(blob, d, files, bin, |files|);
    assert Terminator().fname[0] == 0;
  }

  lemma {:induction false} ReadsFrom(blob: seq<byte>, d: seq<FsEntry>, files: seq<Stored>, bin: seq<byte>,
                                     limit: nat, i: nat)
    requires Assembled(blob, d, files, bin) && GoodNames(files)
    requires i <= |files| < limit
    ensures Read(blob, limit, i) == Some(files[i..])
    decreases |files| - i
  {
    hide Assembled, Read, GoodNames;
    if i == |files| {
      ReadEnd(blob, d, files, bin, limit);
    } else {
      ReadOne(blob, d, files, bin, limit, i);
      ReadsFrom(blob, d, files, bin, limit, i + 1);
      assert files[i..] == [files[i]] + files[i + 1..];
    }
  }

  // The reader never makes up an empty name or one with a NUL in it.
  lemma {:induction false} ReadNames(blob: seq<byte>, limit: nat, i: nat)
    requires Read(blob, limit, i).Some?
    ensures GoodNames(Read(blob, limit, i).value)
    decreases limit - i
  {
    if i < limit {
      var e := EntryOf(blob[ENTRY_SIZE * i..ENTRY_SIZE * i + ENTRY_SIZE]);
      if e.fname[0] != 0 { ReadNames(blob, limit, i + 1); }
    }
  }

  /** The reader, whose limit is the recorded size, returns the files that went in, in order, if and
      only if every name is non-empty and free of NULs; offsets are aligned to 8, extents neither
      overlap nor leave the blob, and the scan stops at the entry behind the last file: any limit
      above the number of files gives the same. */
  lemma BlobRoundTrip(blob: seq<byte>, d: seq<FsEntry>, files: seq<Stored>, bin: seq<byte>, limit: nat)
    requires Assembled(blob, d, files, bin) && |files| < limit
    ensures Read(blob, |blob|, 0) == Some(files) <==> GoodNames(files)
    ensures Read(blob, limit, 0) == Some(files) <==> GoodNames(files)
    ensures forall i | 0 <= i < |files| ::
              d[i].offset % 8 == 0 && ENTRY_SIZE * |d| <= d[i].offset && d[i].offset + d[i].size <= |blob|
    ensures forall i, j | 0 <= i < j < |files| :: d[i].offset + d[i].size <= d[j].offset
  {
    assert files[0..] == files;
    if GoodNames(files) {
      ReadsFrom(blob, d, files, bin, |blob|, 0);
      ReadsFrom(blob, d, files, bin, limit, 0);
    } else {
      if Read(blob, |blob|, 0).Some? { ReadNames(blob, |blob|, 0); }
      if Read(blob, limit, 0).Some? { ReadNames(blob, limit, 0); }
    }
    forall i | 0 <= i < |files|
      ensures d[i].offset % 8 == 0 && ENTRY_SIZE * |d| <= d[i].offset && d[i].offset + d[i].size <= |blob|
    {
      ContentInBlob(blob, d, files, bin, i);
    }
    var front := d[..|files|];
    assert forall i | 0 <= i < |files| :: d[i] == front[i];
  }
}
