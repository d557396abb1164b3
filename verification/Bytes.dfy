/** Byte strings as a little-endian host writes them: integers, fixed-layout structures, and cutting
    a file back into the pieces it was written from. */
module Bytes {
  import opened Basics

  // ---------- integers ----------

  function LE(v: nat, w: nat): (r: seq<byte>)
    ensures |r| == w
  {
    if w == 0 then [] else [v % 256] + LE(v / 256, w - 1)
  }

  function FromLE(b: seq<byte>): nat {
    if b == [] then 0 else b[0] + 256 * FromLE(b[1..])
  }

  // Most significant byte first.
  function BE(v: nat, w: nat): (r: seq<byte>)
    ensures |r| == w
  {
    if w == 0 then [] else BE(v / 256, w - 1) + [v % 256]
  }

  function FromBE(b: seq<byte>): nat {
    if b == [] then 0 else 256 * FromBE(b[..|b| - 1]) + b[|b| - 1]
  }

  // v is less than 256 to the w.
  predicate Fits(v: nat, w: nat) {
    if w == 0 then v == 0 else Fits(v / 256, w - 1)
  }

  // What is left of v in w bytes.
  function Low(v: nat, w: nat): (r: nat)
    ensures r <= v
  {
    if w == 0 then 0 else v % 256 + 256 * Low(v / 256, w - 1)
  }

  lemma {:induction false} ReadBack(v: nat, w: nat)
    ensures FromLE(LE(v, w)) == Low(v, w)
  {
    if w != 0 {
      ReadBack(v / 256, w - 1);
      assert LE(v, w)[1..] == LE(v / 256, w - 1);
    }
  }

  lemma LastByte(front: seq<byte>, last: byte)
    ensures FromBE(front + [last]) == 256 * FromBE(front) + last
  {
    var b := front + [last];
    assert b[..|front|] == front;
  }

  lemma {:induction false} ReadBackBE(v: nat, w: nat)
    ensures FromBE(BE(v, w)) == Low(v, w)
  {
    if w != 0 {
      ReadBackBE(v / 256, w - 1);
      LastByte(BE(v / 256, w - 1), v % 256);
    }
  }

  lemma {:induction false} LowIsAll(v: nat, w: nat)
    ensures Low(v, w) == v <==> Fits(v, w)
  {
    if w != 0 { LowIsAll(v / 256, w - 1); }
  }

  lemma {:induction false} LowFits(v: nat, w: nat)
    ensures Fits(Low(v, w), w)
  {
    if w != 0 { LowFits(v / 256, w - 1); }
  }

  lemma {:induction false} FitsMore(v: nat, w: nat, w': nat)
    requires Fits(v, w) && w <= w'
    ensures Fits(v, w')
  {
    if w != 0 { FitsMore(v / 256, w - 1, w' - 1); }
    else if w' != 0 { FitsMore(v / 256, 0, w' - 1); }
  }

  lemma Fits2(v: nat)
    ensures Fits(v, 2) <==> v < 0x1_0000
  {
    assert Fits(v, 2) == Fits(v / 256, 1) == Fits(v / 256 / 256, 0);
  }

  lemma Fits4(v: nat)
    ensures Fits(v, 4) <==> v < 0x1_0000_0000
  {
    assert Fits(v, 4) == Fits(v / 256, 3) == Fits(v / 256 / 256, 2);
    Fits2(v / 256 / 256);
  }

  lemma Word(v: nat)
    ensures Low(v, 4) < 0x1_0000_0000
    ensures Low(v, 4) == v <==> v < 0x1_0000_0000
  {
    LowFits(v, 4);
    Fits4(Low(v, 4));
    Fits4(v);
    LowIsAll(v, 4);
  }

  // v is within the first 1, 2 or 4 of w bytes.
  predicate Small(v: nat, w: nat) {
    (w >= 1 && v < 0x100) || (w >= 2 && v < 0x1_0000) || (w >= 4 && v < 0x1_0000_0000)
  }

  lemma SmallFits(v: nat, w: nat)
    requires Small(v, w)
    ensures Fits(v, w)
  {
    if v < 0x100 {
      assert Fits(v, 1);
      FitsMore(v, 1, w);
    } else if v < 0x1_0000 {
      Fits2(v);
      FitsMore(v, 2, w);
    } else {
      Fits4(v);
      FitsMore(v, 4, w);
    }
  }

  // ---------- structures ----------

  datatype Field = Field(width: nat, value: nat)

  function Widths(fs: seq<Field>): seq<nat> {
    seq(|fs|, i requires 0 <= i < |fs| => fs[i].width)
  }

  function Values(fs: seq<Field>): seq<nat> {
    seq(|fs|, i requires 0 <= i < |fs| => fs[i].value)
  }

  function Total(ws: seq<nat>): nat {
    if ws == [] then 0 else ws[0] + Total(ws[1..])
  }

  function Encode(fs: seq<Field>): (r: seq<byte>)
    ensures |r| == Total(Widths(fs))
  {
    if fs == [] then [] else
      assert Widths(fs)[1..] == Widths(fs[1..]);
      LE(fs[0].value, fs[0].width) + Encode(fs[1..])
  }

  function Decode(ws: seq<nat>, b: seq<byte>): (r: seq<nat>)
    requires Total(ws) <= |b|
    ensures |r| == |ws|
  {
    if ws == [] then [] else [FromLE(b[..ws[0]])] + Decode(ws[1..], b[ws[0]..])
  }

  lemma DecodeOne(w: nat, ws: seq<nat>, first: seq<byte>, rest: seq<byte>)
    requires |first| == w && Total(ws) <= |rest|
    ensures Total([w] + ws) == w + Total(ws)
    ensures Decode([w] + ws, first + rest) == [FromLE(first)] + Decode(ws, rest)
  {
    assert ([w] + ws)[1..] == ws;
    assert (first + rest)[..w] == first && (first + rest)[w..] == rest;
  }

  lemma {:induction false} DecodeEncode(fs: seq<Field>)
    requires forall f | f in fs :: Fits(f.value, f.width)
    ensures Decode(Widths(fs), Encode(fs)) == Values(fs)
  {
    if fs != [] {
      var f, rest := fs[0], fs[1..];
      assert Widths(fs) == [f.width] + Widths(rest) && Values(fs) == [f.value] + Values(rest);
      DecodeEncode(rest);
      DecodeOne(f.width, Widths(rest), LE(f.value, f.width), Encode(rest));
      ReadBack(f.value, f.width);
      LowIsAll(f.value, f.width);
    }
  }

  function Zip(ws: seq<nat>, vs: seq<nat>): (r: seq<Field>)
    requires |ws| == |vs|
    ensures Widths(r) == ws && Values(r) == vs
  {
    seq(|ws|, i requires 0 <= i < |ws| => Field(ws[i], vs[i]))
  }

  predicate AllFit(ws: seq<nat>, vs: seq<nat>)
    requires |ws| == |vs|
  {
    forall i | 0 <= i < |ws| :: Fits(vs[i], ws[i])
  }

  lemma AllSmall(ws: seq<nat>, vs: seq<nat>)
    requires |ws| == |vs| && forall i | 0 <= i < |ws| :: Small(vs[i], ws[i])
    ensures AllFit(ws, vs)
  {
    forall i | 0 <= i < |ws| ensures Fits(vs[i], ws[i]) { SmallFits(vs[i], ws[i]); }
  }

  lemma ZipRoundTrip(ws: seq<nat>, vs: seq<nat>)
    requires |ws| == |vs| && AllFit(ws, vs)
    ensures |Encode(Zip(ws, vs))| == Total(ws)
    ensures Decode(ws, Encode(Zip(ws, vs))) == vs
  {
    DecodeEncode(Zip(ws, vs));
  }

  // ---------- strings ----------

  // The string that starts at the first byte: up to a NUL, or the end.
  function CString(b: seq<byte>): (r: seq<byte>)
    ensures 0 !in r
  {
    if b == [] || b[0] == 0 then [] else [b[0]] + CString(b[1..])
  }

  lemma {:induction false} StringEnds(name: seq<byte>, rest: seq<byte>)
    requires 0 !in name && (rest == [] || rest[0] == 0)
    ensures CString(name + rest) == name
  {
    if name == [] {
      assert name + rest == rest;
    } else {
      assert (name + rest)[1..] == name[1..] + rest;
      StringEnds(name[1..], rest);
    }
  }

  function Zeros(n: nat): (r: seq<byte>)
    ensures |r| == n && forall i | 0 <= i < n :: r[i] == 0
  {
    seq(n, i => 0)
  }

  // The distance to the next multiple of a.
  function Gap(n: nat, a: nat): (r: nat)
    requires a == 4 || a == 8
    ensures r < a && (n + r) % a == 0
  {
    if a == 4 then Gap4(n) else Gap8(n)
  }

  function Gap4(n: nat): (r: nat)
    ensures r < 4 && (n + r) % 4 == 0
  {
    if n % 4 == 0 then 0 else assert n + (4 - n % 4) == 4 * (n / 4 + 1); 4 - n % 4
  }

  function Gap8(n: nat): (r: nat)
    ensures r < 8 && (n + r) % 8 == 0
  {
    if n % 8 == 0 then 0 else assert n + (8 - n % 8) == 8 * (n / 8 + 1); 8 - n % 8
  }

  // ---------- string tables ----------

  // The string a, with a NUL behind it, starts at the offset.
  predicate Named(table: seq<byte>, offset: nat, a: seq<byte>) {
    offset + |a| < |table| && table[offset..offset + |a|] == a && table[offset + |a|] == 0
  }

  function StringAt(table: seq<byte>, offset: nat): Option<seq<byte>> {
    if offset < |table| then Some(CString(table[offset..])) else None
  }

  lemma NameIsRead(table: seq<byte>, offset: nat, a: seq<byte>)
    requires Named(table, offset, a) && 0 !in a
    ensures StringAt(table, offset) == Some(a)
  {
    assert table[offset..] == a + table[offset + |a|..];
    StringEnds(a, table[offset + |a|..]);
  }

  // ---------- a file and its pieces ----------

  function Slice(file: seq<byte>, offset: nat, size: nat): Option<seq<byte>> {
    if offset + size <= |file| then Some(file[offset..offset + size]) else None
  }

  lemma SliceLater(first: seq<byte>, tail: seq<byte>, at: nat, n: nat)
    ensures Slice(first + tail, |first| + at, n) == Slice(tail, at, n)
  {
    if at + n <= |tail| {
      assert (first + tail)[|first| + at..|first| + at + n] == tail[at..at + n];
    }
  }

  lemma SliceFirst(first: seq<byte>, tail: seq<byte>)
    ensures Slice(first + tail, 0, |first|) == Some(first)
  {
    var b := first + tail;
    assert b[..|first|] == first;
  }

  lemma SliceTwo(file: seq<byte>, at: nat, a: seq<byte>, b: seq<byte>)
    requires Slice(file, at, |a|) == Some(a) && Slice(file, at + |a|, |b|) == Some(b)
    ensures Slice(file, at, |a| + |b|) == Some(a + b)
  {
    assert file[at..at + |a| + |b|] == file[at..at + |a|] + file[at + |a|..at + |a| + |b|];
  }

  function Join(pieces: seq<seq<byte>>): seq<byte> {
    if pieces == [] then [] else pieces[0] + Join(pieces[1..])
  }

  // Where piece i starts.
  function Start(pieces: seq<seq<byte>>, i: nat): nat
    requires i <= |pieces|
  {
    if i == 0 then 0 else Start(pieces, i - 1) + |pieces[i - 1]|
  }

  lemma {:induction false} StartOfRest(pieces: seq<seq<byte>>, i: nat)
    requires pieces != [] && i < |pieces|
    ensures Start(pieces, i + 1) == |pieces[0]| + Start(pieces[1..], i)
  {
    if i == 0 {
      assert Start(pieces, 1) == Start(pieces, 0) + |pieces[0]|;
    } else {
      StartOfRest(pieces, i - 1);
    }
  }

  /** Each piece is found where the pieces before it end. */
  lemma {:induction false} PieceAt(pieces: seq<seq<byte>>, i: nat)
    requires i < |pieces|
    ensures Slice(Join(pieces), Start(pieces, i), |pieces[i]|) == Some(pieces[i])
  {
    var first, rest := pieces[0], pieces[1..];
    if i == 0 {
      SliceFirst(first, Join(rest));
    } else {
      PieceAt(rest, i - 1);
      StartOfRest(pieces, i - 1);
      SliceLater(first, Join(rest), Start(rest, i - 1), |pieces[i]|);
    }
  }

  // Writes one more piece.
  method Put(file: seq<byte>, ghost written: seq<seq<byte>>, piece: seq<byte>)
    returns (longer: seq<byte>, ghost more: seq<seq<byte>>)
    requires file == Join(written)
    ensures more == written + [piece] && longer == Join(more)
  {
    longer, more := file + piece, written + [piece];
    JoinMore(more, |written|);
    assert more[..|written|] == written && more[..|more|] == more;
  }

  // What is written piece by piece.
  lemma {:induction false} JoinMore(pieces: seq<seq<byte>>, i: nat)
    requires i < |pieces|
    ensures Join(pieces[..i + 1]) == Join(pieces[..i]) + pieces[i]
  {
    if i == 0 {
      assert pieces[..1] == [pieces[0]] && Join([pieces[0]]) == pieces[0] + Join([]);
    } else {
      JoinMore(pieces[1..], i - 1);
      assert pieces[..i + 1][1..] == pieces[1..][..i] && pieces[..i][1..] == pieces[1..][..i - 1];
      assert Join(pieces[..i + 1]) == pieces[0] + (Join(pieces[1..][..i - 1]) + pieces[i]);
    }
  }

  lemma {:induction false} LengthOf(pieces: seq<seq<byte>>)
    ensures |Join(pieces)| == Start(pieces, |pieces|)
  {
    if pieces != [] {
      LengthOf(pieces[1..]);
      StartOfRest(pieces, |pieces| - 1);
    }
  }

  // The values of a structure at some place of a file.
  function ReadStruct(ws: seq<nat>, file: seq<byte>, at: nat): Option<seq<nat>> {
    match Slice(file, at, Total(ws))
    case None => None
    case Some(b) => Some(Decode(ws, b))
  }

  lemma StructAt(pieces: seq<seq<byte>>, i: nat, ws: seq<nat>, vs: seq<nat>)
    requires i < |pieces| && |ws| == |vs| && AllFit(ws, vs) && pieces[i] == Encode(Zip(ws, vs))
    ensures ReadStruct(ws, Join(pieces), Start(pieces, i)) == Some(vs)
  {
    ZipRoundTrip(ws, vs);
    PieceAt(pieces, i);
  }

  // The first two numbers of a structure, read on their own.
  lemma FirstTwo(file: seq<byte>, at: nat, ws: seq<nat>, vs: seq<nat>)
    requires |ws| >= 2 && ws[0] == 4 && ws[1] == 4 && ReadStruct(ws, file, at) == Some(vs)
    ensures |vs| >= 2 && ReadStruct([4, 4], file, at) == Some([vs[0], vs[1]])
  {
    var b := file[at..at + Total(ws)];
    assert Total(ws) == 4 + (4 + Total(ws[1..][1..])) && Total([4, 4]) == 8;
    assert vs == Decode(ws, b) == [FromLE(b[..4])] + Decode(ws[1..], b[4..]);
    assert Decode(ws[1..], b[4..]) == [FromLE(b[4..][..4])] + Decode(ws[1..][1..], b[4..][4..]);
    var c := file[at..at + 8];
    assert c[..4] == b[..4] && c[4..][..4] == b[4..][..4];
    assert [4, 4][1..] == [4] && [4][1..] == [];
    assert Decode([4], c[4..]) == [FromLE(c[4..][..4])] + Decode([], c[4..][4..]);
    assert Decode([4, 4], c) == [FromLE(c[..4])] + Decode([4], c[4..]);
    assert vs[0] == FromLE(b[..4]) && vs[1] == FromLE(b[4..][..4]);
    assert Decode([4, 4], c) == [vs[0], vs[1]];
  }
}
