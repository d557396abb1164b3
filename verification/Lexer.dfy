/** Reading characters, strings and comments of a configuration source.  The positions are what the
    functions do to the text; the class does the same through a buffer that is refilled whenever it
    runs out, whatever its size. */
module Lexer {
  import opened Basics

  const QUOTE: byte := 34
  const STAR: byte := 42
  const SLASH: byte := 47
  const BACKSLASH: byte := 92
  const NEWLINE: byte := 10
  const EOF: byte := 255 // the character -1

  predicate IsSpace(c: byte) {
    c == 32 || c == 9 || c == 13
  }

  predicate IsBlank(c: byte) {
    IsSpace(c) || c == NEWLINE
  }

  // ---------- positions in the text ----------

  // What is left to read, the line and the place in the line.
  datatype Position = Position(rest: seq<byte>, line: nat, loc: nat)

  function RawChar(p: Position): (byte, Position) {
    if p.rest == [] then (EOF, p) else (p.rest[0], p.(rest := p.rest[1..], loc := p.loc + 1))
  }

  function SkipSpace(p: Position): (byte, Position)
    decreases |p.rest|
  {
    var (c, q) := RawChar(p);
    if IsSpace(c) then SkipSpace(q) else (c, q)
  }

  // The character; at the end of the text, EOF.
  function Char(p: Position, skipSpace: bool): (byte, Position) {
    var (c, q) := if skipSpace then SkipSpace(p) else RawChar(p);
    if c == NEWLINE then (c, q.(line := q.line + 1, loc := 0)) else (c, q)
  }

  lemma {:induction false} SkipGoesOn(p: Position)
    ensures |SkipSpace(p).1.rest| <= |p.rest|
    ensures SkipSpace(p).0 != EOF ==> |SkipSpace(p).1.rest| < |p.rest|
    decreases |p.rest|
  {
    var (c, q) := RawChar(p);
    if IsSpace(c) { SkipGoesOn(q); }
  }

  lemma CharGoesOn(p: Position, skipSpace: bool)
    ensures |Char(p, skipSpace).1.rest| <= |p.rest|
    ensures Char(p, skipSpace).0 != EOF ==> |Char(p, skipSpace).1.rest| < |p.rest|
  {
    if skipSpace { SkipGoesOn(p); }
  }

  /** Skipping spaces: the character is the first that is not a blank, a tab or a carriage return, with those in
      front of it gone; at the end of the text it is EOF.  Without skipping it is the first of all. */
  lemma CharReads(p: Position, skipSpace: bool) returns (gap: seq<byte>)
    ensures forall b | b in gap :: skipSpace && b in [32, 9, 13]
    ensures var (c, q) := Char(p, skipSpace);
      && (if p.rest == gap then c == EOF && q.rest == [] else p.rest == gap + ([c] + q.rest))
      && (skipSpace ==> c !in [32, 9, 13])
      && q.line == p.line + (if c == NEWLINE then 1 else 0)
  {
    gap := [];
    if skipSpace { gap := GapOf(p); }
    assert [] + p.rest == p.rest;
  }

  lemma {:induction false} GapOf(p: Position) returns (gap: seq<byte>)
    ensures forall b | b in gap :: b in [32, 9, 13]
    ensures var (c, q) := SkipSpace(p);
      && (if p.rest == gap then c == EOF && q.rest == [] else p.rest == gap + ([c] + q.rest))
      && c !in [32, 9, 13] && q.line == p.line
    decreases |p.rest|
  {
    var (c, q) := RawChar(p);
    if IsSpace(c) {
      var more := GapOf(q);
      gap := [c] + more;
      assert p.rest == [c] + q.rest;
      assert gap[1..] == more;
      assert p.rest == gap <==> q.rest == more by { assert p.rest[1..] == q.rest; }
    } else {
      gap := [];
      assert p.rest != [] ==> p.rest == [] + ([c] + q.rest);
    }
  }

  // ---------- strings ----------

  // Behind the opening quote, with the value so far; None for an error.
  function StringBody(p: Position, value: seq<byte>): (Option<seq<byte>>, Position)
    decreases |p.rest|
  {
    var (c, q) := Char(p, false);
    if c == EOF then (None, q)
    else if c == QUOTE then (Some(value), q)
    else if c == BACKSLASH then
      var (d, r) := Char(q, false);
      if d != QUOTE then (None, r) else StringBody(r, value + [d])
    else StringBody(q, value + [c])
  }

  function StringToken(p: Position): (Option<seq<byte>>, Position) {
    StringBody(Char(p, false).1, [])
  }

  // A backslash in front of every quote.
  function Escaped(s: seq<byte>): seq<byte> {
    if s == [] then [] else (if s[0] == QUOTE then [BACKSLASH, QUOTE] else [s[0]]) + Escaped(s[1..])
  }

  function Quoted(s: seq<byte>): seq<byte> {
    [QUOTE] + Escaped(s) + [QUOTE]
  }

  predicate Plain(s: seq<byte>) {
    BACKSLASH !in s && EOF !in s
  }

  function Newlines(s: seq<byte>): nat {
    if s == [] then 0 else (if s[0] == NEWLINE then 1 else 0) + Newlines(s[1..])
  }

  // The place behind one more character.
  function Behind(c: byte, tail: seq<byte>, line: nat, loc: nat): Position {
    if c == NEWLINE then Position(tail, line + 1, 0) else Position(tail, line, loc + 1)
  }

  // One character off the front.
  lemma CharIs(c: byte, tail: seq<byte>, line: nat, loc: nat, skipSpace: bool)
    requires skipSpace ==> !IsSpace(c)
    ensures Char(Position([c] + tail, line, loc), skipSpace) == (c, Behind(c, tail, line, loc))
  {
    assert ([c] + tail)[1..] == tail;
  }

  lemma BodyPlain(c: byte, tail: seq<byte>, value: seq<byte>, line: nat, loc: nat)
    requires c != QUOTE && c != BACKSLASH && c != EOF
    ensures StringBody(Position([c] + tail, line, loc), value)
         == StringBody(Behind(c, tail, line, loc), value + [c])
  {
    CharIs(c, tail, line, loc, false);
  }

  lemma BodyEscape(tail: seq<byte>, value: seq<byte>, line: nat, loc: nat)
    ensures StringBody(Position([BACKSLASH] + ([QUOTE] + tail), line, loc), value)
         == StringBody(Position(tail, line, loc + 2), value + [QUOTE])
  {
    CharIs(BACKSLASH, [QUOTE] + tail, line, loc, false);
    CharIs(QUOTE, tail, line, loc + 1, false);
  }

  // One character of the value, escaped or not.
  lemma BodyStep(s: seq<byte>, rest: seq<byte>, value: seq<byte>, line: nat, loc: nat) returns (loc': nat)
    requires s != [] && Plain(s)
    ensures StringBody(Position(Escaped(s) + rest, line, loc), value)
         == StringBody(Position(Escaped(s[1..]) + rest, line + (if s[0] == NEWLINE then 1 else 0), loc'),
                       value + [s[0]])
  {
    hide StringBody, Char;
    var tail := Escaped(s[1..]) + rest;
    assert s[0] in s;
    if s[0] == QUOTE {
      assert Escaped(s) + rest == [BACKSLASH] + ([QUOTE] + tail);
      BodyEscape(tail, value, line, loc);
      loc' := loc + 2;
    } else {
      assert Escaped(s) + rest == [s[0]] + tail;
      BodyPlain(s[0], tail, value, line, loc);
      loc' := if s[0] == NEWLINE then 0 else loc + 1;
    }
  }

  lemma {:induction false} BodyReads(s: seq<byte>, rest: seq<byte>, value: seq<byte>, line: nat, loc: nat)
    requires Plain(s)
    ensures var (r, p) := StringBody(Position(Escaped(s) + ([QUOTE] + rest), line, loc), value);
      r == Some(value + s) && p.rest == rest && p.line == line + Newlines(s)
    decreases |s|
  {
    if s == [] {
      assert Escaped(s) + ([QUOTE] + rest) == [QUOTE] + rest && ([QUOTE] + rest)[1..] == rest;
      assert value + s == value;
    } else {
      var loc' := BodyStep(s, [QUOTE] + rest, value, line, loc);
      BodyReads(s[1..], rest, value + [s[0]], line + (if s[0] == NEWLINE then 1 else 0), loc');
      assert (value + [s[0]]) + s[1..] == value + s;
    }
  }

  // No value has a backslash or an EOF character in it.
  lemma {:induction false} ValuesArePlain(p: Position, value: seq<byte>)
    requires Plain(value)
    ensures var r := StringBody(p, value).0; r.Some? ==> Plain(r.value)
    decreases |p.rest|
  {
    var (c, q) := Char(p, false);
    if c != EOF && c != QUOTE {
      if c == BACKSLASH {
        var (d, r) := Char(q, false);
        if d == QUOTE { ValuesArePlain(r, value + [d]); }
      } else {
        ValuesArePlain(q, value + [c]);
      }
    }
  }

  /** A quoted string is read back, with the text behind it left and its lines counted, if and only if
      it has no backslash and no EOF character. */
  lemma StringRoundTrip(s: seq<byte>, rest: seq<byte>, line: nat, loc: nat)
    ensures StringToken(Position(Quoted(s) + rest, line, loc)).0 == Some(s) <==> Plain(s)
    ensures Plain(s) ==>
      var p := StringToken(Position(Quoted(s) + rest, line, loc)).1; p.rest == rest && p.line == line + Newlines(s)
  {
    var text := Quoted(s) + rest;
    var tail := Escaped(s) + ([QUOTE] + rest);
    assert text == [QUOTE] + tail && ([QUOTE] + tail)[1..] == tail;
    if Plain(s) {
      BodyReads(s, rest, [], line, loc + 1);
      assert [] + s == s;
    }
    ValuesArePlain(Position(tail, line, loc + 1), []);
  }

  lemma CharFront(p: Position)
    requires Char(p, false).0 != EOF
    ensures p.rest == [Char(p, false).0] + Char(p, false).1.rest
  {
  }

  // One step of a body that comes to a value: the character it adds, as it is written.
  lemma BodyFront(p: Position, value: seq<byte>) returns (d: byte, r: Position)
    requires StringBody(p, value).0.Some? && Char(p, false).0 != QUOTE
    ensures StringBody(p, value) == StringBody(r, value + [d]) && |r.rest| < |p.rest|
    ensures d != BACKSLASH && d != EOF && p.rest == (if d == QUOTE then [BACKSLASH, QUOTE] else [d]) + r.rest
  {
    d, r := Char(p, false).0, Char(p, false).1;
    CharFront(p);
    if d == BACKSLASH {
      var q := r;
      d, r := QUOTE, Char(q, false).1;
      CharFront(q);
    }
  }

  // A value comes only from its quoted form.
  lemma {:induction false} BodyIsQuoted(p: Position, value: seq<byte>) returns (v: seq<byte>)
    requires StringBody(p, value).0.Some?
    ensures var (r, q) := StringBody(p, value);
      Plain(v) && r.value == value + v && p.rest == Escaped(v) + ([QUOTE] + q.rest)
    decreases |p.rest|
  {
    if Char(p, false).0 == QUOTE {
      v := [];
      BodyEnds(p, value);
    } else {
      var d, r := BodyFront(p, value);
      hide StringBody, Escaped, Char, Plain;
      var more := BodyIsQuoted(r, value + [d]);
      v := [d] + more;
      EscapedFront(d, more);
      Regroup(value, [d], more);
      Regroup(if d == QUOTE then [BACKSLASH, QUOTE] else [d], Escaped(more), [QUOTE] + StringBody(p, value).1.rest);
    }
  }

  lemma Regroup(a: seq<byte>, b: seq<byte>, c: seq<byte>)
    ensures (a + b) + c == a + (b + c)
  {
  }

  lemma BodyEnds(p: Position, value: seq<byte>)
    requires Char(p, false).0 == QUOTE
    ensures StringBody(p, value) == (Some(value), Char(p, false).1) && value == value + []
    ensures p.rest == Escaped([]) + ([QUOTE] + Char(p, false).1.rest)
  {
    CharFront(p);
    assert Escaped([]) + p.rest == p.rest;
  }

  lemma EscapedFront(d: byte, more: seq<byte>)
    ensures Escaped([d] + more) == (if d == QUOTE then [BACKSLASH, QUOTE] else [d]) + Escaped(more)
    ensures d != BACKSLASH && d != EOF && Plain(more) ==> Plain([d] + more)
  {
    assert ([d] + more)[1..] == more;
  }

  /** A string is read, with some value and some text left, if and only if the text behind the opening quote is
      that value, escaped, a quote, and the text left, and the value has no backslash and no EOF character. */
  lemma StringIff(open: byte, text: seq<byte>, line: nat, loc: nat, v: seq<byte>, rest: seq<byte>)
    requires open != NEWLINE
    ensures (var (r, q) := StringToken(Position([open] + text, line, loc)); r == Some(v) && q.rest == rest)
       <==> Plain(v) && text == Escaped(v) + ([QUOTE] + rest)
  {
    hide StringBody, Escaped;
    assert ([open] + text)[1..] == text;
    var p := Position(text, line, loc + 1);
    assert [] + v == v;
    if StringBody(p, []).0 == Some(v) {
      var w := BodyIsQuoted(p, []);
      assert [] + w == w;
    }
    if Plain(v) && text == Escaped(v) + ([QUOTE] + rest) { BodyReads(v, rest, [], line, loc + 1); }
  }

  // ---------- comments ----------

  // Behind the opening of a comment of several lines: is it closed?
  function CommentBody(p: Position, skipSpace: bool): (bool, Position)
    decreases |p.rest|
  {
    CharGoesOn(p, skipSpace);
    var (c, q) := Char(p, skipSpace);
    if c == EOF then (false, q)
    else if c == STAR then
      CharGoesOn(q, skipSpace);
      var (d, r) := Char(q, skipSpace);
      if d == SLASH then (true, r) else CommentBody(r, skipSpace)
    else CommentBody(q, skipSpace)
  }

  function LineComment(p: Position, skipSpace: bool): Position
    decreases |p.rest|
  {
    CharGoesOn(p, skipSpace);
    var (c, q) := Char(p, skipSpace);
    if c == NEWLINE || c == EOF then q else LineComment(q, skipSpace)
  }

  // From the first slash on; false for an error.
  function Comment(p: Position, skipSpace: bool): (bool, Position) {
    var (c, q) := Char(Char(p, false).1, skipSpace);
    if c == SLASH then (true, LineComment(q, skipSpace))
    else if c == STAR then CommentBody(q, skipSpace)
    else (false, q)
  }

  // The characters that are looked at.
  function Seen(s: seq<byte>, skipSpace: bool): seq<byte> {
    if s == [] then [] else (if skipSpace && IsSpace(s[0]) then [] else [s[0]]) + Seen(s[1..], skipSpace)
  }

  function Stars(n: nat): (r: seq<byte>)
    ensures |r| == n
  {
    if n == 0 then [] else [STAR] + Stars(n - 1)
  }

  // The length of the run of stars at the end.
  function StarsAtEnd(s: seq<byte>): nat {
    if s == [] || s[|s| - 1] != STAR then 0 else 1 + StarsAtEnd(s[..|s| - 1])
  }

  // Place i has a slash behind a run of stars of odd length.
  predicate ClosesAt(s: seq<byte>, i: nat) {
    i < |s| && s[i] == SLASH && StarsAtEnd(s[..i]) % 2 == 1
  }

  // Inside a comment; open says that a star has just been taken and a slash would close.
  function CommentFrom(p: Position, skipSpace: bool, open: bool): (bool, Position) {
    if open then
      var (d, r) := Char(p, skipSpace);
      if d == SLASH then (true, r) else CommentBody(r, skipSpace)
    else CommentBody(p, skipSpace)
  }

  // One character of the comment, a space that is skipped included.
  lemma CommentTake(c: byte, tail: seq<byte>, line: nat, loc: nat, skipSpace: bool, open: bool)
    requires c != EOF
    ensures CommentFrom(Position([c] + tail, line, loc), skipSpace, open) ==
              var q := Behind(c, tail, line, loc);
              if skipSpace && IsSpace(c) then CommentFrom(q, skipSpace, open)
              else if open && c == SLASH then (true, q)
              else CommentFrom(q, skipSpace, !open && c == STAR)
  {
    if skipSpace && IsSpace(c) {
      assert ([c] + tail)[1..] == tail;
      assert Char(Position([c] + tail, line, loc), true) == Char(Behind(c, tail, line, loc), true);
    } else {
      CharIs(c, tail, line, loc, skipSpace);
    }
  }

  lemma SeenFront(c: byte, s: seq<byte>, skipSpace: bool)
    ensures Seen([c] + s, skipSpace) == (if skipSpace && IsSpace(c) then [] else [c]) + Seen(s, skipSpace)
  {
    assert ([c] + s)[1..] == s;
  }

  lemma SeenNext(seen: seq<byte>, c: byte, s: seq<byte>, skipSpace: bool)
    ensures seen + Seen([c] + s, skipSpace)
         == (if skipSpace && IsSpace(c) then seen else seen + [c]) + Seen(s, skipSpace)
  {
    hide Seen;
    SeenFront(c, s, skipSpace);
    assert seen + ([c] + Seen(s, skipSpace)) == (seen + [c]) + Seen(s, skipSpace);
    assert [] + Seen(s, skipSpace) == Seen(s, skipSpace);
  }

  lemma StarsMore(seen: seq<byte>, c: byte)
    ensures StarsAtEnd(seen + [c]) == if c == STAR then StarsAtEnd(seen) + 1 else 0
  {
    assert (seen + [c])[..|seen + [c]| - 1] == seen;
  }

  // After what has been seen so far, the rest s of a text that closes nowhere is stepped over.
  lemma {:induction false} CommentSteps(seen: seq<byte>, s: seq<byte>, rest: seq<byte>, line: nat, loc: nat,
                                        skipSpace: bool) returns (p: Position)
    requires EOF !in s && forall i: nat | |seen| <= i :: !ClosesAt(seen + Seen(s, skipSpace), i)
    ensures p.rest == rest
    ensures CommentFrom(Position(s + rest, line, loc), skipSpace, StarsAtEnd(seen) % 2 == 1)
         == CommentFrom(p, skipSpace, StarsAtEnd(seen + Seen(s, skipSpace)) % 2 == 1)
    decreases |s|
  {
    hide CommentFrom, CommentBody, Char, StarsAtEnd;
    var all := seen + Seen(s, skipSpace);
    if s == [] {
      assert s + rest == rest && all == seen;
      p := Position(rest, line, loc);
    } else {
      var c, tail := s[0], s[1..] + rest;
      assert c in s && s + rest == [c] + tail && s == [c] + s[1..];
      SeenFront(c, s[1..], skipSpace);
      CommentTake(c, tail, line, loc, skipSpace, StarsAtEnd(seen) % 2 == 1);
      var q := Behind(c, tail, line, loc);
      if skipSpace && IsSpace(c) {
        assert all == seen + Seen(s[1..], skipSpace);
        p := CommentSteps(seen, s[1..], rest, q.line, q.loc, skipSpace);
      } else {
        assert all == (seen + [c]) + Seen(s[1..], skipSpace);
        assert all[..|seen|] == seen && all[|seen|] == c;
        assert !ClosesAt(all, |seen|);
        StarsMore(seen, c);
        p := CommentSteps(seen + [c], s[1..], rest, q.line, q.loc, skipSpace);
      }
    }
  }

  // The text behind the opening that closes nowhere, with what follows it.
  ghost predicate StaysOpen(s: seq<byte>, skipSpace: bool) {
    forall i: nat :: !ClosesAt(Seen(s, skipSpace), i)
  }

  lemma CommentOpens(body: seq<byte>, line: nat, loc: nat, skipSpace: bool)
    ensures Comment(Position([SLASH, STAR] + body, line, loc), skipSpace)
         == CommentBody(Position(body, line, loc + 2), skipSpace)
  {
    hide CommentBody;
    assert [SLASH, STAR] + body == [SLASH] + ([STAR] + body);
    CharIs(SLASH, [STAR] + body, line, loc, false);
    CharIs(STAR, body, line, loc + 1, skipSpace);
  }

  /** Whether spaces are skipped or not: a text in which no slash stands behind a run of stars of odd
      length, and a slash behind it, close a comment if and only if the text ends in such a run; if
      not, the search goes on behind the slash. */
  lemma CommentSlash(s: seq<byte>, rest: seq<byte>, line: nat, loc: nat, skipSpace: bool) returns (p: Position)
    requires EOF !in s && StaysOpen(s, skipSpace)
    ensures p.rest == rest
    ensures Comment(Position([SLASH, STAR] + s + [SLASH] + rest, line, loc), skipSpace)
         == if StarsAtEnd(Seen(s, skipSpace)) % 2 == 1 then (true, p) else CommentBody(p, skipSpace)
  {
    var body := s + ([SLASH] + rest);
    hide Comment, CommentBody, CommentFrom, Char, Seen, StarsAtEnd;
    assert [SLASH, STAR] + s + [SLASH] + rest == [SLASH, STAR] + body;
    CommentOpens(body, line, loc, skipSpace);
    assert [] + Seen(s, skipSpace) == Seen(s, skipSpace);
    FromTheStart(Position(body, line, loc + 2), skipSpace);
    var q := CommentSteps([], s, [SLASH] + rest, line, loc + 2, skipSpace);
    CommentTake(SLASH, rest, q.line, q.loc, skipSpace, StarsAtEnd(Seen(s, skipSpace)) % 2 == 1);
    p := Behind(SLASH, rest, q.line, q.loc);
    FromTheStart(p, skipSpace);
  }

  // A text to the end of the source that closes nowhere is an error.
  lemma CommentNeverEnds(s: seq<byte>, line: nat, loc: nat, skipSpace: bool)
    requires EOF !in s && StaysOpen(s, skipSpace)
    ensures !Comment(Position([SLASH, STAR] + s, line, loc), skipSpace).0
  {
    hide Comment, Seen, Char, CommentBody, CommentFrom, StarsAtEnd;
    CommentOpens(s, line, loc, skipSpace);
    assert [] + Seen(s, skipSpace) == Seen(s, skipSpace) && s + [] == s;
    var q := CommentSteps([], s, [], line, loc + 2, skipSpace);
    NothingLeft(q, skipSpace, StarsAtEnd(Seen(s, skipSpace)) % 2 == 1);
    FromTheStart(Position(s, line, loc + 2), skipSpace);
  }

  lemma NothingLeft(p: Position, skipSpace: bool, open: bool)
    requires p.rest == []
    ensures !CommentFrom(p, skipSpace, open).0
  {
    assert Char(p, skipSpace) == (EOF, p);
  }

  lemma FromTheStart(p: Position, skipSpace: bool)
    ensures StarsAtEnd([]) == 0 && CommentFrom(p, skipSpace, false) == CommentBody(p, skipSpace)
  {
  }

  lemma {:induction false} SeenOfTwo(a: seq<byte>, b: seq<byte>, skipSpace: bool)
    ensures Seen(a + b, skipSpace) == Seen(a, skipSpace) + Seen(b, skipSpace)
  {
    if a == [] {
      assert a + b == b;
    } else {
      assert (a + b)[0] == a[0] && (a + b)[1..] == a[1..] + b;
      SeenOfTwo(a[1..], b, skipSpace);
    }
  }

  // Where the seen text first closes, and the text up to there.
  lemma {:induction false} FirstClose(seen: seq<byte>, s: seq<byte>, skipSpace: bool, i: nat) returns (n: nat)
    requires ClosesAt(seen + Seen(s, skipSpace), i) && |seen| <= i
    requires forall j: nat | |seen| <= j < i :: !ClosesAt(seen + Seen(s, skipSpace), j)
    ensures n < |s| && s[n] == SLASH && seen + Seen(s[..n], skipSpace) == (seen + Seen(s, skipSpace))[..i]
    decreases |s|
  {
    assert Seen([], skipSpace) == [];
    hide ClosesAt, StarsAtEnd, Seen;
    ClosesIs(seen + Seen(s, skipSpace), i);
    assert s != [];
    var c, tail := s[0], s[1..];
    assert s == [c] + tail;
    SeenNext(seen, c, tail, skipSpace);
    if skipSpace && IsSpace(c) {
      n := FirstClose(seen, tail, skipSpace, i);
    } else if i == |seen| {
      n := 0;
      return;
    } else {
      n := FirstClose(seen + [c], tail, skipSpace, i);
    }
    assert s[..n + 1] == [c] + tail[..n];
    SeenNext(seen, c, tail[..n], skipSpace);
    n := n + 1;
  }

  lemma ClosesIs(s: seq<byte>, i: nat)
    requires ClosesAt(s, i)
    ensures i < |s| && s[i] == SLASH && StarsAtEnd(s[..i]) % 2 == 1
  {
  }

  // A prefix of what closes nowhere before i closes nowhere.
  lemma FrontStaysOpen(all: seq<byte>, i: nat)
    requires i <= |all| && forall j: nat | j < i :: !ClosesAt(all, j)
    ensures forall j: nat :: !ClosesAt(all[..i], j)
  {
    forall j: nat ensures !ClosesAt(all[..i], j) {
      if j < i {
        assert all[..i][..j] == all[..j];
        assert !ClosesAt(all, j);
      }
    }
  }

  lemma {:induction false} Least(s: seq<byte>, i: nat) returns (k: nat)
    requires ClosesAt(s, i)
    ensures ClosesAt(s, k) && forall j: nat | j < k :: !ClosesAt(s, j)
    decreases i
  {
    if j: nat :| j < i && ClosesAt(s, j) {
      k := Least(s, j);
    } else {
      k := i;
    }
  }

  /** Whether spaces are skipped or not: the text behind the opening of a comment closes it if and only if,
      among the characters that are looked at, some slash stands behind a run of stars of odd length. */
  lemma CommentIsClosedIff(s: seq<byte>, line: nat, loc: nat, skipSpace: bool)
    requires EOF !in s
    ensures Comment(Position([SLASH, STAR] + s, line, loc), skipSpace).0
       <==> exists i :: ClosesAt(Seen(s, skipSpace), i)
  {
    hide Comment, CommentBody, Seen, ClosesAt, StarsAtEnd;
    var all := Seen(s, skipSpace);
    if i :| ClosesAt(all, i) {
      var k := Least(all, i);
      assert [] + all == all;
      var n := FirstClose([], s, skipSpace, k);
      var front, rest := s[..n], s[n + 1..];
      assert [] + Seen(front, skipSpace) == Seen(front, skipSpace) == all[..k];
      ClosesIs(all, k);
      FrontStaysOpen(all, k);
      assert StaysOpen(front, skipSpace);
      var p := CommentSlash(front, rest, line, loc, skipSpace);
      assert [SLASH, STAR] + front + [SLASH] + rest == [SLASH, STAR] + s by { assert s == front + [SLASH] + rest; }
    } else {
      CommentNeverEnds(s, line, loc, skipSpace);
    }
  }

  // One star more closes nothing.
  lemma StarOnTop(seen: seq<byte>, i: nat)
    requires ClosesAt(seen + [STAR], i)
    ensures ClosesAt(seen, i)
  {
    assert i < |seen|;
    assert (seen + [STAR])[..i] == seen[..i];
  }

  lemma {:induction false} StarsOnTop(seen: seq<byte>, n: nat)
    requires StarsAtEnd(seen) == 0
    ensures StarsAtEnd(seen + Stars(n)) == n
    ensures forall i: nat | ClosesAt(seen + Stars(n), i) :: ClosesAt(seen, i)
  {
    if n == 0 {
      assert seen + Stars(0) == seen;
    } else {
      StarsOnTop(seen, n - 1);
      StarsBack(n - 1);
      OneStarMore(seen, Stars(n - 1), n - 1);
    }
  }

  lemma OneStarMore(seen: seq<byte>, stars: seq<byte>, n: nat)
    requires StarsAtEnd(seen + stars) == n
    requires forall i: nat | ClosesAt(seen + stars, i) :: ClosesAt(seen, i)
    ensures StarsAtEnd(seen + (stars + [STAR])) == n + 1
    ensures forall i: nat | ClosesAt(seen + (stars + [STAR]), i) :: ClosesAt(seen, i)
  {
    hide StarsAtEnd, ClosesAt;
    var front := seen + stars;
    assert seen + (stars + [STAR]) == front + [STAR];
    StarsMore(front, STAR);
    forall i: nat | ClosesAt(front + [STAR], i) ensures ClosesAt(seen, i) {
      StarOnTop(front, i);
    }
  }

  lemma {:induction false} StarsBack(n: nat)
    ensures Stars(n + 1) == Stars(n) + [STAR]
  {
    if n > 0 { StarsBack(n - 1); }
  }

  lemma {:induction false} StarsAreSeen(n: nat, skipSpace: bool)
    ensures Seen(Stars(n), skipSpace) == Stars(n) && EOF !in Stars(n)
  {
    if n > 0 { StarsAreSeen(n - 1, skipSpace); }
  }

  /** In particular, a comment that closes nowhere before and ends in n stars and a slash is closed there
      if and only if n is odd; with an even run the search goes on behind the slash. */
  lemma CommentCloses(s: seq<byte>, n: nat, rest: seq<byte>, line: nat, loc: nat, skipSpace: bool)
    returns (p: Position)
    requires EOF !in s && StaysOpen(s, skipSpace) && StarsAtEnd(Seen(s, skipSpace)) == 0
    ensures p.rest == rest
    ensures Comment(Position([SLASH, STAR] + s + Stars(n) + [SLASH] + rest, line, loc), skipSpace)
         == if n % 2 == 1 then (true, p) else CommentBody(p, skipSpace)
  {
    hide Comment, CommentBody, Seen, ClosesAt, Stars;
    SeenOfTwo(s, Stars(n), skipSpace);
    StarsAreSeen(n, skipSpace);
    StarsOnTop(Seen(s, skipSpace), n);
    p := CommentSlash(s + Stars(n), rest, line, loc, skipSpace);
    assert [SLASH, STAR] + (s + Stars(n)) + [SLASH] + rest == [SLASH, STAR] + s + Stars(n) + [SLASH] + rest;
  }

  // ---------- comments to the end of the line ----------

  lemma {:induction false} LineCommentRuns(s: seq<byte>, rest: seq<byte>, line: nat, loc: nat, skipSpace: bool)
    returns (at: nat)
    requires NEWLINE !in s && EOF !in s
    ensures LineComment(Position(s + rest, line, loc), skipSpace) == LineComment(Position(rest, line, at), skipSpace)
    decreases |s|
  {
    if s == [] {
      assert s + rest == rest;
      at := loc;
    } else {
      var c, tail := s[0], s[1..] + rest;
      assert c in s && s + rest == [c] + tail && ([c] + tail)[1..] == tail;
      at := LineCommentRuns(s[1..], rest, line, loc + 1, skipSpace);
      if !(skipSpace && IsSpace(c)) { CharIs(c, tail, line, loc, skipSpace); }
    }
  }

  lemma LineCommentOpens(body: seq<byte>, line: nat, loc: nat, skipSpace: bool)
    ensures Comment(Position([SLASH, SLASH] + body, line, loc), skipSpace)
         == (true, LineComment(Position(body, line, loc + 2), skipSpace))
  {
    hide LineComment;
    assert [SLASH, SLASH] + body == [SLASH] + ([SLASH] + body);
    CharIs(SLASH, [SLASH] + body, line, loc, false);
    CharIs(SLASH, body, line, loc + 1, skipSpace);
  }

  lemma LineCommentStops(c: byte, rest: seq<byte>, line: nat, loc: nat, skipSpace: bool)
    requires c == NEWLINE || c == EOF
    ensures LineComment(Position([c] + rest, line, loc), skipSpace) == Behind(c, rest, line, loc)
  {
    CharIs(c, rest, line, loc, skipSpace);
  }

  /** A comment to the end of the line reaches up to and over the first newline or EOF character, or to the end of
      the text, and is never an error; the newline it takes is counted. */
  lemma LineCommentEnds(s: seq<byte>, end: seq<byte>, rest: seq<byte>, line: nat, loc: nat, skipSpace: bool)
    requires NEWLINE !in s && EOF !in s
    requires end == [NEWLINE] || end == [EOF] || (end == [] && rest == [])
    ensures var (ok, p) := Comment(Position([SLASH, SLASH] + s + end + rest, line, loc), skipSpace);
      ok && p.rest == rest && p.line == line + (if end == [NEWLINE] then 1 else 0)
  {
    hide Comment, LineComment, Char;
    assert [SLASH, SLASH] + s + end + rest == [SLASH, SLASH] + (s + (end + rest));
    LineCommentOpens(s + (end + rest), line, loc, skipSpace);
    var at := LineCommentRuns(s, end + rest, line, loc + 2, skipSpace);
    if end == [] {
      assert end + rest == [];
      LineCommentAtEnd(line, at, skipSpace);
    } else {
      LineCommentStops(end[0], rest, line, at, skipSpace);
    }
  }

  lemma LineCommentAtEnd(line: nat, loc: nat, skipSpace: bool)
    ensures LineComment(Position([], line, loc), skipSpace) == Position([], line, loc)
  {
    assert Char(Position([], line, loc), skipSpace) == (EOF, Position([], line, loc));
  }

  // A slash with anything else behind it opens no comment.
  lemma NoComment(c: byte, rest: seq<byte>, line: nat, loc: nat, skipSpace: bool)
    requires c != SLASH && c != STAR && !(skipSpace && IsSpace(c))
    ensures !Comment(Position([SLASH, c] + rest, line, loc), skipSpace).0
  {
    assert [SLASH, c] + rest == [SLASH] + ([c] + rest);
    CharIs(SLASH, [c] + rest, line, loc, false);
    CharIs(c, rest, line, loc + 1, skipSpace);
  }
}
