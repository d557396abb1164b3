/** The lexer's character functions over a buffer of any size, each against what it does to the text. */
module LexerBuffer {
  import opened Basics
  import opened Lexer

  lemma {:induction false} NewlinesOfTwo(a: seq<byte>, b: seq<byte>)
    ensures Newlines(a + b) == Newlines(a) + Newlines(b)
  {
    if a == [] {
      assert a + b == b;
    } else {
      assert (a + b)[0] == a[0] && (a + b)[1..] == a[1..] + b;
      NewlinesOfTwo(a[1..], b);
    }
  }

  lemma NewlinesMore(a: seq<byte>, c: byte)
    ensures Newlines(a + [c]) == Newlines(a) + (if c == NEWLINE then 1 else 0)
  {
    NewlinesOfTwo(a, [c]);
    assert [c][1..] == [];
  }

  predicate AllBlank(s: seq<byte>) {
    forall c | c in s :: IsBlank(c)
  }

  lemma BlankMore(s: seq<byte>, c: byte)
    requires IsBlank(c)
    ensures AllBlank(s) ==> AllBlank(s + [c])
  {
  }

  lemma NoBlanks()
    ensures AllBlank([])
  {
  }

  lemma BlankFront(s: seq<byte>, t: seq<byte>)
    requires AllBlank(s) && (t != [] ==> !IsBlank(t[0]))
    ensures AllBlank(s + t) <==> t == []
  {
    if t == [] {
      assert s + t == s;
    } else {
      assert (s + t)[|s|] == t[0] && t[0] in s + t;
    }
  }

  lemma OneOver(a: seq<byte>, b: seq<byte>)
    requires b != []
    ensures a + b == (a + [b[0]]) + b[1..]
  {
  }

  class Reader {
    ghost const text: seq<byte> // all of the source
    const buffer: array<byte>
    var unread: seq<byte> // what the stream still holds
    var filled: bool      // the buffer pointers are set
    var start: nat
    var end: int
    var lineno: nat
    var lineLoc: nat
    ghost var consumed: seq<byte>

    constructor (text: seq<byte>, size: nat)
      requires size >= 1
      ensures Valid() && Lines() && fresh(buffer) && buffer.Length == size
      ensures this.text == text && Here() == Position(text, 1, 1) && consumed == []
      ensures Window() == [] && unread == text
    {
      this.text := text;
      buffer := new byte[size](_ => 0);
      unread, filled, start, end, lineno, lineLoc, consumed := text, false, 0, -1, 1, 1, [];
    }

    ghost predicate Valid()
      reads this`filled, this`start, this`end
    {
      buffer.Length >= 1 && (filled ==> 0 <= end < buffer.Length && start <= end + 1)
    }

    // The part of the text that is in the buffer.
    ghost function Window(): seq<byte>
      requires Valid()
      reads this`filled, this`start, this`end, buffer
    {
      if filled then buffer[start..end + 1] else []
    }

    ghost function Here(): Position
      requires Valid()
      reads this, buffer
    {
      Position(Window() + unread, lineno, lineLoc)
    }

    // The text is what has been consumed and what is left of it.
    ghost predicate Whole()
      requires Valid()
      reads this`filled, this`start, this`end, this`unread, this`consumed, buffer
    {
      consumed + (Window() + unread) == text
    }

    // The line number counts the newlines of the text that have been consumed.
    ghost predicate Lines()
      requires Valid()
      reads this`filled, this`start, this`end, this`unread, this`consumed, this`lineno, buffer
    {
      Whole() && lineno == 1 + Newlines(consumed)
    }

    // What can be seen without a refill, or with the one that an empty buffer calls for.
    ghost function Visible(): seq<byte>
      requires Valid()
      reads this`filled, this`start, this`end, this`unread, buffer
    {
      if Window() != [] then Window()
      else if |unread| < buffer.Length then unread
      else unread[..buffer.Length]
    }

    method FillBuffer() returns (ok: bool)
      requires Valid()
      modifies this`unread, this`filled, this`start, this`end, buffer
      ensures Valid() && Here() == old(Here())
      ensures ok <==> Here().rest != []
      ensures ok ==> Window() != []
      ensures Window() == old(Visible()) && (!ok ==> Window() == [])
    {
      if filled && start <= end { return true; }
      assert Window() == [];
      ghost var was := unread;
      var size := if |unread| < buffer.Length then |unread| else buffer.Length;
      forall i | 0 <= i < size { buffer[i] := unread[i]; }
      if size <= 0 {
        assert Window() == [];
        return false;
      }
      unread := unread[size..];
      filled, start := true, 0;
      end := start + size - 1;
      assert Window() == was[..size] == old(Visible());
      assert was == was[..size] + was[size..];
      assert old(Window()) == [];
      assert [] + was == was;
      return true;
    }

    lemma VisibleIsFront()
      requires Valid()
      ensures Visible() <= Here().rest
      ensures AllBlank(Here().rest) ==> AllBlank(Visible())
    {
      hide Window;
      assert Window() == [] ==> Here().rest == unread;
      assert forall c | c in Visible() :: c in Here().rest;
    }

    lemma WindowFront()
      requires Valid()
      ensures Window() != [] <==> filled && start <= end
      ensures Window() != [] ==> buffer[start] == Window()[0]
    {
    }

    // One character out of the buffer; the caller sees to the line number.
    method Take() returns (c: byte)
      requires Valid() && Window() != [] && Whole()
      modifies this`start, this`lineLoc, this`consumed
      ensures Valid() && Window() == old(Window())[1..] && c == old(Window())[0] && Whole()
      ensures lineLoc == old(lineLoc) + 1 && consumed == old(consumed) + [c]
    {
      ghost var window, before := Window(), consumed;
      lineLoc := lineLoc + 1;
      c := buffer[start];
      start := start + 1;
      consumed := consumed + [c];
      assert window == [c] + Window();
      assert before + (([c] + Window()) + unread) == (before + [c]) + (Window() + unread);
    }

    method GetRawChar() returns (c: byte)
      requires Valid() && Whole()
      modifies this, buffer
      ensures Valid() && Whole() && (c, Here()) == RawChar(old(Here()))
      ensures lineno == old(lineno)
      ensures old(Here()).rest != [] ==> consumed == old(consumed) + [c]
      ensures old(Here()).rest == [] ==> consumed == old(consumed)
    {
      hide Window;
      var ok := FillBuffer();
      if !ok { return EOF; }
      ghost var window := Window();
      c := Take();
      assert (window + unread)[0] == window[0] && (window + unread)[1..] == window[1..] + unread;
    }

    method GetChar(skipSpace: bool) returns (ok: bool, c: byte)
      requires Valid() && Lines()
      modifies this, buffer
      ensures Valid() && Lines() && old(consumed) <= consumed
      ensures (c, Here()) == Char(old(Here()), skipSpace)
      ensures ok <==> c != EOF
    {
      hide Newlines, Window;
      var chr := GetRawChar();
      NewlinesMore(old(consumed), chr);
      if skipSpace {
        while IsSpace(chr)
          invariant Valid() && Whole() && old(consumed) <= consumed
          invariant SkipSpace(old(Here())) == if IsSpace(chr) then SkipSpace(Here()) else (chr, Here())
          invariant lineno + (if chr == NEWLINE then 1 else 0) == 1 + Newlines(consumed)
          decreases |Here().rest|, IsSpace(chr)
        {
          ghost var before := consumed;
          chr := GetRawChar();
          NewlinesMore(before, chr);
        }
      }
      if chr == NEWLINE {
        lineno := lineno + 1;
        lineLoc := 0;
      }
      c := chr;
      ok := chr != EOF;
    }

    method ConsumeChar()
      requires Valid() && Lines()
      modifies this, buffer
      ensures Valid() && Lines() && old(consumed) <= consumed
      ensures Here() == Char(old(Here()), false).1
    {
      var ok, c := GetChar(false);
    }

    // The blanks at the front of the buffer.
    method SkipBlanks() returns (ghost skipped: seq<byte>)
      requires Valid() && Lines() && filled
      modifies this`start, this`lineno, this`lineLoc, this`consumed
      ensures Valid() && Lines()
      ensures AllBlank(skipped) && consumed == old(consumed) + skipped && skipped + Window() == old(Window())
      ensures Window() != [] ==> !IsBlank(Window()[0])
    {
      hide Window, AllBlank, Newlines;
      skipped := [];
      NoBlanks();
      WindowFront();
      while start <= end && IsBlank(buffer[start])
        invariant Valid() && Lines()
        invariant Window() != [] <==> filled && start <= end
        invariant Window() != [] ==> buffer[start] == Window()[0]
        invariant AllBlank(skipped) && consumed == old(consumed) + skipped && skipped + Window() == old(Window())
        decreases |Window()|
      {
        ghost var window := Window();
        NewlinesMore(consumed, buffer[start]);
        BlankMore(skipped, buffer[start]);
        var c := Take();
        if c == NEWLINE {
          lineLoc := 0;
          lineno := lineno + 1;
        }
        OneOver(skipped, window);
        assert Window() == window[1..];
        assert (skipped + [c]) + Window() == old(Window());
        assert (old(consumed) + skipped) + [c] == old(consumed) + (skipped + [c]);
        skipped := skipped + [c];
        WindowFront();
      }
    }

    /** Looks at the next character, with skipSpace past blanks; what is seen is only the part of the text
        that is in the buffer or comes with one refill: when that is all blank, the end of the text is
        reported.  The report is right if and only if in that case all the rest is blank. */
    method PeekChar(skipSpace: bool) returns (ok: bool, c: byte, ghost skipped: seq<byte>)
      requires Valid() && Lines()
      modifies this, buffer
      ensures Valid() && Lines()
      ensures AllBlank(skipped) && consumed == old(consumed) + skipped && (!skipSpace ==> skipped == [])
      ensures old(Here()).rest == skipped + Here().rest
      ensures ok ==> Here().rest != [] && c == Here().rest[0] && (skipSpace ==> !IsBlank(c))
      ensures !skipSpace ==> (ok <==> Here().rest != [])
      ensures skipSpace ==> (ok <==> !AllBlank(old(Visible())))
      ensures skipSpace && !ok ==> skipped == old(Visible())
      ensures skipSpace ==> ((ok <==> !AllBlank(old(Here()).rest))
                             <==> (AllBlank(old(Visible())) ==> AllBlank(old(Here()).rest)))
    {
      hide Window, AllBlank, IsBlank, Newlines;
      c, skipped := 0, [];
      NoBlanks();
      VisibleIsFront();
      ok := FillBuffer();
      assert [] + Here().rest == Here().rest && consumed + [] == consumed;
      WindowFront();
      if !ok { return; }
      if skipSpace {
        skipped := SkipBlanks();
        assert (skipped + Window()) + unread == skipped + (Window() + unread);
        BlankFront(skipped, Window());
        WindowFront();
      }
      if start > end {
        ok := false;
      } else {
        c := buffer[start];
      }
    }

    method LexFromString() returns (value: Option<seq<byte>>)
      requires Valid() && Lines()
      modifies this, buffer
      ensures Valid() && Lines()
      ensures (value, Here()) == StringToken(old(Here()))
    {
      var ok, c := GetChar(false);
      var text: seq<byte> := [];
      ghost var body := Here();
      ok, c := GetChar(false);
      while ok && c != QUOTE
        invariant Valid() && Lines() && (ok <==> c != EOF)
        invariant StringBody(body, []) ==
                    if c == EOF then (None, Here())
                    else if c == QUOTE then (Some(text), Here())
                    else if c == BACKSLASH then
                      var (d, r) := Char(Here(), false);
                      if d != QUOTE then (None, r) else StringBody(r, text + [d])
                    else StringBody(Here(), text + [c])
        decreases |Here().rest|, ok
      {
        CharGoesOn(Here(), false);
        if c == BACKSLASH {
          ok, c := GetChar(false);
          if c != QUOTE { return None; }
        }
        text := text + [c];
        CharGoesOn(Here(), false);
        ok, c := GetChar(false);
      }
      if c != QUOTE { return None; }
      return Some(text);
    }

    // skipSpace is what GetChar takes when the caller does not say.
    method ProcessComment(skipSpace: bool) returns (ok: bool)
      requires Valid() && Lines()
      modifies this, buffer
      ensures Valid() && Lines()
      ensures (ok, Here()) == Comment(old(Here()), skipSpace)
    {
      ConsumeChar();
      var more, c := GetChar(skipSpace);
      if !more { return false; }
      ghost var text := Here();
      if c == SLASH {
        while more && c != NEWLINE
          invariant Valid() && Lines() && (more <==> c != EOF)
          invariant LineComment(text, skipSpace) ==
                      if c == NEWLINE || c == EOF then Here() else LineComment(Here(), skipSpace)
          decreases |Here().rest|, more
        {
          CharGoesOn(Here(), skipSpace);
          more, c := GetChar(skipSpace);
        }
        return true;
      } else if c == STAR {
        more, c := GetChar(skipSpace);
        CharGoesOn(text, skipSpace);
        while more
          invariant Valid() && Lines() && (more <==> c != EOF)
          invariant CommentBody(text, skipSpace) ==
                      if c == EOF then (false, Here())
                      else if c == STAR then
                        var (d, r) := Char(Here(), skipSpace);
                        if d == SLASH then (true, r) else CommentBody(r, skipSpace)
                      else CommentBody(Here(), skipSpace)
          decreases |Here().rest|, more
        {
          CharGoesOn(Here(), skipSpace);
          if c == STAR {
            more, c := GetChar(skipSpace);
            if c == SLASH { return true; }
          }
          CharGoesOn(Here(), skipSpace);
          more, c := GetChar(skipSpace);
        }
        return false;
      }
      return false;
    }
  }

  function Blanks(n: nat): (r: seq<byte>)
    ensures |r| == n && AllBlank(r)
  {
    seq(n, i => 32)
  }

  /** For a buffer of any size: a text of as many blanks and one character more is reported to have
      ended when that character is still to come. */
  method EndTooEarly(size: nat, c: byte) returns (ok: bool, ghost rest: seq<byte>)
    requires size >= 1 && !IsBlank(c)
    ensures !ok && rest == [c]
  {
    hide AllBlank, IsBlank;
    var text := Blanks(size) + [c];
    var reader := new Reader(text, size);
    assert text[..size] == Blanks(size);
    var seen;
    ghost var skipped;
    ok, seen, skipped := reader.PeekChar(true);
    rest := reader.Here().rest;
    assert (skipped + rest)[size..] == rest;
  }

  /** For a buffer of any size: a quoted string is read back wherever the refills fall, with the text
      behind it left, if and only if it has no backslash and no EOF character. */
  method ReadQuoted(size: nat, s: seq<byte>, rest: seq<byte>) returns (value: Option<seq<byte>>, ghost left: seq<byte>)
    requires size >= 1
    ensures value == Some(s) <==> Plain(s)
    ensures Plain(s) ==> left == rest
  {
    var reader := new Reader(Quoted(s) + rest, size);
    StringRoundTrip(s, rest, 1, 1);
    value := reader.LexFromString();
    left := reader.Here().rest;
  }
}
