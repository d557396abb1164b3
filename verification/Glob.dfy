/** The part of the shell pattern notation (section 2.13 of the POSIX.1 Shell Command Language)
    that the alias printers use: ordinary characters, `?`, `*` and bracket expressions holding
    single characters and ranges.  Negated brackets and backslash quoting are not part of it.
    A pattern text is first cut into tokens; a token sequence then matches a text. */
module Glob {

  datatype Token =
    | Literal(c: char)
    | AnyChar
    | AnyText
    | OneOf(members: string)

  // The position of the first ']' at or after `from`, or |p| when there is none.
  function CloseAt(p: string, from: nat): (j: nat)
    requires from <= |p|
    ensures from <= j <= |p|
    ensures forall i :: from <= i < j ==> p[i] != ']'
    ensures j < |p| ==> p[j] == ']'
    decreases |p| - from
  {
    if from == |p| || p[from] == ']' then from else CloseAt(p, from + 1)
  }

  // A ']' right after '[' is an ordinary member; a '[' that is never closed is an ordinary character.
  function Parse(p: string): seq<Token> {
    if p == "" then []
    else if p[0] == '*' then [AnyText] + Parse(p[1..])
    else if p[0] == '?' then [AnyChar] + Parse(p[1..])
    else if p[0] == '[' && |p| >= 2 && CloseAt(p, 2) < |p| then
      var j := CloseAt(p, 2);
      [OneOf(p[1..j])] + Parse(p[j + 1..])
    else [Literal(p[0])] + Parse(p[1..])
  }

  predicate InBracket(members: string, c: char) {
    if members == "" then false
    else if |members| >= 3 && members[1] == '-' then
      members[0] <= c <= members[2] || InBracket(members[3..], c)
    else members[0] == c || InBracket(members[1..], c)
  }

  predicate Accepts(t: Token, c: char)
    requires !t.AnyText?
  {
    match t
    case Literal(l) => l == c
    case AnyChar => true
    case OneOf(members) => InBracket(members, c)
  }

  predicate MatchTokens(ts: seq<Token>, s: string)
    decreases |ts| + |s|
  {
    if ts == [] then s == ""
    else if ts[0].AnyText? then MatchTokens(ts[1..], s) || (s != "" && MatchTokens(ts, s[1..]))
    else s != "" && Accepts(ts[0], s[0]) && MatchTokens(ts[1..], s[1..])
  }

  predicate Matches(p: string, s: string) {
    MatchTokens(Parse(p), s)
  }

  // ---------- texts without special characters ----------

  predicate Plain(s: string) {
    forall i :: 0 <= i < |s| ==> s[i] != '*' && s[i] != '?' && s[i] != '['
  }

  function Literals(s: string): (ts: seq<Token>)
    ensures |ts| == |s|
  {
    seq(|s|, i requires 0 <= i < |s| => Literal(s[i]))
  }

  lemma {:induction false} ParsePlain(s: string, p: string)
    requires Plain(s)
    ensures Parse(s + p) == Literals(s) + Parse(p)
  {
    if s == "" {
      assert s + p == p;
    } else {
      assert (s + p)[0] == s[0] && (s + p)[1..] == s[1..] + p;
      ParsePlain(s[1..], p);
      assert Literals(s) == [Literal(s[0])] + Literals(s[1..]);
    }
  }

  lemma ParseBracket(members: string, p: string)
    requires members != "" && ']' !in members
    ensures Parse("[" + members + "]" + p) == [OneOf(members)] + Parse(p)
  {
    var q := "[" + members + "]" + p;
    var j := CloseAt(q, 2);
    assert q[|members| + 1] == ']';
    assert forall i :: 1 <= i <= |members| ==> q[i] == members[i - 1];
    assert j == |members| + 1;
    assert q[1..j] == members && q[j + 1..] == p;
  }

  lemma {:induction false} MatchLiterals(s: string, ts: seq<Token>, text: string)
    ensures MatchTokens(Literals(s) + ts, text)
       <==> |s| <= |text| && text[..|s|] == s && MatchTokens(ts, text[|s|..])
  {
    if s == "" {
      assert Literals(s) + ts == ts && text[0..] == text;
    } else {
      var all := Literals(s) + ts;
      assert all[0] == Literal(s[0]) && all[1..] == Literals(s[1..]) + ts;
      if text != "" && text[0] == s[0] {
        MatchLiterals(s[1..], ts, text[1..]);
        assert |s| <= |text| ==> text[1..][|s| - 1..] == text[|s|..];
        assert |s| <= |text| ==> text[1..][..|s| - 1] == text[..|s|][1..];
        assert |s| <= |text| && text[..|s|][1..] == s[1..] ==> text[..|s|] == s by {
          if |s| <= |text| && text[..|s|][1..] == s[1..] {
            assert text[..|s|] == [text[0]] + text[..|s|][1..];
            assert s == [s[0]] + s[1..];
          }
        }
      } else {
        assert s[0] == s[..1][0];
      }
    }
  }

  lemma {:induction false} AnyTextMatchesAll(s: string)
    ensures MatchTokens([AnyText], s)
  {
    if s != "" { AnyTextMatchesAll(s[1..]); }
  }

  // ---------- cutting a match at a lower-case tag ----------

  predicate IsLower(c: char) { 'a' <= c <= 'z' }

  function LowerChars(s: string): nat {
    if s == "" then 0 else (if IsLower(s[0]) then 1 else 0) + LowerChars(s[1..])
  }

  function LowerLiterals(ts: seq<Token>): nat {
    if ts == [] then 0
    else (if ts[0].Literal? && IsLower(ts[0].c) then 1 else 0) + LowerLiterals(ts[1..])
  }

  lemma {:induction false} LowerCharsAppend(a: string, b: string)
    ensures LowerChars(a + b) == LowerChars(a) + LowerChars(b)
  {
    if a == "" {
      assert a + b == b;
    } else {
      assert (a + b)[0] == a[0] && (a + b)[1..] == a[1..] + b;
      LowerCharsAppend(a[1..], b);
    }
  }

  lemma {:induction false} LowerLiteralsAppend(a: seq<Token>, b: seq<Token>)
    ensures LowerLiterals(a + b) == LowerLiterals(a) + LowerLiterals(b)
  {
    if a == [] {
      assert a + b == b;
    } else {
      assert (a + b)[0] == a[0] && (a + b)[1..] == a[1..] + b;
      LowerLiteralsAppend(a[1..], b);
    }
  }

  lemma {:induction false} LowerOfLiterals(s: string)
    ensures LowerLiterals(Literals(s)) == LowerChars(s)
  {
    if s != "" {
      assert Literals(s)[1..] == Literals(s[1..]);
      LowerOfLiterals(s[1..]);
    }
  }

  // Every lower-case literal of a pattern consumes a lower-case character of its own.
  lemma {:induction false} MatchNeedsLower(ts: seq<Token>, s: string)
    requires MatchTokens(ts, s)
    ensures LowerLiterals(ts) <= LowerChars(s)
    decreases |ts| + |s|
  {
    if ts != [] {
      if !ts[0].AnyText? {
        MatchNeedsLower(ts[1..], s[1..]);
      } else if MatchTokens(ts[1..], s) {
        MatchNeedsLower(ts[1..], s);
      } else {
        MatchNeedsLower(ts, s[1..]);
      }
    }
  }

  lemma {:induction false} MatchConcat(f: seq<Token>, r: seq<Token>, h: string, t: string)
    requires MatchTokens(f, h) && MatchTokens(r, t)
    ensures MatchTokens(f + r, h + t)
    decreases |f| + |h|
  {
    if f == [] {
      assert f + r == r && h + t == t;
    } else {
      assert (f + r)[0] == f[0] && (f + r)[1..] == f[1..] + r;
      if h != "" { assert (h + t)[0] == h[0] && (h + t)[1..] == h[1..] + t; }
      if !f[0].AnyText? {
        MatchConcat(f[1..], r, h[1..], t);
      } else if MatchTokens(f[1..], h) {
        MatchConcat(f[1..], r, h, t);
      } else {
        MatchConcat(f, r, h[1..], t);
      }
    }
  }

  /** A field pattern `f` without lower-case literals, followed by a pattern `r` that starts with a
      lower-case literal, matches the text `h + t` only in the obvious way, provided `h` holds no
      lower-case character, `t` starts with one, and `r` asks for all the lower-case characters `t` has. */
  lemma {:induction false} MatchSplitsAtTag(f: seq<Token>, r: seq<Token>, h: string, t: string)
    requires LowerLiterals(f) == 0 && LowerChars(h) == 0
    requires r != [] && r[0].Literal? && IsLower(r[0].c)
    requires t != "" && IsLower(t[0])
    requires LowerLiterals(r) == LowerChars(t)
    ensures MatchTokens(f + r, h + t) <==> MatchTokens(f, h) && MatchTokens(r, t)
    decreases |f| + |h|
  {
    if MatchTokens(f, h) && MatchTokens(r, t) {
      MatchConcat(f, r, h, t);
    }
    if MatchTokens(f + r, h + t) {
      MatchSplitsForward(f, r, h, t);
    }
  }

  lemma {:induction false} MatchSplitsForward(f: seq<Token>, r: seq<Token>, h: string, t: string)
    requires LowerLiterals(f) == 0 && LowerChars(h) == 0
    requires r != [] && r[0].Literal? && IsLower(r[0].c)
    requires t != "" && IsLower(t[0])
    requires LowerLiterals(r) == LowerChars(t)
    requires MatchTokens(f + r, h + t)
    ensures MatchTokens(f, h) && MatchTokens(r, t)
    decreases |f| + |h|
  {
    var ts, s := f + r, h + t;
    if h == "" {
      assert s == t;
      if f == [] {
        assert ts == r;
      } else {
        assert ts[0] == f[0] && ts[1..] == f[1..] + r;
        LowerLiteralsAppend(f[1..], r);
        LowerLiteralsAppend(f, r);
        if f[0].AnyText? && MatchTokens(ts[1..], s) {
          MatchSplitsForward(f[1..], r, h, t);
        } else if f[0].AnyText? {
          MatchNeedsLower(ts, s[1..]);
          assert false;
        } else {
          MatchNeedsLower(ts[1..], s[1..]);
          assert false;
        }
      }
    } else {
      assert s[0] == h[0] && s[1..] == h[1..] + t;
      assert f == [] ==> ts == r;
      if f == [] {
        assert false;
      } else {
        assert ts[0] == f[0] && ts[1..] == f[1..] + r;
        if !f[0].AnyText? {
          MatchSplitsForward(f[1..], r, h[1..], t);
        } else if MatchTokens(ts[1..], s) {
          MatchSplitsForward(f[1..], r, h, t);
        } else {
          MatchSplitsForward(f, r, h[1..], t);
        }
      }
    }
  }
}
