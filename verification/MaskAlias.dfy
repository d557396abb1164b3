/** Masked identifiers compiled to patterns: AMBA ids one hexadecimal digit at a time, MDIO ids one
    bit at a time. */
module MaskAlias {
  import opened Basics
  import opened Glob
  import opened HexWords

  // ---------- bitwise and ----------

  function Bit(x: nat, y: nat): nat { if x % 2 == 1 && y % 2 == 1 then 1 else 0 }

  // x & y
  function And(x: nat, y: nat): nat {
    if x == 0 || y == 0 then 0 else 2 * And(x / 2, y / 2) + Bit(x, y)
  }

  lemma AndBit(x: nat, y: nat)
    ensures And(x, y) == 2 * And(x / 2, y / 2) + Bit(x, y)
  {
  }

  // Four bits of both operands.
  function Low4(x: nat, y: nat): (r: nat)
    ensures r < 16
  {
    Bit(x, y) + 2 * Bit(x / 2, y / 2) + 4 * Bit(x / 4, y / 4) + 8 * Bit(x / 8, y / 8)
  }

  lemma AndFour(x: nat, y: nat)
    ensures And(x, y) == 16 * And(x / 16, y / 16) + Low4(x, y)
  {
    AndBit(x, y);
    AndBit(x / 2, y / 2);
    AndBit(x / 4, y / 4);
    AndBit(x / 8, y / 8);
    Halves(x);
    Halves(y);
  }

  lemma Halves(x: nat)
    ensures x / 2 / 2 == x / 4 && x / 4 / 2 == x / 8 && x / 8 / 2 == x / 16
  {
  }

  lemma LowDigit(x: nat)
    ensures x % 16 % 2 == x % 2 && x % 16 / 2 % 2 == x / 2 % 2
    ensures x % 16 / 4 % 2 == x / 4 % 2 && x % 16 / 8 % 2 == x / 8 % 2
  {
    Halve16(x);
    Halve8(x / 2);
    Halve4(x / 4);
    Halves(x);
    Halves(x % 16);
  }

  lemma Halve16(x: nat)
    ensures x % 16 / 2 == x / 2 % 8 && x % 16 % 2 == x % 2
  {
  }

  lemma Halve8(x: nat)
    ensures x % 8 / 2 == x / 2 % 4 && x % 8 % 2 == x % 2
  {
  }

  lemma Halve4(x: nat)
    ensures x % 4 / 2 == x / 2 % 2 && x % 4 % 2 == x % 2
  {
  }

  lemma Low4Digit(x: nat, y: nat)
    ensures Low4(x, y) == Low4(x % 16, y % 16)
  {
    LowDigit(x);
    LowDigit(y);
  }

  lemma QuotientAndRest(a: nat, b: nat, r: nat)
    requires a == 16 * b + r && r < 16
    ensures a / 16 == b && a % 16 == r
  {
  }

  // Bitwise and works digit by digit.
  lemma AndDigit(x: nat, y: nat)
    ensures And(x, y) / 16 == And(x / 16, y / 16) && And(x, y) % 16 == And(x % 16, y % 16)
  {
    hide And, Low4;
    AndFour(x, y);
    QuotientAndRest(And(x, y), And(x / 16, y / 16), Low4(x, y));
    AndFour(x % 16, y % 16);
    AndZero(y % 16 / 16);
    Low4Digit(x, y);
  }

  lemma AndZero(y: nat)
    ensures And(0, y) == 0 && And(y, 0) == 0
  {
  }

  lemma AndFull(x: nat)
    requires x < 16
    ensures And(x, 0xF) == x && And(x, 0) == 0
  {
    AndFour(x, 0xF);
    AndZero(x / 16);
    Low4Full(x);
  }

  lemma Low4Full(x: nat)
    requires x < 16
    ensures Low4(x, 0xF) == x
  {
    assert 0xF / 2 == 7 && 0xF / 4 == 3 && 0xF / 8 == 1;
    assert x == 2 * (x / 2) + x % 2 && x / 2 == 2 * (x / 4) + x / 2 % 2 && x / 4 == 2 * (x / 8) + x / 4 % 2;
  }

  // ---------- one masked digit ----------

  // The digits below `upto` that agree with the nibble under the mask.
  function Choices(nibble: nat, mask: nat, upto: nat): string
    requires upto <= 16
  {
    if upto == 0 then ""
    else Choices(nibble, mask, upto - 1)
         + if And(upto - 1, mask) == nibble then [HexChar(upto - 1)] else ""
  }

  function NibbleText(nibble: nat, mask: nat): string
    requires nibble < 16
  {
    if mask == 0 then "?"
    else if mask == 0xF then [HexChar(nibble)]
    else "[" + Choices(nibble, mask, 16) + "]"
  }

  method AppendNibbleMask(outp: string, nibble: nat, mask: nat) returns (p: string)
    requires nibble < 16 && mask < 16
    ensures p == outp + NibbleText(nibble, mask)
  {
    if mask == 0 {
      return outp + "?";
    } else if mask == 0xF {
      OneDigit(nibble);
      return outp + FormatX(1, nibble);
    }
    p := outp + "[";
    ghost var head := p;
    for i := 0 to 16
      invariant p == head + Choices(nibble, mask, i)
    {
      ChoiceStep(head, nibble, mask, i);
      if And(i, mask) == nibble {
        p := p + FormatX(1, i);
      }
    }
    assert (outp + "[" + Choices(nibble, mask, 16)) + "]" == outp + ("[" + Choices(nibble, mask, 16) + "]");
    p := p + "]";
  }

  lemma ChoiceStep(head: string, nibble: nat, mask: nat, i: nat)
    requires i < 16
    ensures And(i, mask) == nibble ==>
      head + Choices(nibble, mask, i) + FormatX(1, i) == head + Choices(nibble, mask, i + 1)
    ensures And(i, mask) != nibble ==> Choices(nibble, mask, i) == Choices(nibble, mask, i + 1)
  {
    OneDigit(i);
    assert (head + Choices(nibble, mask, i)) + [HexChar(i)] == head + (Choices(nibble, mask, i) + [HexChar(i)]);
    assert Choices(nibble, mask, i) + "" == Choices(nibble, mask, i);
  }

  function NibbleToken(nibble: nat, mask: nat): Token
    requires nibble < 16
  {
    if mask == 0 then AnyChar
    else if mask == 0xF then Literal(HexChar(nibble))
    else OneOf(Choices(nibble, mask, 16))
  }

  lemma {:induction false} ChoicesMean(nibble: nat, mask: nat, upto: nat, d: nat)
    requires upto <= 16 && d < 16
    ensures HexChar(d) in Choices(nibble, mask, upto) <==> d < upto && And(d, mask) == nibble
    ensures '-' !in Choices(nibble, mask, upto) && ']' !in Choices(nibble, mask, upto)
  {
    if upto > 0 { ChoicesMean(nibble, mask, upto - 1, d); }
  }

  lemma {:induction false} PlainBracket(members: string, c: char)
    requires '-' !in members
    ensures InBracket(members, c) <==> c in members
  {
    if members != "" {
      assert members == [members[0]] + members[1..];
      PlainBracket(members[1..], c);
    }
  }

  // What the printed digit accepts: exactly the digits equal to the nibble under the mask.
  lemma NibbleMeans(nibble: nat, mask: nat, d: nat)
    requires nibble < 16 && mask < 16 && d < 16 && And(nibble, mask) == nibble
    ensures Accepts(NibbleToken(nibble, mask), HexChar(d)) <==> And(d, mask) == nibble
  {
    AndFull(d);
    AndFull(nibble);
    ChoicesMean(nibble, mask, 16, d);
    PlainBracket(Choices(nibble, mask, 16), HexChar(d));
  }

  lemma NibbleParses(nibble: nat, mask: nat, rest: string)
    requires nibble < 16 && mask < 16 && And(nibble, mask) == nibble
    ensures Parse(NibbleText(nibble, mask) + rest) == [NibbleToken(nibble, mask)] + Parse(rest)
  {
    if mask == 0 {
      assert ("?" + rest)[1..] == rest;
    } else if mask == 0xF {
      assert ([HexChar(nibble)] + rest)[1..] == rest;
    } else {
      ChoicesMean(nibble, mask, 16, nibble);
      ParseBracket(Choices(nibble, mask, 16), rest);
    }
  }

  // ---------- a row of masked digits ----------

  // Tokens that each stand for one character: matching goes character by character.
  predicate Fixed(ts: seq<Token>) {
    forall t :: t in ts ==> !t.AnyText?
  }

  lemma {:induction false} FixedAppend(ts: seq<Token>, t: Token, s: string, c: char)
    requires Fixed(ts) && !t.AnyText? && |ts| == |s|
    ensures MatchTokens(ts + [t], s + [c]) <==> MatchTokens(ts, s) && Accepts(t, c)
  {
    if ts == [] {
      assert ts + [t] == [t] && s + [c] == [c] && [t][1..] == [] && [c][1..] == "";
    } else {
      assert (ts + [t])[0] == ts[0] && (ts + [t])[1..] == ts[1..] + [t];
      assert (s + [c])[0] == s[0] && (s + [c])[1..] == s[1..] + [c];
      FixedAppend(ts[1..], t, s[1..], c);
    }
  }

  function AmbaText(n: nat, id: nat, mask: nat): string {
    if n == 0 then "" else AmbaText(n - 1, id / 16, mask / 16) + NibbleText(id % 16, mask % 16)
  }

  function AmbaTokens(n: nat, id: nat, mask: nat): (ts: seq<Token>)
    ensures |ts| == n && Fixed(ts)
  {
    if n == 0 then [] else AmbaTokens(n - 1, id / 16, mask / 16) + [NibbleToken(id % 16, mask % 16)]
  }

  lemma {:induction false} AmbaParses(n: nat, id: nat, mask: nat, rest: string)
    requires And(id, mask) == id
    ensures Parse(AmbaText(n, id, mask) + rest) == AmbaTokens(n, id, mask) + Parse(rest)
  {
    if n == 0 {
      assert AmbaText(0, id, mask) + rest == rest;
    } else {
      AndDigit(id, mask);
      var high, low := AmbaText(n - 1, id / 16, mask / 16), NibbleText(id % 16, mask % 16);
      assert (high + low) + rest == high + (low + rest);
      AmbaParses(n - 1, id / 16, mask / 16, low + rest);
      NibbleParses(id % 16, mask % 16, rest);
      var a, b := AmbaTokens(n - 1, id / 16, mask / 16), [NibbleToken(id % 16, mask % 16)];
      assert a + (b + Parse(rest)) == (a + b) + Parse(rest);
    }
  }

  lemma {:induction false} AmbaRow(n: nat, id: nat, mask: nat, x: nat)
    requires And(id, mask) == id
    requires id < Pow(16, n) && mask < Pow(16, n) && x < Pow(16, n)
    ensures MatchTokens(AmbaTokens(n, id, mask), HexText(n, x)) <==> And(x, mask) == id
  {
    if n == 0 {
      assert Pow(16, 0) == 1;
    } else {
      AndDigit(id, mask);
      AndDigit(x, mask);
      AmbaRow(n - 1, id / 16, mask / 16, x / 16);
      NibbleMeans(id % 16, mask % 16, x % 16);
      FixedAppend(AmbaTokens(n - 1, id / 16, mask / 16), NibbleToken(id % 16, mask % 16),
                  HexText(n - 1, x / 16), HexChar(x % 16));
    }
  }

  lemma AmbaStep(head: string, n: nat, digit: nat, id: nat, mask: nat)
    requires digit < n
    ensures head + AmbaText(digit, Shift(id, n - digit), Shift(mask, n - digit))
                 + NibbleText(Shift(id, n - 1 - digit) % 16, Shift(mask, n - 1 - digit) % 16)
         == head + AmbaText(digit + 1, Shift(id, n - 1 - digit), Shift(mask, n - 1 - digit))
  {
    ShiftStep(id, n - digit - 1);
    ShiftStep(mask, n - digit - 1);
    var i, m := Shift(id, n - 1 - digit), Shift(mask, n - 1 - digit);
    assert (head + AmbaText(digit, i / 16, m / 16)) + NibbleText(i % 16, m % 16)
        == head + (AmbaText(digit, i / 16, m / 16) + NibbleText(i % 16, m % 16));
  }

  /** An AMBA alias matches the name of a device id exactly when the id agrees under the mask. */
  lemma AmbaMatches(n: nat, id: nat, mask: nat, x: nat)
    requires And(id, mask) == id
    requires id < Pow(16, n) && mask < Pow(16, n) && x < Pow(16, n)
    ensures Matches("amba:d" + AmbaText(n, id, mask), "amba:d" + HexText(n, x)) <==> And(x, mask) == id
  {
    var name := "amba:d" + HexText(n, x);
    assert AmbaText(n, id, mask) == AmbaText(n, id, mask) + "";
    AmbaParses(n, id, mask, "");
    assert AmbaTokens(n, id, mask) + [] == AmbaTokens(n, id, mask);
    ParsePlain("amba:d", AmbaText(n, id, mask));
    MatchLiterals("amba:d", AmbaTokens(n, id, mask), name);
    assert name[..6] == "amba:d" && name[6..] == HexText(n, x);
    AmbaRow(n, id, mask, x);
  }

  // The printer refuses an id with bits outside its mask; n is 8 digits in the program.
  method DoAmbaEntry(n: nat, id: nat, mask: nat) returns (alias: Option<string>)
    ensures alias.None? <==> And(id, mask) != id
    ensures alias.Some? ==> alias.value == "amba:d" + AmbaText(n, id, mask)
    ensures alias.Some? && id < Pow(16, n) && mask < Pow(16, n) ==>
              forall x: nat | x < Pow(16, n) ::
                Matches(alias.value, "amba:d" + HexText(n, x)) <==> And(x, mask) == id
  {
    if And(id, mask) != id {
      return None;
    }
    var p := "amba:d";
    for digit := 0 to n
      invariant p == "amba:d" + AmbaText(digit, Shift(id, n - digit), Shift(mask, n - digit))
    {
      AmbaStep("amba:d", n, digit, id, mask);
      p := AppendNibbleMask(p, Shift(id, n - 1 - digit) % 16, Shift(mask, n - 1 - digit) % 16);
    }
    if id < Pow(16, n) && mask < Pow(16, n) {
      forall x: nat | x < Pow(16, n)
        ensures Matches("amba:d" + AmbaText(n, id, mask), "amba:d" + HexText(n, x)) <==> And(x, mask) == id
      {
        AmbaMatches(n, id, mask, x);
      }
    }
    return Some(p);
  }

  // ---------- a row of masked bits ----------

  function BitText(n: nat, x: nat): (s: string)
    ensures |s| == n
  {
    if n == 0 then "" else BitText(n - 1, x / 2) + [if x % 2 == 1 then '1' else '0']
  }

  function MdioChar(id: nat, mask: nat): char {
    if mask % 2 != 1 then '?' else if id % 2 == 1 then '1' else '0'
  }

  function MdioText(n: nat, id: nat, mask: nat): (s: string)
    ensures |s| == n
  {
    if n == 0 then "" else MdioText(n - 1, id / 2, mask / 2) + [MdioChar(id, mask)]
  }

  function MdioTokens(n: nat, id: nat, mask: nat): (ts: seq<Token>)
    ensures |ts| == n && Fixed(ts)
  {
    if n == 0 then []
    else MdioTokens(n - 1, id / 2, mask / 2) + [if mask % 2 != 1 then AnyChar else Literal(MdioChar(id, mask))]
  }

  lemma {:induction false} MdioParses(n: nat, id: nat, mask: nat, rest: string)
    ensures Parse(MdioText(n, id, mask) + rest) == MdioTokens(n, id, mask) + Parse(rest)
  {
    if n == 0 {
      assert MdioText(0, id, mask) + rest == rest;
    } else {
      var low := [MdioChar(id, mask)];
      assert MdioText(n, id, mask) + rest == MdioText(n - 1, id / 2, mask / 2) + (low + rest);
      MdioParses(n - 1, id / 2, mask / 2, low + rest);
      assert (low + rest)[0] == low[0] && (low + rest)[1..] == rest;
    }
  }

  lemma {:induction false} MdioRow(n: nat, id: nat, mask: nat, x: nat)
    requires mask < Pow(2, n)
    ensures MatchTokens(MdioTokens(n, id, mask), BitText(n, x)) <==> And(x, mask) == And(id, mask)
  {
    if n == 0 {
      assert Pow(2, 0) == 1;
    } else {
      AndBit(x, mask);
      AndBit(id, mask);
      MdioRow(n - 1, id / 2, mask / 2, x / 2);
      FixedAppend(MdioTokens(n - 1, id / 2, mask / 2), if mask % 2 != 1 then AnyChar else Literal(MdioChar(id, mask)),
                  BitText(n - 1, x / 2), if x % 2 == 1 then '1' else '0');
    }
  }

  // w >> m, by single bits
  function Shift1(w: nat, m: nat): nat {
    if m == 0 then w else Shift1(w / 2, m - 1)
  }

  lemma {:induction false} Shift1Step(w: nat, m: nat)
    ensures Shift1(w, m + 1) == Shift1(w, m) / 2
  {
    if m > 0 { Shift1Step(w / 2, m - 1); }
  }

  // The prefix macro is defined in a kernel header that is not in the repository.
  const MDIO_PREFIX: string := "mdio:"

  /** An MDIO alias matches the bits of a PHY id exactly when it agrees with the table id on the mask. */
  lemma MdioMatches(n: nat, id: nat, mask: nat, x: nat)
    requires mask < Pow(2, n)
    ensures Matches(MDIO_PREFIX + MdioText(n, id, mask), MDIO_PREFIX + BitText(n, x)) <==> And(x, mask) == And(id, mask)
  {
    var name := MDIO_PREFIX + BitText(n, x);
    assert MdioText(n, id, mask) == MdioText(n, id, mask) + "";
    MdioParses(n, id, mask, "");
    assert MdioTokens(n, id, mask) + [] == MdioTokens(n, id, mask);
    ParsePlain(MDIO_PREFIX, MdioText(n, id, mask));
    MatchLiterals(MDIO_PREFIX, MdioTokens(n, id, mask), name);
    assert name[..5] == MDIO_PREFIX && name[5..] == BitText(n, x);
    MdioRow(n, id, mask, x);
  }

  // n is 32 bits in the program.
  method DoMdioEntry(n: nat, id: nat, mask: nat) returns (alias: string)
    ensures alias == MDIO_PREFIX + MdioText(n, id, mask)
    ensures mask < Pow(2, n) ==>
              forall x: nat :: Matches(alias, MDIO_PREFIX + BitText(n, x)) <==> And(x, mask) == And(id, mask)
  {
    alias := MDIO_PREFIX;
    for i := 0 to n
      invariant alias == MDIO_PREFIX + MdioText(i, Shift1(id, n - i), Shift1(mask, n - i))
    {
      Shift1Step(id, n - i - 1);
      Shift1Step(mask, n - i - 1);
      ghost var front := MdioText(i, Shift1(id, n - i), Shift1(mask, n - i));
      if Shift1(mask, n - 1 - i) % 2 != 1 {
        alias := alias + "?";
      } else if Shift1(id, n - 1 - i) % 2 == 1 {
        alias := alias + "1";
      } else {
        alias := alias + "0";
      }
      assert alias == MDIO_PREFIX + (front + [MdioChar(Shift1(id, n - 1 - i), Shift1(mask, n - 1 - i))]);
    }
    if mask < Pow(2, n) {
      forall x: nat ensures Matches(alias, MDIO_PREFIX + BitText(n, x)) <==> And(x, mask) == And(id, mask) {
        MdioMatches(n, id, mask, x);
      }
    }
  }
}
