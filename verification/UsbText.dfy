/** The text printed for one entry of a device-number range, and which digit rows it matches. */
module UsbText {
  import opened Glob
  import opened HexWords
  import opened UsbRange

  // The inside of the bracket for digits lo..hi; the letters do not follow 9 in the character set.
  function Members(lo: nat, hi: nat): string
    requires lo < 16 && hi < 16
  {
    if lo > 0x9 || hi < 0xA then [HexChar(lo)] + "-" + [HexChar(hi)]
    else
      (if lo < 0x9 then [HexChar(lo)] + "-9" else [HexChar(lo)])
      + (if hi > 0xA then "A-" + [HexChar(hi)] else [HexChar(hi)])
  }

  function DigitText(lo: nat, hi: nat, max: nat): string
    requires lo < 16 && hi < 16
  {
    if lo == hi then [HexChar(lo)]
    else if lo > 0 || hi < max then "[" + Members(lo, hi) + "]"
    else ""
  }

  function PrefixText(e: Entry): string {
    if e.ndigits > 0 then FormatX(e.ndigits, e.prefix) else ""
  }

  function DeviceText(k: nat, e: Entry, max: nat): string
    requires e.lo < 16 && e.hi < 16
  {
    PrefixText(e) + DigitText(e.lo, e.hi, max) + (if e.ndigits + 1 < k then "*" else "")
  }

  // ---------- its tokens ----------

  function DigitTokens(lo: nat, hi: nat, max: nat): seq<Token>
    requires lo < 16 && hi < 16
  {
    if lo == hi then [Literal(HexChar(lo))]
    else if lo > 0 || hi < max then [OneOf(Members(lo, hi))]
    else []
  }

  function StarTokens(star: bool): seq<Token> {
    if star then [AnyText] else []
  }

  function DeviceTokens(k: nat, e: Entry, max: nat): seq<Token>
    requires e.lo < 16 && e.hi < 16
  {
    Literals(PrefixText(e)) + (DigitTokens(e.lo, e.hi, max) + StarTokens(e.ndigits + 1 < k))
  }

  predicate IsHexChar(c: char) {
    '0' <= c <= '9' || 'A' <= c <= 'F'
  }

  lemma {:induction false} HexTextPlain(n: nat, w: nat)
    ensures forall c :: c in HexText(n, w) ==> IsHexChar(c)
    ensures Plain(HexText(n, w))
  {
    if n > 0 { HexTextPlain(n - 1, w / 16); }
  }

  lemma MembersPlain(lo: nat, hi: nat)
    requires lo < 16 && hi < 16
    ensures Members(lo, hi) != "" && ']' !in Members(lo, hi)
  {
  }

  lemma DeviceParses(k: nat, e: Entry, max: nat, rest: string)
    requires e.lo < 16 && e.hi < 16
    ensures Parse(DeviceText(k, e, max) + rest) == DeviceTokens(k, e, max) + Parse(rest)
  {
    var prefix := PrefixText(e);
    var digit := DigitText(e.lo, e.hi, max);
    var star := if e.ndigits + 1 < k then "*" else "";
    if e.ndigits > 0 {
      HexTextPlain(if e.ndigits < DigitCount(e.prefix) then DigitCount(e.prefix) else e.ndigits, e.prefix);
    }
    DigitParses(e.lo, e.hi, max, star + rest);
    PartsParse(prefix, digit, DigitTokens(e.lo, e.hi, max), star, rest);
  }

  lemma PartsParse(prefix: string, digit: string, ts: seq<Token>, star: string, rest: string)
    requires Plain(prefix) && (star == "" || star == "*")
    requires Parse(digit + (star + rest)) == ts + Parse(star + rest)
    ensures Parse((prefix + digit + star) + rest) == (Literals(prefix) + (ts + StarTokens(star == "*"))) + Parse(rest)
  {
    Assoc(prefix + digit, star, rest);
    Assoc(prefix, digit, star + rest);
    ParsePlain(prefix, digit + (star + rest));
    StarParses(star, rest);
    Assoc(ts, StarTokens(star == "*"), Parse(rest));
    Assoc(Literals(prefix), ts + StarTokens(star == "*"), Parse(rest));
  }

  lemma StarParses(star: string, rest: string)
    requires star == "" || star == "*"
    ensures Parse(star + rest) == StarTokens(star == "*") + Parse(rest)
  {
    assert star == "" ==> star + rest == rest;
    assert star == "*" ==> (star + rest)[0] == '*' && (star + rest)[1..] == rest;
  }

  lemma Assoc<T>(a: seq<T>, b: seq<T>, c: seq<T>)
    ensures (a + b) + c == a + (b + c)
  {
  }

  lemma DigitParses(lo: nat, hi: nat, max: nat, rest: string)
    requires lo < 16 && hi < 16
    ensures Parse(DigitText(lo, hi, max) + rest) == DigitTokens(lo, hi, max) + Parse(rest)
  {
    if lo == hi {
      ParsePlain([HexChar(lo)], rest);
    } else if lo > 0 || hi < max {
      MembersPlain(lo, hi);
      ParseBracket(Members(lo, hi), rest);
    } else {
      assert DigitText(lo, hi, max) + rest == rest;
    }
  }

  // ---------- what it matches ----------

  lemma MembersMean(lo: nat, hi: nat, d: nat)
    requires lo < hi < 16 && d < 16
    ensures InBracket(Members(lo, hi), HexChar(d)) <==> lo <= d <= hi
  {
    var c := HexChar(d);
    var m := Members(lo, hi);
    if lo > 0x9 || hi < 0xA {
      RangeFirst(HexChar(lo), HexChar(hi), "", c);
      assert m == [HexChar(lo), '-', HexChar(hi)] + "";
    } else {
      var tail := if hi > 0xA then "A-" + [HexChar(hi)] else [HexChar(hi)];
      if hi > 0xA {
        RangeFirst('A', HexChar(hi), "", c);
        assert tail == ['A', '-', HexChar(hi)] + "";
      } else {
        CharFirst('A', "", c);
        assert tail == ['A'] + "";
      }
      if lo < 0x9 {
        RangeFirst(HexChar(lo), '9', tail, c);
        assert m == [HexChar(lo), '-', '9'] + tail;
      } else {
        CharFirst('9', tail, c);
        assert m == ['9'] + tail;
      }
    }
  }

  lemma CharFirst(a: char, tail: string, c: char)
    requires tail == "" || tail[0] != '-'
    ensures InBracket([a] + tail, c) <==> a == c || InBracket(tail, c)
  {
    var m := [a] + tail;
    assert m[0] == a && m[1..] == tail;
    assert tail != "" ==> m[1] == tail[0];
  }

  lemma RangeFirst(a: char, b: char, tail: string, c: char)
    ensures InBracket([a, '-', b] + tail, c) <==> a <= c <= b || InBracket(tail, c)
  {
    var m := [a, '-', b] + tail;
    assert m[0] == a && m[1] == '-' && m[2] == b && m[3..] == tail;
  }

  // The digit part, followed by the star or not, against the digit and what is left after it.
  lemma DigitMatches(lo: nat, hi: nat, max: nat, star: bool, d: nat, rest: string)
    requires lo <= hi <= max < 16 && d <= max
    requires star || rest == ""
    requires star || !(lo == 0 && hi == max)
    ensures MatchTokens(DigitTokens(lo, hi, max) + StarTokens(star), [HexChar(d)] + rest) <==> lo <= d <= hi
  {
    var ts, s := DigitTokens(lo, hi, max) + StarTokens(star), [HexChar(d)] + rest;
    assert s[0] == HexChar(d) && s[1..] == rest;
    if lo == hi || lo > 0 || hi < max {
      assert ts[1..] == StarTokens(star);
      if star { AnyTextMatchesAll(rest); }
      assert MatchTokens(ts[1..], rest);
      if lo < hi { MembersMean(lo, hi, d); }
    } else {
      assert ts == [AnyText];
      AnyTextMatchesAll(s);
    }
  }

  /** The text of an entry matches the k-digit row of a word exactly when the entry has the word. */
  lemma DeviceMatches(k: nat, e: Entry, max: nat, w: nat)
    requires max == DECIMAL || max == HEX
    requires e.ndigits < k && e.lo <= e.hi <= max
    requires e.ndigits > 0 ==> e.prefix < Pow(16, e.ndigits)
    requires !(e.ndigits + 1 == k && e.lo == 0 && e.hi == max)
    requires Valid(max, w) && w < Pow(16, k)
    ensures MatchTokens(DeviceTokens(k, e, max), HexText(k, w)) <==> Has(k, e, w)
  {
    hide HexText, Pow, Shift, Valid;
    var m := k - 1 - e.ndigits;
    var q := Shift(w, m);
    var ts := DigitTokens(e.lo, e.hi, max) + StarTokens(e.ndigits + 1 < k);
    var rest := [HexChar(q % 16)] + HexText(m, w);
    RowOf(k, e.ndigits, w);
    PrefixIsHex(e);
    DeviceDigit(k, e, max, w);
    assert DeviceTokens(k, e, max) == Literals(HexText(e.ndigits, e.prefix)) + ts;
    PrefixMatches(e.ndigits, e.prefix, q / 16, ts, rest);
  }

  lemma DeviceDigit(k: nat, e: Entry, max: nat, w: nat)
    requires max == DECIMAL || max == HEX
    requires e.ndigits < k && e.lo <= e.hi <= max
    requires !(e.ndigits + 1 == k && e.lo == 0 && e.hi == max)
    requires Valid(max, w) && w < Pow(16, k)
    ensures var m := k - 1 - e.ndigits; var q := Shift(w, m);
      && q / 16 < Pow(16, e.ndigits)
      && (MatchTokens(DigitTokens(e.lo, e.hi, max) + StarTokens(e.ndigits + 1 < k),
                      [HexChar(q % 16)] + HexText(m, w))
          <==> e.lo <= q % 16 <= e.hi)
  {
    hide Shift, Pow, Valid, MatchTokens, DigitTokens, StarTokens;
    var m := k - 1 - e.ndigits;
    DigitAndPrefix(max, k, e.ndigits, w);
    assert e.ndigits + 1 < k || HexText(m, w) == "";
    DigitMatches(e.lo, e.hi, max, e.ndigits + 1 < k, Shift(w, m) % 16, HexText(m, w));
  }

  // A literal prefix of n digits in front of anything.
  lemma PrefixMatches(n: nat, x: nat, y: nat, ts: seq<Token>, rest: string)
    requires n > 0 ==> x < Pow(16, n)
    requires y < Pow(16, n)
    ensures MatchTokens(Literals(HexText(n, x)) + ts, HexText(n, y) + rest)
       <==> (n == 0 || x == y) && MatchTokens(ts, rest)
  {
    var row := HexText(n, y) + rest;
    MatchLiterals(HexText(n, x), ts, row);
    assert row[..n] == HexText(n, y) && row[n..] == rest;
    if n > 0 && HexText(n, x) == HexText(n, y) { HexInjective(n, x, y); }
    assert n == 0 ==> HexText(n, x) == HexText(n, y);
  }

  lemma PrefixIsHex(e: Entry)
    requires e.ndigits > 0 ==> e.prefix < Pow(16, e.ndigits)
    ensures PrefixText(e) == HexText(e.ndigits, e.prefix)
  {
    if e.ndigits > 0 { FewDigits(e.prefix, e.ndigits); }
  }

  lemma RowOf(k: nat, nd: nat, w: nat)
    requires nd < k
    ensures var m := k - 1 - nd; var q := Shift(w, m);
      HexText(k, w) == HexText(nd, q / 16) + ([HexChar(q % 16)] + HexText(m, w))
  {
    var m := k - 1 - nd;
    var q := Shift(w, m);
    HexSplit(nd + 1, m, w);
    assert HexText(nd + 1, q) == HexText(nd, q / 16) + [HexChar(q % 16)];
  }

  // The excluded entry prints k - 1 digits and nothing else, so it matches no device number at all.
  lemma WholeRangeMatchesNothing(k: nat, e: Entry, max: nat, w: nat)
    requires 1 < k && e.ndigits + 1 == k && e.lo == 0 && e.hi == max && (max == DECIMAL || max == HEX)
    requires e.prefix < Pow(16, e.ndigits)
    ensures !MatchTokens(DeviceTokens(k, e, max), HexText(k, w))
  {
    var prefix := PrefixText(e);
    PrefixIsHex(e);
    assert DeviceTokens(k, e, max) == Literals(prefix) + [];
    MatchLiterals(prefix, [], HexText(k, w));
  }
}
