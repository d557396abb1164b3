/** The numeric part of the USB alias compiler: a device-number range, read as hexadecimal or as
    BCD words of k digits, is cut into (prefix, digit range) entries.  The program has k = 4, so a
    word is 2 * k = 8 digits (32 bits) wide and the intermediate `unsigned long long` 4 * k digits. */
module UsbRange {
  import opened HexWords

  const DECIMAL: nat := 0x9
  const HEX: nat := 0xF

  // One call of the entry printer: `ndigits` leading digits equal to `prefix`, then one digit in
  // lo..hi, then anything.
  datatype Entry = Entry(prefix: nat, ndigits: nat, lo: nat, hi: nat)

  // ---------- increment and decrement ----------

  // What incbcd stores: plain word arithmetic in hexadecimal mode, decimal arithmetic otherwise.
  function IncWord(w: nat, inc: int, max: nat, chars: nat): nat {
    if max > 9 then Wrap(w + inc, 2 * chars)
    else Encode(Wrap(Decode(w, chars) + inc, 4 * chars), chars)
  }

  // The pointer argument of the C function is the parameter bcd and the result bcd'.
  method IncBcd(bcd: nat, inc: int, max: nat, chars: nat) returns (init: nat, bcd': nat)
    ensures init == bcd
    ensures bcd' == IncWord(bcd, inc, max, chars)
  {
    assert Decode(bcd, 0) == 0 && Pow(10, 0) == 1;
    hide Pow, Decode, Encode, Wrap, Shift;
    init := bcd;
    if max > 9 {
      bcd' := Wrap(bcd + inc, 2 * chars);
      return;
    }

    var dec := 0;
    for i := 0 to chars
      invariant dec == Decode(bcd, i)
    {
      var c := Shift(bcd, i) % 16;
      c := if c > 9 then 9 else c;
      ghost var digit := c;
      for j := 0 to i
        invariant c == digit * Pow(10, j)
      {
        TimesPow(10, digit, j);
        c := c * 10;
      }
      DecodeTop(bcd, i);
      dec := dec + c;
    }

    var sum := Wrap(dec + inc, 4 * chars);
    bcd' := 0;
    EncodeNothing(sum);
    for i := 0 to chars
      invariant bcd' == Encode(sum, i)
    {
      var c := 1;
      for j := 0 to i
        invariant c == Pow(10, j)
      {
        TimesPow(10, 1, j);
        c := c * 10;
      }
      c := sum / c % 10;
      EncodeTop(sum, i);
      bcd' := bcd' + c * Pow(16, i);
    }
  }

  lemma EncodeNothing(d: nat)
    ensures Encode(d, 0) == 0
  {
  }

  lemma {:induction false} PowGrows(a: nat, b: nat, m: nat, n: nat)
    requires 1 <= a <= b && m <= n
    ensures Pow(a, m) <= Pow(b, n)
    decreases n
  {
    if n > 0 {
      if m == 0 {
        PowGrows(a, b, 0, n - 1);
        Product(1, b, 1, Pow(b, n - 1));
      } else {
        PowGrows(a, b, m - 1, n - 1);
        Product(a, b, Pow(a, m - 1), Pow(b, n - 1));
      }
    }
  }

  lemma Product(a: nat, b: nat, x: nat, y: nat)
    requires a <= b && x <= y
    ensures a * x <= b * y
  {
    assert a * x <= a * y <= b * y;
  }

  // Decimal mode, any word whatever its digits: when the digit-forced value plus inc is
  // representable, the new word is BCD and denotes exactly that sum.
  lemma BcdArithmetic(w: nat, inc: int, max: nat, chars: nat)
    requires max <= 9
    requires 0 <= Decode(w, chars) + inc < Pow(10, chars)
    ensures var r := IncWord(w, inc, max, chars);
      Valid(9, r) && r < Pow(16, chars) && Decode(r, chars) == Decode(w, chars) + inc
  {
    PowGrows(10, 16, chars, 4 * chars);
    WrapSmall(Decode(w, chars) + inc, 4 * chars);
    EncodeIsBcd(Decode(w, chars) + inc, chars);
  }

  // The new word denotes that sum exactly when it is in the interval: what is stored never denotes a
  // number outside it.
  lemma BcdArithmeticIff(w: nat, inc: int, max: nat, chars: nat)
    requires max <= 9
    ensures Decode(IncWord(w, inc, max, chars), chars) == Decode(w, chars) + inc
       <==> 0 <= Decode(w, chars) + inc < Pow(10, chars)
  {
    DecodeBound(IncWord(w, inc, max, chars), chars);
    if 0 <= Decode(w, chars) + inc < Pow(10, chars) { BcdArithmetic(w, inc, max, chars); }
  }

  // The upper end: 9..9 and one more loses its first digit.
  lemma BcdArithmeticOverflows(chars: nat)
    requires chars > 0
    ensures Decode(IncWord(Encode(Pow(10, chars) - 1, chars), 1, 9, chars), chars) == 0
  {
    var top := Pow(10, chars);
    EncodeIsBcd(top - 1, chars);
    PowGrows(10, 16, chars, chars + 1);
    PowGrows(16, 16, chars + 1, 4 * chars);
    PowGrows(10, 16, chars, chars);
    assert top < Pow(16, chars + 1) == 16 * Pow(16, chars);
    WrapSmall(top, 4 * chars);
    EncodeOfPow(chars);
  }

  lemma {:induction false} EncodeOfPow(n: nat)
    ensures Encode(Pow(10, n), n) == 0 && Decode(0, n) == 0
  {
    if n > 0 { EncodeOfPow(n - 1); }
  }

  // ---------- the next and the previous valid word ----------

  lemma HexArithmetic(w: nat, inc: int, k: nat)
    requires 0 <= w + inc < Pow(16, k)
    ensures IncWord(w, inc, HEX, k) == w + inc
  {
    PowGrows(16, 16, k, 2 * k);
    WrapSmall(w + inc, 2 * k);
  }

  lemma NextWord(max: nat, k: nat, y: nat, x: nat)
    requires max == DECIMAL || max == HEX
    requires Valid(max, x) && Valid(max, y) && y < x < Pow(16, k)
    ensures var n := IncWord(y, 1, max, k); Valid(max, n) && y < n <= x
  {
    var n := IncWord(y, 1, max, k);
    if max == DECIMAL {
      BcdOrder(y, x, k);
      DecodeBound(x, k);
      BcdArithmetic(y, 1, max, k);
      BcdOrder(y, n, k);
      BcdOrder(x, n, k);
    } else {
      HexArithmetic(y, 1, k);
      AllValid(n);
    }
  }

  lemma PreviousWord(max: nat, k: nat, x: nat, y: nat)
    requires max == DECIMAL || max == HEX
    requires Valid(max, x) && Valid(max, y) && x < y < Pow(16, k)
    ensures var n := IncWord(y, -1, max, k); Valid(max, n) && x <= n < y
  {
    var n := IncWord(y, -1, max, k);
    if max == DECIMAL {
      BcdOrder(x, y, k);
      DecodeBound(y, k);
      BcdArithmetic(y, -1, max, k);
      BcdOrder(n, y, k);
      BcdOrder(n, x, k);
    } else {
      HexArithmetic(y, -1, k);
      AllValid(n);
    }
  }

  // ---------- the entries ----------

  function Min(a: nat, b: nat): nat { if a < b then a else b }

  // The bounds for the next turn: a prefix that has been dealt with is stepped over.
  function NextLo(max: nat, k: nat, lo: nat): nat {
    if lo % 16 > 0 then IncWord(lo / 16, 1, max, k) else lo / 16
  }

  function NextHi(max: nat, k: nat, hi: nat): nat {
    if Min(hi % 16, max) < max then IncWord(hi / 16, -1, max, k) else hi / 16
  }

  // The calls made in one turn that does not end the loop.
  function Turn(max: nat, nd: nat, lo: nat, hi: nat): (es: seq<Entry>)
    ensures |es| <= 2
    ensures forall e :: e in es ==> e.ndigits == nd && e.lo < 16 && e.hi <= max
  {
    (if lo % 16 > 0 then [Entry(lo / 16, nd, lo % 16, max)] else [])
    + (if Min(hi % 16, max) < max then [Entry(hi / 16, nd, 0, Min(hi % 16, max))] else [])
  }

  // The calls made by the splitting loop when it stands at `nd` digits with bounds lo and hi: at
  // most 2 * nd + 1 of them, with a digit count that stays between nd and zero.
  function Entries(max: nat, k: nat, nd: nat, lo: nat, hi: nat): (es: seq<Entry>)
    ensures |es| <= 2 * nd + 1
    ensures forall e :: e in es ==> e.ndigits <= nd && e.lo < 16 && e.hi <= max
    decreases nd
  {
    if lo > hi then []
    else if lo / 16 == hi / 16 || nd == 0 then [Entry(lo / 16, nd, lo % 16, Min(hi % 16, max))]
    else Turn(max, nd, lo, hi) + Entries(max, k, nd - 1, NextLo(max, k, lo), NextHi(max, k, hi))
  }

  // The word w of k digits is among those the entry stands for.  Without leading digits the
  // prefix is not looked at: the printer prints none.
  predicate Has(k: nat, e: Entry, w: nat)
    requires e.ndigits < k
  {
    var q := Shift(w, k - 1 - e.ndigits);
    (e.ndigits == 0 || q / 16 == e.prefix) && e.lo <= q % 16 <= e.hi
  }

  predicate Fits(k: nat, es: seq<Entry>) {
    forall e :: e in es ==> e.ndigits < k
  }

  // How many of the entries have w.
  function Hits(k: nat, es: seq<Entry>, w: nat): nat
    requires Fits(k, es)
  {
    if es == [] then 0 else (if Has(k, es[0], w) then 1 else 0) + Hits(k, es[1..], w)
  }

  lemma {:induction false} HitsConcat(k: nat, a: seq<Entry>, b: seq<Entry>, w: nat)
    requires Fits(k, a) && Fits(k, b)
    ensures Fits(k, a + b) && Hits(k, a + b, w) == Hits(k, a, w) + Hits(k, b, w)
  {
    if a == [] {
      assert a + b == b;
    } else {
      assert (a + b)[0] == a[0] && (a + b)[1..] == a[1..] + b;
      assert Fits(k, a[1..]);
      HitsConcat(k, a[1..], b, w);
    }
  }

  // Cutting a valid word at one digit: the digit and the prefix before it.
  lemma DigitAndPrefix(max: nat, k: nat, nd: nat, w: nat)
    requires nd < k && Valid(max, w) && w < Pow(16, k)
    ensures var q := Shift(w, k - 1 - nd);
      && q < Pow(16, nd + 1) && Valid(max, q)
      && q % 16 <= max && q / 16 < Pow(16, nd) && Valid(max, q / 16)
      && (nd > 0 ==> Shift(w, k - nd) == q / 16)
  {
    ShiftValid(max, w, k - 1 - nd);
    ShiftBound(w, nd + 1, k - 1 - nd);
    ShiftStep(w, k - 1 - nd);
    assert Pow(16, nd + 1) == 16 * Pow(16, nd);
  }

  function Count(b: bool): nat { if b then 1 else 0 }

  // The hits on w of one turn, followed by any further entries.
  lemma TurnHits(max: nat, k: nat, nd: nat, lo: nat, hi: nat, rest: seq<Entry>, w: nat)
    requires nd < k && Fits(k, rest)
    ensures Fits(k, Turn(max, nd, lo, hi) + rest)
    ensures
      var q := Shift(w, k - 1 - nd);
      Hits(k, Turn(max, nd, lo, hi) + rest, w)
      == Count(lo % 16 > 0 && (nd == 0 || q / 16 == lo / 16) && lo % 16 <= q % 16 <= max)
         + Count(Min(hi % 16, max) < max && (nd == 0 || q / 16 == hi / 16) && q % 16 <= Min(hi % 16, max))
         + Hits(k, rest, w)
  {
    var a := if lo % 16 > 0 then [Entry(lo / 16, nd, lo % 16, max)] else [];
    var b := if Min(hi % 16, max) < max then [Entry(hi / 16, nd, 0, Min(hi % 16, max))] else [];
    HitsConcat(k, a, b, w);
    HitsConcat(k, a + b, rest, w);
    assert a != [] ==> a[1..] == [];
    assert b != [] ==> b[1..] == [];
  }

  /** Exact cover: with both bounds valid in the base, every valid word between them is hit by
      exactly one entry and no other valid word is hit at all. */
  lemma {:induction false} EntriesCover(max: nat, k: nat, nd: nat, lo: nat, hi: nat, w: nat)
    requires max == DECIMAL || max == HEX
    requires nd < k
    requires Valid(max, lo) && Valid(max, hi) && hi < Pow(16, nd + 1)
    requires Valid(max, w) && w < Pow(16, k)
    ensures Fits(k, Entries(max, k, nd, lo, hi))
    ensures Hits(k, Entries(max, k, nd, lo, hi), w) == Count(lo <= Shift(w, k - 1 - nd) <= hi)
    decreases nd
  {
    hide IncWord, Has, Shift, Entries, Hits, Turn;
    DigitAndPrefix(max, k, nd, w);
    EntriesUnfold(max, k, nd, lo, hi);
    if lo > hi {
      NoHits(k, w);
    } else {
      var plo, phi := lo / 16, hi / 16;
      if plo == phi || nd == 0 {
        LastEntry(max, k, nd, lo, hi, w);
      } else {
        var lo', hi' := NextLo(max, k, lo), NextHi(max, k, hi);
        assert phi < Pow(16, nd);
        Neighbours(max, k, nd, plo, phi, Shift(w, k - 1 - nd) / 16);
        EntriesCover(max, k, nd - 1, lo', hi', w);
        TurnCover(max, k, nd, lo, hi, lo', hi', Entries(max, k, nd - 1, lo', hi'), w);
      }
    }
  }

  lemma OneHit(k: nat, e: Entry, w: nat)
    requires e.ndigits < k
    ensures Fits(k, [e]) && Hits(k, [e], w) == Count(Has(k, e, w))
  {
    assert [e][1..] == [];
  }

  lemma NoHits(k: nat, w: nat)
    ensures Fits(k, []) && Hits(k, [], w) == 0
  {
  }

  // One turn of the splitting loop.
  lemma EntriesUnfold(max: nat, k: nat, nd: nat, lo: nat, hi: nat)
    ensures lo > hi ==> Entries(max, k, nd, lo, hi) == []
    ensures lo <= hi && (lo / 16 == hi / 16 || nd == 0) ==>
      Entries(max, k, nd, lo, hi) == [Entry(lo / 16, nd, lo % 16, Min(hi % 16, max))]
    ensures lo <= hi && lo / 16 != hi / 16 && nd > 0 ==>
      Entries(max, k, nd, lo, hi)
      == Turn(max, nd, lo, hi) + Entries(max, k, nd - 1, NextLo(max, k, lo), NextHi(max, k, hi))
  {
    hide Turn, NextLo, NextHi, IncWord;
  }

  lemma TurnCover(max: nat, k: nat, nd: nat, lo: nat, hi: nat, lo': nat, hi': nat,
                  rest: seq<Entry>, w: nat)
    requires 0 < nd < k && lo / 16 < hi / 16 && lo % 16 <= max && hi % 16 <= max
    requires Shift(w, k - 1 - nd) % 16 <= max
    requires var p := Shift(w, k - 1 - nd) / 16;
      && (if lo % 16 > 0 then lo' <= p <==> lo / 16 < p else lo' == lo / 16)
      && (if hi % 16 < max then p <= hi' <==> p < hi / 16 else hi' == hi / 16)
    requires Fits(k, rest) && Hits(k, rest, w) == Count(lo' <= Shift(w, k - 1 - nd) / 16 <= hi')
    ensures Fits(k, Turn(max, nd, lo, hi) + rest)
    ensures Hits(k, Turn(max, nd, lo, hi) + rest, w) == Count(lo <= Shift(w, k - 1 - nd) <= hi)
  {
    TurnHits(max, k, nd, lo, hi, rest, w);
    SplitCount(max, lo, hi, lo', hi', Shift(w, k - 1 - nd));
  }

  lemma SplitCount(max: nat, lo: nat, hi: nat, lo': nat, hi': nat, q: nat)
    requires lo / 16 < hi / 16 && lo % 16 <= max && hi % 16 <= max && q % 16 <= max
    requires if lo % 16 > 0 then lo' <= q / 16 <==> lo / 16 < q / 16 else lo' == lo / 16
    requires if hi % 16 < max then q / 16 <= hi' <==> q / 16 < hi / 16 else hi' == hi / 16
    ensures Count(lo <= q <= hi)
         == Count(lo % 16 > 0 && q / 16 == lo / 16 && lo % 16 <= q % 16 <= max)
            + Count(hi % 16 < max && q / 16 == hi / 16 && q % 16 <= hi % 16)
            + Count(lo' <= q / 16 <= hi')
  {
  }

  lemma LastEntry(max: nat, k: nat, nd: nat, lo: nat, hi: nat, w: nat)
    requires nd < k && lo <= hi && (lo / 16 == hi / 16 || nd == 0)
    requires hi < Pow(16, nd + 1) && lo % 16 <= max && hi % 16 <= max
    requires Shift(w, k - 1 - nd) < Pow(16, nd + 1)
    ensures Fits(k, Entries(max, k, nd, lo, hi))
    ensures Hits(k, Entries(max, k, nd, lo, hi), w) == Count(lo <= Shift(w, k - 1 - nd) <= hi)
  {
    assert nd == 0 ==> Pow(16, nd + 1) == 16 * Pow(16, 0);
    hide Entries, Hits, Shift, Pow;
    EntriesUnfold(max, k, nd, lo, hi);
    OneHit(k, Entry(lo / 16, nd, lo % 16, Min(hi % 16, max)), w);
  }

  // Incrementing a lower prefix or decrementing an upper one leaves out exactly that prefix.
  lemma Neighbours(max: nat, k: nat, nd: nat, plo: nat, phi: nat, p: nat)
    requires max == DECIMAL || max == HEX
    requires 0 < nd < k
    requires Valid(max, plo) && Valid(max, phi) && plo < phi < Pow(16, nd)
    requires Valid(max, p) && p < Pow(16, nd)
    ensures var n := IncWord(plo, 1, max, k); Valid(max, n) && n <= phi && (n <= p <==> plo < p)
    ensures var n := IncWord(phi, -1, max, k); Valid(max, n) && n < phi && (p <= n <==> p < phi)
  {
    PowGrows(16, 16, nd, k);
    NextWord(max, k, plo, phi);
    PreviousWord(max, k, plo, phi);
    if plo < p { NextWord(max, k, plo, p); }
    if p < phi { PreviousWord(max, k, p, phi); }
  }
}
