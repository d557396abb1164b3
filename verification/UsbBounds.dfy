/** The bounds the splitting loop of UsbRange is given, and exactly when its entries are the range
    that was asked for.  An absent upper bound is an all-ones word; in decimal mode an upper bound
    above 99..9 may hold digits that are not decimal. */
module UsbBounds {
  import opened HexWords
  import opened UsbRange

  // ~0U: a full word of n ones digits.
  function Ones(n: nat): nat {
    if n == 0 then 0 else 15 + 16 * Ones(n - 1)
  }

  // 0x99..9: a word of n nines.
  function Nines(n: nat): nat {
    if n == 0 then 0 else 9 + 16 * Nines(n - 1)
  }

  lemma {:induction false} OnesValue(n: nat)
    ensures Ones(n) == Pow(16, n) - 1
  {
    if n > 0 { OnesValue(n - 1); }
  }

  // 99..9 is the largest BCD word of its length.
  lemma {:induction false} NinesLargest(n: nat, w: nat)
    requires Valid(9, w) && w < Pow(16, n)
    ensures w <= Nines(n)
  {
    if n > 0 { NinesLargest(n - 1, w / 16); }
  }

  lemma {:induction false} NinesValid(n: nat)
    ensures Valid(9, Nines(n)) && Nines(n) < Pow(16, n)
  {
    if n > 0 { NinesValid(n - 1); }
  }

  lemma {:induction false} ShiftNines(n: nat, m: nat)
    ensures Shift(Nines(n + m), m) == Nines(n)
  {
    if m > 0 { ShiftNines(n, m - 1); }
  }

  // ---------- which base ----------

  // Hexadecimal as soon as one digit of lo, or of hi cut down to 99..9, is not decimal.
  function Mode(k: nat, lo: nat, hi: nat): nat {
    if Valid(9, Wrap(lo, k)) && Valid(9, Wrap(Min(hi, Nines(k)), k)) then DECIMAL else HEX
  }

  lemma WrapStep(w: nat, n: nat)
    ensures Wrap(w, n + 1) % 16 == w % 16 && Wrap(w, n + 1) / 16 == Wrap(w / 16, n)
  {
  }

  lemma {:induction false} ValidTop(w: nat, i: nat)
    ensures Valid(9, Wrap(w, i + 1)) <==> Valid(9, Wrap(w, i)) && Shift(w, i) % 16 <= 9
  {
    WrapStep(w, i);
    if i > 0 {
      WrapStep(w, i - 1);
      ValidTop(w / 16, i - 1);
    }
  }

  method DetectBase(k: nat, lo: nat, hi: nat) returns (max: nat)
    ensures max == Mode(k, lo, hi)
    ensures lo < Pow(16, k) ==>
      (max == DECIMAL <==> Valid(9, lo) && (hi > Nines(k) || Valid(9, hi)))
  {
    max := DECIMAL;
    var ndigits := 0;
    var capped := if hi > Nines(k) then Nines(k) else hi;
    while ndigits < k
      invariant ndigits <= k
      invariant max == DECIMAL && Valid(9, Wrap(lo, ndigits)) && Valid(9, Wrap(capped, ndigits))
    {
      var clo := Shift(lo, ndigits) % 16;
      var chi := Shift(capped, ndigits) % 16;
      ValidTop(lo, ndigits);
      ValidTop(capped, ndigits);
      if clo > max || chi > max {
        max := HEX;
        ValidPrefix(lo, ndigits + 1, k);
        ValidPrefix(capped, ndigits + 1, k);
        break;
      }
      ndigits := ndigits + 1;
    }
    NinesValid(k);
    if lo < Pow(16, k) { WrapSmall(lo, k); }
    WrapSmall(capped, k);
  }

  lemma {:induction false} ValidPrefix(w: nat, i: nat, k: nat)
    requires i <= k
    ensures Valid(9, Wrap(w, k)) ==> Valid(9, Wrap(w, i))
    decreases k
  {
    if i < k {
      ValidTop(w, k - 1);
      ValidPrefix(w, i, k - 1);
    }
  }

  // ---------- no upper bound ----------

  // The digit max followed by n zeros: 0x9000 or 0xF000 for n = 3.
  function Top(max: nat, n: nat): nat {
    if n == 0 then max else 16 * Top(max, n - 1)
  }

  lemma {:induction false} TopDigit(max: nat, n: nat)
    requires max == DECIMAL || max == HEX
    ensures Valid(max, Top(max, n)) && Top(max, n) < Pow(16, n + 1)
    ensures Valid(max, Pow(16, n))
  {
    if n > 0 {
      TopDigit(max, n - 1);
      assert Pow(16, n + 1) == 16 * Pow(16, n);
      assert Top(max, n) / 16 == Top(max, n - 1) && Pow(16, n) / 16 == Pow(16, n - 1);
    }
  }

  // One turn of the lower bound: the next bound leaves out exactly the prefixes dealt with, and a
  // valid word with zero last digit that is not below lo is not passed.
  lemma LowTurn(max: nat, k: nat, nd: nat, lo: nat, x: nat)
    requires max == DECIMAL || max == HEX
    requires 0 < nd < k
    requires Valid(max, lo) && Valid(max, x) && lo / 16 <= x <= Pow(16, nd)
    ensures var lo' := NextLo(max, k, lo);
      && (lo % 16 > 0 && lo / 16 < x ==> Valid(max, lo') && lo / 16 < lo' <= x)
      && (lo % 16 == 0 ==> Valid(max, lo') && lo' == lo / 16)
  {
    PowGrows(16, 16, nd + 1, k);
    assert Pow(16, nd + 1) == 16 * Pow(16, nd);
    if lo % 16 > 0 && lo / 16 < x { NextWord(max, k, lo / 16, x); }
  }

  lemma OnesDigit(n: nat)
    ensures Ones(n + 1) % 16 == 15 && Ones(n + 1) / 16 == Ones(n)
  {
    assert Ones(n + 1) == 15 + 16 * Ones(n);
  }

  lemma OnesAbove(k: nat, nd: nat, lo: nat)
    requires 0 < nd < k && lo <= Pow(16, nd + 1)
    ensures lo <= Ones(k + nd + 1) && lo / 16 < Ones(k + nd)
  {
    OnesValue(k + nd);
    OnesDigit(k + nd);
    PowGrows(16, 16, nd + 1, k + nd);
    assert Pow(16, nd + 1) == 16 * Pow(16, nd);
  }

  lemma OpenTurn(max: nat, k: nat, nd: nat, lo: nat)
    requires max == DECIMAL || max == HEX
    requires 0 < nd < k && lo <= Pow(16, nd + 1)
    ensures var hi := Ones(k + nd + 1);
      && NextHi(max, k, hi) == Ones(k + nd)
      && Entries(max, k, nd, lo, hi)
         == Turn(max, nd, lo, hi) + Entries(max, k, nd - 1, NextLo(max, k, lo), Ones(k + nd))
  {
    hide IncWord, Valid, Entries, Turn, NextLo, Ones;
    OnesDigit(k + nd);
    OnesAbove(k, nd, lo);
    EntriesUnfold(max, k, nd, lo, Ones(k + nd + 1));
  }

  // Below the last top-digit value nothing carries out of the word, and the cover is exact.
  lemma {:induction false} OpenCover(max: nat, k: nat, nd: nat, lo: nat, w: nat)
    requires max == DECIMAL || max == HEX
    requires nd < k && 2 <= k
    requires Valid(max, lo) && lo <= Top(max, nd)
    requires Valid(max, w) && w < Pow(16, k)
    ensures var es := Entries(max, k, nd, lo, Ones(k + nd + 1));
      Fits(k, es) && Hits(k, es, w) == Count(lo <= Shift(w, k - 1 - nd))
    decreases nd
  {
    hide Hits, Entries, IncWord, NextLo;
    if nd == 0 {
      OpenLast(max, k, lo, w);
    } else {
      DigitAndPrefix(max, k, nd, w);
      OpenBound(max, k, nd, lo, Shift(w, k - 1 - nd) / 16);
      OpenCover(max, k, nd - 1, NextLo(max, k, lo), w);
      OpenStep(max, k, nd, lo, w);
    }
  }

  lemma OpenStep(max: nat, k: nat, nd: nat, lo: nat, w: nat)
    requires max == DECIMAL || max == HEX
    requires 0 < nd < k && 2 <= k
    requires lo <= Top(max, nd) && Shift(w, k - 1 - nd) % 16 <= max
    requires var p, lo' := Shift(w, k - 1 - nd) / 16, NextLo(max, k, lo);
      if lo % 16 > 0 then lo' <= p <==> lo / 16 < p else lo' == lo / 16
    requires var rest := Entries(max, k, nd - 1, NextLo(max, k, lo), Ones(k + nd));
      Fits(k, rest) && Hits(k, rest, w) == Count(NextLo(max, k, lo) <= Shift(w, k - nd))
    ensures var es := Entries(max, k, nd, lo, Ones(k + nd + 1));
      Fits(k, es) && Hits(k, es, w) == Count(lo <= Shift(w, k - 1 - nd))
  {
    hide Turn, Entries, Hits, Fits, Has, Shift, Ones, IncWord, NextLo, Valid;
    TopDigit(max, nd);
    ShiftStep(w, k - 1 - nd);
    OpenTurn(max, k, nd, lo);
    var lo' := NextLo(max, k, lo);
    OpenTurnCover(max, k, nd, lo, lo', Entries(max, k, nd - 1, lo', Ones(k + nd)), w);
  }

  lemma OpenBound(max: nat, k: nat, nd: nat, lo: nat, p: nat)
    requires max == DECIMAL || max == HEX
    requires 0 < nd < k && Valid(max, lo) && lo <= Top(max, nd)
    requires Valid(max, p) && p < Pow(16, nd)
    ensures var lo' := NextLo(max, k, lo);
      && Valid(max, lo') && lo' <= Top(max, nd - 1)
      && (if lo % 16 > 0 then lo' <= p <==> lo / 16 < p else lo' == lo / 16)
  {
    TopDigit(max, nd - 1);
    LowTurn(max, k, nd, lo, Top(max, nd - 1));
    if lo / 16 <= p { LowTurn(max, k, nd, lo, p); }
  }

  lemma OpenTurnCover(max: nat, k: nat, nd: nat, lo: nat, lo': nat, rest: seq<Entry>, w: nat)
    requires max <= 15 && 0 < nd < k && Fits(k, rest) && Shift(w, k - 1 - nd) % 16 <= max
    requires var p := Shift(w, k - 1 - nd) / 16;
      && (if lo % 16 > 0 then lo' <= p <==> lo / 16 < p else lo' == lo / 16)
      && Hits(k, rest, w) == Count(lo' <= p)
    ensures var es := Turn(max, nd, lo, Ones(k + nd + 1)) + rest;
      Fits(k, es) && Hits(k, es, w) == Count(lo <= Shift(w, k - 1 - nd))
  {
    hide Turn, Entries, Hits, Fits, Has, Shift, Ones, Pow;
    OnesDigit(k + nd);
    TurnHits(max, k, nd, lo, Ones(k + nd + 1), rest, w);
    OpenCount(max, lo, lo', Shift(w, k - 1 - nd));
  }

  lemma OpenCount(max: nat, lo: nat, lo': nat, q: nat)
    requires q % 16 <= max
    requires if lo % 16 > 0 then lo' <= q / 16 <==> lo / 16 < q / 16 else lo' == lo / 16
    ensures Count(lo <= q)
         == Count(lo % 16 > 0 && q / 16 == lo / 16 && lo % 16 <= q % 16 <= max) + Count(lo' <= q / 16)
  {
  }

  // The last turn has no prefix: a bound that has carried to 0x10 leaves the catch-all entry.
  lemma OpenLast(max: nat, k: nat, lo: nat, w: nat)
    requires max == DECIMAL || max == HEX
    requires 2 <= k && lo <= 16
    requires Valid(max, w) && w < Pow(16, k)
    ensures var es := Entries(max, k, 0, lo, Ones(k + 1));
      && es == [Entry(lo / 16, 0, lo % 16, max)] && Fits(k, es)
      && Hits(k, es, w) == Count(lo == 16 || lo <= Shift(w, k - 1))
  {
    hide Entries, Hits, Shift, Pow, Valid;
    OpenLastEntry(max, k, lo);
    OneDigitLeft(max, k, w);
    OneHit(k, Entry(lo / 16, 0, lo % 16, max), w);
  }

  lemma OpenLastEntry(max: nat, k: nat, lo: nat)
    requires 1 <= k && lo <= 16 && max <= 15
    ensures Entries(max, k, 0, lo, Ones(k + 1)) == [Entry(lo / 16, 0, lo % 16, max)]
  {
    hide Entries, Ones;
    EntriesUnfold(max, k, 0, lo, Ones(k + 1));
    OnesDigit(k);
    OnesDigit(k - 1);
  }

  lemma OneDigitLeft(max: nat, k: nat, w: nat)
    requires 1 <= k && max <= 15 && Valid(max, w) && w < Pow(16, k)
    ensures Shift(w, k - 1) <= max
  {
    ShiftValid(max, w, k - 1);
    ShiftBound(w, 1, k - 1);
    assert Pow(16, 1) == 16 * Pow(16, 0);
  }

  lemma CarryBound(max: nat, k: nat, nd: nat, lo: nat)
    requires max == DECIMAL || max == HEX
    requires 0 < nd < k && Valid(max, lo) && Top(max, nd) < lo <= Pow(16, nd + 1)
    ensures var lo' := NextLo(max, k, lo); Valid(max, lo') && Top(max, nd - 1) < lo' <= Pow(16, nd)
  {
    hide IncWord, NextLo;
    TopDigit(max, nd - 1);
    TopDigit(max, nd);
    LowTurn(max, k, nd, lo, Pow(16, nd));
  }

  // Above it the increments carry into an extra digit and every word is hit.
  lemma {:induction false} OpenCarry(max: nat, k: nat, nd: nat, lo: nat, w: nat)
    requires max == DECIMAL || max == HEX
    requires nd < k && 2 <= k
    requires Valid(max, lo) && Top(max, nd) < lo <= Pow(16, nd + 1)
    requires Valid(max, w) && w < Pow(16, k)
    ensures var es := Entries(max, k, nd, lo, Ones(k + nd + 1));
      Fits(k, es) && Hits(k, es, w) >= 1
    decreases nd
  {
    hide IncWord, NextLo, Entries, Hits;
    if nd == 0 {
      OpenLast(max, k, lo, w);
    } else {
      OpenTurn(max, k, nd, lo);
      CarryBound(max, k, nd, lo);
      var lo' := NextLo(max, k, lo);
      OpenCarry(max, k, nd - 1, lo', w);
      TurnHits(max, k, nd, lo, Ones(k + nd + 1), Entries(max, k, nd - 1, lo', Ones(k + nd)), w);
    }
  }
}
