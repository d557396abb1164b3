/** Decimal mode with an explicit upper bound above 99..9.  Its digits are forced into 0..9 one at
    a time, so the entries reach 99..9 only when no digit below nine is met on the way. */
module UsbRawBound {
  import opened HexWords
  import opened UsbRange
  import opened UsbBounds

  // The position of the lowest digit of w that is below nine; n when the low n digits have none.
  function LowBelowNine(w: nat, n: nat): (j: nat)
    ensures j <= n
  {
    if n == 0 || w % 16 < 9 then 0 else 1 + LowBelowNine(w / 16, n - 1)
  }

  // 99..9 0..0: n digits, the low j of them zero.
  function NinesThenZeros(n: nat, j: nat): nat
    requires j <= n
  {
    if j == 0 then Nines(n) else 16 * NinesThenZeros(n - 1, j - 1)
  }

  // What a caller can look at: every digit of hi is at least nine, or lo is above 9..90..0 with
  // the zeros reaching up to and including the lowest digit of hi that is below nine.
  predicate ReachesNines(n: nat, lo: nat, hi: nat) {
    var j := LowBelowNine(hi, n);
    j == n || lo > NinesThenZeros(n, j + 1)
  }

  lemma {:induction false} NinesThenZerosValid(n: nat, j: nat)
    requires j <= n
    ensures Valid(9, NinesThenZeros(n, j)) && NinesThenZeros(n, j) <= Nines(n)
  {
    if j == 0 { NinesValid(n); } else { NinesThenZerosValid(n - 1, j - 1); }
  }

  lemma {:induction false} ClampedBelow(w: nat, n: nat, k: nat)
    requires n <= k && w < Pow(16, n)
    ensures Decode(w, k) < Pow(10, n) && (w > 0 ==> Decode(w, k) > 0)
  {
    if n == 0 {
      DecodeZero(k);
    } else {
      ClampedBelow(w / 16, n - 1, k - 1);
    }
  }

  lemma {:induction false} DecodeZero(k: nat)
    ensures Decode(0, k) == 0
  {
    if k > 0 { DecodeZero(k - 1); }
  }

  lemma {:induction false} DecodeNines(n: nat, k: nat)
    requires n <= k
    ensures Decode(Nines(n), k) == Pow(10, n) - 1
  {
    if n == 0 { DecodeZero(k); } else { DecodeNines(n - 1, k - 1); }
  }

  // A prefix above 99..9 is decremented to a BCD word below 99..9.
  lemma RawPrefix(k: nat, nd: nat, phi: nat)
    requires 0 < nd < k && Nines(nd) < phi < Pow(16, nd)
    ensures var n := IncWord(phi, -1, DECIMAL, k); Valid(9, n) && n < Nines(nd)
  {
    var n := IncWord(phi, -1, DECIMAL, k);
    ClampedBelow(phi, nd, k);
    PowGrows(10, 10, nd, k);
    BcdArithmetic(phi, -1, DECIMAL, k);
    DecodeNines(nd, k);
    NinesValid(nd);
    PowGrows(16, 16, nd, k);
    BcdOrder(n, Nines(nd), k);
  }

  // A valid word never has a prefix above 99..9.
  lemma PrefixTooBig(k: nat, nd: nat, w: nat)
    requires nd < k && Valid(9, w) && w < Pow(16, k)
    ensures var q := Shift(w, k - 1 - nd);
      && Valid(9, q) && q < Pow(16, nd + 1) && q <= Nines(nd + 1)
      && Valid(9, q / 16) && q / 16 < Pow(16, nd) && q / 16 <= Nines(nd)
  {
    var q := Shift(w, k - 1 - nd);
    DigitAndPrefix(9, k, nd, w);
    NinesLargest(nd + 1, q);
    NinesLargest(nd, q / 16);
  }

  // The next lower bound, when lo has not carried out of nd + 1 digits.
  lemma RawLow(k: nat, nd: nat, lo: nat, p: nat)
    requires 0 < nd < k && Valid(9, lo) && lo < Pow(16, nd + 1)
    requires Valid(9, p) && p < Pow(16, nd)
    ensures var lo' := NextLo(DECIMAL, k, lo);
      && Valid(9, lo') && lo' <= Pow(16, nd)
      && (if lo % 16 > 0 then lo' <= p <==> lo / 16 < p else lo' == lo / 16)
      && (lo' > Nines(nd) <==> lo % 16 > 0 && lo / 16 == Nines(nd))
  {
    assert Pow(16, nd + 1) == 16 * Pow(16, nd);
    NinesLargest(nd, lo / 16);
    NinesValid(nd);
    TopDigit(DECIMAL, nd);
    LowTurn(DECIMAL, k, nd, lo, Pow(16, nd));
    if lo / 16 <= p { LowTurn(DECIMAL, k, nd, lo, p); }
    LowTurn(DECIMAL, k, nd, lo, Nines(nd));
  }

  // Hits of one turn on a word whose prefix is not the upper one.
  lemma RawTurn(k: nat, nd: nat, lo: nat, hi: nat, lo': nat, rest: seq<Entry>, w: nat, cap: nat)
    requires 0 < nd < k && Fits(k, rest) && Shift(w, k - 1 - nd) % 16 <= 9
    requires var p := Shift(w, k - 1 - nd) / 16;
      && (Min(hi % 16, 9) < 9 ==> p != hi / 16)
      && (if lo % 16 > 0 then lo' <= p <==> lo / 16 < p else lo' == lo / 16)
      && Hits(k, rest, w) == Count(lo' <= p <= cap)
    ensures var q, es := Shift(w, k - 1 - nd), Turn(DECIMAL, nd, lo, hi) + rest;
      && Fits(k, es)
      && Hits(k, es, w) == Count(lo <= q && (q / 16 <= cap || (lo % 16 > 0 && q / 16 == lo / 16)))
  {
    TurnHits(DECIMAL, k, nd, lo, hi, rest, w);
  }

  // A digit below nine in the last place: the upper entry has no decimal prefix and the rest stops
  // below 99..9.
  lemma RawStops(k: nat, nd: nat, lo: nat, hi: nat, w: nat)
    requires 0 < nd < k && lo <= hi && hi % 16 < 9
    requires Valid(9, lo) && lo < Pow(16, nd + 1) && Nines(nd + 1) < hi < Pow(16, nd + 1)
    requires Valid(9, w) && w < Pow(16, k)
    ensures var q, es := Shift(w, k - 1 - nd), Entries(DECIMAL, k, nd, lo, hi);
      && Fits(k, es)
      && Hits(k, es, w) == Count(lo <= q && (q / 16 <= NextHi(DECIMAL, k, hi) || (lo % 16 > 0 && q / 16 == lo / 16)))
      && NextHi(DECIMAL, k, hi) < Nines(nd)
  {
    hide Hits, IncWord, NextLo, Has, Entries, Turn, Shift;
    assert Pow(16, nd + 1) == 16 * Pow(16, nd);
    var q := Shift(w, k - 1 - nd);
    EntriesUnfold(DECIMAL, k, nd, lo, hi);
    PrefixTooBig(k, nd, w);
    RawPrefix(k, nd, hi / 16);
    NinesLargest(nd, lo / 16);
    NinesValid(nd);
    RawLow(k, nd, lo, q / 16);
    var lo', hi' := NextLo(DECIMAL, k, lo), NextHi(DECIMAL, k, hi);
    EntriesCover(DECIMAL, k, nd - 1, lo', hi', w);
    ShiftStep(w, k - 1 - nd);
    RawTurn(k, nd, lo, hi, lo', Entries(DECIMAL, k, nd - 1, lo', hi'), w, hi');
  }

  // A last place of nine or more: nothing is emitted for the upper bound.
  lemma RawGoesOn(k: nat, nd: nat, lo: nat, hi: nat, w: nat)
    requires 0 < nd < k && lo <= hi && hi % 16 >= 9
    requires Valid(9, lo) && lo < Pow(16, nd + 1) && Nines(nd + 1) < hi < Pow(16, nd + 1)
    requires Valid(9, w) && w < Pow(16, k)
    requires lo / 16 != hi / 16
    requires var rest := Entries(DECIMAL, k, nd - 1, NextLo(DECIMAL, k, lo), hi / 16);
      Fits(k, rest) && Hits(k, rest, w) == Count(NextLo(DECIMAL, k, lo) <= Shift(w, k - nd))
    ensures var q, es := Shift(w, k - 1 - nd), Entries(DECIMAL, k, nd, lo, hi);
      Fits(k, es) && Hits(k, es, w) == Count(lo <= q)
  {
    hide Hits, IncWord, NextLo, Has, Entries, Turn, Shift;
    EntriesUnfold(DECIMAL, k, nd, lo, hi);
    PrefixTooBig(k, nd, w);
    ShiftStep(w, k - 1 - nd);
    var lo' := NextLo(DECIMAL, k, lo);
    RawLow(k, nd, lo, Shift(w, k - 1 - nd) / 16);
    RawTurn(k, nd, lo, hi, lo', Entries(DECIMAL, k, nd - 1, lo', hi / 16), w, Nines(nd));
  }

  // The loop ends because both prefixes are equal, or because no digit is left.
  lemma RawLast(k: nat, nd: nat, lo: nat, hi: nat, w: nat)
    requires nd < k && lo <= hi && hi % 16 >= 9
    requires Nines(nd + 1) < hi < Pow(16, nd + 1)
    requires if nd == 0 then true else lo / 16 == hi / 16 == Nines(nd)
    requires Valid(9, lo) && Valid(9, w) && w < Pow(16, k)
    ensures var q, es := Shift(w, k - 1 - nd), Entries(DECIMAL, k, nd, lo, hi);
      Fits(k, es) && Hits(k, es, w) == Count(lo <= q)
  {
    PrefixTooBig(k, nd, w);
    assert nd == 0 ==> Pow(16, nd + 1) == 16 * Pow(16, 0);
    hide Hits, Entries, Shift;
    EntriesUnfold(DECIMAL, k, nd, lo, hi);
    OneHit(k, Entry(lo / 16, nd, lo % 16, 9), w);
  }

  lemma {:induction false} RawCover(k: nat, nd: nat, lo: nat, hi: nat, w: nat)
    requires nd < k && ReachesNines(nd + 1, lo, hi)
    requires Valid(9, lo) && lo <= Pow(16, nd + 1) && Nines(nd + 1) < hi < Pow(16, nd + 1)
    requires Valid(9, w) && w < Pow(16, k)
    ensures var q, es := Shift(w, k - 1 - nd), Entries(DECIMAL, k, nd, lo, hi);
      Fits(k, es) && Hits(k, es, w) == Count(lo <= q)
    decreases nd
  {
    hide IncWord, NextLo, Has, Shift;
    PrefixTooBig(k, nd, w);
    var plo, phi := lo / 16, hi / 16;
    if lo <= hi {
      if nd == 0 {
        RawLast(k, nd, lo, hi, w);
      } else if hi % 16 < 9 {
        RawAlmostThere(k, nd, lo, hi, w);
      } else if phi == Nines(nd) {
        if plo == phi {
          RawLast(k, nd, lo, hi, w);
        } else {
          RawIsNines(k, nd, lo, hi, w);
        }
      } else {
        RawDescend(k, nd, lo, hi);
        RawKeepsCondition(k, nd, lo, hi);
        RawCover(k, nd - 1, NextLo(DECIMAL, k, lo), phi, w);
        RawGoesOn(k, nd, lo, hi, w);
      }
    }
  }

  // Only the last digit of the upper bound was above nine: 99..9 is left as an ordinary bound.
  lemma RawIsNines(k: nat, nd: nat, lo: nat, hi: nat, w: nat)
    requires 0 < nd < k && lo <= hi && hi % 16 >= 9 && hi / 16 == Nines(nd) && lo / 16 != hi / 16
    requires Valid(9, lo) && Nines(nd + 1) < hi < Pow(16, nd + 1)
    requires Valid(9, w) && w < Pow(16, k)
    ensures var q, es := Shift(w, k - 1 - nd), Entries(DECIMAL, k, nd, lo, hi);
      Fits(k, es) && Hits(k, es, w) == Count(lo <= q)
  {
    hide Hits, IncWord, NextLo, Has, Entries, Shift;
    PrefixTooBig(k, nd, w);
    RawLow(k, nd, lo, Shift(w, k - 1 - nd) / 16);
    NinesValid(nd);
    ShiftStep(w, k - 1 - nd);
    EntriesCover(DECIMAL, k, nd - 1, NextLo(DECIMAL, k, lo), hi / 16, w);
    RawGoesOn(k, nd, lo, hi, w);
  }

  // The lower bound has itself stepped over the last decimal prefix.
  lemma RawAlmostThere(k: nat, nd: nat, lo: nat, hi: nat, w: nat)
    requires 0 < nd < k && lo <= hi && hi % 16 < 9 && ReachesNines(nd + 1, lo, hi)
    requires Valid(9, lo) && Nines(nd + 1) < hi < Pow(16, nd + 1)
    requires Valid(9, w) && w < Pow(16, k)
    ensures var q, es := Shift(w, k - 1 - nd), Entries(DECIMAL, k, nd, lo, hi);
      Fits(k, es) && Hits(k, es, w) == Count(lo <= q)
  {
    RawStops(k, nd, lo, hi, w);
    PrefixTooBig(k, nd, w);
    NinesLargest(nd, lo / 16);
    assert lo > NinesThenZeros(nd + 1, 1) == 16 * Nines(nd);
    assert lo / 16 == Nines(nd) && lo % 16 > 0;
  }

  lemma RawDescend(k: nat, nd: nat, lo: nat, hi: nat)
    requires 0 < nd < k && hi % 16 >= 9 && Nines(nd) < hi / 16
    requires Valid(9, lo) && lo < Pow(16, nd + 1)
    ensures Valid(9, NextLo(DECIMAL, k, lo)) && NextLo(DECIMAL, k, lo) <= Pow(16, nd) && lo / 16 < hi / 16
  {
    assert Pow(16, nd + 1) == 16 * Pow(16, nd);
    NinesLargest(nd, lo / 16);
    NinesValid(nd);
    RawLow(k, nd, lo, Nines(nd));
  }

  // Dropping a last digit of nine or more keeps the condition, and keeps its failure.
  lemma RawKeepsCondition(k: nat, nd: nat, lo: nat, hi: nat)
    requires 0 < nd < k && hi % 16 >= 9
    requires Valid(9, lo) && lo < Pow(16, nd + 1)
    ensures ReachesNines(nd + 1, lo, hi) <==> ReachesNines(nd, NextLo(DECIMAL, k, lo), hi / 16)
  {
    var j := LowBelowNine(hi / 16, nd);
    var lo' := NextLo(DECIMAL, k, lo);
    if j < nd {
      var t := NinesThenZeros(nd, j + 1);
      NinesThenZerosValid(nd, j + 1);
      NinesValid(nd);
      LowExceeds(k, nd, lo, t);
    }
    ReachesDown(nd, lo, lo', hi);
  }

  lemma ReachesDown(nd: nat, lo: nat, lo': nat, hi: nat)
    requires 0 < nd && hi % 16 >= 9
    requires var j := LowBelowNine(hi / 16, nd);
      j < nd ==> (lo' > NinesThenZeros(nd, j + 1) <==> lo > 16 * NinesThenZeros(nd, j + 1))
    ensures ReachesNines(nd + 1, lo, hi) <==> ReachesNines(nd, lo', hi / 16)
  {
    var j := LowBelowNine(hi / 16, nd);
    assert LowBelowNine(hi, nd + 1) == j + 1;
    if j < nd {
      assert NinesThenZeros(nd + 1, j + 2) == 16 * NinesThenZeros(nd, j + 1);
    }
  }

  lemma LowExceeds(k: nat, nd: nat, lo: nat, t: nat)
    requires 0 < nd < k && Valid(9, lo) && lo < Pow(16, nd + 1)
    requires Valid(9, t) && t < Pow(16, nd)
    ensures NextLo(DECIMAL, k, lo) > t <==> lo > 16 * t
  {
    RawLow(k, nd, lo, t);
  }

  // Otherwise 99..9 itself is missed.
  lemma {:induction false} RawMiss(k: nat, nd: nat, lo: nat, hi: nat)
    requires nd < k && !ReachesNines(nd + 1, lo, hi)
    requires Valid(9, lo) && Nines(nd + 1) < hi < Pow(16, nd + 1)
    ensures var es := Entries(DECIMAL, k, nd, lo, hi);
      Fits(k, es) && lo <= Nines(nd + 1) && Hits(k, es, Nines(k)) == 0
    decreases nd
  {
    hide IncWord, NextLo, Hits, Entries;
    NinesThenZerosValid(nd + 1, LowBelowNine(hi, nd + 1) + 1);
    assert lo <= Nines(nd + 1);
    if hi % 16 < 9 {
      RawMissStop(k, nd, lo, hi);
    } else {
      NoneBelowNine(nd);
      assert nd > 0 && hi / 16 > Nines(nd);
      RawDescend(k, nd, lo, hi);
      RawKeepsCondition(k, nd, lo, hi);
      RawMiss(k, nd - 1, NextLo(DECIMAL, k, lo), hi / 16);
      RawMissStep(k, nd, lo, hi);
    }
  }

  lemma RawMissStop(k: nat, nd: nat, lo: nat, hi: nat)
    requires nd < k && hi % 16 < 9 && lo <= NinesThenZeros(nd + 1, 1) && lo <= Nines(nd + 1)
    requires Valid(9, lo) && Nines(nd + 1) < hi < Pow(16, nd + 1)
    ensures var es := Entries(DECIMAL, k, nd, lo, hi);
      Fits(k, es) && Hits(k, es, Nines(k)) == 0
  {
    hide Hits, IncWord, NextLo, Has, Entries;
    assert hi >= 16 * Nines(nd) + 10;
    assert Pow(16, 1) == 16;
    assert nd > 0;
    NinesValid(k);
    ShiftNines(nd + 1, k - 1 - nd);
    RawStops(k, nd, lo, hi, Nines(k));
  }

  lemma {:induction false} NoneBelowNine(n: nat)
    ensures LowBelowNine(Nines(n), n) == n
  {
    if n > 0 { NoneBelowNine(n - 1); }
  }

  lemma RawMissStep(k: nat, nd: nat, lo: nat, hi: nat)
    requires 0 < nd < k && lo <= hi && hi % 16 >= 9 && lo / 16 < hi / 16
    requires !ReachesNines(nd + 1, lo, hi) && LowBelowNine(hi / 16, nd) < nd
    requires Valid(9, lo)
    requires var rest := Entries(DECIMAL, k, nd - 1, NextLo(DECIMAL, k, lo), hi / 16);
      Fits(k, rest) && Hits(k, rest, Nines(k)) == 0
    ensures var es := Entries(DECIMAL, k, nd, lo, hi);
      Fits(k, es) && Hits(k, es, Nines(k)) == 0
  {
    hide Hits, IncWord, NextLo, Has, Entries, Turn, Shift;
    EntriesUnfold(DECIMAL, k, nd, lo, hi);
    var w := Nines(k);
    ShiftNines(nd + 1, k - 1 - nd);
    NinesThenZerosValid(nd, LowBelowNine(hi / 16, nd) + 1);
    assert lo <= 16 * Nines(nd);
    TurnHits(DECIMAL, k, nd, lo, hi, Entries(DECIMAL, k, nd - 1, NextLo(DECIMAL, k, lo), hi / 16), w);
  }
}
