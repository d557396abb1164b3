/** The splitting loop as a whole: for which bounds the entries are exactly the range asked for. */
module UsbExact {
  import opened HexWords
  import opened UsbRange
  import opened UsbBounds
  import opened UsbRawBound

  // The loop starts with all digits but the last one as prefix.
  function Split(k: nat, lo: nat, hi: nat): seq<Entry>
    requires 2 <= k
  {
    Entries(Mode(k, lo, hi), k, k - 1, lo, hi)
  }

  // A lower bound of k digits; an upper bound of k digits, or a full word of ones for "none".
  predicate IsRange(k: nat, lo: nat, hi: nat) {
    lo < Pow(16, k) && (hi < Pow(16, k) || hi == Ones(2 * k))
  }

  // Exactly when the entries are right, in terms of the bounds alone.
  predicate Sound(k: nat, lo: nat, hi: nat)
    requires 2 <= k
  {
    if hi == Ones(2 * k) then lo <= Top(Mode(k, lo, hi), k - 1)
    else Mode(k, lo, hi) == HEX || hi <= Nines(k) || ReachesNines(k, lo, hi)
  }

  ghost predicate CoversExactly(k: nat, lo: nat, hi: nat)
    requires 2 <= k
  {
    && Fits(k, Split(k, lo, hi))
    && forall w: nat :: Valid(Mode(k, lo, hi), w) && w < Pow(16, k) ==>
         Hits(k, Split(k, lo, hi), w) == Count(lo <= w <= hi)
  }

  lemma ModeIs(k: nat, lo: nat, hi: nat)
    requires 2 <= k && IsRange(k, lo, hi)
    ensures var max := Mode(k, lo, hi);
      && (max == DECIMAL || max == HEX) && Valid(max, lo)
      && (max == DECIMAL <==> Valid(9, lo) && (hi > Nines(k) || Valid(9, hi)))
      && (hi > Nines(k) || Valid(max, hi))
      && (max == HEX && hi < Pow(16, k) ==> Valid(max, hi))
  {
    WrapSmall(lo, k);
    NinesValid(k);
    WrapSmall(Min(hi, Nines(k)), k);
    AllValid(lo);
    AllValid(hi);
  }

  lemma OnesIsLarge(k: nat)
    requires 2 <= k
    ensures Pow(16, k) <= Ones(2 * k) && Nines(k) < Ones(2 * k)
  {
    OnesValue(2 * k);
    PowGrows(16, 16, k + 1, 2 * k);
    NinesValid(k);
  }

  lemma ShiftNone(w: nat)
    ensures Shift(w, 0) == w
  {
  }

  // No upper bound.
  lemma OpenHits(max: nat, k: nat, lo: nat, w: nat)
    requires (max == DECIMAL || max == HEX) && 2 <= k && Valid(max, lo) && lo <= Top(max, k - 1)
    requires Valid(max, w) && w < Pow(16, k)
    ensures var es := Entries(max, k, k - 1, lo, Ones(2 * k));
      Fits(k, es) && Hits(k, es, w) == Count(lo <= w <= Ones(2 * k))
  {
    hide Hits, Entries, Valid, Shift, Ones, Pow, Top;
    ShiftNone(w);
    OnesIsLarge(k);
    OpenCover(max, k, k - 1, lo, w);
  }

  // Both bounds valid in the base.
  lemma ValidHits(max: nat, k: nat, lo: nat, hi: nat, w: nat)
    requires (max == DECIMAL || max == HEX) && 2 <= k
    requires Valid(max, lo) && Valid(max, hi) && hi < Pow(16, k) && Valid(max, w) && w < Pow(16, k)
    ensures var es := Entries(max, k, k - 1, lo, hi); Fits(k, es) && Hits(k, es, w) == Count(lo <= w <= hi)
  {
    hide Hits, Entries, Valid, Shift, Pow;
    ShiftNone(w);
    EntriesCover(max, k, k - 1, lo, hi, w);
  }

  // A clamped upper bound in decimal mode.
  lemma ClampedHits(k: nat, lo: nat, hi: nat, w: nat)
    requires 2 <= k && Valid(9, lo) && lo < Pow(16, k) && Nines(k) < hi < Pow(16, k) && ReachesNines(k, lo, hi)
    requires Valid(9, w) && w < Pow(16, k)
    ensures var es := Entries(DECIMAL, k, k - 1, lo, hi); Fits(k, es) && Hits(k, es, w) == Count(lo <= w <= hi)
  {
    hide Hits, Entries, Valid, Shift, Pow, Nines, ReachesNines;
    ShiftNone(w);
    RawCover(k, k - 1, lo, hi, w);
    NinesLargest(k, w);
  }

  // Under the condition every valid word is hit once or not at all, as it should be.
  lemma SoundHits(k: nat, lo: nat, hi: nat, w: nat)
    requires 2 <= k && IsRange(k, lo, hi) && Sound(k, lo, hi)
    requires Valid(Mode(k, lo, hi), w) && w < Pow(16, k)
    ensures Fits(k, Split(k, lo, hi)) && Hits(k, Split(k, lo, hi), w) == Count(lo <= w <= hi)
  {
    hide Hits, Fits, Count, Entries, Mode, Valid, Ones, Nines, Pow, Top, ReachesNines;
    var max := Mode(k, lo, hi);
    ModeIs(k, lo, hi);
    if hi == Ones(2 * k) {
      OpenHits(max, k, lo, w);
    } else if max == HEX || hi <= Nines(k) {
      ValidHits(max, k, lo, hi, w);
    } else {
      ClampedHits(k, lo, hi, w);
    }
  }

  // Without it one word shows that the cover is wrong.
  lemma UnsoundWitness(k: nat, lo: nat, hi: nat) returns (w: nat)
    requires 2 <= k && IsRange(k, lo, hi) && !Sound(k, lo, hi)
    ensures Valid(Mode(k, lo, hi), w) && w < Pow(16, k)
    ensures Fits(k, Split(k, lo, hi)) && Hits(k, Split(k, lo, hi), w) != Count(lo <= w <= hi)
  {
    hide Hits, IncWord, Shift;
    var max := Mode(k, lo, hi);
    ModeIs(k, lo, hi);
    if hi == Ones(2 * k) {
      w := 0;
      OpenCarry(max, k, k - 1, lo, w);
    } else {
      w := Nines(k);
      NinesValid(k);
      assert hi < Pow(16, k) && !ReachesNines(k, lo, hi);
      RawMiss(k, k - 1, lo, hi);
    }
  }

  /** The entries hit every valid word of the range exactly once and no other valid word,
      if and only if the bounds are sound. */
  lemma SplitIsExact(k: nat, lo: nat, hi: nat)
    requires 2 <= k && IsRange(k, lo, hi)
    ensures CoversExactly(k, lo, hi) <==> Sound(k, lo, hi)
    ensures |Split(k, lo, hi)| <= 2 * k - 1
  {
    if Sound(k, lo, hi) {
      forall w: nat | Valid(Mode(k, lo, hi), w) && w < Pow(16, k)
        ensures Hits(k, Split(k, lo, hi), w) == Count(lo <= w <= hi)
      {
        SoundHits(k, lo, hi, w);
      }
    } else {
      var w := UnsoundWitness(k, lo, hi);
    }
  }

  // The bounds the program works with: k = 4.
  lemma FourDigits()
    ensures Pow(16, 4) == 0x1_0000 && Ones(8) == 0xFFFF_FFFF && Nines(4) == 0x9999
    ensures Top(DECIMAL, 3) == 0x9000 && Top(HEX, 3) == 0xF000
  {
    assert Pow(16, 4) == 16 * Pow(16, 3) && Pow(16, 3) == 16 * Pow(16, 2) && Pow(16, 2) == 16 * Pow(16, 1);
    assert Ones(8) == 15 + 16 * Ones(7) && Ones(7) == 15 + 16 * Ones(6) && Ones(6) == 15 + 16 * Ones(5);
    assert Ones(5) == 15 + 16 * Ones(4) && Ones(4) == 15 + 16 * Ones(3) && Ones(3) == 15 + 16 * Ones(2);
    assert Nines(4) == 9 + 16 * Nines(3) && Nines(3) == 9 + 16 * Nines(2);
    assert Top(DECIMAL, 3) == 16 * Top(DECIMAL, 2) && Top(DECIMAL, 2) == 16 * Top(DECIMAL, 1);
    assert Top(HEX, 3) == 16 * Top(HEX, 2) && Top(HEX, 2) == 16 * Top(HEX, 1);
  }

  // ---------- what every entry looks like ----------

  // The bounds while the loop runs.
  predicate Running(max: nat, k: nat, nd: nat, lo: nat, hi: nat) {
    && (max == DECIMAL || max == HEX) && nd < k
    && Valid(max, lo) && lo <= Pow(16, nd + 1)
    && (|| hi == Ones(k + nd + 1)
        || (hi < Pow(16, nd + 1) && (Valid(max, hi) || (max == DECIMAL && hi > Nines(nd + 1)))))
  }

  predicate Sane(max: nat, e: Entry) {
    e.lo <= e.hi <= max && (e.ndigits > 0 ==> e.prefix < Pow(16, e.ndigits))
  }

  predicate WholeRange(max: nat, e: Entry) {
    e.lo == 0 && e.hi == max
  }

  lemma RunningLow(max: nat, k: nat, nd: nat, lo: nat, hi: nat)
    requires Running(max, k, nd, lo, hi) && 0 < nd && lo <= hi && lo / 16 != hi / 16
    ensures Valid(max, NextLo(max, k, lo)) && NextLo(max, k, lo) <= Pow(16, nd)
  {
    hide IncWord, NextLo;
    assert Pow(16, nd + 1) == 16 * Pow(16, nd);
    TopDigit(max, nd);
    OnesValue(k + nd + 1);
    LowTurn(max, k, nd, lo, Pow(16, nd));
  }

  lemma NinesStep(n: nat)
    ensures Nines(n + 1) == 9 + 16 * Nines(n)
  {
  }

  lemma RunningHigh(max: nat, k: nat, nd: nat, lo: nat, hi: nat)
    requires Running(max, k, nd, lo, hi) && 0 < nd && lo <= hi && lo / 16 != hi / 16
    ensures var n := NextHi(max, k, hi);
      || n == Ones(k + nd)
      || (n < Pow(16, nd) && (Valid(max, n) || (max == DECIMAL && n > Nines(nd))))
  {
    hide IncWord, Ones, Nines;
    assert Pow(16, nd + 1) == 16 * Pow(16, nd);
    OnesDigit(k + nd);
    if hi == Ones(k + nd + 1) {
      assert NextHi(max, k, hi) == Ones(k + nd);
    } else if Valid(max, hi) {
      PowGrows(16, 16, nd, k);
      PreviousWord(max, k, lo / 16, hi / 16);
    } else {
      NinesStep(nd);
      NinesValid(nd);
      if Nines(nd) < hi / 16 && hi % 16 < 9 { RawPrefix(k, nd, hi / 16); }
    }
  }

  lemma TurnSane(max: nat, k: nat, nd: nat, lo: nat, hi: nat)
    requires Running(max, k, nd, lo, hi) && 0 < nd && lo <= hi && lo / 16 != hi / 16
    ensures forall e :: e in Turn(max, nd, lo, hi) ==>
      Sane(max, e) && e.ndigits == nd && !WholeRange(max, e)
  {
    assert Pow(16, nd + 1) == 16 * Pow(16, nd);
    OnesValue(k + nd + 1);
    if hi == Ones(k + nd + 1) { assert hi % 16 == 15; }
  }

  lemma RunningStep(max: nat, k: nat, nd: nat, lo: nat, hi: nat)
    requires Running(max, k, nd, lo, hi) && 0 < nd && lo <= hi && lo / 16 != hi / 16
    ensures Running(max, k, nd - 1, NextLo(max, k, lo), NextHi(max, k, hi))
    ensures forall e :: e in Turn(max, nd, lo, hi) ==>
      Sane(max, e) && e.ndigits == nd && !WholeRange(max, e)
  {
    RunningLow(max, k, nd, lo, hi);
    RunningHigh(max, k, nd, lo, hi);
    TurnSane(max, k, nd, lo, hi);
    hide IncWord, NextLo, NextHi, Turn, Pow, Valid;
  }

  lemma LastSane(max: nat, k: nat, nd: nat, lo: nat, hi: nat)
    requires Running(max, k, nd, lo, hi) && lo <= hi && (lo / 16 == hi / 16 || nd == 0)
    ensures Sane(max, Entry(lo / 16, nd, lo % 16, Min(hi % 16, max)))
  {
    assert Pow(16, nd + 1) == 16 * Pow(16, nd);
    assert nd == 0 ==> Pow(16, 0) == 1;
    OnesValue(k + nd + 1);
    OnesValue(k + nd);
    PowGrows(16, 16, nd + 1, k + nd);
  }

  lemma {:induction false} EntriesSane(max: nat, k: nat, nd: nat, lo: nat, hi: nat)
    requires Running(max, k, nd, lo, hi)
    ensures forall e :: e in Entries(max, k, nd, lo, hi) ==> Sane(max, e) && e.ndigits <= nd
    ensures nd > 0 && !(lo <= hi && lo / 16 == hi / 16) ==>
      forall e :: e in Entries(max, k, nd, lo, hi) ==> e.ndigits == nd ==> !WholeRange(max, e)
    decreases nd
  {
    if lo <= hi {
      if lo / 16 == hi / 16 || nd == 0 {
        LastSane(max, k, nd, lo, hi);
      } else {
        RunningStep(max, k, nd, lo, hi);
        EntriesSane(max, k, nd - 1, NextLo(max, k, lo), NextHi(max, k, hi));
      }
    }
  }

  // The one range whose only entry leaves the last digit free after k - 1 fixed ones.
  predicate Blank(k: nat, lo: nat, hi: nat)
    requires 2 <= k
  {
    lo <= hi && lo / 16 == hi / 16 && lo % 16 == 0 && hi % 16 >= Mode(k, lo, hi)
  }

  lemma SplitSane(k: nat, lo: nat, hi: nat)
    requires 2 <= k && IsRange(k, lo, hi)
    ensures var max := Mode(k, lo, hi);
      && Fits(k, Split(k, lo, hi))
      && (forall e :: e in Split(k, lo, hi) ==> Sane(max, e))
      && (Blank(k, lo, hi) ==> Split(k, lo, hi) == [Entry(lo / 16, k - 1, 0, max)])
      && (!Blank(k, lo, hi) ==>
            forall e :: e in Split(k, lo, hi) ==> e.ndigits == k - 1 ==> !WholeRange(max, e))
  {
    var max := Mode(k, lo, hi);
    ModeIs(k, lo, hi);
    assert Running(max, k, k - 1, lo, hi);
    EntriesSane(max, k, k - 1, lo, hi);
  }
}
