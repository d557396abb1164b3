/** Unsigned machine words seen as rows of hexadecimal digits: shifts by whole digits, upper-case
    hexadecimal text, and words whose digits are all decimal (binary-coded decimal, BCD). */
module HexWords {

  function Pow(b: nat, n: nat): (p: nat)
    ensures b > 0 ==> p > 0
  {
    if n == 0 then 1 else b * Pow(b, n - 1)
  }

  // w >> (4 * m)
  function Shift(w: nat, m: nat): nat {
    if m == 0 then w else Shift(w / 16, m - 1)
  }

  // The low n digits of a, two's complement when a is negative: what an n-digit unsigned word keeps.
  function Wrap(a: int, n: nat): nat
    decreases n
  {
    if n == 0 then 0 else a % 16 + 16 * Wrap(a / 16, n - 1)
  }

  // Every digit of w is at most max.
  predicate Valid(max: nat, w: nat) {
    w == 0 || (w % 16 <= max && Valid(max, w / 16))
  }

  function HexChar(d: nat): char
    requires d < 16
  {
    if d < 10 then (d + '0' as int) as char else (d - 10 + 'A' as int) as char
  }

  // The low n digits of w, most significant first.
  function HexText(n: nat, w: nat): (s: string)
    ensures |s| == n
  {
    if n == 0 then "" else HexText(n - 1, w / 16) + [HexChar(w % 16)]
  }

  function DigitCount(w: nat): nat {
    if w < 16 then 1 else 1 + DigitCount(w / 16)
  }

  // printf("%0*X", width, w): at least `width` digits, more when w needs them.
  function FormatX(width: nat, w: nat): string {
    HexText(if width < DigitCount(w) then DigitCount(w) else width, w)
  }

  // ---------- digits and shifts ----------

  lemma {:induction false} WrapSmall(a: nat, n: nat)
    requires a < Pow(16, n)
    ensures Wrap(a, n) == a
  {
    if n > 0 { WrapSmall(a / 16, n - 1); }
  }

  lemma OneDigit(d: nat)
    requires d < 16
    ensures FormatX(1, d) == [HexChar(d)]
  {
    assert HexText(1, d) == HexText(0, d / 16) + [HexChar(d)];
  }

  lemma {:induction false} ShiftStep(w: nat, m: nat)
    ensures Shift(w, m + 1) == Shift(w, m) / 16
  {
    if m > 0 { ShiftStep(w / 16, m - 1); }
  }

  lemma {:induction false} ShiftBound(w: nat, n: nat, m: nat)
    requires w < Pow(16, n + m)
    ensures Shift(w, m) < Pow(16, n)
  {
    if m > 0 {
      assert Pow(16, n + m) == 16 * Pow(16, n + m - 1);
      ShiftBound(w / 16, n, m - 1);
    }
  }

  lemma {:induction false} ShiftValid(max: nat, w: nat, m: nat)
    requires Valid(max, w)
    ensures Valid(max, Shift(w, m))
  {
    if m > 0 { ShiftValid(max, w / 16, m - 1); }
  }

  lemma {:induction false} FewDigits(w: nat, n: nat)
    requires n > 0 && w < Pow(16, n)
    ensures DigitCount(w) <= n
  {
    if n == 1 {
      assert Pow(16, 1) == 16 * Pow(16, 0);
    } else if w >= 16 {
      FewDigits(w / 16, n - 1);
    }
  }

  lemma {:induction false} HexSplit(a: nat, b: nat, w: nat)
    ensures HexText(a + b, w) == HexText(a, Shift(w, b)) + HexText(b, w)
  {
    if b == 0 {
      assert HexText(0, w) == "";
    } else {
      HexSplit(a, b - 1, w / 16);
      var high, low, last := HexText(a, Shift(w, b)), HexText(b - 1, w / 16), [HexChar(w % 16)];
      assert (high + low) + last == high + (low + last);
    }
  }

  lemma {:induction false} HexInjective(n: nat, x: nat, y: nat)
    requires x < Pow(16, n) && y < Pow(16, n)
    requires HexText(n, x) == HexText(n, y)
    ensures x == y
  {
    if n == 0 {
      assert Pow(16, 0) == 1;
    } else {
      var a, b := HexText(n - 1, x / 16), HexText(n - 1, y / 16);
      LastAndRest(a, HexChar(x % 16), b, HexChar(y % 16));
      HexInjective(n - 1, x / 16, y / 16);
    }
  }

  lemma LastAndRest(a: string, c: char, b: string, d: char)
    requires a + [c] == b + [d]
    ensures a == b && c == d
  {
    assert |a + [c]| == |a| + 1 && |b + [d]| == |b| + 1;
    assert (a + [c])[|a|] == c && (b + [d])[|b|] == d;
    assert a == (a + [c])[..|a|] && b == (b + [d])[..|b|];
  }

  lemma {:induction false} AllValid(w: nat)
    ensures Valid(15, w)
  {
    if w > 0 { AllValid(w / 16); }
  }

  // ---------- binary-coded decimal ----------

  function Clamp9(d: nat): nat {
    if d > 9 then 9 else d
  }

  // The decimal number written in the low n digits of w, every digit forced into 0..9.
  function Decode(w: nat, n: nat): nat {
    if n == 0 then 0 else Clamp9(w % 16) + 10 * Decode(w / 16, n - 1)
  }

  // The low n decimal digits of d, one per hexadecimal digit.
  function Encode(d: nat, n: nat): nat {
    if n == 0 then 0 else d % 10 + 16 * Encode(d / 10, n - 1)
  }

  lemma {:induction false} DecodeBound(w: nat, n: nat)
    ensures Decode(w, n) < Pow(10, n)
  {
    if n > 0 { DecodeBound(w / 16, n - 1); }
  }

  lemma {:induction false} EncodeIsBcd(d: nat, n: nat)
    ensures Encode(d, n) < Pow(16, n) && Valid(9, Encode(d, n))
    ensures d < Pow(10, n) ==> Decode(Encode(d, n), n) == d
  {
    if n > 0 {
      EncodeIsBcd(d / 10, n - 1);
      var e := Encode(d, n);
      assert e % 16 == d % 10 && e / 16 == Encode(d / 10, n - 1);
    }
  }

  // On BCD words the order of the words is the order of the decimal numbers.
  lemma {:induction false} BcdOrder(x: nat, y: nat, n: nat)
    requires Valid(9, x) && Valid(9, y) && x < Pow(16, n) && y < Pow(16, n)
    ensures x < y <==> Decode(x, n) < Decode(y, n)
    decreases n
  {
    if n > 0 {
      BcdOrder(x / 16, y / 16, n - 1);
      BcdOrder(y / 16, x / 16, n - 1);
      assert x == 16 * (x / 16) + x % 16 && y == 16 * (y / 16) + y % 16;
    }
  }

  lemma TimesPow(b: nat, c: nat, i: nat)
    ensures b * (c * Pow(b, i)) == c * Pow(b, i + 1)
  {
    var p := Pow(b, i);
    assert b * (c * p) == c * (b * p);
  }

  lemma {:induction false} DecodeTop(w: nat, i: nat)
    ensures Decode(w, i + 1) == Decode(w, i) + Clamp9(Shift(w, i) % 16) * Pow(10, i)
  {
    if i == 0 {
      assert Decode(w, 1) == Clamp9(w % 16) + 10 * Decode(w / 16, 0);
    } else {
      DecodeTop(w / 16, i - 1);
      TimesPow(10, Clamp9(Shift(w, i) % 16), i - 1);
    }
  }

  lemma DivTwice(d: nat, p: nat)
    requires p > 0
    ensures d / 10 / p == d / (10 * p)
  {
    var q, r := d / 10 / p, d / 10 % p;
    assert d / 10 == p * q + r;
    assert d == (10 * p) * q + (10 * r + d % 10) by {
      assert 10 * (p * q) == (10 * p) * q;
    }
    Quotient(d, 10 * p, q, 10 * r + d % 10);
  }

  lemma Quotient(d: nat, m: nat, q: nat, r: nat)
    requires d == m * q + r && r < m
    ensures d / m == q
  {
    var gap := d / m - q;
    assert m * gap == r - d % m by {
      assert d == m * (d / m) + d % m;
      assert m * gap == m * (d / m) - m * q;
    }
    assert gap >= 1 ==> m * gap >= m;
    assert gap <= -1 ==> m * gap + m <= 0;
  }

  lemma {:induction false} EncodeTop(d: nat, i: nat)
    ensures Encode(d, i + 1) == Encode(d, i) + (d / Pow(10, i) % 10) * Pow(16, i)
  {
    if i == 0 {
      assert Encode(d, 1) == d % 10 + 16 * Encode(d / 10, 0);
    } else {
      EncodeTop(d / 10, i - 1);
      DivTwice(d, Pow(10, i - 1));
      TimesPow(16, d / Pow(10, i) % 10, i - 1);
    }
  }
}
