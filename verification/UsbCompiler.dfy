/** The table printer itself: aliases are assembled piece by piece and appended to the output
    buffer, and the range loop shifts its two bounds and its digit count in place. */
module UsbCompiler {
  import opened HexWords
  import opened UsbRange
  import opened UsbBounds
  import opened UsbText
  import opened UsbAlias
  import opened UsbTable

  method AddRange(alias: string, lo: nat, hi: nat, max: nat) returns (r: string)
    requires lo < 16 && hi < 16
    ensures r == alias + DigitText(lo, hi, max)
  {
    r := alias;
    if lo == hi {
      r := r + FormatX(1, lo);
      OneDigit(lo);
    } else if lo > 0 || hi < max {
      if lo > 0x9 || hi < 0xA {
        r := r + ("[" + ([HexChar(lo)] + "-" + [HexChar(hi)]) + "]");
      } else {
        r := r + if lo < 0x9 then "[" + [HexChar(lo)] + "-9" else "[" + [HexChar(lo)];
        r := r + if hi > 0xA then "A-" + [HexChar(hi)] + "]" else [HexChar(hi)] + "]";
      }
    }
  }

  method AddDevice(alias: string, k: nat, e: Entry, max: nat) returns (r: string)
    requires e.lo < 16 && e.hi < 16 && 0 < k
    ensures r == alias + "d" + DeviceText(k, e, max)
  {
    hide DigitText, FormatX;
    r := alias + "d";
    if e.ndigits > 0 {
      r := r + FormatX(e.ndigits, e.prefix);
    }
    assert r == (alias + "d") + PrefixText(e);
    r := AddRange(r, e.lo, e.hi, max);
    assert r == (alias + "d") + (PrefixText(e) + DigitText(e.lo, e.hi, max));
    if e.ndigits < k - 1 {
      r := r + "*";
    }
  }

  // What each step of the assembly keeps.
  ghost predicate Assembled(alias: string, texts: seq<string>, i: nat) {
    i <= |TAGS| == |texts| && alias == "usb:" + Join(TAGS[..i], texts[..i])
  }

  lemma OneMore(texts: seq<string>, i: nat, alias: string, tag: string, text: string)
    requires i < |TAGS| && Assembled(alias, texts, i) && tag == TAGS[i] && text == texts[i]
    ensures Assembled(alias + tag + text, texts, i + 1)
  {
    JoinAppend(TAGS, texts, i);
    Assoc("usb:", Join(TAGS[..i], texts[..i]), tag);
    Assoc("usb:", Join(TAGS[..i], texts[..i]) + tag, text);
  }

  lemma TextsAre(k: nat, id: UsbId, e: Entry, max: nat)
    requires e.lo < 16 && e.hi < 16
    ensures var ts := Texts(k, id, e, max);
      && ts[0] == OptText(4, id.vendor) && ts[1] == OptText(4, id.product) && ts[2] == DeviceText(k, e, max)
      && ts[3] == OptText(2, id.devClass) && ts[4] == OptText(2, id.devSubClass)
      && ts[5] == OptText(2, id.devProtocol) && ts[6] == OptText(2, id.intClass)
      && ts[7] == OptText(2, id.intSubClass) && ts[8] == OptText(2, id.intProtocol)
      && ts[9] == OptText(2, id.intNumber)
  {
  }

  // The ADD macro: the tag, then the value at full width or a star.  It is the i-th field of a row.
  method AddField(alias: string, ghost texts: seq<string>, ghost i: nat, tag: string, width: nat, f: Field)
    returns (r: string)
    requires i < |TAGS| && Assembled(alias, texts, i) && tag == TAGS[i] && OptText(width, f) == texts[i]
    ensures r == alias + tag + OptText(width, f)
    ensures Assembled(r, texts, i + 1)
  {
    r := alias + tag;
    if f.matched {
      r := r + FormatX(width, f.value);
    } else {
      r := r + "*";
    }
    OneMore(texts, i, alias, tag, OptText(width, f));
  }

  method AllFields(k: nat, id: UsbId, e: Entry, max: nat) returns (alias: string)
    requires e.lo < 16 && e.hi < 16 && 0 < k
    ensures alias == "usb:" + Join(TAGS, Texts(k, id, e, max))
  {
    ghost var texts := Texts(k, id, e, max);
    TextsAre(k, id, e, max);
    alias := "usb:";
    alias := AddField(alias, texts, 0, "v", 4, id.vendor);
    alias := AddField(alias, texts, 1, "p", 4, id.product);
    OneMore(texts, 2, alias, "d", texts[2]);
    alias := AddDevice(alias, k, e, max);
    alias := AddField(alias, texts, 3, "dc", 2, id.devClass);
    alias := AddField(alias, texts, 4, "dsc", 2, id.devSubClass);
    alias := AddField(alias, texts, 5, "dp", 2, id.devProtocol);
    alias := AddField(alias, texts, 6, "ic", 2, id.intClass);
    alias := AddField(alias, texts, 7, "isc", 2, id.intSubClass);
    alias := AddField(alias, texts, 8, "ip", 2, id.intProtocol);
    alias := AddField(alias, texts, 9, "in", 2, id.intNumber);
    assert TAGS[..10] == TAGS && texts[..10] == texts;
  }

  class AliasTable {
    var lines: seq<string>

    constructor ()
      ensures lines == []
    {
      lines := [];
    }

    method DoUsbEntry(k: nat, id: UsbId, e: Entry, max: nat)
      requires e.lo < 16 && e.hi < 16 && 0 < k
      modifies this
      ensures lines == old(lines) + [AliasText(k, id, e, max)]
    {
      var alias := AllFields(k, id, e, max);
      LastCharacter(k, id, e, max);
      if alias[|alias| - 1] != '*' {
        alias := alias + "*";
      } else {
        assert alias + "" == alias;
      }
      lines := lines + [alias];
    }

    // The two optional calls of a turn that goes on, each with its step over the prefix it has
    // dealt with.
    method DoUsbTurn(k: nat, id: UsbId, max: nat, ndigits: nat, lo: nat, hi: nat) returns (devlo: nat, devhi: nat)
      requires 2 <= k && max <= 15
      modifies this
      ensures lines == old(lines) + Aliases(k, id, max, Turn(max, ndigits, lo, hi))
      ensures devlo == NextLo(max, k, lo) && devhi == NextHi(max, k, hi)
    {
      var clo, chi := lo % 16, hi % 16;
      if chi > max {
        chi := max;
      }
      devlo, devhi := lo / 16, hi / 16;
      ghost var first := [];
      if clo > 0 {
        var init;
        init, devlo := IncBcd(devlo, 1, max, k);
        DoUsbEntry(k, id, Entry(init, ndigits, clo, max), max);
        first := [Entry(init, ndigits, clo, max)];
        AliasesAppend(k, id, max, [], first[0]);
      }
      if chi < max {
        var init;
        init, devhi := IncBcd(devhi, -1, max, k);
        DoUsbEntry(k, id, Entry(init, ndigits, 0, chi), max);
        AliasesAppend(k, id, max, first, Entry(init, ndigits, 0, chi));
      }
    }

    // The digit count is decremented only on turns that start above zero: the loop ends by its
    // break at zero digits at the latest.
    method DoUsbRange(k: nat, id: UsbId, max: nat, lo: nat, hi: nat)
      requires 2 <= k && max <= 15
      modifies this
      ensures lines == old(lines) + RangeLines(k, id, max, k - 1, lo, hi)
    {
      hide Entries, Aliases, RangeLines, NextLo, NextHi;
      var devlo: nat, devhi: nat, ndigits := lo, hi, k - 1;
      while devlo <= devhi
        invariant 0 <= ndigits < k
        invariant lines + RangeLines(k, id, max, ndigits, devlo, devhi)
               == old(lines) + RangeLines(k, id, max, k - 1, lo, hi)
        decreases ndigits
      {
        if devlo / 16 == devhi / 16 || ndigits == 0 {
          var chi := if devhi % 16 > max then max else devhi % 16;
          LastLine(k, id, max, ndigits, devlo, devhi);
          DoUsbEntry(k, id, Entry(devlo / 16, ndigits, devlo % 16, chi), max);
          return;
        }
        TurnLines(k, id, max, ndigits, devlo, devhi, lines);
        devlo, devhi := DoUsbTurn(k, id, max, ndigits, devlo, devhi);
        ndigits := ndigits - 1;
      }
      NoLines(k, id, max, ndigits, devlo, devhi);
    }

    method DoUsbEntryMulti(k: nat, id: UsbId)
      requires 2 <= k && TypedId(k, id)
      modifies this
      ensures lines == old(lines) + LinesOf(k, id)
    {
      var devlo: nat := if id.devLo.matched then id.devLo.value else 0;
      var devhi: nat := if id.devHi.matched then id.devHi.value else Ones(2 * k);
      var max := DetectBase(k, devlo, devhi);
      if id.vendor.value == 0 && id.product.value == 0 && id.devClass.value == 0 && id.intClass.value == 0 {
        return;
      }
      DoUsbRange(k, id, max, devlo, devhi);
    }
  }

  // What the loop prints from where it stands.
  function RangeLines(k: nat, id: UsbId, max: nat, nd: nat, lo: nat, hi: nat): seq<string>
    requires max <= 15
  {
    Aliases(k, id, max, Entries(max, k, nd, lo, hi))
  }

  lemma TurnLines(k: nat, id: UsbId, max: nat, nd: nat, lo: nat, hi: nat, lines: seq<string>)
    requires max <= 15 && 0 < nd && lo <= hi && lo / 16 != hi / 16
    ensures (lines + Aliases(k, id, max, Turn(max, nd, lo, hi)))
              + RangeLines(k, id, max, nd - 1, NextLo(max, k, lo), NextHi(max, k, hi))
         == lines + RangeLines(k, id, max, nd, lo, hi)
  {
    AliasesTurn(k, id, max, nd, lo, hi);
    Assoc(lines, Aliases(k, id, max, Turn(max, nd, lo, hi)),
          RangeLines(k, id, max, nd - 1, NextLo(max, k, lo), NextHi(max, k, hi)));
  }

  lemma LastLine(k: nat, id: UsbId, max: nat, nd: nat, lo: nat, hi: nat)
    requires max <= 15 && lo <= hi && (lo / 16 == hi / 16 || nd == 0)
    ensures RangeLines(k, id, max, nd, lo, hi)
         == [AliasText(k, id, Entry(lo / 16, nd, lo % 16, Min(hi % 16, max)), max)]
  {
    var e := Entry(lo / 16, nd, lo % 16, Min(hi % 16, max));
    AliasesAppend(k, id, max, [], e);
    assert [] + [e] == [e];
  }

  lemma NoLines(k: nat, id: UsbId, max: nat, nd: nat, lo: nat, hi: nat)
    requires max <= 15 && lo > hi
    ensures RangeLines(k, id, max, nd, lo, hi) == []
  {
  }

  lemma AliasesTurn(k: nat, id: UsbId, max: nat, nd: nat, lo: nat, hi: nat)
    requires max <= 15 && 0 < nd && lo <= hi && lo / 16 != hi / 16
    ensures var rest := Entries(max, k, nd - 1, NextLo(max, k, lo), NextHi(max, k, hi));
      Aliases(k, id, max, Entries(max, k, nd, lo, hi))
         == Aliases(k, id, max, Turn(max, nd, lo, hi)) + Aliases(k, id, max, rest)
  {
    AliasesConcat(k, id, max, Turn(max, nd, lo, hi), Entries(max, k, nd - 1, NextLo(max, k, lo), NextHi(max, k, hi)));
  }

  lemma {:induction false} AliasesConcat(k: nat, id: UsbId, max: nat, a: seq<Entry>, b: seq<Entry>)
    requires forall x :: x in a + b ==> x.lo < 16 && x.hi < 16
    ensures Aliases(k, id, max, a + b) == Aliases(k, id, max, a) + Aliases(k, id, max, b)
  {
    if a == [] {
      assert a + b == b;
    } else {
      assert (a + b)[0] == a[0] && (a + b)[1..] == a[1..] + b;
      AliasesConcat(k, id, max, a[1..], b);
    }
  }

  lemma {:induction false} AliasesAppend(k: nat, id: UsbId, max: nat, es: seq<Entry>, e: Entry)
    requires forall x :: x in es + [e] ==> x.lo < 16 && x.hi < 16
    ensures Aliases(k, id, max, es + [e]) == Aliases(k, id, max, es) + [AliasText(k, id, e, max)]
  {
    if es == [] {
      assert es + [e] == [e] && [e][1..] == [];
    } else {
      assert (es + [e])[0] == es[0] && (es + [e])[1..] == es[1..] + [e];
      AliasesAppend(k, id, max, es[1..], e);
    }
  }
}
