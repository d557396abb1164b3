/** From a USB device-table entry to alias lines, and the meaning of the lines: the devices whose
    flagged fields agree and whose device number lies in the range. */
module UsbTable {
  import opened Glob
  import opened HexWords
  import opened UsbRange
  import opened UsbBounds
  import opened UsbRawBound
  import opened UsbExact
  import opened UsbText
  import opened UsbAlias

  // A table field and the flag that says whether it takes part in matching.
  datatype Field = Field(matched: bool, value: nat)

  datatype UsbId = UsbId(vendor: Field, product: Field, devLo: Field, devHi: Field,
                         devClass: Field, devSubClass: Field, devProtocol: Field,
                         intClass: Field, intSubClass: Field, intProtocol: Field, intNumber: Field)

  datatype UsbDevice = UsbDevice(vendor: nat, product: nat, bcdDevice: nat,
                                 devClass: nat, devSubClass: nat, devProtocol: nat,
                                 intClass: nat, intSubClass: nat, intProtocol: nat, intNumber: nat)

  const TAGS: seq<string> := ["v", "p", "d", "dc", "dsc", "dp", "ic", "isc", "ip", "in"]

  // The position of the device number in a row; its own range takes the place of a value.
  const DEVICE: nat := 2

  function Fields(id: UsbId): (fs: seq<Field>)
    ensures |fs| == |TAGS|
  {
    [id.vendor, id.product, id.devLo, id.devClass, id.devSubClass, id.devProtocol,
     id.intClass, id.intSubClass, id.intProtocol, id.intNumber]
  }

  function Numbers(dev: UsbDevice): (ns: seq<nat>)
    ensures |ns| == |TAGS|
  {
    [dev.vendor, dev.product, dev.bcdDevice, dev.devClass, dev.devSubClass, dev.devProtocol,
     dev.intClass, dev.intSubClass, dev.intProtocol, dev.intNumber]
  }

  // Digits per field: 16-bit ids, device numbers of k digits, 8-bit classes.
  function Width(k: nat, i: nat): nat {
    if i < DEVICE then 4 else if i == DEVICE then k else 2
  }

  predicate TypedId(k: nat, id: UsbId) {
    && (forall i :: 0 <= i < |TAGS| ==> Fields(id)[i].value < Pow(16, Width(k, i)))
    && id.devHi.value < Pow(16, k)
  }

  predicate TypedDevice(k: nat, dev: UsbDevice) {
    forall i :: 0 <= i < |TAGS| ==> Numbers(dev)[i] < Pow(16, Width(k, i))
  }

  function Low(id: UsbId): nat { if id.devLo.matched then id.devLo.value else 0 }

  function High(k: nat, id: UsbId): nat { if id.devHi.matched then id.devHi.value else Ones(2 * k) }

  // An empty slot that drivers leave for ids given at run time.
  predicate Placeholder(id: UsbId) {
    id.vendor.value == 0 && id.product.value == 0 && id.devClass.value == 0 && id.intClass.value == 0
  }

  // ---------- the text of one line ----------

  function OptText(width: nat, f: Field): string {
    if f.matched then FormatX(width, f.value) else "*"
  }

  function Texts(k: nat, id: UsbId, e: Entry, max: nat): (ts: seq<string>)
    requires e.lo < 16 && e.hi < 16
    ensures |ts| == |TAGS|
  {
    seq(|TAGS|, i requires 0 <= i < |TAGS| =>
      if i == DEVICE then DeviceText(k, e, max) else OptText(Width(k, i), Fields(id)[i]))
  }

  // The closing wildcard is added unless the last field already is one.
  function AliasText(k: nat, id: UsbId, e: Entry, max: nat): string
    requires e.lo < 16 && e.hi < 16
  {
    "usb:" + Join(TAGS, Texts(k, id, e, max)) + if id.intNumber.matched then "*" else ""
  }

  function Values(k: nat, dev: UsbDevice): (vs: seq<string>)
    ensures |vs| == |TAGS|
  {
    seq(|TAGS|, i requires 0 <= i < |TAGS| => HexText(Width(k, i), Numbers(dev)[i]))
  }

  function DeviceName(k: nat, dev: UsbDevice): string {
    "usb:" + Join(TAGS, Values(k, dev))
  }

  function Aliases(k: nat, id: UsbId, max: nat, es: seq<Entry>): seq<string>
    requires forall e :: e in es ==> e.lo < 16 && e.hi < 16
  {
    if es == [] then [] else [AliasText(k, id, es[0], max)] + Aliases(k, id, max, es[1..])
  }

  lemma JoinFrom(texts: seq<string>, i: nat)
    requires |texts| == |TAGS| && i < |TAGS|
    ensures Join(TAGS[i..], texts[i..]) == TAGS[i] + (texts[i] + Join(TAGS[i + 1..], texts[i + 1..]))
  {
    assert TAGS[i..][1..] == TAGS[i + 1..] && texts[i..][1..] == texts[i + 1..];
  }

  lemma LastFive(vs: seq<string>)
    requires |vs| == |TAGS|
    ensures Join(TAGS[5..], vs[5..]) ==
      "dp" + (vs[5] + ("ic" + (vs[6] + ("isc" + (vs[7] + ("ip" + (vs[8] + ("in" + (vs[9] + "")))))))))
  {
    assert Join(TAGS[10..], vs[10..]) == "";
    hide Join;
    JoinFrom(vs, 5);
    JoinFrom(vs, 6);
    JoinFrom(vs, 7);
    JoinFrom(vs, 8);
    JoinFrom(vs, 9);
  }

  lemma TenFields(vs: seq<string>)
    requires |vs| == |TAGS|
    ensures Join(TAGS, vs) ==
      "v" + (vs[0] + ("p" + (vs[1] + ("d" + (vs[2] + ("dc" + (vs[3] + ("dsc" + (vs[4] + ("dp" + (vs[5] +
      ("ic" + (vs[6] + ("isc" + (vs[7] + ("ip" + (vs[8] + ("in" + (vs[9] + "")))))))))))))))))))
  {
    hide Join;
    assert TAGS[0..] == TAGS && vs[0..] == vs;
    JoinFrom(vs, 0);
    JoinFrom(vs, 1);
    JoinFrom(vs, 2);
    JoinFrom(vs, 3);
    JoinFrom(vs, 4);
    LastFive(vs);
  }

  // The name of a device, field by field.
  lemma NameFields(k: nat, dev: UsbDevice)
    ensures DeviceName(k, dev) == "usb:" +
      ("v" + (HexText(4, dev.vendor) + ("p" + (HexText(4, dev.product) + ("d" + (HexText(k, dev.bcdDevice) +
      ("dc" + (HexText(2, dev.devClass) + ("dsc" + (HexText(2, dev.devSubClass) + ("dp" + (HexText(2, dev.devProtocol) +
      ("ic" + (HexText(2, dev.intClass) + ("isc" + (HexText(2, dev.intSubClass) + ("ip" + (HexText(2, dev.intProtocol) +
      ("in" + (HexText(2, dev.intNumber) + ""))))))))))))))))))))
  {
    hide HexText, Join;
    TenFields(Values(k, dev));
  }

  // ---------- what a line matches ----------

  predicate Agrees(f: Field, value: nat) { f.matched ==> f.value == value }

  predicate OthersAgree(id: UsbId, dev: UsbDevice) {
    forall i :: 0 <= i < |TAGS| && i != DEVICE ==> Agrees(Fields(id)[i], Numbers(dev)[i])
  }

  function OptTokens(width: nat, f: Field): seq<Token> {
    if f.matched then Literals(FormatX(width, f.value)) else [AnyText]
  }

  function LastTokens(width: nat, f: Field): seq<Token> {
    if f.matched then Literals(FormatX(width, f.value)) + [AnyText] else [AnyText]
  }

  lemma {:induction false} HexTextNotLower(n: nat, w: nat)
    ensures LowerChars(HexText(n, w)) == 0
  {
    if n > 0 {
      HexTextNotLower(n - 1, w / 16);
      LowerCharsAppend(HexText(n - 1, w / 16), [HexChar(w % 16)]);
      assert [HexChar(w % 16)][1..] == "";
    }
  }

  lemma OptRenders(width: nat, f: Field)
    requires width > 0 && f.value < Pow(16, width)
    ensures FormatX(width, f.value) == HexText(width, f.value)
    ensures Renders(OptText(width, f), OptTokens(width, f)) && LowerLiterals(OptTokens(width, f)) == 0
    ensures Renders(LastText(width, f), LastTokens(width, f)) && LowerLiterals(LastTokens(width, f)) == 0
  {
    var h := FormatX(width, f.value);
    FewDigits(f.value, width);
    HexTextPlain(width, f.value);
    HexTextNotLower(width, f.value);
    LowerOfLiterals(h);
    LowerLiteralsAppend(Literals(h), [AnyText]);
    assert LowerLiterals([AnyText]) == 0 by { assert [AnyText][1..] == []; }
    forall rest: string
      ensures Parse(OptText(width, f) + rest) == OptTokens(width, f) + Parse(rest)
      ensures Parse(LastText(width, f) + rest) == LastTokens(width, f) + Parse(rest)
    {
      ParsePlain(h, rest);
      StarParses("*", rest);
      ParsePlain(h, "*" + rest);
      Assoc(h, "*", rest);
      Assoc(Literals(h), [AnyText], Parse(rest));
    }
  }

  lemma OptMatches(width: nat, f: Field, value: nat)
    requires width > 0 && f.value < Pow(16, width) && value < Pow(16, width)
    ensures MatchTokens(OptTokens(width, f), HexText(width, value)) <==> Agrees(f, value)
    ensures MatchTokens(LastTokens(width, f), HexText(width, value)) <==> Agrees(f, value)
    ensures LowerChars(HexText(width, value)) == 0
  {
    var h, t := FormatX(width, f.value), HexText(width, value);
    FewDigits(f.value, width);
    HexTextNotLower(width, value);
    assert Literals(h) == Literals(h) + [];
    MatchLiterals(h, [], t);
    MatchLiterals(h, [AnyText], t);
    AnyTextMatchesAll(t);
    AnyTextMatchesAll(t[|t|..]);
    assert t[..|t|] == t;
    if h == t { HexInjective(width, f.value, value); }
  }

  lemma DeviceRenders(k: nat, e: Entry, max: nat)
    requires e.lo < 16 && e.hi < 16
    ensures Renders(DeviceText(k, e, max), DeviceTokens(k, e, max))
    ensures LowerLiterals(DeviceTokens(k, e, max)) == 0
  {
    forall rest: string ensures Parse(DeviceText(k, e, max) + rest) == DeviceTokens(k, e, max) + Parse(rest) {
      DeviceParses(k, e, max, rest);
    }
    var n := if e.ndigits < DigitCount(e.prefix) then DigitCount(e.prefix) else e.ndigits;
    HexTextNotLower(n, e.prefix);
    LowerOfLiterals(PrefixText(e));
    var digit, star := DigitTokens(e.lo, e.hi, max), StarTokens(e.ndigits + 1 < k);
    LowerLiteralsAppend(Literals(PrefixText(e)), digit + star);
    LowerLiteralsAppend(digit, star);
    assert star != [] ==> star[1..] == [];
    assert digit != [] ==> digit[1..] == [];
  }

  // ---------- the whole row, with the closing wildcard put into its last field ----------

  function LastText(width: nat, f: Field): string {
    if f.matched then FormatX(width, f.value) + "*" else "*"
  }

  const LAST: nat := 9

  function RowTexts(k: nat, id: UsbId, e: Entry, max: nat): (ts: seq<string>)
    requires e.lo < 16 && e.hi < 16
    ensures |ts| == |TAGS|
  {
    Texts(k, id, e, max)[LAST := LastText(2, id.intNumber)]
  }

  function RowTokens(k: nat, id: UsbId, e: Entry, max: nat): (ts: seq<seq<Token>>)
    requires e.lo < 16 && e.hi < 16
    ensures |ts| == |TAGS|
  {
    seq(|TAGS|, i requires 0 <= i < |TAGS| =>
      if i == DEVICE then DeviceTokens(k, e, max)
      else if i == LAST then LastTokens(2, id.intNumber)
      else OptTokens(Width(k, i), Fields(id)[i]))
  }

  lemma LastField(texts: seq<string>)
    requires |texts| == |TAGS|
    ensures "usb:" + Join(TAGS, texts) == ("usb:" + Join(TAGS[..LAST], texts[..LAST]) + TAGS[LAST]) + texts[LAST]
  {
    hide Join;
    var front := Join(TAGS[..LAST], texts[..LAST]);
    JoinAppend(TAGS, texts, LAST);
    assert TAGS[..10] == TAGS && texts[..10] == texts;
    Assoc("usb:", front, TAGS[LAST]);
    Assoc("usb:", front + TAGS[LAST], texts[LAST]);
  }

  lemma AliasIsRow(k: nat, id: UsbId, e: Entry, max: nat)
    requires e.lo < 16 && e.hi < 16
    ensures AliasText(k, id, e, max) == "usb:" + Join(TAGS, RowTexts(k, id, e, max))
  {
    var texts, row := Texts(k, id, e, max), RowTexts(k, id, e, max);
    assert texts[LAST] == OptText(2, id.intNumber) && row[LAST] == LastText(2, id.intNumber);
    hide Join, Texts, FormatX;
    assert texts[..LAST] == row[..LAST];
    LastField(texts);
    LastField(row);
    var front := "usb:" + Join(TAGS[..LAST], texts[..LAST]) + TAGS[LAST];
    if id.intNumber.matched {
      Assoc(front, OptText(2, id.intNumber), "*");
    } else {
      assert "usb:" + Join(TAGS, texts) + "" == "usb:" + Join(TAGS, texts);
    }
  }

  // Looking at the last character tells whether the last field is a star.
  lemma LastCharacter(k: nat, id: UsbId, e: Entry, max: nat)
    requires e.lo < 16 && e.hi < 16
    ensures var s := "usb:" + Join(TAGS, Texts(k, id, e, max));
      s[|s| - 1] == '*' <==> !id.intNumber.matched
  {
    var texts := Texts(k, id, e, max);
    LastField(texts);
    var front, last := "usb:" + Join(TAGS[..LAST], texts[..LAST]) + TAGS[LAST], OptText(2, id.intNumber);
    assert "usb:" + Join(TAGS, texts) == front + last;
    assert (front + last)[|front + last| - 1] == last[|last| - 1];
    if id.intNumber.matched {
      var n := if 2 < DigitCount(id.intNumber.value) then DigitCount(id.intNumber.value) else 2;
      HexTextPlain(n, id.intNumber.value);
      assert last[|last| - 1] in last;
    }
  }

  lemma TagsAreTags()
    ensures forall i :: 0 <= i < |TAGS| ==> IsTag(TAGS[i])
  {
  }

  lemma RowRenders(k: nat, id: UsbId, e: Entry, max: nat, i: nat)
    requires e.lo < 16 && e.hi < 16 && 2 <= k && TypedId(k, id) && i < |TAGS|
    ensures Renders(RowTexts(k, id, e, max)[i], RowTokens(k, id, e, max)[i])
    ensures LowerLiterals(RowTokens(k, id, e, max)[i]) == 0
  {
    if i == DEVICE {
      DeviceRenders(k, e, max);
    } else {
      OptRenders(Width(k, i), Fields(id)[i]);
    }
  }

  // The values of a name that goes on behind its last field.
  function ValuesAnd(k: nat, dev: UsbDevice, more: string): (vs: seq<string>)
    ensures |vs| == |TAGS|
  {
    Values(k, dev)[LAST := Values(k, dev)[LAST] + more]
  }

  lemma NameAndMore(k: nat, dev: UsbDevice, more: string)
    ensures DeviceName(k, dev) + more == "usb:" + Join(TAGS, ValuesAnd(k, dev, more))
  {
    var vs, longer := Values(k, dev), ValuesAnd(k, dev, more);
    hide Join, Values;
    assert vs[..LAST] == longer[..LAST];
    LastField(vs);
    LastField(longer);
    Assoc("usb:" + Join(TAGS[..LAST], vs[..LAST]) + TAGS[LAST], vs[LAST], more);
  }

  lemma LastMatches(f: Field, value: nat, more: string)
    requires f.value < Pow(16, 2) && value < Pow(16, 2)
    ensures MatchTokens(LastTokens(2, f), HexText(2, value) + more) <==> Agrees(f, value)
  {
    hide Pow;
    var h, t := FormatX(2, f.value), HexText(2, value);
    FewDigits(f.value, 2);
    MatchLiterals(h, [AnyText], t + more);
    AnyTextMatchesAll(t + more);
    assert (t + more)[..2] == t;
    AnyTextMatchesAll((t + more)[2..]);
    if h == t { HexInjective(2, f.value, value); }
  }

  lemma RowMeans(k: nat, id: UsbId, e: Entry, max: nat, dev: UsbDevice, more: string)
    requires e.lo < 16 && e.hi < 16 && 2 <= k && TypedId(k, id) && TypedDevice(k, dev)
    ensures EachMatches(RowTokens(k, id, e, max), ValuesAnd(k, dev, more))
       <==> OthersAgree(id, dev) && MatchTokens(DeviceTokens(k, e, max), HexText(k, dev.bcdDevice))
  {
    hide MatchTokens, HexText, OptTokens, LastTokens, DeviceTokens, Pow;
    var ts, vs := RowTokens(k, id, e, max), ValuesAnd(k, dev, more);
    forall i | 0 <= i < |TAGS| && i != DEVICE
      ensures MatchTokens(ts[i], vs[i]) <==> Agrees(Fields(id)[i], Numbers(dev)[i])
    {
      if i == LAST {
        LastMatches(Fields(id)[i], Numbers(dev)[i], more);
      } else {
        OptMatches(Width(k, i), Fields(id)[i], Numbers(dev)[i]);
      }
    }
    assert MatchTokens(ts[DEVICE], vs[DEVICE]) <==> MatchTokens(DeviceTokens(k, e, max), HexText(k, dev.bcdDevice));
  }

  lemma IsFieldRow(k: nat, id: UsbId, e: Entry, max: nat, dev: UsbDevice, more: string)
    requires e.lo < 16 && e.hi < 16 && 2 <= k && TypedId(k, id) && LowerChars(more) == 0
    ensures FieldRow(TAGS, RowTexts(k, id, e, max), RowTokens(k, id, e, max), ValuesAnd(k, dev, more))
  {
    hide LowerChars, LowerLiterals, Renders, RowTexts, RowTokens, HexText;
    TagsAreTags();
    forall i | 0 <= i < |TAGS|
      ensures Renders(RowTexts(k, id, e, max)[i], RowTokens(k, id, e, max)[i])
      ensures LowerLiterals(RowTokens(k, id, e, max)[i]) == 0
      ensures LowerChars(ValuesAnd(k, dev, more)[i]) == 0
    {
      RowRenders(k, id, e, max, i);
      HexTextNotLower(Width(k, i), Numbers(dev)[i]);
      LowerCharsAppend(Values(k, dev)[i], more);
    }
  }

  // A line matches a device name exactly when the other fields agree and the entry's text matches
  // the device number.
  lemma LineMatches(k: nat, id: UsbId, e: Entry, max: nat, dev: UsbDevice)
    requires e.lo < 16 && e.hi < 16 && 2 <= k && TypedId(k, id) && TypedDevice(k, dev)
    ensures Matches(AliasText(k, id, e, max), DeviceName(k, dev))
       <==> OthersAgree(id, dev) && MatchTokens(DeviceTokens(k, e, max), HexText(k, dev.bcdDevice))
  {
    LongerNames(k, id, e, max, dev, "");
    assert DeviceName(k, dev) + "" == DeviceName(k, dev);
  }

  /** Every line is open at its end: a name that goes on with anything but lower-case letters is matched
      exactly when the fields of the device are. */
  lemma LongerNames(k: nat, id: UsbId, e: Entry, max: nat, dev: UsbDevice, more: string)
    requires e.lo < 16 && e.hi < 16 && 2 <= k && TypedId(k, id) && TypedDevice(k, dev) && LowerChars(more) == 0
    ensures Matches(AliasText(k, id, e, max), DeviceName(k, dev) + more)
       <==> OthersAgree(id, dev) && MatchTokens(DeviceTokens(k, e, max), HexText(k, dev.bcdDevice))
  {
    hide Join, RowTexts, RowTokens, ValuesAnd, AliasText, Renders, OthersAgree, MatchTokens, DeviceTokens, DeviceName;
    var row := Join(TAGS, RowTexts(k, id, e, max));
    var name := Join(TAGS, ValuesAnd(k, dev, more));
    NameAndMore(k, dev, more);
    AliasIsRow(k, id, e, max);
    IsFieldRow(k, id, e, max, dev, more);
    RowMeans(k, id, e, max, dev, more);
    RowMatches(TAGS, RowTexts(k, id, e, max), RowTokens(k, id, e, max), ValuesAnd(k, dev, more));
    ParsePlain("usb:", row);
    MatchLiterals("usb:", Parse(row), "usb:" + name);
    assert ("usb:" + name)[..4] == "usb:" && ("usb:" + name)[4..] == name;
  }

  // ---------- all the lines of an entry ----------

  function MatchCount(lines: seq<string>, name: string): nat {
    if lines == [] then 0 else Count(Matches(lines[0], name)) + MatchCount(lines[1..], name)
  }

  predicate Printable(k: nat, max: nat, es: seq<Entry>) {
    forall e :: e in es ==> e.lo <= e.hi <= max < 16 && e.ndigits < k && Sane(max, e)
  }

  lemma {:induction false} LinesMatch(k: nat, id: UsbId, max: nat, es: seq<Entry>, dev: UsbDevice)
    requires 2 <= k && (max == DECIMAL || max == HEX)
    requires Printable(k, max, es)
    requires forall e :: e in es ==> e.ndigits == k - 1 ==> !WholeRange(max, e)
    requires TypedId(k, id) && TypedDevice(k, dev) && Valid(max, dev.bcdDevice)
    ensures Fits(k, es)
    ensures MatchCount(Aliases(k, id, max, es), DeviceName(k, dev))
         == if OthersAgree(id, dev) then Hits(k, es, dev.bcdDevice) else 0
  {
    if es != [] {
      assert es[0] in es;
      NumberIsTyped(k, dev);
      LineMatches(k, id, es[0], max, dev);
      DeviceMatches(k, es[0], max, dev.bcdDevice);
      LinesMatch(k, id, max, es[1..], dev);
    }
  }

  // The lines the compiler prints for an id, and the devices they are meant for.
  function LinesOf(k: nat, id: UsbId): seq<string>
    requires 2 <= k && TypedId(k, id)
  {
    SplitFacts(k, id);
    if Placeholder(id) then [] else
    Aliases(k, id, Mode(k, Low(id), High(k, id)), Split(k, Low(id), High(k, id)))
  }

  lemma SplitFacts(k: nat, id: UsbId)
    requires 2 <= k && TypedId(k, id)
    ensures IsRange(k, Low(id), High(k, id))
    ensures Printable(k, Mode(k, Low(id), High(k, id)), Split(k, Low(id), High(k, id)))
  {
    assert Fields(id)[DEVICE].value < Pow(16, Width(k, DEVICE));
    SplitSane(k, Low(id), High(k, id));
    ModeIs(k, Low(id), High(k, id));
  }

  lemma NumberIsTyped(k: nat, dev: UsbDevice)
    requires TypedDevice(k, dev)
    ensures dev.bcdDevice < Pow(16, k)
  {
    assert Numbers(dev)[DEVICE] < Pow(16, Width(k, DEVICE));
  }

  // The flagged fields agree, and the number is not outside a flagged bound.
  predicate Meant(id: UsbId, dev: UsbDevice) {
    && OthersAgree(id, dev)
    && (id.devLo.matched ==> id.devLo.value <= dev.bcdDevice)
    && (id.devHi.matched ==> dev.bcdDevice <= id.devHi.value)
  }

  // Device numbers are taken as decimal if the flagged bounds can be; an upper bound beyond 9..9 always can.
  function Base(k: nat, id: UsbId): nat {
    if && (id.devLo.matched ==> Valid(9, id.devLo.value))
       && (id.devHi.matched ==> id.devHi.value > Nines(k) || Valid(9, id.devHi.value))
    then DECIMAL else HEX
  }

  // Exactly when the lines are right, in terms of the flagged bounds.
  predicate SoundId(k: nat, id: UsbId)
    requires 2 <= k
  {
    var lo := if id.devLo.matched then id.devLo.value else 0;
    if !id.devHi.matched then lo <= Top(Base(k, id), k - 1)
    else
      && (Base(k, id) == HEX || id.devHi.value <= Nines(k) || ReachesNines(k, lo, id.devHi.value))
      && !Blank(k, lo, id.devHi.value)
  }

  lemma SoundIdIs(k: nat, id: UsbId)
    requires 2 <= k && TypedId(k, id)
    ensures Base(k, id) == Mode(k, Low(id), High(k, id))
    ensures SoundId(k, id) <==> Sound(k, Low(id), High(k, id)) && !Blank(k, Low(id), High(k, id))
  {
    hide Mode, ReachesNines, Valid;
    SplitFacts(k, id);
    ModeIs(k, Low(id), High(k, id));
    OnesIsLarge(k);
    NothingIsValid();
    if !id.devHi.matched { OpenIsNotBlank(k, Low(id)); }
  }

  lemma NothingIsValid()
    ensures Valid(9, 0)
  {
  }

  lemma OpenIsNotBlank(k: nat, lo: nat)
    requires 2 <= k && lo < Pow(16, k)
    ensures !Blank(k, lo, Ones(2 * k))
  {
    hide Mode;
    OnesDigit(2 * k - 1);
    OnesValue(2 * k - 1);
    PowGrows(16, 16, k + 1, 2 * k);
    assert Pow(16, k + 1) == 16 * Pow(16, k) && Pow(16, 2 * k) == 16 * Pow(16, 2 * k - 1);
  }

  lemma MeantIs(k: nat, id: UsbId, dev: UsbDevice)
    requires 2 <= k && TypedDevice(k, dev)
    ensures Meant(id, dev) <==> OthersAgree(id, dev) && Low(id) <= dev.bcdDevice <= High(k, id)
  {
    hide OthersAgree;
    NumberIsTyped(k, dev);
    OnesIsLarge(k);
  }

  ghost predicate LinesAreExact(k: nat, id: UsbId)
    requires 2 <= k && TypedId(k, id)
  {
    forall dev | TypedDevice(k, dev) && Valid(Base(k, id), dev.bcdDevice) ::
      MatchCount(LinesOf(k, id), DeviceName(k, dev)) == Count(Meant(id, dev))
  }

  lemma LinesCount(k: nat, id: UsbId, dev: UsbDevice)
    requires 2 <= k && TypedId(k, id) && !Placeholder(id) && !Blank(k, Low(id), High(k, id))
    requires TypedDevice(k, dev) && Valid(Mode(k, Low(id), High(k, id)), dev.bcdDevice)
    ensures Fits(k, Split(k, Low(id), High(k, id)))
    ensures MatchCount(LinesOf(k, id), DeviceName(k, dev))
         == if OthersAgree(id, dev) then Hits(k, Split(k, Low(id), High(k, id)), dev.bcdDevice) else 0
  {
    SplitFacts(k, id);
    SplitSane(k, Low(id), High(k, id));
    ModeIs(k, Low(id), High(k, id));
    LinesMatch(k, id, Mode(k, Low(id), High(k, id)), Split(k, Low(id), High(k, id)), dev);
  }

  // A device with the flagged fields of the id and the given number.
  function Example(id: UsbId, w: nat): UsbDevice {
    UsbDevice(id.vendor.value, id.product.value, w, id.devClass.value, id.devSubClass.value, id.devProtocol.value,
              id.intClass.value, id.intSubClass.value, id.intProtocol.value, id.intNumber.value)
  }

  lemma ExampleField(id: UsbId, w: nat, i: nat)
    requires i < |TAGS|
    ensures Numbers(Example(id, w))[i] == if i == DEVICE then w else Fields(id)[i].value
  {
    if i < 5 {
      assert i in {0, 1, 2, 3, 4};
    } else {
      assert i in {5, 6, 7, 8, 9};
    }
  }

  lemma ExampleFits(k: nat, id: UsbId, w: nat)
    requires TypedId(k, id) && w < Pow(16, k)
    ensures TypedDevice(k, Example(id, w)) && OthersAgree(id, Example(id, w))
  {
    forall i | 0 <= i < |TAGS|
      ensures Numbers(Example(id, w))[i] == if i == DEVICE then w else Fields(id)[i].value
    {
      ExampleField(id, w, i);
    }
  }

  // A line without its last digit matches no name at all.
  lemma BlankLine(k: nat, id: UsbId, e: Entry, max: nat, dev: UsbDevice)
    requires 2 <= k && (max == DECIMAL || max == HEX)
    requires e.ndigits == k - 1 && WholeRange(max, e) && e.prefix < Pow(16, k - 1)
    requires TypedId(k, id) && TypedDevice(k, dev)
    ensures MatchCount(Aliases(k, id, max, [e]), DeviceName(k, dev)) == 0
  {
    LineMatches(k, id, e, max, dev);
    WholeRangeMatchesNothing(k, e, max, dev.bcdDevice);
    var lines := Aliases(k, id, max, [e]);
    assert [e][1..] == [];
    assert lines[1..] == Aliases(k, id, max, []);
  }

  lemma BlankMissesItsRange(k: nat, id: UsbId, dev: UsbDevice)
    requires 2 <= k && TypedId(k, id) && Blank(k, Low(id), High(k, id))
    requires TypedDevice(k, dev)
    ensures MatchCount(LinesOf(k, id), DeviceName(k, dev)) == 0
  {
    var lo, hi, max := Low(id), High(k, id), Mode(k, Low(id), High(k, id));
    SplitFacts(k, id);
    SplitSane(k, lo, hi);
    ModeIs(k, lo, hi);
    var e := Entry(lo / 16, k - 1, 0, max);
    assert Split(k, lo, hi)[0] == e && Sane(max, e);
    BlankLine(k, id, e, max, dev);
  }

  /** End to end: every device whose number is valid in the base is matched by exactly one line if
      its flagged fields agree and its number lies in the range, and by none otherwise - if and only
      if the bounds are sound and the range is not the one the printer leaves blank. */
  lemma LinesExactIff(k: nat, id: UsbId)
    requires 2 <= k && TypedId(k, id)
    requires id.vendor.value != 0 || id.product.value != 0 || id.devClass.value != 0 || id.intClass.value != 0
    ensures LinesAreExact(k, id) <==> SoundId(k, id)
  {
    hide LinesAreExact, SoundId;
    if SoundId(k, id) {
      LinesExact(k, id);
    } else {
      LinesNotExact(k, id);
    }
  }

  lemma LinesExact(k: nat, id: UsbId)
    requires 2 <= k && TypedId(k, id)
    requires id.vendor.value != 0 || id.product.value != 0 || id.devClass.value != 0 || id.intClass.value != 0
    requires SoundId(k, id)
    ensures LinesAreExact(k, id)
  {
    hide SoundId, Base, Meant, Low, High;
    SplitFacts(k, id);
    SoundIdIs(k, id);
    forall dev | TypedDevice(k, dev) && Valid(Base(k, id), dev.bcdDevice)
      ensures MatchCount(LinesOf(k, id), DeviceName(k, dev)) == Count(Meant(id, dev))
    {
      NumberIsTyped(k, dev);
      MeantIs(k, id, dev);
      LinesCount(k, id, dev);
      SoundHits(k, Low(id), High(k, id), dev.bcdDevice);
    }
  }

  lemma LinesNotExact(k: nat, id: UsbId)
    requires 2 <= k && TypedId(k, id)
    requires id.vendor.value != 0 || id.product.value != 0 || id.devClass.value != 0 || id.intClass.value != 0
    requires !SoundId(k, id)
    ensures !LinesAreExact(k, id)
  {
    hide SoundId, Base, Meant;
    var lo, hi := Low(id), High(k, id);
    SplitFacts(k, id);
    SoundIdIs(k, id);
    ModeIs(k, lo, hi);
    var w := lo;
    if !Blank(k, lo, hi) {
      w := UnsoundWitness(k, lo, hi);
    }
    var dev := Example(id, w);
    ExampleFits(k, id, w);
    if Blank(k, lo, hi) {
      BlankMissesItsRange(k, id, dev);
    } else {
      LinesCount(k, id, dev);
    }
    MeantIs(k, id, dev);
    assert MatchCount(LinesOf(k, id), DeviceName(k, dev)) != Count(Meant(id, dev));
  }

  /** The converse: with vendor, product, device class and interface class all zero nothing is printed,
      whatever else the id asks for, and so no name is matched. */
  lemma NothingWithoutIds(k: nat, id: UsbId, name: string)
    requires 2 <= k && TypedId(k, id)
    requires id.vendor.value == 0 && id.product.value == 0 && id.devClass.value == 0 && id.intClass.value == 0
    ensures LinesOf(k, id) == [] && MatchCount(LinesOf(k, id), name) == 0
  {
  }
}
