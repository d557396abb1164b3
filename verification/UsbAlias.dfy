/** The alias lines of a USB device-table entry, and which device names they match.  A device name
    writes every field at full width under the same lower-case tags:
    usb:v1D6Bp0002d0606dc09dsc00dp01ic09isc00ip00in00. */
module UsbAlias {
  import opened Glob

  // ---------- rows of tagged fields ----------

  function Join(tags: seq<string>, texts: seq<string>): string
    requires |tags| == |texts|
  {
    if tags == [] then "" else tags[0] + (texts[0] + Join(tags[1..], texts[1..]))
  }

  lemma {:induction false} JoinAppend(tags: seq<string>, texts: seq<string>, i: nat)
    requires |tags| == |texts| && i < |tags|
    ensures Join(tags[..i + 1], texts[..i + 1]) == Join(tags[..i], texts[..i]) + tags[i] + texts[i]
  {
    var a, b := tags[..i + 1], texts[..i + 1];
    if i == 0 {
      assert a[1..] == [] && b[1..] == [];
    } else {
      JoinAppend(tags[1..], texts[1..], i - 1);
      assert a[1..] == tags[1..][..i] && b[1..] == texts[1..][..i];
      assert tags[..i][1..] == tags[1..][..i - 1] && texts[..i][1..] == texts[1..][..i - 1];
    }
  }

  // `ts` is what `text` means whatever follows it.
  ghost predicate Renders(text: string, ts: seq<Token>) {
    forall rest: string :: Parse(text + rest) == ts + Parse(rest)
  }

  predicate IsTag(tag: string) {
    tag != "" && forall i :: 0 <= i < |tag| ==> IsLower(tag[i])
  }

  ghost predicate FieldRow(tags: seq<string>, texts: seq<string>, ts: seq<seq<Token>>, values: seq<string>) {
    && |tags| == |texts| == |ts| == |values|
    && (forall i :: 0 <= i < |tags| ==> IsTag(tags[i]))
    && (forall i :: 0 <= i < |texts| ==> Renders(texts[i], ts[i]))
    && (forall i :: 0 <= i < |ts| ==> LowerLiterals(ts[i]) == 0)
    && (forall i :: 0 <= i < |values| ==> LowerChars(values[i]) == 0)
  }

  ghost predicate EachMatches(ts: seq<seq<Token>>, values: seq<string>)
    requires |ts| == |values|
  {
    forall i :: 0 <= i < |ts| ==> MatchTokens(ts[i], values[i])
  }

  lemma {:induction false} TagIsLower(tag: string)
    requires forall i :: 0 <= i < |tag| ==> IsLower(tag[i])
    ensures Plain(tag) && LowerChars(tag) == |tag|
  {
    if tag != "" { TagIsLower(tag[1..]); }
  }

  // The pattern row asks for as many lower-case characters as the name row has.
  lemma {:induction false} RowsBalance(tags: seq<string>, texts: seq<string>, ts: seq<seq<Token>>, values: seq<string>)
    requires FieldRow(tags, texts, ts, values)
    ensures LowerLiterals(Parse(Join(tags, texts))) == LowerChars(Join(tags, values))
  {
    if tags != [] {
      var more, name := Join(tags[1..], texts[1..]), Join(tags[1..], values[1..]);
      RowParses(tags, texts, ts, values);
      RowsBalance(tags[1..], texts[1..], ts[1..], values[1..]);
      LowerLiteralsAppend(Literals(tags[0]), ts[0] + Parse(more));
      LowerLiteralsAppend(ts[0], Parse(more));
      LowerOfLiterals(tags[0]);
      LowerCharsAppend(tags[0], values[0] + name);
      LowerCharsAppend(values[0], name);
    }
  }

  lemma RowParses(tags: seq<string>, texts: seq<string>, ts: seq<seq<Token>>, values: seq<string>)
    requires FieldRow(tags, texts, ts, values) && tags != []
    ensures Parse(Join(tags, texts)) == Literals(tags[0]) + (ts[0] + Parse(Join(tags[1..], texts[1..])))
    ensures FieldRow(tags[1..], texts[1..], ts[1..], values[1..])
  {
    var more := Join(tags[1..], texts[1..]);
    TagIsLower(tags[0]);
    ParsePlain(tags[0], texts[0] + more);
    assert Renders(texts[0], ts[0]);
  }

  /** A row of tagged fields matches a name with the same tags exactly when each field does. */
  lemma {:induction false} RowMatches(tags: seq<string>, texts: seq<string>, ts: seq<seq<Token>>, values: seq<string>)
    requires FieldRow(tags, texts, ts, values)
    ensures MatchTokens(Parse(Join(tags, texts)), Join(tags, values)) <==> EachMatches(ts, values)
  {
    if tags != [] {
      var more, name := Join(tags[1..], texts[1..]), Join(tags[1..], values[1..]);
      var after := ts[0] + Parse(more);
      RowParses(tags, texts, ts, values);
      RowMatches(tags[1..], texts[1..], ts[1..], values[1..]);
      MatchLiterals(tags[0], after, Join(tags, values));
      assert Join(tags, values)[..|tags[0]|] == tags[0] && Join(tags, values)[|tags[0]|..] == values[0] + name;
      if |tags| == 1 {
        assert after == ts[0] && values[0] + name == values[0];
      } else {
        RowsBalance(tags[1..], texts[1..], ts[1..], values[1..]);
        RowParses(tags[1..], texts[1..], ts[1..], values[1..]);
        assert IsLower(tags[1][0]);
        assert Parse(more)[0] == Literal(tags[1][0]) && name[0] == tags[1][0];
        MatchSplitsAtTag(ts[0], Parse(more), values[0], name);
      }
      assert EachMatches(ts, values) <==> MatchTokens(ts[0], values[0]) && EachMatches(ts[1..], values[1..]) by {
        assert forall i :: 1 <= i < |ts| ==> ts[i] == ts[1..][i - 1] && values[i] == values[1..][i - 1];
      }
    }
  }
}
