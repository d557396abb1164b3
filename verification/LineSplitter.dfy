/** Printing a log message line by line: the pointer scan of the printer, without colours and without
    wrapping, against split, filter and map. */
module LineSplitter {

  const MAX_LOG_LEN: nat := 1024

  // ---------- the simple form ----------

  function FirstLine(s: string): (l: string)
    ensures l <= s && '\n' !in l
    ensures l == s <==> '\n' !in s
    ensures l != s ==> s[|l|] == '\n'
  {
    if s == "" || s[0] == '\n' then "" else [s[0]] + FirstLine(s[1..])
  }

  // Split at the newlines: one line more than there are newlines.
  function Lines(s: string): (r: seq<string>)
    ensures |r| >= 1
    decreases |s|
  {
    var l := FirstLine(s);
    if l == s then [s] else [l] + Lines(s[|l| + 1..])
  }

  function Render(prefix: string, lines: seq<string>): string {
    if lines == [] then ""
    else (if lines[0] == "" then "" else prefix + lines[0] + "\n") + Render(prefix, lines[1..])
  }

  // ---------- the scan ----------

  // The prefix goes out before anything that is neither empty nor a newline.
  function Opening(prefix: string, s: string): string {
    if s == "" || s[0] == '\n' then "" else prefix
  }

  // What follows once the opening is out: a line that is ended by a newline and longer than most is
  // printed together with everything behind it.
  function Remainder(prefix: string, s: string, most: nat): string
    decreases |s|, 0
  {
    var l := FirstLine(s);
    if s == "" then ""
    else if l == s || |l| > most then s + "\n"
    else (if l == "" then "" else l + "\n") + Shown(prefix, s[|l| + 1..], most)
  }

  // What the scan puts out.
  function Shown(prefix: string, s: string, most: nat): string
    decreases |s|, 1
  {
    Opening(prefix, s) + Remainder(prefix, s, most)
  }

  lemma {:induction false} FirstLineIs(s: string, n: nat)
    requires n < |s| && s[n] == '\n' && '\n' !in s[..n]
    ensures FirstLine(s) == s[..n]
  {
    if n > 0 {
      assert s[0] == s[..n][0] && s[0] in s[..n];
      assert s[1..][..n - 1] == s[..n][1..];
      forall c | c in s[1..][..n - 1] ensures c in s[..n] {}
      FirstLineIs(s[1..], n - 1);
      assert s[..n] == [s[0]] + s[1..][..n - 1];
    }
  }

  // A newline at scan ends the line from head on.
  lemma LineFound(prefix: string, log: string, head: nat, scan: nat, most: nat)
    requires head <= scan < |log| && log[scan] == '\n' && '\n' !in log[head..scan]
    ensures scan - head > most ==> Remainder(prefix, log[head..], most) == log[head..] + "\n"
    ensures scan - head <= most ==>
              Remainder(prefix, log[head..], most)
              == (if head == scan then "" else log[head..scan] + "\n") + Shown(prefix, log[scan + 1..], most)
  {
    var left := log[head..];
    assert left[..scan - head] == log[head..scan];
    FirstLineIs(left, scan - head);
    assert left[scan - head + 1..] == log[scan + 1..];
  }

  // No newline is left.
  lemma LastLine(prefix: string, s: string, most: nat)
    requires '\n' !in s
    ensures Remainder(prefix, s, most) == if s == "" then "" else s + "\n"
  {
  }

  lemma ShownIs(prefix: string, s: string, most: nat)
    ensures Opening(prefix, s) == if s == "" || s[0] == '\n' then "" else prefix
    ensures Shown(prefix, s, most) == Opening(prefix, s) + Remainder(prefix, s, most)
  {
  }

  // The line from head to scan, and the opening of the next.
  method PrintLine(prefix: string, log: string, head: nat, scan: nat, out: string, ghost all: string)
    returns (more: string)
    requires head <= scan < |log| && log[scan] == '\n' && '\n' !in log[head..scan] && scan - head < MAX_LOG_LEN
    requires all == out + Remainder(prefix, log[head..], MAX_LOG_LEN - 1)
    ensures all == more + Remainder(prefix, log[scan + 1..], MAX_LOG_LEN - 1)
  {
    hide Remainder, FirstLine, Opening, Shown;
    ghost var next := log[scan + 1..];
    ghost var rest := Shown(prefix, next, MAX_LOG_LEN - 1);
    LineFound(prefix, log, head, scan, MAX_LOG_LEN - 1);
    ShownIs(prefix, next, MAX_LOG_LEN - 1);
    var tmp := log[head..scan];
    if tmp != "" {
      more := out + tmp + "\n";
      Assoc(out, tmp, "\n");
      Assoc(out, tmp + "\n", rest);
    } else {
      more := out;
      assert "" + rest == rest;
    }
    assert all == more + rest;
    Assoc(more, Opening(prefix, next), Remainder(prefix, next, MAX_LOG_LEN - 1));
    if scan + 1 < |log| && log[scan + 1] != '\n' {
      more := more + prefix;
    }
  }

  method LogPrintWithFormat(prefix: string, log: string) returns (out: string)
    ensures out == Shown(prefix, log, MAX_LOG_LEN - 1)
  {
    hide Remainder, FirstLine, Opening, Shown;
    var head, scan := 0, 0;
    out := "";
    ShownIs(prefix, log, MAX_LOG_LEN - 1);
    if log != "" && log[scan] != '\n' {
      out := out + prefix;
    }
    assert log[0..] == log;
    ghost var all := Shown(prefix, log, MAX_LOG_LEN - 1);
    while scan < |log|
      invariant 0 <= head <= scan <= |log|
      invariant '\n' !in log[head..scan]
      invariant all == out + Remainder(prefix, log[head..], MAX_LOG_LEN - 1)
    {
      if log[scan] == '\n' {
        var len := scan - head;
        LineFound(prefix, log, head, scan, MAX_LOG_LEN - 1);
        if len > MAX_LOG_LEN - 1 { break; }
        out := PrintLine(prefix, log, head, scan, out, all);
        head := scan + 1;
      }
      ScanMore(log, head, scan);
      scan := scan + 1;
    }
    if scan == |log| {
      assert log[head..scan] == log[head..];
      LastLine(prefix, log[head..], MAX_LOG_LEN - 1);
    }
    Assoc(out, log[head..], "\n");
    if head < |log| {
      out := out + log[head..];
    }
    if head < |log| {
      out := out + "\n";
    }
  }

  lemma Assoc(a: string, b: string, c: string)
    ensures a + (b + c) == (a + b) + c
  {
  }

  lemma ScanMore(log: string, head: nat, scan: nat)
    requires scan < |log| && head <= scan + 1
    requires head <= scan ==> '\n' !in log[head..scan] && log[scan] != '\n'
    ensures '\n' !in log[head..scan + 1]
  {
    if head <= scan { assert log[head..scan + 1] == log[head..scan] + [log[scan]]; }
  }

  // ---------- the scan against the simple form ----------

  // Every line that a newline ends is short enough for the line buffer.
  predicate Short(lines: seq<string>, most: nat) {
    forall i | 0 <= i < |lines| - 1 :: |lines[i]| <= most
  }

  lemma ShortFront(l: string, rest: seq<string>, most: nat)
    requires rest != []
    ensures Short([l] + rest, most) <==> |l| <= most && Short(rest, most)
  {
    var lines := [l] + rest;
    assert lines[0] == l;
    assert forall i | 0 <= i < |rest| :: rest[i] == lines[i + 1];
    if |l| <= most && Short(rest, most) {
      forall i | 0 <= i < |lines| - 1 ensures |lines[i]| <= most {
        if i > 0 { assert lines[i] == rest[i - 1]; }
      }
    }
  }

  lemma LinesFront(s: string)
    requires FirstLine(s) != s
    ensures Lines(s) == [FirstLine(s)] + Lines(s[|FirstLine(s)| + 1..])
  {
  }

  lemma RenderFront(prefix: string, l: string, rest: seq<string>)
    ensures Render(prefix, [l] + rest) == (if l == "" then "" else prefix + l + "\n") + Render(prefix, rest)
  {
    assert ([l] + rest)[1..] == rest;
  }

  lemma ShownFront(prefix: string, s: string, most: nat)
    requires FirstLine(s) != s
    ensures var l := FirstLine(s);
      var more, line := s[|l| + 1..], if l == "" then "" else prefix + l + "\n";
      && (|l| <= most ==> Shown(prefix, s, most) == line + Shown(prefix, more, most))
      && (|l| > most ==> Shown(prefix, s, most) == line + (more + "\n"))
  {
    var l := FirstLine(s);
    if |l| > most { Regroup(prefix, l, s[|l| + 1..], s); }
  }

  lemma Regroup(prefix: string, l: string, more: string, s: string)
    requires |s| == |l| + 1 + |more| && s[..|l|] == l && s[|l|] == '\n' && s[|l| + 1..] == more
    ensures prefix + s + "\n" == (prefix + l + "\n") + (more + "\n")
  {
    assert s == l + "\n" + more;
    assert prefix + (l + "\n" + more) + "\n" == (prefix + l + "\n") + (more + "\n");
  }

  // The first line, when a newline ends it, in all three.
  lemma FrontLine(prefix: string, s: string, most: nat)
    requires FirstLine(s) != s
    ensures var l := FirstLine(s);
      var more, line := s[|l| + 1..], if l == "" then "" else prefix + l + "\n";
      && Render(prefix, Lines(s)) == line + Render(prefix, Lines(more))
      && (Short(Lines(s), most) <==> |l| <= most && Short(Lines(more), most))
      && (|l| <= most ==> Shown(prefix, s, most) == line + Shown(prefix, more, most))
      && (|l| > most ==> Shown(prefix, s, most) == line + (more + "\n"))
  {
    hide Lines, Render, Short, Shown, FirstLine;
    var l := FirstLine(s);
    var rest := Lines(s[|l| + 1..]);
    LinesFront(s);
    RenderFront(prefix, l, rest);
    ShortFront(l, rest, most);
    ShownFront(prefix, s, most);
  }

  lemma RenderLast(prefix: string, s: string)
    requires FirstLine(s) == s
    ensures Render(prefix, Lines(s)) == if s == "" then "" else prefix + s + "\n"
  {
    assert Lines(s)[1..] == [];
  }

  lemma {:induction false} ShortIsEnough(prefix: string, s: string, most: nat)
    requires Short(Lines(s), most)
    ensures Shown(prefix, s, most) == Render(prefix, Lines(s))
    decreases |s|
  {
    hide Lines, Render, Short;
    var l := FirstLine(s);
    if l == s {
      RenderLast(prefix, s);
    } else {
      FrontLine(prefix, s, most);
      ShortIsEnough(prefix, s[|l| + 1..], most);
    }
  }

  // ---------- text printed as it is never looks like text printed line by line ----------

  function Newlines(s: string): nat {
    if s == "" then 0 else (if s[0] == '\n' then 1 else 0) + Newlines(s[1..])
  }

  lemma {:induction false} NewlinesOfTwo(a: string, b: string)
    ensures Newlines(a + b) == Newlines(a) + Newlines(b)
  {
    if a == "" {
      assert a + b == b;
    } else {
      assert (a + b)[0] == a[0] && (a + b)[1..] == a[1..] + b;
      NewlinesOfTwo(a[1..], b);
    }
  }

  lemma {:induction false} NoNewlines(s: string)
    requires '\n' !in s
    ensures Newlines(s) == 0
  {
    if s != "" {
      assert s[0] in s;
      NoNewlines(s[1..]);
    }
  }

  // The characters of the lines.
  function Size(lines: seq<string>): nat {
    if lines == [] then 0 else |lines[0]| + Size(lines[1..])
  }

  // The line, the newline and the rest of a text.
  lemma TextAdds(l: string, more: string, s: string)
    requires |s| == |l| + 1 + |more| && s[..|l|] == l && s[|l|] == '\n' && s[|l| + 1..] == more && '\n' !in l
    ensures Newlines(s) == 1 + Newlines(more)
  {
    assert s == l + (['\n'] + more);
    NewlinesOfTwo(l, ['\n'] + more);
    NoNewlines(l);
    assert (['\n'] + more)[1..] == more;
  }

  lemma {:induction false} LinesAdd(s: string)
    ensures |s| + 1 == Size(Lines(s)) + |Lines(s)| && Newlines(s) + 1 == |Lines(s)|
    ensures forall l | l in Lines(s) :: '\n' !in l
    decreases |s|
  {
    var l := FirstLine(s);
    if l == s {
      NoNewlines(s);
      assert Lines(s)[1..] == [];
    } else {
      var more := s[|l| + 1..];
      LinesFront(s);
      hide Lines, Newlines, FirstLine;
      LinesAdd(more);
      TextAdds(l, more, s);
      assert ([l] + Lines(more))[1..] == Lines(more);
    }
  }

  lemma {:induction false} RenderAdds(prefix: string, lines: seq<string>)
    requires prefix != "" && '\n' !in prefix && forall l | l in lines :: '\n' !in l
    ensures |Render(prefix, lines)| >= Size(lines) + 2 * Newlines(Render(prefix, lines))
  {
    if lines != [] {
      var l, rest := lines[0], Render(prefix, lines[1..]);
      RenderAdds(prefix, lines[1..]);
      if l != "" {
        NewlinesOfTwo(prefix + l + "\n", rest);
        NewlinesOfTwo(prefix + l, "\n");
        NewlinesOfTwo(prefix, l);
        NoNewlines(prefix);
        NoNewlines(l);
        assert "\n"[1..] == "";
      } else {
        assert "" + rest == rest;
      }
    }
  }

  lemma NeverVerbatim(prefix: string, s: string)
    requires prefix != "" && '\n' !in prefix
    ensures s + "\n" != Render(prefix, Lines(s))
  {
    LinesAdd(s);
    RenderAdds(prefix, Lines(s));
    NewlinesOfTwo(s, "\n");
    assert "\n"[1..] == "";
  }

  lemma SameFront(a: string, x: string, y: string)
    ensures a + x == a + y <==> x == y
  {
    assert (a + x)[|a|..] == x && (a + y)[|a|..] == y;
  }

  lemma OnlyLineIsShort(s: string, most: nat)
    requires FirstLine(s) == s
    ensures Short(Lines(s), most)
  {
  }

  lemma {:induction false} ShortIsNeeded(prefix: string, s: string, most: nat)
    requires prefix != "" && '\n' !in prefix && !Short(Lines(s), most)
    ensures Shown(prefix, s, most) != Render(prefix, Lines(s))
    decreases |s|
  {
    hide Lines, Render, Short, Shown, FirstLine;
    var l := FirstLine(s);
    if l == s {
      OnlyLineIsShort(s, most);
    } else {
      var more := s[|l| + 1..];
      FrontLine(prefix, s, most);
      var line := if l == "" then "" else prefix + l + "\n";
      if |l| > most {
        NeverVerbatim(prefix, more);
        SameFront(line, more + "\n", Render(prefix, Lines(more)));
      } else {
        ShortIsNeeded(prefix, more, most);
        SameFront(line, Shown(prefix, more, most), Render(prefix, Lines(more)));
      }
    }
  }

  // The first line of a text that a newline ends is that of any text that starts with it.
  lemma FirstLineStays(a: string, t: string)
    requires FirstLine(a) != a
    ensures FirstLine(a + t) == FirstLine(a) && FirstLine(a + t) != a + t
    ensures (a + t)[|FirstLine(a)| + 1..] == a[|FirstLine(a)| + 1..] + t
  {
    var l := FirstLine(a);
    assert (a + t)[..|l|] == l && (a + t)[|l|] == '\n';
    FirstLineIs(a + t, |l|);
  }

  predicate WholeLines(a: string, most: nat) {
    (a == "" || a[|a| - 1] == '\n') && forall l | l in Lines(a) :: |l| <= most
  }

  lemma WholeLinesFront(a: string, most: nat)
    requires WholeLines(a, most) && a != ""
    ensures FirstLine(a) != a && |FirstLine(a)| <= most && WholeLines(a[|FirstLine(a)| + 1..], most)
  {
    hide Lines;
    var l := FirstLine(a);
    assert l != a by { assert a[|a| - 1] in a; }
    LinesFront(a);
    AllOfTwo(l, Lines(a[|l| + 1..]), most);
  }

  lemma AllOfTwo(l: string, rest: seq<string>, most: nat)
    requires forall x | x in [l] + rest :: |x| <= most
    ensures |l| <= most && forall x | x in rest :: |x| <= most
  {
    assert l in [l] + rest;
    forall x | x in rest ensures |x| <= most { assert x in [l] + rest; }
  }

  // What comes before a text of whole lines is printed line by line, and then the text.
  lemma {:induction false} WholeLinesFirst(prefix: string, a: string, t: string, most: nat)
    requires WholeLines(a, most)
    ensures Shown(prefix, a + t, most) == Render(prefix, Lines(a)) + Shown(prefix, t, most)
    decreases |a|
  {
    hide Shown, Render, Lines, FirstLine, WholeLines;
    if a == "" {
      NothingIsALine();
      RenderLast(prefix, a);
      assert a + t == t && "" + Shown(prefix, t, most) == Shown(prefix, t, most);
    } else {
      WholeLinesFront(a, most);
      var l := FirstLine(a);
      var more, line := a[|l| + 1..], if l == "" then "" else prefix + l + "\n";
      WholeLinesFirst(prefix, more, t, most);
      FirstLineStays(a, t);
      LinesFront(a);
      ShownFront(prefix, a + t, most);
      RenderFront(prefix, l, Lines(more));
      Assoc(line, Render(prefix, Lines(more)), Shown(prefix, t, most));
    }
  }

  lemma NothingIsALine()
    ensures FirstLine("") == ""
  {
  }

  /** A line that a newline ends and that is too long: what comes before it is printed line by line, and it is
      printed with all that comes behind it as it is, one prefix in front and one newline at the end. */
  lemma LongLineStays(prefix: string, a: string, t: string, most: nat)
    requires (a == "" || a[|a| - 1] == '\n') && forall l | l in Lines(a) :: |l| <= most
    requires FirstLine(t) != t && |FirstLine(t)| > most
    ensures Shown(prefix, a + t, most) == Render(prefix, Lines(a)) + (prefix + t + "\n")
  {
    assert WholeLines(a, most);
    hide Shown, Render, Lines, FirstLine, WholeLines;
    WholeLinesFirst(prefix, a, t, most);
    var l := FirstLine(t);
    ShownFront(prefix, t, most);
    Regroup(prefix, l, t[|l| + 1..], t);
  }

  /** The printer puts out the prefix, the line and a newline for each non-empty line, in order, and
      nothing else, if and only if no line that is ended by a newline is longer than its buffer. */
  lemma ScanIsSplit(prefix: string, log: string)
    requires prefix != "" && '\n' !in prefix
    ensures Shown(prefix, log, MAX_LOG_LEN - 1) == Render(prefix, Lines(log)) <==> Short(Lines(log), MAX_LOG_LEN - 1)
  {
    if Short(Lines(log), MAX_LOG_LEN - 1) {
      ShortIsEnough(prefix, log, MAX_LOG_LEN - 1);
    } else {
      ShortIsNeeded(prefix, log, MAX_LOG_LEN - 1);
    }
  }
}
