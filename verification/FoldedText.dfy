/** The folded-stacks text format: printing, and a reader that undoes it. */
module FoldedText {
  import opened Wrappers

  /** `parts.join(sep)` for a one-character separator. */
  function Join(parts: seq<string>, sep: char): string {
    if parts == [] then ""
    else if |parts| == 1 then parts[0]
    else parts[0] + [sep] + Join(parts[1..], sep)
  }

  function Split(s: string, sep: char): (parts: seq<string>)
    ensures parts != []
    ensures forall i :: 0 <= i < |parts| ==> sep !in parts[i]
  {
    if s == "" then [""]
    else
      var rest := Split(s[1..], sep);
      if s[0] == sep then [""] + rest else [[s[0]] + rest[0]] + rest[1..]
  }

  ghost predicate Free(parts: seq<string>, c: char) {
    forall i :: 0 <= i < |parts| ==> c !in parts[i]
  }

  lemma {:induction false} SplitFront(p: string, rest: string, sep: char)
    requires sep !in p
    ensures Split(p + [sep] + rest, sep) == [p] + Split(rest, sep)
  {
    var s := p + [sep] + rest;
    if p == "" {
      assert s[1..] == rest;
    } else {
      assert s[1..] == p[1..] + [sep] + rest;
      assert s[0] == p[0] && p[0] in p;
      SplitFront(p[1..], rest, sep);
      assert p == [p[0]] + p[1..];
    }
  }

  lemma {:induction false} SplitWhole(p: string, sep: char)
    requires sep !in p
    ensures Split(p, sep) == [p]
  {
    if p != "" {
      assert p[0] in p;
      SplitWhole(p[1..], sep);
      assert p == [p[0]] + p[1..];
    }
  }

  lemma {:induction false} SplitFreeJoin(parts: seq<string>, sep: char)
    requires parts != [] && Free(parts, sep)
    ensures Split(Join(parts, sep), sep) == parts
  {
    if |parts| == 1 {
      SplitWhole(parts[0], sep);
    } else {
      SplitFront(parts[0], Join(parts[1..], sep), sep);
      SplitFreeJoin(parts[1..], sep);
    }
  }

  lemma {:induction false} JoinSplit(s: string, sep: char)
    ensures Join(Split(s, sep), sep) == s
  {
    if s != "" {
      JoinSplit(s[1..], sep);
      var rest := Split(s[1..], sep);
      assert s == [s[0]] + s[1..];
      if s[0] == sep {
        assert ([""] + rest)[1..] == rest;
      } else {
        assert ([[s[0]] + rest[0]] + rest[1..])[1..] == rest[1..];
      }
    }
  }

  /** Splitting undoes joining exactly if no part contains the separator. */
  lemma SplitJoin(parts: seq<string>, sep: char)
    requires parts != []
    ensures Split(Join(parts, sep), sep) == parts <==> Free(parts, sep)
  {
    if Free(parts, sep) { SplitFreeJoin(parts, sep); }
  }

  // ----- Decimal counts -----

  predicate IsDigit(c: char) {
    '0' <= c <= '9'
  }

  function Digit(d: nat): (c: char)
    requires d < 10
    ensures IsDigit(c) && DigitValue(c) == d
  {
    ('0' as int + d) as char
  }

  function DigitValue(c: char): nat
    requires IsDigit(c)
  {
    c as int - '0' as int
  }

  function Decimal(n: nat): (s: string)
    ensures s != ""
    ensures forall i :: 0 <= i < |s| ==> IsDigit(s[i])
  {
    if n < 10 then [Digit(n)] else Decimal(n / 10) + [Digit(n % 10)]
  }

  function ParseDecimal(s: string): Option<nat> {
    if s == "" || !IsDigit(s[|s| - 1]) then None
    else if |s| == 1 then Some(DigitValue(s[0]))
    else
      var high :- ParseDecimal(s[..|s| - 1]);
      Some(10 * high + DigitValue(s[|s| - 1]))
  }

  lemma ParseSnoc(high: string, d: nat)
    requires high != "" && d < 10
    ensures ParseDecimal(high + [Digit(d)]) ==
            if ParseDecimal(high).Some? then Some(10 * ParseDecimal(high).value + d) else None
  {
    var s := high + [Digit(d)];
    assert s[..|s| - 1] == high && s[|s| - 1] == Digit(d);
  }

  lemma {:induction false} DecimalRoundTrip(n: nat)
    ensures ParseDecimal(Decimal(n)) == Some(n)
  {
    if n >= 10 {
      hide ParseDecimal;
      DecimalRoundTrip(n / 10);
      ParseSnoc(Decimal(n / 10), n % 10);
    }
  }

  // ----- Lines -----

  /** `writeln!(self.w, "{k} {v}")` for every entry. */
  function Print(entries: seq<(string, nat)>): string {
    if entries == [] then "" else Line(entries[0]) + "\n" + Print(entries[1..])
  }

  function Line(e: (string, nat)): string {
    e.0 + " " + Decimal(e.1)
  }

  /** Cut at the last space. */
  function CutLast(s: string): Option<(string, string)> {
    if s == "" then None
    else
      var n := |s| - 1;
      if s[n] == ' ' then Some((s[..n], ""))
      else
        var (a, b) :- CutLast(s[..n]);
        Some((a, b + [s[n]]))
  }

  lemma {:induction false} CutLastSpace(a: string, b: string)
    requires ' ' !in b
    ensures CutLast(a + " " + b) == Some((a, b))
  {
    var s := a + " " + b;
    var n := |s| - 1;
    if b == "" {
      assert s[..n] == a;
    } else {
      assert s[..n] == a + " " + b[..|b| - 1];
      assert s[n] == b[|b| - 1] && s[n] in b;
      CutLastSpace(a, b[..|b| - 1]);
      assert b == b[..|b| - 1] + [s[n]];
    }
  }

  /** One line: the name list and the count. */
  function ParseLine(line: string): Option<(seq<string>, nat)> {
    var (key, digits) :- CutLast(line);
    var count :- ParseDecimal(digits);
    Some((Split(key, ';'), count))
  }

  function ParseLines(lines: seq<string>): Option<seq<(seq<string>, nat)>> {
    if lines == [] then Some([])
    else
      var first :- ParseLine(lines[0]);
      var rest :- ParseLines(lines[1..]);
      Some([first] + rest)
  }

  /** The whole text: every line ends in a newline. */
  function Parse(text: string): Option<seq<(seq<string>, nat)>> {
    var lines := Split(text, '\n');
    if lines[|lines| - 1] != "" then None else ParseLines(lines[..|lines| - 1])
  }

  // ----- Round trip -----

  function Keyed(entries: seq<(seq<string>, nat)>): (r: seq<(string, nat)>)
    ensures |r| == |entries|
    ensures forall i :: 0 <= i < |r| ==> r[i] == (Join(entries[i].0, ';'), entries[i].1)
  {
    seq(|entries|, i requires 0 <= i < |entries| => (Join(entries[i].0, ';'), entries[i].1))
  }

  ghost predicate Clean(entries: seq<(seq<string>, nat)>) {
    forall i :: 0 <= i < |entries| ==> Free(entries[i].0, ';') && Free(entries[i].0, '\n')
  }

  lemma {:induction false} JoinFree(parts: seq<string>, sep: char, c: char)
    requires Free(parts, c) && sep != c
    ensures c !in Join(parts, sep)
  {
    if |parts| > 1 { JoinFree(parts[1..], sep, c); }
  }

  lemma LineRoundTrip(names: seq<string>, count: nat)
    requires names != [] && Free(names, ';') && Free(names, '\n')
    ensures var line := Line((Join(names, ';'), count));
            ParseLine(line) == Some((names, count)) && '\n' !in line
  {
    assert ' ' !in Decimal(count) && '\n' !in Decimal(count);
    CutLastSpace(Join(names, ';'), Decimal(count));
    DecimalRoundTrip(count);
    SplitFreeJoin(names, ';');
    JoinFree(names, ';', '\n');
  }

  lemma {:induction false} CleanRoundTrip(entries: seq<(seq<string>, nat)>)
    requires Clean(entries) && forall i :: 0 <= i < |entries| ==> entries[i].0 != []
    ensures var lines := Split(Print(Keyed(entries)), '\n');
            lines[|lines| - 1] == "" && ParseLines(lines[..|lines| - 1]) == Some(entries)
  {
    hide ParseLine, Line;
    if entries != [] {
      var rest := entries[1..];
      CleanRoundTrip(rest);
      assert Keyed(entries)[1..] == Keyed(rest);
      LineRoundTrip(entries[0].0, entries[0].1);
      var line := Line(Keyed(entries)[0]);
      assert line == Line((Join(entries[0].0, ';'), entries[0].1));
      SplitFront(line, Print(Keyed(rest)), '\n');
      var tail := Split(Print(Keyed(rest)), '\n');
      var lines := Split(Print(Keyed(entries)), '\n');
      assert lines == [line] + tail;
      assert lines[..|lines| - 1] == [line] + tail[..|tail| - 1];
      assert entries == [entries[0]] + rest;
    }
  }

  lemma {:induction false} CutKeeps(s: string, c: char)
    requires c !in s && CutLast(s).Some?
    ensures c !in CutLast(s).value.0
  {
    if s[|s| - 1] != ' ' { CutKeeps(s[..|s| - 1], c); }
  }

  lemma {:induction false} SplitKeeps(s: string, sep: char, c: char)
    requires c !in s
    ensures Free(Split(s, sep), c)
  {
    if s != "" { SplitKeeps(s[1..], sep, c); }
  }

  lemma {:induction false} ParsedAreClean(lines: seq<string>)
    requires Free(lines, '\n') && ParseLines(lines).Some?
    ensures Clean(ParseLines(lines).value)
  {
    if lines != [] {
      ParsedAreClean(lines[1..]);
      var key := CutLast(lines[0]).value.0;
      CutKeeps(lines[0], '\n');
      SplitKeeps(key, ';', '\n');
    }
  }

  /**
   * Folded output round trip: cutting each line at its last space and the key at ';' recovers exactly
   * the printed name lists and counts if and only if no name contains ';' or a newline.
   */
  lemma FoldedRoundTrips(entries: seq<(seq<string>, nat)>)
    requires forall i :: 0 <= i < |entries| ==> entries[i].0 != []
    ensures Parse(Print(Keyed(entries))) == Some(entries) <==> Clean(entries)
  {
    hide Print, ParseLines, Split;
    if Clean(entries) { CleanRoundTrip(entries); }
    var lines := Split(Print(Keyed(entries)), '\n');
    if Parse(Print(Keyed(entries))) == Some(entries) { ParsedAreClean(lines[..|lines| - 1]); }
  }

  /** A name with ';' in it reads back as two. */
  lemma SemicolonReadsBackSplit()
    ensures Parse(Print(Keyed([(["a;b"], 1)]))) == Some([(["a", "b"], 1)])
  {
    hide Parse, Print;
    var one, two := [(["a;b"], 1)], [(["a", "b"], 1)];
    assert Join(["a", "b"], ';') == "a;b" by { assert ["a", "b"][1..] == ["b"]; }
    assert Keyed(one) == Keyed(two);
    FoldedRoundTrips(two);
  }

  /** Counts are printed in decimal, most significant digit first. */
  lemma DecimalIsDecimal(n: nat, d: nat)
    requires d < 10
    ensures Decimal(d) == ["0123456789"[d]]
    ensures n > 0 ==> Decimal(10 * n + d) == Decimal(n) + ["0123456789"[d]]
  {
    assert "0123456789"[d] == ('0' as int + d) as char;
  }
}
