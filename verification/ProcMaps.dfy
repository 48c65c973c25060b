/** Parsing `/proc/PID/maps` and choosing the principal binary. */
module ProcMaps {
  import opened Wrappers
  import opened Memory
  import FoldedText

  datatype MapEntry = MapEntry(start: u64, perms: string, path: Option<string>)

  // ----- Text -----

  /** `char::is_whitespace`: the Unicode White_Space property. */
  predicate IsSpace(c: char) {
    var n := c as int;
    9 <= n <= 13 || n == 32 || n == 0x85 || n == 0xa0 || n == 0x1680 || 0x2000 <= n <= 0x200a ||
    n == 0x2028 || n == 0x2029 || n == 0x202f || n == 0x205f || n == 0x3000
  }

  predicate Token(s: string) {
    s != "" && forall i :: 0 <= i < |s| ==> !IsSpace(s[i])
  }

  /** `splitn(n, char::is_whitespace)`. */
  function SplitN(s: string, n: nat): (pieces: seq<string>)
    requires n > 0
    ensures pieces != []
  {
    if n == 1 || s == "" then [s]
    else if IsSpace(s[0]) then [""] + SplitN(s[1..], n - 1)
    else
      var rest := SplitN(s[1..], n);
      [[s[0]] + rest[0]] + rest[1..]
  }

  function NonEmpty(pieces: seq<string>): seq<string> {
    if pieces == [] then []
    else (if pieces[0] != "" then [pieces[0]] else []) + NonEmpty(pieces[1..])
  }

  function TrimStart(s: string): string {
    if s != "" && IsSpace(s[0]) then TrimStart(s[1..]) else s
  }

  function TrimEnd(s: string): string {
    if s != "" && IsSpace(s[|s| - 1]) then TrimEnd(s[..|s| - 1]) else s
  }

  function Trim(s: string): string {
    TrimEnd(TrimStart(s))
  }

  /** `str::lines`: a line ends at "\n" or "\r\n"; an unterminated last line keeps everything. */
  function Lines(raw: string): seq<string> {
    var pieces := FoldedText.Split(raw, '\n');
    var n := |pieces| - 1;
    StripReturns(pieces[..n]) + if pieces[n] == "" then [] else [pieces[n]]
  }

  function StripReturns(lines: seq<string>): (r: seq<string>)
    ensures |r| == |lines|
    ensures forall i :: 0 <= i < |r| ==> r[i] == StripReturn(lines[i])
  {
    seq(|lines|, i requires 0 <= i < |lines| => StripReturn(lines[i]))
  }

  function StripReturn(line: string): string {
    if line != "" && line[|line| - 1] == '\r' then line[..|line| - 1] else line
  }

  /** `split_once('-')`: what precedes the first dash, if there is one. */
  function BeforeDash(s: string): Option<string> {
    if s == "" then None
    else if s[0] == '-' then Some("")
    else
      var rest :- BeforeDash(s[1..]);
      Some([s[0]] + rest)
  }

  // ----- Hexadecimal -----

  predicate IsHex(c: char) {
    '0' <= c <= '9' || 'a' <= c <= 'f' || 'A' <= c <= 'F'
  }

  function HexValue(c: char): (v: nat)
    requires IsHex(c)
    ensures v < 16
  {
    if '0' <= c <= '9' then c as int - '0' as int
    else if 'a' <= c <= 'f' then c as int - 'a' as int + 10
    else c as int - 'A' as int + 10
  }

  /** The value of hex digits, most significant first. */
  function HexDigitsValue(s: string): Option<nat> {
    if s == "" then Some(0)
    else if !IsHex(s[|s| - 1]) then None
    else
      var high :- HexDigitsValue(s[..|s| - 1]);
      Some(16 * high + HexValue(s[|s| - 1]))
  }

  /** `u64::from_str_radix(s, 16)`: an optional plus sign, at least one digit, no overflow. */
  function ParseHex(s: string): Result<u64> {
    var digits := if s != "" && s[0] == '+' then s[1..] else s;
    if digits == "" then Err
    else
      match HexDigitsValue(digits)
      case None => Err
      case Some(v) => if v < U64 then Ok(v) else Err
  }

  // ----- The parser -----

  function ParseLine(line: string): Result<MapEntry> {
    var parts := NonEmpty(SplitN(line, 6));
    if |parts| < 2 then Err
    else
      var path := if |parts| < 6 || Trim(parts[5]) == "" then None else Some(Trim(parts[5]));
      match BeforeDash(parts[0])
      case None => Err
      case Some(start) =>
        var v :- ParseHex(start);
        Ok(MapEntry(v, parts[1], path))
  }

  /** Every line's entry, or an error if any line has one. */
  function ParseAll(lines: seq<string>): (r: Result<seq<MapEntry>>)
    ensures r.Ok? <==> forall i :: 0 <= i < |lines| ==> ParseLine(lines[i]).Ok?
    ensures r.Ok? ==> |r.value| == |lines| && forall i :: 0 <= i < |lines| ==> ParseLine(lines[i]) == Ok(r.value[i])
  {
    if lines == [] then Ok([])
    else
      var n := |lines| - 1;
      assert lines == lines[..n] + [lines[n]];
      var rest :- ParseAll(lines[..n]);
      var last :- ParseLine(lines[n]);
      Ok(rest + [last])
  }

  lemma ParseAllSnoc(lines: seq<string>, line: string)
    ensures ParseAll(lines + [line]) ==
            if ParseAll(lines).Ok? && ParseLine(line).Ok? then Ok(ParseAll(lines).value + [ParseLine(line).value])
            else Err
  {
    hide ParseLine;
    assert (lines + [line])[..|lines|] == lines;
  }

  method ParseMaps(raw: string) returns (r: Result<seq<MapEntry>>)
    ensures r == ParseAll(Lines(raw))
  {
    hide Lines, SplitN, NonEmpty, Trim, BeforeDash, ParseHex, ParseAll;
    var out: seq<MapEntry> := [];
    var lines := Lines(raw);
    assert lines[..0] == [];
    for i := 0 to |lines|
      invariant ParseAll(lines[..i]) == Ok(out)
    {
      var parts := NonEmpty(SplitN(lines[i], 6));
      if |parts| < 2 {
        assert ParseLine(lines[i]).Err?;
        return Err;
      }
      var path := if |parts| < 6 || Trim(parts[5]) == "" then None else Some(Trim(parts[5]));
      var start := BeforeDash(parts[0]);
      if start.None? {
        assert ParseLine(lines[i]).Err?;
        return Err;
      }
      var v := ParseHex(start.value);
      if v.Err? {
        assert ParseLine(lines[i]).Err?;
        return Err;
      }
      out := out + [MapEntry(v.value, parts[1], path)];
      ParseAllSnoc(lines[..i], lines[i]);
      assert lines[..i + 1] == lines[..i] + [lines[i]];
    }
    assert lines[..|lines|] == lines;
    return Ok(out);
  }

  // ----- The kernel's column format -----

  /** A mapping as the kernel prints it; `pad` spaces precede the path column. */
  datatype Mapping = Mapping(start: u64, end: u64, perms: string, offset: string, dev: string, inode: string,
                             pad: nat, path: Option<string>)

  /** What the kernel prints: blank-free columns, and a path in which newlines are escaped. */
  ghost predicate Printable(m: Mapping) {
    && Token(m.perms) && Token(m.offset) && Token(m.dev) && Token(m.inode)
    && (m.path.Some? ==> '\n' !in m.path.value)
  }

  /** Without a path, or with a non-empty one that neither starts nor ends in white space. */
  predicate Trimmed(m: Mapping) {
    m.path.Some? ==> m.path.value != "" && Trim(m.path.value) == m.path.value
  }

  function HexDigit(d: nat): (c: char)
    requires d < 16
    ensures IsHex(c) && HexValue(c) == d && !IsSpace(c) && c != '-' && c != '+' && c != '\n'
  {
    if d < 10 then ('0' as int + d) as char else ('a' as int + d - 10) as char
  }

  /** `%08lx`: lower-case hex, zero-padded to `width`. */
  function Hex(n: nat, width: nat): (s: string)
    ensures s != "" && forall i :: 0 <= i < |s| ==> IsHex(s[i]) && !IsSpace(s[i]) && s[i] !in {'-', '+', '\n'}
    decreases n, width
  {
    if n < 16 && width <= 1 then [HexDigit(n)]
    else Hex(n / 16, if width > 0 then width - 1 else 0) + [HexDigit(n % 16)]
  }

  function Spaces(n: nat): string {
    seq(n, _ => ' ')
  }

  function Range(m: Mapping): string {
    Hex(m.start, 8) + "-" + Hex(m.end, 8)
  }

  function PathColumn(m: Mapping): string {
    Spaces(m.pad) + m.path.GetOr("")
  }

  function PrintLine(m: Mapping): string {
    Range(m) + " " + m.perms + " " + m.offset + " " + m.dev + " " + m.inode + " " + PathColumn(m)
  }

  function PrintMaps(ms: seq<Mapping>): string {
    if ms == [] then "" else PrintLine(ms[0]) + "\n" + PrintMaps(ms[1..])
  }

  function Printed(ms: seq<Mapping>): (r: seq<string>)
    ensures |r| == |ms| && forall i :: 0 <= i < |r| ==> r[i] == PrintLine(ms[i])
  {
    seq(|ms|, i requires 0 <= i < |ms| => PrintLine(ms[i]))
  }

  function EntryOf(m: Mapping): MapEntry {
    MapEntry(m.start, m.perms, m.path)
  }

  /** What is left of the path after printing and parsing. */
  function ParsedPath(path: Option<string>): Option<string> {
    if path.None? || Trim(path.value) == "" then None else Some(Trim(path.value))
  }

  function Entries(ms: seq<Mapping>): (r: seq<MapEntry>)
    ensures |r| == |ms| && forall i :: 0 <= i < |r| ==> r[i] == EntryOf(ms[i])
  {
    seq(|ms|, i requires 0 <= i < |ms| => EntryOf(ms[i]))
  }

  // ----- Round trip -----

  lemma {:induction false} SplitToken(t: string, rest: string, n: nat)
    requires n > 1 && forall i :: 0 <= i < |t| ==> !IsSpace(t[i])
    ensures SplitN(t + " " + rest, n) == [t] + SplitN(rest, n - 1)
  {
    var s := t + " " + rest;
    if t == "" {
      assert s[1..] == rest;
    } else {
      assert s[1..] == t[1..] + " " + rest;
      SplitToken(t[1..], rest, n);
      assert t == [t[0]] + t[1..];
    }
  }

  lemma {:induction false} HexRoundTrip(n: nat, width: nat)
    ensures HexDigitsValue(Hex(n, width)) == Some(n)
    decreases n, width
  {
    var s := Hex(n, width);
    if n < 16 && width <= 1 {
      assert s[..0] == "";
    } else {
      var w := if width > 0 then width - 1 else 0;
      HexRoundTrip(n / 16, w);
      assert s[..|s| - 1] == Hex(n / 16, w);
    }
  }

  lemma {:induction false} DashEnds(a: string, b: string)
    requires '-' !in a
    ensures BeforeDash(a + "-" + b) == Some(a)
  {
    var s := a + "-" + b;
    if a != "" {
      assert s[1..] == a[1..] + "-" + b && s[0] == a[0] && a[0] in a;
      DashEnds(a[1..], b);
      assert a == [a[0]] + a[1..];
    }
  }

  lemma {:induction false} TrimPad(n: nat, p: string)
    ensures Trim(Spaces(n) + p) == Trim(p)
  {
    var s := Spaces(n) + p;
    if n == 0 {
      assert s == p;
    } else {
      assert s[1..] == Spaces(n - 1) + p;
      TrimPad(n - 1, p);
    }
  }

  lemma {:induction false} TrimStartSnoc(s: string, c: char)
    requires IsSpace(c)
    ensures TrimStart(s + [c]) == if TrimStart(s) == "" then "" else TrimStart(s) + [c]
  {
    var t := s + [c];
    if s == "" {
      assert t[1..] == "";
    } else {
      assert t[1..] == s[1..] + [c];
      TrimStartSnoc(s[1..], c);
    }
  }

  /** A trailing blank makes no difference. */
  lemma TrimSnoc(s: string, c: char)
    requires IsSpace(c)
    ensures Trim(s + [c]) == Trim(s)
  {
    TrimStartSnoc(s, c);
    var t := TrimStart(s);
    assert (t + [c])[..|t|] == t;
  }

  lemma SplitColumns(m: Mapping)
    requires Printable(m)
    ensures SplitN(PrintLine(m), 6) == [Range(m), m.perms, m.offset, m.dev, m.inode, PathColumn(m)]
  {
    hide SplitN, Range, PathColumn;
    assert Token(Range(m)) by { RangeToken(m); }
    var r5 := PathColumn(m);
    var r4 := m.inode + " " + r5;
    var r3 := m.dev + " " + r4;
    var r2 := m.offset + " " + r3;
    var r1 := m.perms + " " + r2;
    assert PrintLine(m) == Range(m) + " " + r1;
    SplitToken(Range(m), r1, 6);
    SplitToken(m.perms, r2, 5);
    SplitToken(m.offset, r3, 4);
    SplitToken(m.dev, r4, 3);
    SplitToken(m.inode, r5, 2);
    LastPiece(r5);
  }

  lemma LastPiece(s: string)
    ensures SplitN(s, 1) == [s]
  {
  }

  lemma RangeToken(m: Mapping)
    ensures Token(Range(m)) && '\n' !in Range(m)
  {
  }

  lemma KeepColumns(m: Mapping)
    requires Printable(m)
    ensures var six := [Range(m), m.perms, m.offset, m.dev, m.inode, PathColumn(m)];
            NonEmpty(six) == if PathColumn(m) == "" then six[..5] else six
  {
    hide NonEmpty, PathColumn;
    RangeToken(m);
    var five, col := [Range(m), m.perms, m.offset, m.dev, m.inode], PathColumn(m);
    var six := [Range(m), m.perms, m.offset, m.dev, m.inode, col];
    KeepAll(five, col);
    assert six == five + [col];
  }

  lemma {:induction false} KeepAll(tokens: seq<string>, last: string)
    requires forall i :: 0 <= i < |tokens| ==> tokens[i] != ""
    ensures NonEmpty(tokens + [last]) == tokens + if last == "" then [] else [last]
  {
    var all := tokens + [last];
    if tokens == [] {
      assert all == [last] && all[1..] == [];
    } else {
      assert all[1..] == tokens[1..] + [last];
      KeepAll(tokens[1..], last);
      assert tokens == [tokens[0]] + tokens[1..];
    }
  }

  /** Every line the kernel prints is parsed, with its path trimmed. */
  lemma LineParses(m: Mapping)
    requires Printable(m)
    ensures ParseLine(PrintLine(m)) == Ok(MapEntry(m.start, m.perms, ParsedPath(m.path)))
  {
    hide SplitN, NonEmpty, Trim, BeforeDash, Hex, HexDigitsValue, PrintLine;
    SplitColumns(m);
    KeepColumns(m);
    DashEnds(Hex(m.start, 8), Hex(m.end, 8));
    HexRoundTrip(m.start, 8);
    TrimPad(m.pad, m.path.GetOr(""));
    assert Hex(m.start, 8)[0] != '+';
    EmptyTrims();
    assert PathColumn(m) == "" ==> m.path.GetOr("") == "";
  }

  lemma EmptyTrims()
    ensures Trim("") == ""
  {
  }

  /** A printed line parses back as its mapping if and only if the path has no blanks at its ends. */
  lemma LineRoundTrips(m: Mapping)
    requires Printable(m)
    ensures ParseLine(PrintLine(m)) == Ok(EntryOf(m)) <==> Trimmed(m)
  {
    hide ParseLine, PrintLine, Trim;
    LineParses(m);
    EmptyTrims();
  }

  /** Splitting into lines strips a final carriage return, which the path's trimming would have dropped as well. */
  lemma StrippedLineParses(m: Mapping)
    requires Printable(m)
    ensures ParseLine(StripReturn(PrintLine(m))) == ParseLine(PrintLine(m))
  {
    hide ParseLine, Trim;
    var p := m.path.GetOr("");
    if p != "" && p[|p| - 1] == '\r' {
      var m' := m.(path := Some(p[..|p| - 1]));
      assert p == p[..|p| - 1] + ['\r'];
      TrimSnoc(p[..|p| - 1], '\r');
      assert PathColumn(m) == PathColumn(m') + ['\r'];
      var front := Range(m) + " " + m.perms + " " + m.offset + " " + m.dev + " " + m.inode + " ";
      assert PrintLine(m) == front + PathColumn(m) && PrintLine(m') == front + PathColumn(m');
      assert StripReturn(PrintLine(m)) == PrintLine(m');
      hide PrintLine, StripReturn;
      LineParses(m);
      LineParses(m');
    } else {
      assert PathColumn(m) != "" ==> PathColumn(m)[|PathColumn(m)| - 1] != '\r';
      LastOfLine(m);
    }
  }

  lemma LastOfLine(m: Mapping)
    ensures var (line, col) := (PrintLine(m), PathColumn(m));
            line != "" && line[|line| - 1] == if col != "" then col[|col| - 1] else ' '
  {
    hide Range, PathColumn;
    var col := PathColumn(m);
    var front := Range(m) + " " + m.perms + " " + m.offset + " " + m.dev + " " + m.inode + " ";
    assert PrintLine(m) == front + col;
  }

  lemma LineIsOneLine(m: Mapping)
    requires Printable(m)
    ensures '\n' !in PrintLine(m)
  {
    hide Range, PathColumn;
    RangeToken(m);
    assert '\n' !in PathColumn(m) by { PathColumnIsFree(m); }
  }

  lemma PathColumnIsFree(m: Mapping)
    requires Printable(m)
    ensures '\n' !in PathColumn(m)
  {
  }

  lemma {:induction false} SplitPrint(ms: seq<Mapping>)
    requires forall i :: 0 <= i < |ms| ==> Printable(ms[i])
    ensures FoldedText.Split(PrintMaps(ms), '\n') == Printed(ms) + [""]
  {
    hide PrintLine, Printable;
    if ms != [] {
      LineIsOneLine(ms[0]);
      FoldedText.SplitFront(PrintLine(ms[0]), PrintMaps(ms[1..]), '\n');
      SplitPrint(ms[1..]);
      assert Printed(ms) == [PrintLine(ms[0])] + Printed(ms[1..]);
    }
  }

  lemma LinesOfPrint(ms: seq<Mapping>)
    requires forall i :: 0 <= i < |ms| ==> Printable(ms[i])
    ensures Lines(PrintMaps(ms)) == StripReturns(Printed(ms))
  {
    hide PrintLine, FoldedText.Split, StripReturn, StripReturns, Printed, Printable, PrintMaps;
    SplitPrint(ms);
    var pieces := FoldedText.Split(PrintMaps(ms), '\n');
    assert pieces[..|pieces| - 1] == Printed(ms);
  }

  /**
   * Printing any mappings in the kernel's format and parsing always succeeds; it gives back starts, permissions
   * and paths if and only if no path has blanks at its ends.
   */
  lemma MapsRoundTrip(ms: seq<Mapping>)
    requires forall i :: 0 <= i < |ms| ==> Printable(ms[i])
    ensures ParseAll(Lines(PrintMaps(ms))).Ok?
    ensures ParseAll(Lines(PrintMaps(ms))) == Ok(Entries(ms)) <==> forall i :: 0 <= i < |ms| ==> Trimmed(ms[i])
  {
    hide PrintLine, ParseLine, Lines, PrintMaps, StripReturn, Printable, Trimmed, EntryOf;
    LinesOfPrint(ms);
    var lines := Lines(PrintMaps(ms));
    forall i | 0 <= i < |ms|
      ensures ParseLine(lines[i]).Ok? && (ParseLine(lines[i]) == Ok(EntryOf(ms[i])) <==> Trimmed(ms[i]))
    {
      StrippedLineParses(ms[i]);
      LineParses(ms[i]);
      LineRoundTrips(ms[i]);
    }
    var r := ParseAll(lines);
    if forall i :: 0 <= i < |ms| ==> Trimmed(ms[i]) {
      assert r.value == Entries(ms);
    } else {
      var i :| 0 <= i < |ms| && !Trimmed(ms[i]);
      assert r.value[i] != Entries(ms)[i];
    }
  }

  /** A file named "/a " is mapped under that name and parsed as "/a". */
  lemma TrailingBlankIsLost(m: Mapping)
    requires Printable(m) && m.path == Some("/a ")
    ensures ParseLine(PrintLine(m)) == Ok(EntryOf(m).(path := Some("/a")))
  {
    LineParses(m);
    hide ParseLine, PrintLine;
    assert "/a " == "/a" + [' '];
    TrimSnoc("/a", ' ');
  }

  // ----- The parser on any text -----

  /** The Unicode white space characters. */
  lemma SpacesAre(c: char)
    ensures IsSpace(c) <==>
            c as int in {0x09, 0x0a, 0x0b, 0x0c, 0x0d, 0x20, 0x85, 0xa0, 0x1680, 0x2000, 0x2001, 0x2002, 0x2003, 0x2004,
                         0x2005, 0x2006, 0x2007, 0x2008, 0x2009, 0x200a, 0x2028, 0x2029, 0x202f, 0x205f, 0x3000}
  {
  }

  /** `pieces` are `s` cut at its first white space characters, into at most `n`. */
  ghost predicate CutInto(s: string, pieces: seq<string>, n: nat) {
    if |pieces| == 0 then false
    else if |pieces| == 1 then pieces[0] == s && (n == 1 || forall c :: c in s ==> !IsSpace(c))
    else
      var k := |pieces[0]|;
      && n > 1 && k < |s| && pieces[0] == s[..k] && IsSpace(s[k]) && (forall c :: c in pieces[0] ==> !IsSpace(c))
      && CutInto(s[k + 1..], pieces[1..], n - 1)
  }

  lemma {:induction false} SplitCuts(s: string, n: nat)
    requires n > 0
    ensures CutInto(s, SplitN(s, n), n)
  {
    hide IsSpace;
    if n > 1 && s != "" {
      var pieces := SplitN(s, n);
      if IsSpace(s[0]) {
        SplitCuts(s[1..], n - 1);
        assert pieces[1..] == SplitN(s[1..], n - 1);
      } else {
        SplitCuts(s[1..], n);
        var rest := SplitN(s[1..], n);
        assert pieces[1..] == rest[1..];
        if |rest| > 1 {
          var k := |rest[0]|;
          assert s[..k + 1] == [s[0]] + s[1..][..k] && s[k + 2..] == s[1..][k + 1..];
        } else {
          assert pieces[0] == s;
        }
      }
    }
  }

  /** Hexadecimal digits of either case. */
  lemma DigitsAreHex(i: nat)
    requires i < 16
    ensures IsHex("0123456789abcdef"[i]) && HexValue("0123456789abcdef"[i]) == i
    ensures IsHex("0123456789ABCDEF"[i]) && HexValue("0123456789ABCDEF"[i]) == i
  {
  }

  lemma OnlyDigitsAreHex(c: char)
    ensures IsHex(c) <==> c in "0123456789abcdefABCDEF"
  {
    if IsHex(c) {
      var v := HexValue(c);
      assert c == "0123456789abcdef"[v] || c == "0123456789ABCDEF"[v];
    }
  }

  /** Every further digit multiplies by sixteen; anything else spoils the number. */
  lemma HexGrows(s: string, c: char)
    ensures HexDigitsValue("") == Some(0)
    ensures HexDigitsValue(s + [c]) ==
            if IsHex(c) && HexDigitsValue(s).Some? then Some(16 * HexDigitsValue(s).value + HexValue(c)) else None
  {
    assert (s + [c])[..|s|] == s;
  }

  /** Digits are needed, a plus sign may precede them, and 64 bits have to do. */
  lemma HexIsBounded(s: string)
    requires s == "" || s[0] != '+'
    ensures ParseHex("+" + s) == ParseHex(s)
    ensures ParseHex(s) == if s != "" && HexDigitsValue(s).Some? && HexDigitsValue(s).value <= 0xffff_ffff_ffff_ffff
                           then Ok(HexDigitsValue(s).value) else Err
  {
    assert ("+" + s)[1..] == s;
  }

  lemma {:induction false} NoDash(s: string)
    requires '-' !in s
    ensures BeforeDash(s) == None
  {
    if s != "" {
      assert s[0] in s;
      NoDash(s[1..]);
    }
  }

  lemma {:induction false} SplitOne(t: string, n: nat)
    requires n > 0 && forall i :: 0 <= i < |t| ==> !IsSpace(t[i])
    ensures SplitN(t, n) == [t]
  {
    if n > 1 && t != "" {
      SplitOne(t[1..], n);
      assert t == [t[0]] + t[1..];
    }
  }

  /** A line of one column is malformed. */
  lemma OneColumnIsRejected(t: string)
    requires Token(t)
    ensures ParseLine(t) == Err && ParseLine("") == Err
  {
    hide IsSpace, ParseHex;
    SplitOne(t, 6);
    SplitOne("", 6);
    assert [t][1..] == [] && NonEmpty([t]) == [t];
    assert [""][1..] == [] && NonEmpty([""]) == [];
  }

  lemma TwoColumns(range: string, perms: string)
    requires Token(range) && Token(perms)
    ensures NonEmpty(SplitN(range + " " + perms, 6)) == [range, perms]
  {
    hide IsSpace;
    SplitToken(range, perms, 6);
    SplitOne(perms, 5);
    assert [perms][1..] == [] && NonEmpty([perms]) == [perms];
    assert [range, perms][1..] == [perms];
  }

  /** Two columns are enough; then the range must have a dash, and before it a number of 64 bits in hexadecimal. */
  lemma TwoColumnsSuffice(range: string, perms: string, start: string, end: string)
    requires Token(range) && Token(perms)
    ensures '-' !in range ==> ParseLine(range + " " + perms) == Err
    ensures range == start + "-" + end && '-' !in start ==>
              ParseLine(range + " " + perms) ==
              if ParseHex(start).Ok? then Ok(MapEntry(ParseHex(start).value, perms, None)) else Err
  {
    hide IsSpace, ParseHex, BeforeDash, NonEmpty, SplitN;
    TwoColumns(range, perms);
    if '-' !in range { NoDash(range); }
    if range == start + "-" + end && '-' !in start { DashEnds(start, end); }
  }

  /** Lines end in a newline, or a carriage return and a newline; the last need not. */
  lemma LinesEnd(line: string, rest: string)
    requires '\n' !in line
    ensures Lines(line + "\n" + rest) == [StripReturn(line)] + Lines(rest)
    ensures Lines(line) == if line == "" then [] else [line]
    ensures StripReturn(line + "\r") == line
    ensures line == "" || line[|line| - 1] != '\r' ==> StripReturn(line) == line
  {
    hide StripReturn;
    FoldedText.SplitFront(line, rest, '\n');
    FoldedText.SplitWhole(line, '\n');
    hide FoldedText.Split;
    var tail := FoldedText.Split(rest, '\n');
    var n := |tail| - 1;
    assert ([line] + tail)[..n + 1] == [line] + tail[..n];
    assert StripReturns([line] + tail[..n]) == [StripReturn(line)] + StripReturns(tail[..n]);
    assert StripReturns([line][..0]) == [];
    StripsOne(line);
  }

  lemma StripsOne(line: string)
    ensures StripReturn(line + "\r") == line
    ensures line == "" || line[|line| - 1] != '\r' ==> StripReturn(line) == line
  {
  }

  // ----- The principal binary -----

  predicate StartsWith(s: string, prefix: string) {
    prefix <= s
  }

  predicate EndsWith(s: string, suffix: string) {
    |suffix| <= |s| && s[|s| - |suffix|..] == suffix
  }

  /** A private executable mapping of an on-disk file. */
  predicate Eligible(e: MapEntry) {
    && 'x' in e.perms && 'p' in e.perms
    && e.path.Some?
    && var p := e.path.value;
    !StartsWith(p, "[") && p != "" && !StartsWith(p, "/dev/") && !EndsWith(p, "(deleted)")
  }

  lemma DevicePaths(p: string)
    ensures StartsWith(p, "/dev/") <==> exists rest: string :: p == "/dev/" + rest
  {
    if StartsWith(p, "/dev/") { assert p == "/dev/" + p[5..]; }
  }

  lemma DeletedPaths(p: string)
    ensures EndsWith(p, "(deleted)") <==> exists rest: string :: p == rest + "(deleted)"
  {
    assert |"(deleted)"| == 9;
    if EndsWith(p, "(deleted)") { assert p == p[..|p| - 9] + "(deleted)"; }
    forall rest: string | p == rest + "(deleted)" ensures EndsWith(p, "(deleted)") {
      assert p[|p| - 9..] == "(deleted)";
    }
  }

  /** Eligible are the private executable mappings of a named file, pseudo files, devices and deleted files excepted. */
  lemma EligibleIff(e: MapEntry)
    ensures Eligible(e) <==>
            && 'x' in e.perms && 'p' in e.perms && e.path.Some?
            && var p := e.path.value;
            && p != "" && p[0] != '['
            && !(exists rest: string :: p == "/dev/" + rest) && !(exists rest: string :: p == rest + "(deleted)")
  {
    hide EndsWith;
    if e.path.Some? {
      DevicePaths(e.path.value);
      DeletedPaths(e.path.value);
    }
  }

  /** An executable private mapping of the PHP binary is eligible. */
  lemma BinaryIsEligible()
    ensures Eligible(MapEntry(0, "r-xp", Some("/usr/bin/php")))
  {
    var perms, p := "r-xp", "/usr/bin/php";
    assert perms[2] == 'x' && perms[3] == 'p';
    assert p[0] == '/' && p[1] == 'u';
    assert !StartsWith(p, "/dev/") by { assert "/dev/"[1] == 'd'; }
    assert !EndsWith(p, "(deleted)") by {
      assert |p| == 12 && |"(deleted)"| == 9 && p[3..][0] == 'r' && "(deleted)"[0] == '(';
    }
  }

  /** Mapping `i` is eligible and none before it is. */
  ghost predicate IsFirstEligible(maps: seq<MapEntry>, i: nat) {
    i < |maps| && Eligible(maps[i]) && forall j :: 0 <= j < i ==> !Eligible(maps[j])
  }

  function FirstEligible(maps: seq<MapEntry>): (r: Option<MapEntry>)
    ensures r.None? <==> forall i :: 0 <= i < |maps| ==> !Eligible(maps[i])
    ensures r.Some? ==> exists i: nat :: IsFirstEligible(maps, i) && maps[i] == r.value
  {
    hide Eligible;
    if maps == [] then None
    else if Eligible(maps[0]) then
      assert IsFirstEligible(maps, 0);
      Some(maps[0])
    else
      var r := FirstEligible(maps[1..]);
      assert r.Some? ==> exists i: nat :: IsFirstEligible(maps, i) && maps[i] == r.value by {
        if r.Some? {
          var i: nat :| IsFirstEligible(maps[1..], i) && maps[1..][i] == r.value;
          assert IsFirstEligible(maps, i + 1);
        }
      }
      r
  }

  /** Mapping `i` starts below every earlier one of the path. */
  ghost predicate IsFirstBelow(maps: seq<MapEntry>, path: string, i: nat) {
    i < |maps| && forall j :: 0 <= j < i && maps[j].path == Some(path) ==> maps[i].start < maps[j].start
  }

  /** `min_by_key(|m| m.start)` over the mappings of one path: the first lowest one. */
  function LowestOf(maps: seq<MapEntry>, path: string): (r: Option<MapEntry>)
    ensures r.None? <==> forall i :: 0 <= i < |maps| ==> maps[i].path != Some(path)
    ensures r.Some? ==> r.value in maps && r.value.path == Some(path)
    ensures r.Some? ==> forall i :: 0 <= i < |maps| && maps[i].path == Some(path) ==> r.value.start <= maps[i].start
    ensures r.Some? ==> exists i: nat :: IsFirstBelow(maps, path, i) && maps[i] == r.value
  {
    if maps == [] then None
    else
      var n := |maps| - 1;
      assert maps == maps[..n] + [maps[n]];
      var best := LowestOf(maps[..n], path);
      assert best.Some? ==> exists i: nat :: IsFirstBelow(maps, path, i) && maps[i] == best.value by {
        if best.Some? {
          var i: nat :| IsFirstBelow(maps[..n], path, i) && maps[..n][i] == best.value;
          assert IsFirstBelow(maps, path, i);
        }
      }
      assert best.None? || best.value.start > maps[n].start ==> IsFirstBelow(maps, path, n);
      if maps[n].path != Some(path) then best
      else if best.Some? && best.value.start <= maps[n].start then best
      else Some(maps[n])
  }

  /**
   * The lowest-start mapping of the path of the first private executable mapping with an eligible path;
   * none exactly when no mapping is eligible.
   */
  function PrincipalBinary(maps: seq<MapEntry>): (r: Option<MapEntry>)
    ensures r.None? <==> forall i :: 0 <= i < |maps| ==> !Eligible(maps[i])
    ensures r.Some? ==>
              && r.value in maps
              && FirstEligible(maps).Some? && r.value.path == FirstEligible(maps).value.path
              && forall i :: 0 <= i < |maps| && maps[i].path == r.value.path ==> r.value.start <= maps[i].start
  {
    var exe :- FirstEligible(maps);
    LowestOf(maps, exe.path.value)
  }

  /** On ascending maps, as the kernel lists them, the first eligible mapping is the lowest executable one. */
  lemma FirstIsLowestWhenAscending(maps: seq<MapEntry>, e: MapEntry)
    requires forall i, j :: 0 <= i < j < |maps| ==> maps[i].start <= maps[j].start
    requires e in maps && Eligible(e)
    ensures PrincipalBinary(maps).Some?
    ensures PrincipalBinary(maps).value.start <= FirstEligible(maps).value.start <= e.start
  {
    hide Eligible, LowestOf;
    var k :| 0 <= k < |maps| && maps[k] == e;
    var first := FirstEligible(maps).value;
    var i: nat :| IsFirstEligible(maps, i) && maps[i] == first;
  }
}
