/** Decimal numerals as `format!` prints them. */
module Decimals {

  function Decimal(n: nat): (s: string)
    ensures |s| >= 1 && (n < 10 <==> |s| == 1)
    ensures forall i :: 0 <= i < |s| ==> '0' <= s[i] <= '9'
  {
    var digit := ['0' + (n % 10) as char];
    if n < 10 then digit else Decimal(n / 10) + digit
  }

  lemma {:induction false} DecimalInjective(m: nat, n: nat)
    requires Decimal(m) == Decimal(n)
    ensures m == n
  {
    var a, b := Decimal(m), Decimal(n);
    assert a[|a| - 1] == b[|b| - 1] && m % 10 == n % 10;
    if m >= 10 && n >= 10 {
      assert a[..|a| - 1] == Decimal(m / 10) && b[..|b| - 1] == Decimal(n / 10);
      DecimalInjective(m / 10, n / 10);
    }
  }
}

/** Texts without carriage returns as sequences of lines, each keeping its terminator. */
module TextLines {

  predicate IsLine(line: string) {
    line != "" && forall j :: 0 <= j < |line| - 1 ==> line[j] != '\n'
  }

  predicate Ended(line: string) {
    line != "" && line[|line| - 1] == '\n'
  }

  /** What splitting after every newline yields: only the last line may lack its terminator. */
  predicate WellFormed(lines: seq<string>) {
    && (forall i :: 0 <= i < |lines| ==> IsLine(lines[i]))
    && (forall i :: 0 <= i < |lines| - 1 ==> Ended(lines[i]))
  }

  /** Length of the first line, terminator included. */
  function FirstLine(text: string): (n: nat)
    requires text != ""
    ensures 1 <= n <= |text| && IsLine(text[..n]) && (n < |text| ==> Ended(text[..n]))
  {
    if text[0] == '\n' || |text| == 1 then 1
    else
      var n := 1 + FirstLine(text[1..]);
      assert forall j :: 1 <= j < n ==> text[..n][j] == text[1..][..n - 1][j - 1];
      n
  }

  function Lines(text: string): seq<string> {
    if text == "" then [] else [text[..FirstLine(text)]] + Lines(text[FirstLine(text)..])
  }

  function Join(lines: seq<string>): string {
    if lines == [] then "" else lines[0] + Join(lines[1..])
  }

  lemma {:induction false} LinesOfText(text: string)
    ensures WellFormed(Lines(text)) && Join(Lines(text)) == text
    decreases |text|
  {
    if text != "" {
      var n := FirstLine(text);
      var first, rest := text[..n], Lines(text[n..]);
      LinesOfText(text[n..]);
      assert n == |text| ==> rest == [];
      OneMoreLine(first, rest);
      assert text == first + text[n..];
    }
  }

  lemma OneMoreLine(first: string, rest: seq<string>)
    requires IsLine(first) && WellFormed(rest) && (rest != [] ==> Ended(first))
    ensures WellFormed([first] + rest) && Join([first] + rest) == first + Join(rest)
  {
    assert ([first] + rest)[1..] == rest;
  }

  lemma {:induction false} JoinAppend(a: seq<string>, b: seq<string>)
    ensures Join(a + b) == Join(a) + Join(b)
  {
    if a == [] {
      assert a + b == b;
    } else {
      assert (a + b)[1..] == a[1..] + b;
      JoinAppend(a[1..], b);
    }
  }

  lemma {:induction false} FirstLineOf(line: string, rest: string)
    requires IsLine(line) && (rest != "" ==> Ended(line))
    ensures FirstLine(line + rest) == |line|
  {
    if |line| > 1 {
      assert (line + rest)[1..] == line[1..] + rest;
      assert forall j :: 0 <= j < |line[1..]| ==> line[1..][j] == line[j + 1];
      FirstLineOf(line[1..], rest);
    }
  }

  lemma {:induction false} NonEmptyJoin(lines: seq<string>)
    requires WellFormed(lines)
    ensures Join(lines) == "" <==> lines == []
  {
  }

  lemma {:induction false} LinesOfJoin(lines: seq<string>)
    requires WellFormed(lines)
    ensures Lines(Join(lines)) == lines
  {
    if lines != [] {
      NonEmptyJoin(lines[1..]);
      FirstLineOf(lines[0], Join(lines[1..]));
      LinesOfJoin(lines[1..]);
      assert Join(lines)[|lines[0]|..] == Join(lines[1..]);
    }
  }

  /** Byte offset of a line start; the line count maps to the end of the text. */
  function Offset(lines: seq<string>, n: nat): nat
    requires n <= |lines|
  {
    if n == 0 then 0 else Offset(lines, n - 1) + |lines[n - 1]|
  }

  lemma {:induction false} OffsetCuts(lines: seq<string>, n: nat)
    requires n <= |lines|
    ensures Offset(lines, n) == |Join(lines[..n])| && Offset(lines, n) <= |Join(lines)|
    ensures Join(lines)[..Offset(lines, n)] == Join(lines[..n]) && Join(lines)[Offset(lines, n)..] == Join(lines[n..])
  {
    OffsetIsLength(lines, n);
    assert lines == lines[..n] + lines[n..];
    JoinAppend(lines[..n], lines[n..]);
  }

  lemma {:induction false} OffsetIsLength(lines: seq<string>, n: nat)
    requires n <= |lines|
    ensures Offset(lines, n) == |Join(lines[..n])|
  {
    if n > 0 {
      OffsetIsLength(lines, n - 1);
      assert lines[..n] == lines[..n - 1] + [lines[n - 1]];
      JoinAppend(lines[..n - 1], [lines[n - 1]]);
      assert Join([lines[n - 1]]) == lines[n - 1] + Join([]);
    }
  }

  lemma {:induction false} OffsetMonotone(lines: seq<string>, m: nat, n: nat)
    requires WellFormed(lines) && m <= n <= |lines|
    ensures Offset(lines, m) <= Offset(lines, n) && (m < n ==> Offset(lines, m) < Offset(lines, n))
  {
    if m < n { OffsetMonotone(lines, m, n - 1); }
  }

  lemma WellFormedParts(a: seq<string>, b: seq<string>)
    requires WellFormed(a + b)
    ensures WellFormed(a) && WellFormed(b) && (b != [] && a != [] ==> Ended(a[|a| - 1]))
  {
    assert forall i :: 0 <= i < |a| ==> (a + b)[i] == a[i];
    assert forall i :: 0 <= i < |b| ==> (a + b)[|a| + i] == b[i];
  }

  lemma WellFormedAppend(a: seq<string>, b: seq<string>)
    requires WellFormed(a) && WellFormed(b) && (a != [] && b != [] ==> Ended(a[|a| - 1]))
    ensures WellFormed(a + b)
  {
  }
}

/** The ATX headings of section 4.2 of CommonMark 0.31.2, one line at a time, behind any block quote markers. */
module Headings {
  import opened Basics

  datatype Heading = Heading(level: nat, slug: string, depth: nat)

  function Content(line: string): string {
    if line != "" && line[|line| - 1] == '\n' then line[..|line| - 1] else line
  }

  function Spaces(text: string): nat {
    if text != "" && text[0] == ' ' then 1 + Spaces(text[1..]) else 0
  }

  function Hashes(text: string): (n: nat)
    ensures n <= |text|
  {
    if text != "" && text[0] == '#' then 1 + Hashes(text[1..]) else 0
  }

  predicate Gap(c: char) {
    c == ' ' || c == '\t'
  }

  function TrimLeft(text: string): string {
    if text != "" && Gap(text[0]) then TrimLeft(text[1..]) else text
  }

  function TrimRight(text: string): string {
    if text != "" && Gap(text[|text| - 1]) then TrimRight(text[..|text| - 1]) else text
  }

  function DropClosing(text: string): string {
    if text != "" && text[|text| - 1] == '#' then DropClosing(text[..|text| - 1]) else text
  }

  /** The heading text: gaps around it and a closing run of `#` set off by a gap do not belong to it. */
  function Title(text: string): string {
    var inner := TrimRight(TrimLeft(text));
    var open := DropClosing(inner);
    if open == "" || Gap(open[|open| - 1]) then TrimRight(open) else inner
  }

  function Lower(c: char): char {
    if 'A' <= c <= 'Z' then 'a' + (c - 'A') else c
  }

  predicate SlugLetter(c: char) {
    'a' <= c <= 'z' || '0' <= c <= '9'
  }

  /** Lower-case letters and digits, every other run one hyphen, none at either end. */
  function Words(text: string): string {
    if text == "" then ""
    else
      var c, front := Lower(text[|text| - 1]), Words(text[..|text| - 1]);
      if SlugLetter(c) then front + [c]
      else if front == "" || front[|front| - 1] == '-' then front
      else front + "-"
  }

  function Slugify(text: string): string {
    var words := Words(text);
    var trimmed := if words != "" && words[|words| - 1] == '-' then words[..|words| - 1] else words;
    if trimmed == "" then "section" else trimmed
  }

  function Atx(text: string, depth: nat): Option<Heading> {
    var n := Hashes(text);
    if 1 <= n <= 6 && (n == |text| || Gap(text[n])) then Some(Heading(n, Slugify(Title(text[n..])), depth)) else None
  }

  /** Behind up to three spaces a `>` opens one more block quote. */
  function Behind(text: string, depth: nat): Option<Heading>
    decreases |text|
  {
    var indent := Spaces(text);
    if indent > 3 || indent >= |text| then None
    else if text[indent] == '>' then
      var inner := text[indent + 1..];
      Behind(if inner != "" && inner[0] == ' ' then inner[1..] else inner, depth + 1)
    else Atx(text[indent..], depth)
  }

  /** The heading a line holds; its terminator is not part of the question. */
  function HeadingOf(line: string): Option<Heading> {
    Behind(Content(line), 0)
  }

  predicate IsHeading(line: string) {
    HeadingOf(line).Some?
  }

  /** A heading of the document outline, not of a block quote. */
  predicate IsOutline(line: string) {
    HeadingOf(line).Some? && HeadingOf(line).value.depth == 0
  }

  lemma EmptyLineIsNoHeading()
    ensures !IsHeading("\n") && !IsHeading("")
  {
    assert Content("\n") == "";
  }

  lemma {:induction false} HeadingLevels(text: string, depth: nat)
    ensures Behind(text, depth).Some? ==> 1 <= Behind(text, depth).value.level <= 6
    decreases |text|
  {
    var indent := Spaces(text);
    if indent <= 3 && indent < |text| && text[indent] == '>' {
      var inner := text[indent + 1..];
      HeadingLevels(if inner != "" && inner[0] == ' ' then inner[1..] else inner, depth + 1);
    }
  }
}
