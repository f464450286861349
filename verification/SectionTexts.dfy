/** What the section operations put into a body and take out of it, in terms of the caller's own text. */
module SectionTexts {
  import opened Basics
  import opened Whitespace
  import opened TextLines
  import opened Headings
  import opened Outlines
  import opened Splices
  import opened SectionOps
  import opened SectionShape
  import opened SectionRanges
  import opened SectionMoves
  import opened SectionUpsert
  import SectionAnchors

  // ---- Trimmed text ----

  ghost predicate AllBreaks(text: string) {
    forall i :: 0 <= i < |text| ==> text[i] == '\n'
  }

  /** The caller's text from `i` to `j`: nothing but newlines is cut off, and no newline is left at either end. */
  lemma {:induction false} TrimBreaksCuts(text: string) returns (i: nat, j: nat)
    ensures i <= j <= |text| && TrimBreaks(text) == text[i..j]
    ensures AllBreaks(text[..i]) && AllBreaks(text[j..])
    ensures i < j ==> text[i] != '\n' && text[j - 1] != '\n'
    decreases |text|
  {
    if text != "" && text[0] == '\n' {
      var x, y := TrimBreaksCuts(text[1..]);
      i, j := x + 1, y + 1;
      CutBehindFirst(text, x, y);
    } else if text != "" && text[|text| - 1] == '\n' {
      i, j := TrimBreaksCuts(text[..|text| - 1]);
      CutBeforeLast(text, i, j);
    } else {
      i, j := 0, |text|;
      assert text[0..|text|] == text;
    }
  }

  lemma CutBehindFirst(text: string, x: nat, y: nat)
    requires text != "" && text[0] == '\n' && x <= y <= |text[1..]| && AllBreaks(text[1..][..x])
    requires AllBreaks(text[1..][y..])
    ensures text[x + 1..y + 1] == text[1..][x..y] && AllBreaks(text[..x + 1]) && AllBreaks(text[y + 1..])
  {
    assert text[y + 1..] == text[1..][y..];
    var front := text[..x + 1];
    forall k | 0 <= k < |front| ensures front[k] == '\n' {
      if k > 0 { assert text[1..][..x][k - 1] == text[k]; }
    }
  }

  lemma CutBeforeLast(text: string, i: nat, j: nat)
    requires text != "" && text[|text| - 1] == '\n' && i <= j < |text| && AllBreaks(text[..|text| - 1][..i])
    requires AllBreaks(text[..|text| - 1][j..])
    ensures text[i..j] == text[..|text| - 1][i..j] && AllBreaks(text[..i]) && AllBreaks(text[j..])
  {
    assert text[..i] == text[..|text| - 1][..i] && text[j..] == text[..|text| - 1][j..] + [text[|text| - 1]];
  }

  /** Newlines around a text are no lines that hold anything. */
  lemma LeadingBreak(text: string)
    ensures NonBlank(Lines("\n" + text)) == NonBlank(Lines(text))
  {
    BreakInFront(text);
    hide Lines, Content;
    NonBlankAppend(["\n"], Lines(text));
    BreakIsBlank();
  }

  lemma BreakInFront(text: string)
    ensures Lines("\n" + text) == ["\n"] + Lines(text)
  {
    var t := "\n" + text;
    assert FirstLine(t) == 1 && t[..1] == "\n" && t[1..] == text;
  }

  lemma BreakIsBlank()
    ensures NonBlank(["\n"]) == []
  {
    assert Content("\n") == "" && ["\n"][..0] == [];
  }

  lemma TrailingBreak(text: string)
    ensures NonBlank(Lines(text + "\n")) == NonBlank(Lines(text))
  {
    LinesOfText(text);
    var lines := Lines(text);
    hide Lines, NonBlank, Terminated, WellFormed;
    TerminatedText(lines);
    TerminatedKeeps(lines);
    if text == "" || Ended(text) {
      BreakBehind(text);
      NonBlankAppend(lines, ["\n"]);
      BreakIsBlank();
      assert NonBlank(lines) + [] == NonBlank(lines);
    } else {
      assert lines != [] by { NonEmptyJoin(lines); }
      LinesOfJoin(Terminated(lines));
    }
  }

  /** A newline behind a closed text is a line of its own. */
  lemma BreakBehind(text: string)
    requires text == "" || Ended(text)
    ensures Lines(text + "\n") == Lines(text) + ["\n"]
  {
    hide *;
    LinesOfText(text);
    BreakLine();
    var lines := Lines(text);
    if text != "" { LastOfEnded(lines, text); }
    NonEmptyJoin(lines);
    BreakJoins(lines, text);
    LinesOfJoin(lines + ["\n"]);
  }

  lemma BreakLine()
    ensures WellFormed(["\n"]) && Join(["\n"]) == "\n"
  {
    assert IsLine("\n") && Join(["\n"]) == "\n" + Join([]);
  }

  lemma LastOfEnded(lines: seq<string>, text: string)
    requires WellFormed(lines) && Join(lines) == text && text != "" && Ended(text)
    ensures lines != [] && Ended(lines[|lines| - 1])
  {
    hide Join;
    NonEmptyJoin(lines);
    LastLine(lines);
    LastIsEnded(lines, text);
  }

  lemma BreakJoins(lines: seq<string>, text: string)
    requires WellFormed(lines) && Join(lines) == text && (lines != [] ==> Ended(lines[|lines| - 1]))
    ensures WellFormed(lines + ["\n"]) && Join(lines + ["\n"]) == text + "\n"
  {
    BreakLine();
    hide Join, WellFormed;
    WellFormedAppend(lines, ["\n"]);
    JoinAppend(lines, ["\n"]);
  }

  /** Trimming loses no line that holds anything. */
  lemma {:induction false} TrimmedLines(text: string)
    ensures NonBlank(Lines(TrimBreaks(text))) == NonBlank(Lines(text))
    decreases |text|
  {
    hide Lines, NonBlank;
    if text != "" && text[0] == '\n' {
      TrimmedLines(text[1..]);
      LeadingBreak(text[1..]);
      assert text == "\n" + text[1..];
    } else if text != "" && text[|text| - 1] == '\n' {
      TrimmedLines(text[..|text| - 1]);
      TrailingBreak(text[..|text| - 1]);
      assert text == text[..|text| - 1] + "\n";
    }
  }

  // ---- A rendered section ----

  /** `title` is the markers of that level, a space, and the heading without the blanks around it. */
  ghost predicate IsTitle(title: string, level: nat, heading: string) {
    && |title| > level && (forall i :: 0 <= i < level ==> title[i] == '#') && title[level] == ' '
    && exists x, y ::
      && 0 <= x <= y <= |heading| && title[level + 1..] == heading[x..y]
      && IsBlank(heading[..x]) && IsBlank(heading[y..])
      && (x < y ==> !IsWhite(heading[x]) && !IsWhite(heading[y - 1]))
  }

  function Titled(level: nat, heading: string): string {
    Marker(level) + " " + Trim(heading)
  }

  lemma TrimCuts(text: string) returns (x: nat, y: nat)
    ensures x <= y <= |text| && Trim(text) == text[x..y] && IsBlank(text[..x]) && IsBlank(text[y..])
    ensures x < y ==> !IsWhite(text[x]) && !IsWhite(text[y - 1])
  {
    hide IsWhite, TrimStart, TrimEnd;
    TrimStartParts(text);
    var mid := TrimStart(text);
    TrimEndParts(mid);
    var r := TrimEnd(mid);
    x := |text| - |mid|;
    y := x + |r|;
    assert mid[..|r|] == text[x..y];
    BlankTail(text, mid, x, |r|);
    if r != "" { assert r[0] == mid[0] && text[x] == mid[0] && text[y - 1] == r[|r| - 1]; }
  }

  lemma BlankTail(text: string, mid: string, x: nat, n: nat)
    requires x <= |text| && mid == text[x..] && n <= |mid| && IsBlank(mid[n..])
    ensures IsBlank(text[x + n..])
  {
    assert text[x + n..] == mid[n..];
  }

  lemma TitledIs(level: nat, heading: string)
    ensures IsTitle(Titled(level, heading), level, heading)
  {
    hide Trim;
    var x, y := TrimCuts(heading);
    var title := Titled(level, heading);
    assert title[level + 1..] == heading[x..y];
  }

  /** A rendered section says its title and the lines of the caller's text that hold anything, in order. */
  lemma RenderedSays(level: nat, heading: string, text: string)
    requires level >= 1
    ensures NonBlank(Lines(Rendered(level, heading, text))) ==
      NonBlank(Lines(Titled(level, heading))) + NonBlank(Lines(text))
  {
    hide Trim, Lines, NonBlank, Marker, TrimBreaks;
    TrimmedLines(text);
    var title, trimmed := Titled(level, heading), TrimBreaks(text);
    if trimmed == "" {
      NoText();
      assert Rendered(level, heading, text) == title && NonBlank(Lines(title)) + [] == NonBlank(Lines(title));
    } else {
      assert Rendered(level, heading, text) == (title + "\n") + "\n" + trimmed;
      TextBehind(title, trimmed);
    }
  }

  lemma NoText()
    ensures NonBlank(Lines("")) == []
  {
  }

  /** A text behind a closed line and a blank one. */
  lemma TextBehind(title: string, text: string)
    ensures NonBlank(Lines((title + "\n") + "\n" + text)) == NonBlank(Lines(title)) + NonBlank(Lines(text))
  {
    hide Lines, NonBlank;
    ClosedInFront(title + "\n", "\n" + text);
    assert (title + "\n") + ("\n" + text) == (title + "\n") + "\n" + text;
    TrailingBreak(title);
    LeadingBreak(text);
    NonBlankAppend(Lines(title + "\n"), Lines("\n" + text));
  }

  /** Lines do not reach across a newline. */
  lemma ClosedInFront(front: string, text: string)
    requires Ended(front)
    ensures Lines(front + text) == Lines(front) + Lines(text)
  {
    LinesOfText(front);
    LinesOfText(text);
    var a, b := Lines(front), Lines(text);
    hide Lines, Join, WellFormed;
    LastOfEnded(a, front);
    WellFormedAppend(a, b);
    JoinAppend(a, b);
    LinesOfJoin(a + b);
  }

  lemma LastIsEnded(lines: seq<string>, text: string)
    requires lines != [] && WellFormed(lines) && Ended(text)
    requires text == Join(lines[..|lines| - 1]) + lines[|lines| - 1]
    ensures Ended(lines[|lines| - 1])
  {
    hide Join;
    assert IsLine(lines[|lines| - 1]);
  }

  lemma OneLineTitle(level: nat, heading: string)
    requires level >= 1 && forall i :: 0 <= i < |heading| ==> heading[i] != '\n'
    ensures NonBlank(Lines(Titled(level, heading))) == [Titled(level, heading)]
  {
    hide Trim, NonBlank, Lines;
    var x, y := TrimCuts(heading);
    var title := Titled(level, heading);
    assert IsLine(title);
    LinesOfJoin([title]);
    JoinOne(title);
    SolidLine(title);
  }

  lemma JoinOne(line: string)
    ensures Join([line]) == line && (IsLine(line) ==> WellFormed([line]))
  {
    assert Join([line]) == line + Join([]) && [line][1..] == [];
  }

  lemma SolidLine(line: string)
    requires line != "" && line[|line| - 1] != '\n'
    ensures NonBlank([line]) == [line]
  {
    assert [line][..0] == [] && Content(line) == line;
  }

  // ---- Where a section's range lies ----

  /** A heading that ends a section at `level`: one of the outline, no deeper. */
  predicate EndsAt(line: string, level: nat) {
    HeadingOf(line).Some? && HeadingOf(line).value.depth == 0 && HeadingOf(line).value.level <= level
  }

  /**
    Lines `a` to `b` are a section: its heading and everything up to the next outline heading of its level or
    above; behind the start of the text for the preamble, and up to the next heading of any kind for the
    preamble and for a quoted one.
  */
  ghost predicate SectionSpan(lines: seq<string>, level: nat, depth: nat, a: nat, b: nat) {
    && a <= b <= |lines|
    && (if level == 0 then a == 0 && forall i :: a <= i < b ==> !IsHeading(lines[i])
        else a < b && HeadingOf(lines[a]).Some? && HeadingOf(lines[a]).value.level == level &&
             HeadingOf(lines[a]).value.depth == depth)
    && (level > 0 && depth > 0 ==> forall i :: a < i < b ==> !IsHeading(lines[i]))
    && (level > 0 && depth == 0 ==> forall i :: a < i < b ==> !EndsAt(lines[i], level))
    && (b < |lines| ==> if level == 0 || depth > 0 then IsHeading(lines[b]) else EndsAt(lines[b], level))
  }

  lemma MarkedHeading(lines: seq<string>, s: seq<Section>, k: nat)
    requires s == Outline(lines) && k < |Heads(lines)|
    ensures |s| == |Heads(lines)| + 1 && At(lines, k) < |lines|
    ensures HeadingOf(lines[At(lines, k)]) == Some(Heads(lines)[k])
    ensures s[k + 1].level == Heads(lines)[k].level > 0 && s[k + 1].depth == Heads(lines)[k].depth
  {
    MarksAreHeadings(lines);
    OutlineDescribes(lines);
    hide HeadingOf, Outline, Heads, Marks;
  }

  /** Every heading line is the mark of some section. */
  lemma HeadingHasMark(lines: seq<string>, i: nat) returns (k: nat)
    requires i < |lines| && IsHeading(lines[i])
    ensures k < |Heads(lines)| && At(lines, k) == i
  {
    HeadingsAreMarked(lines, i);
    hide IsHeading, Heads, Marks;
    k :| 0 <= k < |Marks(lines)| && Marks(lines)[k] == i;
  }

  /** A heading inside the range, behind the section's own, lies below it. */
  lemma InsideRange(lines: seq<string>, s: seq<Section>, idx: nat, a: nat, b: nat, i: nat)
    requires IsRange(lines, s, idx, a, b) && a <= i < b && (idx > 0 ==> a < i) && IsHeading(lines[i])
    ensures s[idx].level > 0 && s[idx].depth == 0 && !EndsAt(lines[i], s[idx].level)
  {
    hide *;
    RangeIsOutline(lines, s, idx, a, b);
    RangeLies(lines, s, idx, a, b);
    var k := HeadingHasMark(lines, i);
    MarkedHeading(lines, s, k);
    CutOrder(lines, SubtreeEnd(s, idx) - 1, k);
    if idx > 0 { CutOrder(lines, k, idx - 1); }
    InsideSubtree(s, idx, k + 1);
    NotEnding(lines[i], s[idx].level, Heads(lines)[k]);
  }

  lemma NotEnding(line: string, level: nat, h: Heading)
    requires HeadingOf(line) == Some(h) && (h.depth > 0 || h.level > level)
    ensures !EndsAt(line, level)
  {
    hide HeadingOf;
  }

  lemma RangeLies(lines: seq<string>, s: seq<Section>, idx: nat, a: nat, b: nat)
    requires IsRange(lines, s, idx, a, b)
    ensures idx < SubtreeEnd(s, idx) <= |s| == |Heads(lines)| + 1
    ensures a == (if idx == 0 then 0 else At(lines, idx - 1)) && b == At(lines, SubtreeEnd(s, idx) - 1)
    ensures a <= b <= |lines| && (idx > 0 ==> a < b)
  {
    hide Outline, Heads, At, SubtreeEnd, RangeStart, RangeEnd;
    RangeFacts(lines, idx);
    OutlineDescribes(lines);
  }

  /** The line behind the range is a heading that ends the section. */
  lemma BehindRange(lines: seq<string>, s: seq<Section>, idx: nat, a: nat, b: nat)
    requires IsRange(lines, s, idx, a, b) && b < |lines|
    ensures IsHeading(lines[b]) && (s[idx].level > 0 && s[idx].depth == 0 ==> EndsAt(lines[b], s[idx].level))
  {
    hide Outline, Heads, At, SubtreeEnd, RangeStart, RangeEnd, HeadingOf, NextClosing;
    RangeLies(lines, s, idx, a, b);
    CutAtEnd(lines);
    var end := SubtreeEnd(s, idx);
    assert end < |s|;
    MarkedHeading(lines, s, end - 1);
    if s[idx].level > 0 && s[idx].depth == 0 { BehindSubtree(s, idx); }
  }

  /** The range an operation computes for a section is its span. */
  lemma RangeIsSpan(lines: seq<string>, s: seq<Section>, idx: nat, a: nat, b: nat)
    requires IsRange(lines, s, idx, a, b)
    ensures SectionSpan(lines, s[idx].level, s[idx].depth, a, b) && (idx == 0 <==> s[idx].level == 0)
  {
    hide Outline, Heads, Marks, At, HeadingOf, SubtreeEnd, RangeStart, RangeEnd, EndsAt;
    RangeLies(lines, s, idx, a, b);
    PreambleLevel(lines, s);
    if idx > 0 { MarkedHeading(lines, s, idx - 1); }
    forall i | a <= i < b && (idx > 0 ==> a < i) && IsHeading(lines[i])
      ensures s[idx].level > 0 && s[idx].depth == 0 && !EndsAt(lines[i], s[idx].level)
    {
      InsideRange(lines, s, idx, a, b, i);
    }
    forall i | a <= i < b && EndsAt(lines[i], s[idx].level) ensures IsHeading(lines[i]) {
      EndIsHeading(lines[i], s[idx].level);
    }
    if b < |lines| { BehindRange(lines, s, idx, a, b); }
  }

  lemma PreambleLevel(lines: seq<string>, s: seq<Section>)
    requires s == Outline(lines)
    ensures s[0].level == 0 && s[0].depth == 0
  {
  }

  lemma EndIsHeading(line: string, level: nat)
    requires EndsAt(line, level)
    ensures IsHeading(line)
  {
  }

  lemma InsideSubtree(s: seq<Section>, idx: nat, j: nat)
    requires idx < j < |s| && j < SubtreeEnd(s, idx)
    ensures s[idx].level > 0 && s[idx].depth == 0 && (s[j].depth > 0 || s[j].level > s[idx].level)
  {
  }

  lemma BehindSubtree(s: seq<Section>, idx: nat)
    requires idx < |s| && SubtreeEnd(s, idx) < |s| && s[idx].level > 0 && s[idx].depth == 0
    ensures s[SubtreeEnd(s, idx)].depth == 0 && s[SubtreeEnd(s, idx)].level <= s[idx].level
  {
  }

  // ---- Seams ----

  /** A blank line is due between `left` and `right`: both are there, a heading meets the other, none stands yet. */
  ghost predicate BlankDue(left: seq<string>, right: seq<string>) {
    left != [] && right != [] && (IsOutline(left[|left| - 1]) || IsOutline(right[0])) && left[|left| - 1] != "\n"
  }

  /** A splice sets headings off by exactly one blank line where none stood, and adds nothing elsewhere. */
  lemma SeamsSetHeadingsOff(prefix: seq<string>, fragment: seq<string>, tail: seq<string>)
    requires WellFormed(prefix) && WellFormed(fragment) && WellFormed(tail)
    ensures Assemble(prefix, fragment, tail) ==
      Terminated(prefix) + (if BlankDue(prefix, fragment) then ["\n"] else []) + Terminated(fragment)
      + (if BlankDue(if fragment != [] then fragment else prefix, tail) then ["\n"] else []) + Terminated(tail)
  {
    hide IsOutline, WellFormed;
    BlankLeft(prefix);
    BlankLeft(fragment);
    TerminatedNothing();
    var gap := if BlankDue(prefix, fragment) then ["\n"] else [];
    var gap' := if BlankDue(if fragment != [] then fragment else prefix, tail) then ["\n"] else [];
    var front := if fragment != [] then Seam(prefix, Closes(prefix) || Opens(fragment)) + fragment else prefix;
    var left := if fragment != [] then Closes(fragment) else Closes(prefix);
    assert front == if fragment != [] then Terminated(prefix) + gap + fragment else prefix;
    hide Terminated;
    FrontBlank(Terminated(prefix) + gap, fragment);
    TerminatedLast(Terminated(prefix) + gap, fragment);
    assert Terminated(front) == Terminated(prefix) + gap + Terminated(fragment);
    assert tail != [] ==> Seam(front, left || Opens(tail)) == Terminated(front) + gap';
    TerminatedLast(Seam(front, left || Opens(tail)), tail);
  }

  lemma BlankLeft(lines: seq<string>)
    requires WellFormed(lines)
    ensures lines != [] ==> (EndsBlank(Terminated(lines)) <==> lines[|lines| - 1] == "\n")
  {
    if lines != [] { assert IsLine(lines[|lines| - 1]); }
  }

  lemma FrontBlank(front: seq<string>, lines: seq<string>)
    ensures lines != [] ==> (EndsBlank(Terminated(front + lines)) <==> EndsBlank(Terminated(lines)))
  {
    TerminatedLast(front, lines);
  }

  // ---- Deleting and inserting ----

  /** `put` replaces lines `a` to `b`: the rest stands line by line, seams aside. */
  ghost predicate Put(lines: seq<string>, a: nat, b: nat, put: seq<string>, after: seq<string>) {
    && a <= b <= |lines| && NonBlank(after) == NonBlank(lines[..a]) + NonBlank(put) + NonBlank(lines[b..])
    && Heads(after) == Heads(lines[..a]) + Heads(put) + Heads(lines[b..])
    && (exists gap, gap' :: (IsGap(gap) && IsGap(gap') &&
          after == Terminated(lines[..a]) + gap + Terminated(put) + gap' + Terminated(lines[b..])))
  }

  /** Every splice of an operation puts its fragment's lines there and changes nothing else. */
  lemma SplicePuts(body: string, lines: seq<string>, a: nat, b: nat, fragment: string) returns (after: seq<string>)
    requires lines == Lines(body) && a <= b <= |lines|
    ensures SpliceAt(body, a, b, fragment) == Ok(Join(after)) && Lines(Join(after)) == after
    ensures Put(lines, a, b, Lines(fragment), after)
  {
    LinesOfText(body);
    LinesOfText(fragment);
    hide Lines, Join, WellFormed, SpliceAt, Assemble, Terminated, NonBlank, Heads;
    SpliceAtLines(body, a, b, fragment);
    after := Assemble(lines[..a], Lines(fragment), lines[b..]);
    CutText(lines, a, b);
    AssembleKeeps(lines[..a], Lines(fragment), lines[b..]);
    var gap, gap' := PartsStandVerbatim(lines[..a], Lines(fragment), lines[b..]);
  }

  lemma RangeOf(lines: seq<string>, s: seq<Section>, idx: nat)
    requires s == Outline(lines) && idx < |s|
    ensures IsRange(lines, s, idx, RangeStart(s, idx), RangeEnd(lines, s, idx))
  {
    hide Outline, SubtreeEnd, RangeStart, RangeEnd, At, Heads;
    RangeFacts(lines, idx);
  }

  /** A deletion takes out exactly the section's span; it fails exactly when no section has the path. */
  lemma DeleteTakesSpan(body: string, path: Trail, lines: seq<string>, s: seq<Section>)
    returns (idx: nat, a: nat, b: nat, after: seq<string>)
    requires lines == Lines(body) && s == Outline(lines)
    ensures (forall i :: 0 <= i < |s| ==> s[i].trail != path) ==> Delete(body, path) == Err(SectionNotFound(path))
    ensures (exists i :: 0 <= i < |s| && s[i].trail == path) ==>
      && idx < |s| && s[idx].trail == path && (forall i :: 0 <= i < idx ==> s[i].trail != path)
      && SectionSpan(lines, s[idx].level, s[idx].depth, a, b)
      && Delete(body, path) == Ok(Join(after)) && Lines(Join(after)) == after && Put(lines, a, b, [], after)
  {
    hide Lines, Outline, SpliceAt, Put, SectionSpan, SubtreeEnd, Join, RangeStart, RangeEnd;
    idx := Find(s, path);
    a, b, after := 0, 0, [];
    if idx < |s| {
      RangeOf(lines, s, idx);
      a, b := RangeStart(s, idx), RangeEnd(lines, s, idx);
      RangeIsSpan(lines, s, idx, a, b);
      after := SplicePuts(body, lines, a, b, "");
      NothingToSplit();
    }
  }

  /**
    In a body with distinct paths a deletion, of a section other than the preamble, takes its subtree out of the
    outline and one off the number of its later twins, wherever a path leads through one; every other path stays.
  */
  lemma DeleteRenumbers(lines: seq<string>, s: seq<Section>, idx: nat, a: nat, b: nat, after: seq<string>, n: nat,
          m: nat)
    requires IsRange(lines, s, idx, a, b) && WellFormed(lines) && Put(lines, a, b, [], after)
    requires DistinctPaths(s) && 0 < idx < |s| && n == idx - 1 && m == SubtreeEnd(s, idx) - idx
    ensures n + m <= |Heads(lines)| && m > 0
    ensures SectionAnchors.RenumberedSections(SectionAnchors.TwinsOf(Heads(lines), n, m), s, Outline(after), n, m)
  {
    hide *;
    var heads := Heads(lines);
    WidthIs(s, idx, n, m);
    RangeCuts(lines, s, idx, a, b, n, m);
    CutsFit(lines, a, b, n, m);
    CutHeads(lines, a, b, n, m, after);
    RangeIsOutline(lines, s, idx, a, b);
    OutlineDescribes(lines);
    OutlineDescribes(after);
    BlockIsSubtree(s, heads, Trails(FRESH, heads), idx);
    SectionAnchors.SectionsAfter(s, Outline(after), heads, n, m);
  }

  lemma WidthIs(s: seq<Section>, idx: nat, n: nat, m: nat)
    requires 0 < idx < |s| && n == idx - 1 && m == SubtreeEnd(s, idx) - idx
    ensures n == BlockStart(idx) - 1 && m == BlockWidth(s, idx) > 0
  {
  }

  lemma CutHeads(lines: seq<string>, a: nat, b: nat, n: nat, m: nat, after: seq<string>)
    requires Put(lines, a, b, [], after) && Cuts(lines, a, b, n, m)
    ensures n + m <= |Heads(lines)| && Heads(after) == Heads(lines)[..n] + Heads(lines)[n + m..]
  {
    NothingKept();
    hide Heads, NonBlank, Terminated, At;
    assert Heads(lines)[..n] + [] == Heads(lines)[..n];
  }

  /**
    An insertion puts the rendered section in front of the anchor's heading or behind its whole span, and fails
    exactly when the level is none of a heading's or no section has the path.
  */
  lemma InsertLandsAtAnchor(body: string, anchor: Trail, level: nat, heading: string, text: string, before: bool,
          lines: seq<string>, s: seq<Section>)
    returns (idx: nat, a: nat, b: nat, after: seq<string>)
    requires lines == Lines(body) && s == Outline(lines)
    ensures !(1 <= level <= 6) ==>
      InsertRelative(body, anchor, level, heading, text, before) == Err(LevelOutOfRange(level))
    ensures 1 <= level <= 6 && (forall i :: 0 <= i < |s| ==> s[i].trail != anchor) ==>
      InsertRelative(body, anchor, level, heading, text, before) == Err(SectionNotFound(anchor))
    ensures 1 <= level <= 6 && (exists i :: 0 <= i < |s| && s[i].trail == anchor) ==>
      && idx < |s| && s[idx].trail == anchor && (forall i :: 0 <= i < idx ==> s[i].trail != anchor)
      && SectionSpan(lines, s[idx].level, s[idx].depth, a, b)
      && InsertRelative(body, anchor, level, heading, text, before) == Ok(Join(after)) && Lines(Join(after)) == after
      && Put(lines, if before then a else b, if before then a else b, Lines(Rendered(level, heading, text)), after)
  {
    hide Lines, Outline, SpliceAt, Put, SectionSpan, SubtreeEnd, Join, RangeStart, RangeEnd, Rendered;
    idx := Find(s, anchor);
    a, b, after := 0, 0, [];
    if idx < |s| {
      RangeOf(lines, s, idx);
      a, b := RangeStart(s, idx), RangeEnd(lines, s, idx);
      RangeIsSpan(lines, s, idx, a, b);
      var p := if before then a else b;
      after := SplicePuts(body, lines, p, p, Rendered(level, heading, text));
    }
  }

  /** Line edits: exactly the ranges inside the body are accepted, counted as 32-bit numbers. */
  lemma LineEditsPut(body: string, lines: seq<string>, start: U32, end: U32, content: string)
    returns (after: seq<string>)
    requires lines == Lines(body)
    ensures start <= end <= |lines| % U32_LIMIT ==>
      && ReplaceRange(body, start, end, content) == Ok(Join(after)) && Lines(Join(after)) == after
      && Put(lines, start, end, Lines(content), after)
    ensures !(start <= end <= |lines| % U32_LIMIT) ==>
      ReplaceRange(body, start, end, content) == Err(InvalidLineRange(start, end, |lines| % U32_LIMIT))
    ensures start == end <= |lines| % U32_LIMIT ==>
      InsertLines(body, start, content) == ReplaceRange(body, start, end, content)
    ensures start > |lines| % U32_LIMIT ==>
      InsertLines(body, start, content) == Err(LinePastEof(start, |lines| % U32_LIMIT))
  {
    hide Lines, SpliceAt, Put, Join;
    after := [];
    if start <= end <= |lines| % U32_LIMIT {
      assert |lines| % U32_LIMIT <= |lines|;
      after := SplicePuts(body, lines, start, end, content);
    }
  }

  /**
    Lines `a` to `b` are a section's own body: from behind its heading to the first outline heading, or for the
    preamble from the start of the text; a quoted section's own body ends at the next heading of any kind.
  */
  ghost predicate OwnBody(lines: seq<string>, level: nat, depth: nat, a: nat, b: nat) {
    && a <= b <= |lines|
    && (if level == 0 then a == 0
        else a > 0 && HeadingOf(lines[a - 1]).Some? && HeadingOf(lines[a - 1]).value.level == level &&
             HeadingOf(lines[a - 1]).value.depth == depth)
    && (forall i :: a <= i < b ==> !IsOutline(lines[i]))
    && (level == 0 || depth > 0 ==> forall i :: a <= i < b ==> !IsHeading(lines[i]))
    && (b < |lines| ==> if level == 0 || depth > 0 then IsHeading(lines[b]) else IsOutline(lines[b]))
  }

  lemma ChildKind(s: seq<Section>, idx: nat)
    requires idx < |s| && ChildOf(s, idx) < |s|
    ensures s[idx].level > 0 && s[idx].depth == 0 ==> s[ChildOf(s, idx)].depth == 0
  {
  }

  lemma LonerChild(s: seq<Section>, idx: nat)
    requires idx < |s| && (s[idx].level == 0 || s[idx].depth > 0)
    ensures ChildOf(s, idx) == idx + 1
  {
  }

  /** The line behind the own body is a heading; of the outline, unless the section is the preamble or quoted. */
  lemma OwnBodyEnds(lines: seq<string>, s: seq<Section>, idx: nat, b: nat)
    requires s == Outline(lines) && idx < |s| && b == OwnBodyEnd(lines, s, idx) < |lines|
    ensures IsHeading(lines[b]) && (s[idx].level > 0 && s[idx].depth == 0 ==> IsOutline(lines[b]))
  {
    hide Outline, Heads, Marks, At, HeadingOf, SubtreeEnd, OwnBodyEnd, FirstChild, ChildOf;
    OwnBodyRange(lines, s, idx);
    OutlineDescribes(lines);
    CutAtEnd(lines);
    MarkedHeading(lines, s, ChildOf(s, idx) - 1);
    ChildKind(s, idx);
  }

  lemma LonerBody(lines: seq<string>, s: seq<Section>, idx: nat, a: nat, b: nat)
    requires s == Outline(lines) && idx < |s| && a == s[idx].headingEnd && b == OwnBodyEnd(lines, s, idx) <= |lines|
    requires s[idx].level == 0 || s[idx].depth > 0
    ensures forall i :: a <= i < b ==> !IsHeading(lines[i])
  {
    hide Outline, Heads, Marks, At, IsHeading, SubtreeEnd, OwnBodyEnd, FirstChild, ChildOf;
    OwnBodyRange(lines, s, idx);
    OutlineDescribes(lines);
    LonerChild(s, idx);
    forall i | a <= i < b ensures !IsHeading(lines[i]) {
      if IsHeading(lines[i]) {
        var k := HeadingHasMark(lines, i);
        CutOrder(lines, idx, k);
        if idx > 0 { CutOrder(lines, k, idx - 1); }
      }
    }
  }

  lemma OwnBodyIs(lines: seq<string>, s: seq<Section>, idx: nat, a: nat, b: nat)
    requires s == Outline(lines) && idx < |s| && a == s[idx].headingEnd && b == OwnBodyEnd(lines, s, idx)
    ensures OwnBody(lines, s[idx].level, s[idx].depth, a, b)
  {
    hide Outline, Heads, Marks, At, HeadingOf, SubtreeEnd, OwnBodyEnd, FirstChild;
    OwnBodyRange(lines, s, idx);
    SectionFacts(lines, idx);
    if idx > 0 { MarkedHeading(lines, s, idx - 1); }
    forall i | a <= i < b ensures !IsOutline(lines[i]) { OwnBodyHoldsNoOutline(lines, s, idx, i); }
    if b < |lines| { OwnBodyEnds(lines, s, idx, b); }
    if s[idx].level == 0 || s[idx].depth > 0 { LonerBody(lines, s, idx, a, b); }
  }

  /** A body replacement fails exactly when no section has the path; otherwise the text's lines stand in the body. */
  lemma ReplacementSays(body: string, path: Trail, text: string, lines: seq<string>, s: seq<Section>)
    returns (idx: nat, a: nat, b: nat, after: seq<string>)
    requires lines == Lines(body) && s == Outline(lines)
    ensures (forall i :: 0 <= i < |s| ==> s[i].trail != path) ==>
      ReplaceBody(body, path, text) == Err(SectionNotFound(path))
    ensures (exists i :: 0 <= i < |s| && s[i].trail == path) ==>
      && idx < |s| && s[idx].trail == path && (forall i :: 0 <= i < idx ==> s[i].trail != path)
      && ReplaceBody(body, path, text) == Ok(Join(after)) && Lines(Join(after)) == after
      && a <= b <= |lines| && OwnBody(lines, s[idx].level, s[idx].depth, a, b)
      && NonBlank(after) == NonBlank(lines[..a]) + NonBlank(Lines(text)) + NonBlank(lines[b..])
  {
    hide Lines, Outline, SpliceAt, OwnBody, SubtreeEnd, Join, OwnBodyEnd, TrimBreaks, NonBlank, Heads, Terminated;
    idx := Find(s, path);
    a, b, after := 0, 0, [];
    if idx < |s| {
      OwnBodyRange(lines, s, idx);
      a, b := s[idx].headingEnd, OwnBodyEnd(lines, s, idx);
      OwnBodyIs(lines, s, idx, a, b);
      after := SplicePuts(body, lines, a, b, TrimBreaks(text));
      TrimmedLines(text);
    }
  }

  // ---- What an upsert writes ----

  /**
    After a successful upsert the body's non-blank lines are those in front, the section's title and the
    non-blank lines of the caller's text in order, and those behind; the section's own range opens with the
    title and that text, and holds no more when nothing behind can fall into it.
  */
  lemma UpsertSays(lines: seq<string>, s: seq<Section>, path: Trail, level: nat, heading: string, text: string,
          idx: nat, a: nat, b: nat, f: seq<string>)
    returns (r: seq<string>, from: nat, end: nat, said: seq<string>)
    requires Request(lines, s, path, level, heading, text, idx, a, b, f) && a <= b <= |lines|
    requires Upsert(Join(lines), path, level, heading, text).Ok?
    ensures Upsert(Join(lines), path, level, heading, text) == Ok(Join(r)) && Lines(Join(r)) == r
    ensures said == NonBlank(Lines(Titled(level, heading))) + NonBlank(Lines(text))
    ensures IsTitle(Titled(level, heading), level, heading)
    ensures (forall i :: 0 <= i < |heading| ==> heading[i] != '\n') ==>
      said == [Titled(level, heading)] + NonBlank(Lines(text))
    ensures NonBlank(r) == NonBlank(lines[..a]) + said + NonBlank(lines[b..])
    ensures Find(Outline(r), path) == idx < |Outline(r)|
    ensures from == RangeStart(Outline(r), idx) && end == RangeEnd(r, Outline(r), idx)
    ensures from + |f| <= end <= |r| && NonBlank(r[from..from + |f|]) == said
    ensures StaysClosed(lines[b..], level) ==> NonBlank(r[from..end]) == said
  {
    hide *;
    RequestParts(lines, s, path, level, heading, text, idx, a, b, f);
    r := Assemble(lines[..a], f, lines[b..]);
    FirstUpsert(lines, s, path, level, heading, text, idx, a, b, f, r);
    UpsertedSectionIsWhole(lines, s, path, level, heading, text, idx, a, b, f, r);
    said := NonBlank(f);
    RenderedSays(level, heading, text);
    TitledIs(level, heading);
    if forall i :: 0 <= i < |heading| ==> heading[i] != '\n' { OneLineTitle(level, heading); }
    PartsFacts(lines[..a], f, lines[b..], level);
    AssembleKeeps(lines[..a], f, lines[b..]);
    TerminatedKeeps(f);
    from, end := RangeStart(Outline(r), idx), RangeEnd(r, Outline(r), idx);
    if StaysClosed(lines[b..], level) { ClosedRange(lines[..a], f, lines[b..], level, r, Outline(r), idx); }
  }

  lemma ClosedRange(prefix: seq<string>, f: seq<string>, tail: seq<string>, level: nat, r: seq<string>,
          s: seq<Section>, idx: nat)
    requires Outcome(prefix, f, tail, level, r, s, idx) && SelfContained(f) && StaysClosed(tail, level) && idx < |s|
    ensures RangeStart(s, idx) <= RangeEnd(r, s, idx) <= |r|
    ensures NonBlank(r[RangeStart(s, idx)..RangeEnd(r, s, idx)]) == NonBlank(f)
  {
    hide *;
    var n, m := |Heads(prefix)|, |Heads(f)|;
    OutcomeText(prefix, f, tail, level, r, s, idx);
    PartsFacts(prefix, f, tail, level);
    WrittenEndOf(prefix, f, tail, level, r, s, idx, m);
    WrittenRange(prefix, f, tail, level, r, s, idx, SubtreeEnd(s, idx) - 1);
    WrittenMarks(prefix, f, tail, level, r, n, n + m);
    WrittenFacts(f, tail);
    MiddleSlice(Seam(prefix, true), Written(f, tail), Terminated(tail), r);
  }

  lemma MiddleSlice(x: seq<string>, y: seq<string>, z: seq<string>, r: seq<string>)
    requires r == x + (y + z)
    ensures |x| + |y| <= |r| && r[|x|..|x| + |y|] == y
  {
  }
}
