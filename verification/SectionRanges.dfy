/** Where sections lie: cuts before the k-th heading, laminar ranges, and what a splice leaves verbatim. */
module SectionRanges {
  import opened Basics
  import opened TextLines
  import opened Headings
  import opened Outlines
  import opened Splices
  import opened SectionOps
  import opened SectionShape

  /** The line of the k-th heading, or the end of the text. */
  function At(lines: seq<string>, k: nat): nat {
    if k < |Marks(lines)| then Marks(lines)[k] else |lines|
  }

  lemma Cut(lines: seq<string>, k: nat)
    requires k <= |Heads(lines)|
    ensures At(lines, k) <= |lines|
    ensures Heads(lines[..At(lines, k)]) == Heads(lines)[..k] && Heads(lines[At(lines, k)..]) == Heads(lines)[k..]
    ensures StartsSection(lines[At(lines, k)..])
    ensures k < |Heads(lines)| ==> At(lines, k) < |lines|
  {
    if k < |Heads(lines)| {
      HeadsBefore(lines, k);
      MarksAreHeadings(lines);
    } else {
      assert lines[..|lines|] == lines;
      assert Heads([]) == [];
    }
  }

  lemma CutsAscend(lines: seq<string>, j: nat, k: nat)
    requires j <= k <= |Heads(lines)|
    ensures At(lines, j) <= At(lines, k) <= |lines|
    ensures j < k ==> At(lines, j) < At(lines, k)
  {
    MarksAreHeadings(lines);
  }

  lemma SectionFacts(lines: seq<string>, idx: nat)
    requires idx < |Outline(lines)|
    ensures var s := Outline(lines)[idx];
      && s.lineStart == (if idx == 0 then 0 else At(lines, idx - 1))
      && s.headingEnd == (if idx == 0 then 0 else s.lineStart + 1)
      && (s.level == 0 <==> idx == 0)
      && (idx == 0 ==> s.depth == 0)
      && (idx > 0 ==>
        s.level == Heads(lines)[idx - 1].level && s.depth == Heads(lines)[idx - 1].depth &&
        s.trail == Trails(FRESH, Heads(lines))[idx - 1])
      && (idx == 0 ==> s.trail == PREAMBLE)
  {
    if idx > 0 {
      MarksAreHeadings(lines);
      var line := lines[Marks(lines)[idx - 1]];
      HeadingLevels(Content(line), 0);
    }
  }

  lemma RangeFacts(lines: seq<string>, idx: nat)
    requires idx < |Outline(lines)|
    ensures var s := Outline(lines); var end := SubtreeEnd(s, idx);
      && idx < end <= |s|
      && RangeStart(s, idx) == (if idx == 0 then 0 else At(lines, idx - 1))
      && RangeEnd(lines, s, idx) == At(lines, end - 1)
      && RangeStart(s, idx) <= RangeEnd(lines, s, idx) <= |lines|
      && (idx > 0 ==> RangeStart(s, idx) < RangeEnd(lines, s, idx))
  {
    hide Outline, Heads, Marks, SubtreeEnd;
    var s := Outline(lines);
    var end := SubtreeEnd(s, idx);
    SectionFacts(lines, idx);
    if end < |s| { SectionFacts(lines, end); }
    CutsAscend(lines, if idx == 0 then 0 else idx - 1, end - 1);
  }

  // ---- Laminar ranges ----

  lemma SubtreesNest(sections: seq<Section>, i: nat, j: nat)
    requires i < j < |sections|
    ensures SubtreeEnd(sections, i) <= j || SubtreeEnd(sections, j) <= SubtreeEnd(sections, i)
  {
  }

  function Before(idx: nat): nat {
    if idx == 0 then 0 else idx - 1
  }

  /** `c..d` lies inside `a..b` or behind it, and both lie in a text of `limit` units. */
  predicate NestedOrApart(a: nat, b: nat, c: nat, d: nat, limit: nat) {
    a <= b <= limit && c < d <= limit && (b <= c || (a <= c && d <= b))
  }

  lemma LineRangesAreLaminar(lines: seq<string>, s: seq<Section>, i: nat, j: nat)
    requires s == Outline(lines) && i < j < |s|
    ensures NestedOrApart(RangeStart(s, i), RangeEnd(lines, s, i), RangeStart(s, j), RangeEnd(lines, s, j), |lines|)
    ensures RangeStart(s, i) <= RangeStart(s, j)
  {
    hide At, SubtreeEnd, RangeStart, RangeEnd, Heads, Marks;
    RangeFacts(lines, i);
    RangeFacts(lines, j);
    var ei, ej := SubtreeEnd(s, i), SubtreeEnd(s, j);
    SubtreesNest(s, i, j);
    hide Outline;
    CutsAscend(lines, Before(i), j - 1);
    if ei <= j {
      CutsAscend(lines, ei - 1, j - 1);
    } else {
      CutsAscend(lines, ej - 1, ei - 1);
    }
  }

  /** Two ranges of one body are nested or disjoint, and lie on line boundaries inside it. */
  lemma RangesAreLaminar(body: string, lines: seq<string>, s: seq<Section>, i: nat, j: nat)
    requires lines == Lines(body) && s == Outline(lines) && i < j < |s|
    ensures NestedOrApart(ByteOffset(lines, RangeStart(s, i)), ByteOffset(lines, RangeEnd(lines, s, i)),
                          ByteOffset(lines, RangeStart(s, j)), ByteOffset(lines, RangeEnd(lines, s, j)), |body|)
  {
    hide Lines, Outline, RangeStart, RangeEnd, ByteOffset;
    LinesOfText(body);
    LineRangesAreLaminar(lines, s, i, j);
    var a, b, c, d := RangeStart(s, i), RangeEnd(lines, s, i), RangeStart(s, j), RangeEnd(lines, s, j);
    ByteOffsets(lines, a, b);
    ByteOffsets(lines, c, d);
    ByteOffsets(lines, a, c);
    if b <= c { ByteOffsets(lines, b, c); } else { ByteOffsets(lines, d, b); }
  }

  lemma ByteOffsets(lines: seq<string>, a: nat, b: nat)
    requires WellFormed(lines) && a <= b <= |lines|
    ensures ByteOffset(lines, a) <= ByteOffset(lines, b) <= |Join(lines)|
    ensures a < b ==> ByteOffset(lines, a) < ByteOffset(lines, b)
    ensures ByteOffset(lines, a) == Offset(lines, a)
    ensures ByteOffset(lines, b) == |Join(lines)| <==> b == |lines|
  {
    OffsetMonotone(lines, a, b);
    OffsetMonotone(lines, b, |lines|);
    OffsetCuts(lines, |lines|);
    assert lines[..|lines|] == lines;
  }

  /** The preamble and a quoted heading own no other section: the next one starts where they end. */
  lemma LonersOwnNothing(lines: seq<string>, i: nat, j: nat)
    requires i < j < |Outline(lines)| && (i == 0 || Outline(lines)[i].depth > 0)
    ensures RangeEnd(lines, Outline(lines), i) <= RangeStart(Outline(lines), j)
  {
    hide Outline, At, RangeStart, RangeEnd, Heads, Marks, NextClosing;
    var s := Outline(lines);
    SectionFacts(lines, i);
    assert SubtreeEnd(s, i) == i + 1;
    RangeFacts(lines, i);
    RangeFacts(lines, j);
    CutsAscend(lines, i, j - 1);
  }

  // ---- Splices on line boundaries ----

  /** An operation's splice is the line splice of its range. */
  lemma SpliceAtLines(body: string, a: nat, b: nat, fragment: string)
    requires a <= b <= |Lines(body)|
    ensures var after := Assemble(Lines(body)[..a], Lines(fragment), Lines(body)[b..]);
      SpliceAt(body, a, b, fragment) == Ok(Join(after)) && Lines(Join(after)) == after && WellFormed(after)
  {
    hide Assemble, Splice, Lines, Join, WellFormed;
    LinesOfText(body);
    LinesOfText(fragment);
    var lines := Lines(body);
    SpliceOnLines(lines, a, b, Lines(fragment));
    LinesOfJoin(SpliceLines(lines, a, b, Lines(fragment)));
    assert ByteOffset(lines, a) == Offset(lines, a) && ByteOffset(lines, b) == Offset(lines, b);
  }

  /** At most one blank line. */
  predicate IsGap(gap: seq<string>) {
    gap == [] || gap == ["\n"]
  }

  /** Nothing but the two seams is added: each part stands in the result line by line. */
  lemma PartsStandVerbatim(prefix: seq<string>, fragment: seq<string>, tail: seq<string>)
    returns (gap: seq<string>, gap': seq<string>)
    requires WellFormed(prefix) && WellFormed(fragment) && WellFormed(tail)
    ensures Assemble(prefix, fragment, tail) ==
      Terminated(prefix) + gap + Terminated(fragment) + gap' + Terminated(tail)
    ensures IsGap(gap) && IsGap(gap') && (prefix + fragment == [] || tail == [] ==> gap' == [])
    ensures (prefix == [] || fragment == [] ==> gap == [])
  {
    hide Terminated, EndsBlank, Opens, Closes;
    gap := if fragment != [] then SeamGap(prefix, Closes(prefix) || Opens(fragment)) else [];
    var front := if fragment != [] then Seam(prefix, Closes(prefix) || Opens(fragment)) + fragment else prefix;
    var left := (if fragment != [] then Closes(fragment) else Closes(prefix)) || Opens(tail);
    gap' := if tail != [] then SeamGap(front, left) else [];
    assert Assemble(prefix, fragment, tail) == Terminated(if tail != [] then Seam(front, left) + tail else front);
    SeamIsGap(prefix, Closes(prefix) || Opens(fragment));
    SeamIsGap(front, left);
    assert IsGap(gap) && IsGap(gap') && (prefix == [] ==> gap == []);
    hide *;
    assert front == if fragment != [] then Terminated(prefix) + gap + fragment else prefix;
    TerminatedLast(Terminated(prefix) + gap, fragment);
    TerminatedNothing();
    assert Terminated(front) == Terminated(prefix) + gap + Terminated(fragment);
    TerminatedLast(Seam(front, left), tail);
  }

  lemma TerminatedNothing()
    ensures Terminated([]) == [] && forall s: seq<string> :: s + [] == s
  {
  }

  function SeamGap(lines: seq<string>, blank: bool): seq<string> {
    if lines != [] && blank && !EndsBlank(Terminated(lines)) then ["\n"] else []
  }

  lemma SeamIsGap(lines: seq<string>, blank: bool)
    ensures Seam(lines, blank) == Terminated(lines) + SeamGap(lines, blank)
  {
  }

  lemma TerminatedLast(a: seq<string>, b: seq<string>)
    ensures b != [] ==> Terminated(a + b) == a + Terminated(b)
  {
    if b != [] { assert (a + b)[..|a + b| - 1] == a + b[..|b| - 1]; }
  }

  // ---- Replacing a section's own body ----

  lemma HeadingLine(lines: seq<string>, s: seq<Section>, line: nat) returns (k: nat)
    requires s == Outline(lines) && line < |lines| && IsOutline(lines[line])
    ensures k < |Heads(lines)| && |s| == |Heads(lines)| + 1
    ensures At(lines, k) == line && s[k + 1].depth == 0 && s[k + 1].level > 0
  {
    HeadingsAreMarked(lines, line);
    MarksAreHeadings(lines);
    k :| 0 <= k < |Marks(lines)| && Marks(lines)[k] == line;
    SectionFacts(lines, k + 1);
  }

  /** The first outline section after a section is its first child or lies past its subtree. */
  lemma OutlineInSubtree(s: seq<Section>, idx: nat, q: nat, child: nat)
    requires idx < q < |s| && s[q].depth == 0 && s[q].level > 0
    requires idx + 1 <= SubtreeEnd(s, idx) <= |s| && child == FirstChild(s, s[idx].level, idx + 1, SubtreeEnd(s, idx))
    ensures child <= q
  {
  }

  function ChildOf(s: seq<Section>, idx: nat): (child: nat)
    requires idx < |s|
    ensures idx < child <= |s|
  {
    FirstChild(s, s[idx].level, idx + 1, SubtreeEnd(s, idx))
  }

  lemma CutAtEnd(lines: seq<string>)
    ensures At(lines, |Heads(lines)|) == |lines|
  {
  }

  /** A section's own body runs from behind its heading to its first child. */
  lemma OwnBodyRange(lines: seq<string>, s: seq<Section>, idx: nat)
    requires s == Outline(lines) && idx < |s|
    ensures OwnBodyEnd(lines, s, idx) == At(lines, ChildOf(s, idx) - 1)
    ensures s[idx].headingEnd <= OwnBodyEnd(lines, s, idx) <= |lines|
    ensures idx > 0 ==> s[idx].headingEnd == At(lines, idx - 1) + 1
  {
    hide Outline, Heads, Marks, At, FirstChild, SubtreeEnd;
    var child := ChildOf(s, idx);
    if child < |s| { SectionFacts(lines, child); }
    SectionFacts(lines, idx);
    CutAtEnd(lines);
    CutsAscend(lines, Before(idx), child - 1);
  }

  /** The lines a body replacement takes out hold no outline heading, so no section but quoted ones can vanish. */
  lemma OwnBodyHoldsNoOutline(lines: seq<string>, s: seq<Section>, idx: nat, line: nat)
    requires s == Outline(lines) && idx < |s| && line < |lines|
    requires s[idx].headingEnd <= line < OwnBodyEnd(lines, s, idx)
    ensures !IsOutline(lines[line])
  {
    hide Outline, IsOutline, OwnBodyEnd, SubtreeEnd, At, Heads;
    OwnBodyRange(lines, s, idx);
    if IsOutline(lines[line]) {
      var k := HeadingLine(lines, s, line);
      if idx > 0 { CutOrder(lines, k, idx - 1); }
      OutlineInSubtree(s, idx, k + 1, ChildOf(s, idx));
      CutOrder(lines, ChildOf(s, idx) - 1, k);
    }
  }

  lemma CutOrder(lines: seq<string>, j: nat, k: nat)
    requires j <= |Heads(lines)| && k < |Heads(lines)|
    ensures At(lines, j) <= At(lines, k) <==> j <= k
  {
    if j <= k { CutsAscend(lines, j, k); } else { CutsAscend(lines, k, j); }
  }

  /**
    Replacing a section's own body keeps, line by line, everything up to and including its heading and
    everything from its first child on; only quoted headings can be among the lines in between.
  */
  lemma ReplaceBodyKeepsTheRest(body: string, path: Trail, text: string, idx: nat)
    returns (gap: seq<string>, gap': seq<string>)
    requires idx == Find(Outline(Lines(body)), path) < |Outline(Lines(body))|
    ensures var lines := Lines(body); var s := Outline(lines);
      var (a, b) := (s[idx].headingEnd, OwnBodyEnd(lines, s, idx));
      && a <= b <= |lines| && (forall i :: a <= i < b ==> !IsOutline(lines[i]))
      && ReplaceBody(body, path, text).Ok?
      && Lines(ReplaceBody(body, path, text).value)
         == Terminated(lines[..a]) + gap + Terminated(Lines(TrimBreaks(text))) + gap' + Terminated(lines[b..])
    ensures IsGap(gap) && IsGap(gap')
  {
    hide Lines, Outline, IsOutline, OwnBodyEnd, Terminated, TrimBreaks, Assemble, SpliceAt, WellFormed;
    var lines := Lines(body);
    var s := Outline(lines);
    OwnBodyRange(lines, s, idx);
    var a, b := s[idx].headingEnd, OwnBodyEnd(lines, s, idx);
    forall i | a <= i < b ensures !IsOutline(lines[i]) { OwnBodyHoldsNoOutline(lines, s, idx, i); }
    SpliceAtLines(body, a, b, TrimBreaks(text));
    LinesOfText(body);
    LinesOfText(TrimBreaks(text));
    CutText(lines, a, b);
    gap, gap' := PartsStandVerbatim(lines[..a], Lines(TrimBreaks(text)), lines[b..]);
  }
}
