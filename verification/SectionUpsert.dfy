/** Repeating an upsert: when the second call changes nothing, and when it does. */
module SectionUpsert {
  import opened Basics
  import opened Whitespace
  import opened TextLines
  import opened Headings
  import opened Outlines
  import opened Splices
  import opened SectionOps
  import opened SectionShape
  import opened SectionRanges
  import opened SectionMoves
  import opened SectionInverse

  // ---- The rendered section ----

  lemma {:induction false} MarkerHashes(level: nat, rest: string)
    requires rest == "" || rest[0] != '#'
    ensures Hashes(Marker(level) + rest) == level
  {
    if level == 0 {
      assert Marker(level) + rest == rest;
    } else {
      MarkerTurned(level - 1);
      assert Marker(level) + rest == "#" + (Marker(level - 1) + rest);
      assert ("#" + (Marker(level - 1) + rest))[1..] == Marker(level - 1) + rest;
      MarkerHashes(level - 1, rest);
    }
  }

  lemma {:induction false} MarkerTurned(n: nat)
    ensures Marker(n + 1) == "#" + Marker(n)
  {
    if n > 0 { MarkerTurned(n - 1); }
  }

  /** A text that starts with the marker and a space opens with an outline heading of that level. */
  lemma MarkedHeading(level: nat, line: string, more: string)
    requires 1 <= level <= 6 && Content(line) == Marker(level) + " " + more
    ensures HeadingOf(line).Some? && HeadingOf(line).value.level == level && HeadingOf(line).value.depth == 0
  {
    var c := Content(line);
    assert c == Marker(level) + (" " + more);
    MarkerHashes(level, " " + more);
    assert c[0] == '#' && c[level] == ' ';
    hide Hashes, Marker, Slugify, Title;
    assert Spaces(c) == 0 && c[0..] == c;
    assert Behind(c, 0) == Atx(c, 0);
  }

  lemma {:induction false} FirstLineLong(text: string, n: nat)
    requires n < |text| && forall j :: 0 <= j <= n ==> text[j] != '\n'
    ensures FirstLine(text) > n
  {
    if n > 0 && |text| > 1 {
      assert forall j :: 0 <= j <= n - 1 ==> text[1..][j] == text[j + 1];
      FirstLineLong(text[1..], n - 1);
    }
  }

  lemma RenderedIs(level: nat, heading: string, text: string)
    ensures var more := Trim(heading) + (if TrimBreaks(text) != "" then "\n\n" + TrimBreaks(text) else "");
      Rendered(level, heading, text) == Marker(level) + " " + more
  {
    hide Trim, TrimBreaks, Marker;
  }

  /** The first rendered line is an outline heading of the requested level. */
  lemma RenderedOpens(level: nat, heading: string, text: string)
    requires 1 <= level <= 6
    ensures var f := Lines(Rendered(level, heading, text));
      f != [] && HeadingOf(f[0]).Some? && HeadingOf(f[0]).value.level == level && HeadingOf(f[0]).value.depth == 0
  {
    hide Rendered, Trim, TrimBreaks, Marker, HeadingOf, Lines;
    var out, mark := Rendered(level, heading, text), Marker(level);
    RenderedIs(level, heading, text);
    assert out[..level] == mark && out[level] == ' ' && forall j :: 0 <= j < level ==> out[j] == mark[j];
    FirstLineLong(out, level);
    FirstOfLines(out);
    MarkedHeading(level, out[..FirstLine(out)], Content(out[..FirstLine(out)])[level + 1..]);
  }

  lemma FirstOfLines(text: string)
    requires text != ""
    ensures Lines(text) != [] && Lines(text)[0] == text[..FirstLine(text)]
  {
  }

  // ---- The text an upsert leaves ----

  /** The fragment's lines, with the blank line the seam to the tail may have added. */
  function Written(fragment: seq<string>, tail: seq<string>): seq<string> {
    if tail != [] then Seam(fragment, Closes(fragment) || Opens(tail)) else Terminated(fragment)
  }

  lemma AssembleOnto(prefix: seq<string>, fragment: seq<string>, tail: seq<string>)
    requires Opens(fragment)
    ensures Assemble(prefix, fragment, tail)
         == if tail != [] then Seam(Seam(prefix, true) + fragment, Closes(fragment) || Opens(tail)) + Terminated(tail)
            else Terminated(Seam(prefix, true) + fragment)
  {
    hide IsOutline, Seam, Terminated;
    TerminatedLast(Seam(Seam(prefix, true) + fragment, Closes(fragment) || Opens(tail)), tail);
  }

  /** A splice of a fragment that opens with a heading: a separated prefix, then the fragment and the tail. */
  lemma SplitAssemble(prefix: seq<string>, fragment: seq<string>, tail: seq<string>)
    requires Opens(fragment)
    ensures Assemble(prefix, fragment, tail) == Seam(prefix, true) + (Written(fragment, tail) + Terminated(tail))
  {
    assert fragment != [] && (tail == [] ==> Terminated(tail) == []);
    hide *;
    AssembleOnto(prefix, fragment, tail);
    var seam, left := Seam(prefix, true), Closes(fragment) || Opens(tail);
    if tail != [] {
      SeamBehind(seam, fragment, left);
      Assoc(seam, Seam(fragment, left), Terminated(tail));
    } else {
      TerminatedLast(seam, fragment);
      assert Written(fragment, tail) + [] == Written(fragment, tail);
    }
  }

  lemma SeamBehind(front: seq<string>, lines: seq<string>, blank: bool)
    requires lines != []
    ensures Seam(front + lines, blank) == front + Seam(lines, blank)
  {
    TerminatedLast(front, lines);
    var t := Terminated(lines);
    assert (front + t)[|front + t| - 1] == t[|t| - 1];
    if Seam(lines, blank) != t {
      assert front + t + ["\n"] == front + (t + ["\n"]);
    }
  }

  /** A separated prefix needs no second separator. */
  lemma SeamTwice(prefix: seq<string>)
    requires WellFormed(prefix)
    ensures Seam(Seam(prefix, true), true) == Seam(prefix, true)
  {
    assert Ended("\n");
    TerminatedTwiceHere(prefix);
  }

  lemma TerminatedTwiceHere(a: seq<string>)
    ensures Terminated(Terminated(a)) == Terminated(a)
  {
    if a != [] && !Ended(a[|a| - 1]) { assert Ended(a[|a| - 1] + "\n"); }
  }

  lemma WrittenFacts(fragment: seq<string>, tail: seq<string>)
    requires WellFormed(fragment) && fragment != []
    ensures var w := Written(fragment, tail);
      && |fragment| <= |w| && w[..|fragment|] == Terminated(fragment)
      && Heads(w) == Heads(fragment) && NonBlank(w) == NonBlank(fragment) && WellFormed(w) &&
         HeadingOf(w[0]) == HeadingOf(fragment[0])
  {
    hide NonBlank, Heads, WellFormed, Opens, Closes, HeadingOf;
    SeamKeeps(fragment, Closes(fragment) || Opens(tail));
    TerminatedKeeps(fragment);
    TerminatedWellFormed(fragment);
    SameContent(fragment[0]);
  }

  lemma SameContent(line: string)
    ensures Ended(line) || HeadingOf(line + "\n") == HeadingOf(line)
  {
    if !Ended(line) { assert Content(line + "\n") == line == Content(line); }
  }

  /** Terminating the tail first changes nothing. */
  lemma TailTerminated(fragment: seq<string>, tail: seq<string>)
    ensures Written(fragment, Terminated(tail)) == Written(fragment, tail)
    ensures Terminated(Terminated(tail)) == Terminated(tail)
  {
    TerminatedTwiceHere(tail);
    if tail != [] {
      SameContent(tail[0]);
      assert Terminated(tail) != [] && (Terminated(tail)[0] == tail[0] || Terminated(tail)[0] == tail[0] + "\n");
    }
  }

  // ---- The outline of that text ----

  /** A fragment opening with an outline heading of `level`, to be set between `prefix` and `tail`. */
  ghost predicate Parts(prefix: seq<string>, fragment: seq<string>, tail: seq<string>, level: nat) {
    && WellFormed(prefix) && WellFormed(fragment) && WellFormed(tail) && StartsSection(tail)
    && fragment != [] && HeadingOf(fragment[0]).Some? && HeadingOf(fragment[0]).value.depth == 0 &&
       HeadingOf(fragment[0]).value.level == level
  }

  /**
    Nothing that follows the section can fall into it: nothing follows, or an outline heading at its level or
    above.
  */
  ghost predicate StaysClosed(tail: seq<string>, level: nat) {
    Follows(tail, level)
  }

  ghost predicate SelfContained(fragment: seq<string>) {
    IsBlock(Heads(fragment))
  }

  lemma PartsFacts(prefix: seq<string>, fragment: seq<string>, tail: seq<string>, level: nat)
    requires Parts(prefix, fragment, tail, level)
    ensures WellFormed(prefix) && WellFormed(fragment) && WellFormed(tail) && StartsSection(tail) && Opens(fragment)
    ensures fragment != []
    ensures Heads(fragment) != [] && Heads(fragment)[0].level == level && Heads(fragment)[0].depth == 0
    ensures tail != [] ==>
      Heads(tail) != [] && (StaysClosed(tail, level) <==> Heads(tail)[0].depth == 0 && Heads(tail)[0].level <= level)
    ensures tail == [] ==> Heads(tail) == []
  {
    FirstHead(fragment);
    if tail != [] { FirstHead(tail); }
  }

  /** Where the written section and the tail start. */
  lemma WrittenMarks(prefix: seq<string>, fragment: seq<string>, tail: seq<string>, level: nat, r: seq<string>,
          j: nat, k: nat)
    requires Parts(prefix, fragment, tail, level)
    requires r == Seam(prefix, true) + (Written(fragment, tail) + Terminated(tail))
    requires j == |Heads(prefix)| && k == |Heads(prefix)| + |Heads(fragment)|
    ensures At(r, j) == |Seam(prefix, true)| && At(r, k) == |Seam(prefix, true)| + |Written(fragment, tail)|
    ensures Heads(r) == Heads(prefix) + Heads(fragment) + Heads(tail)
  {
    hide *;
    PartsFacts(prefix, fragment, tail, level);
    WrittenFacts(fragment, tail);
    SeamKeeps(prefix, true);
    TerminatedKeeps(tail);
    var head, w, t := Seam(prefix, true), Written(fragment, tail), Terminated(tail);
    WrittenStarts(prefix, fragment, tail, level);
    MarkOf(head, w + t, r, j);
    Assoc(head, w, t);
    HeadsAppend(head, w);
    MarkOf(head + w, t, r, k);
    HeadsAppend(head + w, t);
  }

  lemma WrittenStarts(prefix: seq<string>, fragment: seq<string>, tail: seq<string>, level: nat)
    requires Parts(prefix, fragment, tail, level)
    ensures StartsSection(Written(fragment, tail) + Terminated(tail)) && StartsSection(Terminated(tail))
  {
    WrittenFacts(fragment, tail);
    hide Heads, NonBlank, WellFormed, IsOutline, Behind;
    if tail != [] { SameContent(tail[0]); }
  }

  /** The headings of the fragment stand among its own lines, before any added blank. */
  lemma HeadsWithinFragment(prefix: seq<string>, fragment: seq<string>, tail: seq<string>, level: nat, r: seq<string>,
          k: nat)
    requires Parts(prefix, fragment, tail, level)
    requires r == Seam(prefix, true) + (Written(fragment, tail) + Terminated(tail))
    requires |Heads(prefix)| <= k < |Heads(prefix)| + |Heads(fragment)|
    ensures At(r, k) < |Seam(prefix, true)| + |fragment|
  {
    hide *;
    PartsFacts(prefix, fragment, tail, level);
    WrittenFacts(fragment, tail);
    SeamKeeps(prefix, true);
    TerminatedKeeps(fragment);
    var head, w, t, f := Seam(prefix, true), Written(fragment, tail), Terminated(tail), Terminated(fragment);
    TerminatedWellFormed(fragment);
    assert w == f + w[|fragment|..];
    Assoc(f, w[|fragment|..], t);
    Assoc(head, f, w[|fragment|..] + t);
    WithinBlock(head, f, w[|fragment|..] + t, r, k);
  }

  lemma WithinBlock(front: seq<string>, block: seq<string>, rest: seq<string>, r: seq<string>, k: nat)
    requires r == front + block + rest && |Heads(front)| <= k < |Heads(front)| + |Heads(block)|
    ensures At(r, k) < |front| + |block|
  {
    hide *;
    var both := front + block;
    var n := k - |Marks(front)|;
    MarkInside(block, n);
    MarkBehind(front, block, n);
    MarkInFront(both, rest, k);
    AtMark(r, k);
  }

  lemma AtMark(lines: seq<string>, k: nat)
    requires k < |Marks(lines)|
    ensures At(lines, k) == Marks(lines)[k]
  {
    hide Marks;
  }

  lemma MarkInside(lines: seq<string>, k: nat)
    requires k < |Marks(lines)|
    ensures Marks(lines)[k] < |lines|
  {
    hide *;
    MarksAreHeadings(lines);
  }

  lemma MarkBehind(a: seq<string>, b: seq<string>, k: nat)
    requires k < |Marks(b)|
    ensures |Marks(a)| + k < |Marks(a + b)| && Marks(a + b)[|Marks(a)| + k] == |a| + Marks(b)[k]
  {
    hide *;
    MarksAppend(a, b);
  }

  lemma MarkInFront(a: seq<string>, b: seq<string>, k: nat)
    requires k < |Marks(a)|
    ensures k < |Marks(a + b)| && Marks(a + b)[k] == Marks(a)[k]
  {
    hide *;
    MarksAppend(a, b);
  }

  /**
    The end of the written section: behind the fragment when that is self-contained, further when the tail falls
    in, inside it otherwise.
  */
  lemma WrittenEnd(s: seq<Section>, trails: seq<Trail>, heads: seq<Heading>, front: seq<Heading>, x: seq<Heading>,
          t: seq<Heading>, idx: nat)
    requires heads == front + x + t && Describes(s, heads, trails) && idx == |front| + 1 && x != [] && x[0].depth == 0
    ensures idx < |s|
    ensures IsBlock(x) && ClosedBy(x, t) ==> SubtreeEnd(s, idx) == idx + |x|
    ensures IsBlock(x) && !ClosedBy(x, t) ==> SubtreeEnd(s, idx) > idx + |x|
    ensures !IsBlock(x) ==> SubtreeEnd(s, idx) < idx + |x|
  {
    var n := |front|;
    assert heads[n] == x[0] && s[n + 1].level == heads[n].level && s[n + 1].depth == heads[n].depth;
    if IsBlock(x) && ClosedBy(x, t) {
      EndOfBlock(s, trails, heads, front, x, t, idx, n + |x|);
    } else if IsBlock(x) {
      forall i | idx < i <= idx + |x| ensures s[i].depth > 0 || s[i].level > s[idx].level {
        assert heads[i - 1] == (if i < idx + |x| then x[i - idx] else t[0]);
        assert s[i - 1 + 1].level == heads[i - 1].level && s[i - 1 + 1].depth == heads[i - 1].depth;
      }
    } else {
      var i :| 1 <= i < |x| && !(x[i].depth > 0 || x[i].level > x[0].level);
      assert heads[n + i] == x[i] && s[n + i + 1].level == heads[n + i].level &&
             s[n + i + 1].depth == heads[n + i].depth;
    }
  }

  // ---- The operation ----

  /** Where an upsert writes: over the section of that path, or behind the last line. */
  ghost predicate Place(lines: seq<string>, s: seq<Section>, path: Trail, idx: nat, a: nat, b: nat) {
    && s == Outline(lines) && idx == Find(s, path) && a <= b <= |lines|
    && (if idx < |s| then IsRange(lines, s, idx, a, b) else a == b == |lines|)
  }

  /** A valid request on a text `lines`, its rendered lines and its place. */
  ghost predicate Request(lines: seq<string>, s: seq<Section>, path: Trail, level: nat, heading: string, text: string,
          idx: nat, a: nat, b: nat, f: seq<string>) {
    && WellFormed(lines) && 1 <= level <= 6 && path != PREAMBLE && f == Lines(Rendered(level, heading, text))
    && Place(lines, s, path, idx, a, b)
  }

  /** The parts a request puts together, and how many sections stand before the written one. */
  lemma RequestParts(lines: seq<string>, s: seq<Section>, path: Trail, level: nat, heading: string, text: string,
          idx: nat, a: nat, b: nat, f: seq<string>)
    requires Request(lines, s, path, level, heading, text, idx, a, b, f)
    ensures WellFormed(lines) && 1 <= level <= 6 && path != PREAMBLE && f == Lines(Rendered(level, heading, text))
    ensures s == Outline(lines) && idx == Find(s, path) && idx <= |s| == |Heads(lines)| + 1
    ensures forall i :: 0 <= i < idx ==> s[i].trail != path
    ensures a <= b <= |lines| && Parts(lines[..a], f, lines[b..], level)
    ensures idx == |Heads(lines[..a])| + 1 && Heads(lines[..a]) == Heads(lines)[..idx - 1]
    ensures var r := Assemble(lines[..a], f, lines[b..]); Outcome(lines[..a], f, lines[b..], level, r, Outline(r), idx)
  {
    hide Assemble, Heads, Outline, HeadingOf, Rendered, Lines, SubtreeEnd, At, WellFormed, Trails;
    OutlineDescribes(lines);
    assert idx > 0 && |s| == |Heads(lines)| + 1;
    hide Describes;
    RenderedOpens(level, heading, text);
    LinesOfText(Rendered(level, heading, text));
    Slice(lines, 0, a);
    Slice(lines, b, |lines|);
    assert lines[0..a] == lines[..a] && lines[b..|lines|] == lines[b..];
    if idx < |s| {
      RangeCuts(lines, s, idx, a, b, idx - 1, BlockWidth(s, idx));
    } else {
      assert lines[..a] == lines && lines[b..] == [];
    }
  }

  /** An upsert assembles its parts and checks the outcome. */
  lemma UpsertUnfolds(lines: seq<string>, s: seq<Section>, path: Trail, level: nat, heading: string, text: string,
          idx: nat, a: nat, b: nat, f: seq<string>, r: seq<string>)
    requires Request(lines, s, path, level, heading, text, idx, a, b, f) && r == Assemble(lines[..a], f, lines[b..])
    ensures Upsert(Join(lines), path, level, heading, text) == CheckUpserted(Join(r), path, idx, |f|)
    ensures Lines(Join(r)) == r && WellFormed(r)
  {
    LinesOfJoin(lines);
    SpliceAtLines(Join(lines), a, b, Rendered(level, heading, text));
    hide Lines, Join, Outline, Assemble, SpliceAt, SubtreeEnd, Rendered, WellFormed, CheckUpserted;
  }

  /** Every earlier section keeps its path, so none can take the requested one. */
  lemma EarlierPathsStay(lines: seq<string>, s: seq<Section>, r: seq<string>, s': seq<Section>, path: Trail, n: nat)
    requires s == Outline(lines) && s' == Outline(r) && n <= |Heads(lines)| && n <= |Heads(r)|
    requires Heads(r)[..n] == Heads(lines)[..n]
    requires n < |s| && n < |s'| && forall i :: 0 <= i <= n ==> s[i].trail != path
    ensures forall i :: 0 <= i <= n ==> s'[i].trail != path
  {
    OutlineDescribes(lines);
    OutlineDescribes(r);
    hide Outline, Heads, Trails;
    TrailsSplit(Heads(lines), n);
    TrailsSplit(Heads(r), n);
    var x, y := Trails(FRESH, Heads(lines)), Trails(FRESH, Heads(r));
    forall i | 0 <= i <= n ensures s'[i].trail != path {
      if i > 0 {
        assert x[..n][i - 1] == y[..n][i - 1];
        assert s[i - 1 + 1].trail == x[i - 1] && s'[i - 1 + 1].trail == y[i - 1];
      }
    }
  }

  lemma FindHere(s: seq<Section>, path: Trail, idx: nat)
    requires 0 < idx < |s| && s[idx].trail == path && forall i :: 0 <= i <= idx - 1 ==> s[i].trail != path
    ensures Find(s, path) == idx
  {
  }

  /** An upsert's text `r` from its parts, with its outline and the index of the written section. */
  ghost predicate Outcome(prefix: seq<string>, fragment: seq<string>, tail: seq<string>, level: nat, r: seq<string>,
          s: seq<Section>, idx: nat) {
    && Parts(prefix, fragment, tail, level) && r == Assemble(prefix, fragment, tail) && s == Outline(r) &&
       idx == |Heads(prefix)| + 1
  }

  lemma OutcomeText(prefix: seq<string>, fragment: seq<string>, tail: seq<string>, level: nat, r: seq<string>,
          s: seq<Section>, idx: nat)
    requires Outcome(prefix, fragment, tail, level, r, s, idx)
    ensures Parts(prefix, fragment, tail, level) && s == Outline(r) && |s| == |Heads(r)| + 1
    ensures idx == |Heads(prefix)| + 1
    ensures r == Seam(prefix, true) + (Written(fragment, tail) + Terminated(tail))
  {
    PartsFacts(prefix, fragment, tail, level);
    hide Heads, Assemble, Seam, Written, Terminated, Parts;
    SplitAssemble(prefix, fragment, tail);
  }

  lemma WrittenEndOf(prefix: seq<string>, fragment: seq<string>, tail: seq<string>, level: nat, r: seq<string>,
          s: seq<Section>, idx: nat, m: nat)
    requires Outcome(prefix, fragment, tail, level, r, s, idx) && m == |Heads(fragment)|
    ensures idx < |s|
    ensures SelfContained(fragment) && StaysClosed(tail, level) ==> SubtreeEnd(s, idx) == idx + m
    ensures SelfContained(fragment) && !StaysClosed(tail, level) ==> SubtreeEnd(s, idx) > idx + m
    ensures !SelfContained(fragment) ==> SubtreeEnd(s, idx) < idx + m
  {
    OutcomeText(prefix, fragment, tail, level, r, s, idx);
    PartsFacts(prefix, fragment, tail, level);
    hide Heads, Outline, Trails, SubtreeEnd, Assemble, Seam, Written, Terminated, Describes, Outcome, Parts;
    OutlineDescribes(r);
    WrittenMarks(prefix, fragment, tail, level, r, idx - 1, idx - 1 + m);
    WrittenEnd(s, Trails(FRESH, Heads(r)), Heads(r), Heads(prefix), Heads(fragment), Heads(tail), idx);
  }

  lemma RangeAt(lines: seq<string>, s: seq<Section>, idx: nat, j: nat, e: nat)
    requires s == Outline(lines) && idx == j + 1 < |s| && SubtreeEnd(s, idx) == e + 1
    ensures RangeStart(s, idx) == At(lines, j) && RangeEnd(lines, s, idx) == At(lines, e)
    ensures At(lines, j) < At(lines, e) <= |lines| && e <= |Heads(lines)|
  {
    hide *;
    RangeFacts(lines, idx);
  }

  lemma WrittenRange(prefix: seq<string>, fragment: seq<string>, tail: seq<string>, level: nat, r: seq<string>,
          s: seq<Section>, idx: nat, e: nat)
    requires Outcome(prefix, fragment, tail, level, r, s, idx) && idx < |s| && SubtreeEnd(s, idx) == e + 1
    ensures RangeStart(s, idx) == |Seam(prefix, true)| && RangeEnd(r, s, idx) == At(r, e) && e <= |Heads(r)|
    ensures RangeStart(s, idx) < RangeEnd(r, s, idx) <= |r|
  {
    hide *;
    var n := |Heads(prefix)|;
    OutcomeText(prefix, fragment, tail, level, r, s, idx);
    WrittenMarks(prefix, fragment, tail, level, r, n, n + |Heads(fragment)|);
    RangeAt(r, s, idx, n, e);
  }

  /** The written section reaches behind its last rendered line exactly when it is self-contained. */
  lemma WrittenReaches(prefix: seq<string>, fragment: seq<string>, tail: seq<string>, level: nat, r: seq<string>,
          s: seq<Section>, idx: nat)
    requires Outcome(prefix, fragment, tail, level, r, s, idx)
    ensures idx < |s| && (RangeEnd(r, s, idx) >= RangeStart(s, idx) + |fragment| <==> SelfContained(fragment))
  {
    hide *;
    var n, m := |Heads(prefix)|, |Heads(fragment)|;
    OutcomeText(prefix, fragment, tail, level, r, s, idx);
    PartsFacts(prefix, fragment, tail, level);
    WrittenEndOf(prefix, fragment, tail, level, r, s, idx, m);
    var e := SubtreeEnd(s, idx) - 1;
    WrittenRange(prefix, fragment, tail, level, r, s, idx, e);
    if SelfContained(fragment) {
      LongWritten(fragment, tail);
      WrittenMarks(prefix, fragment, tail, level, r, n, n + m);
      CutOrders(r, n + m, e);
    } else {
      HeadsWithinFragment(prefix, fragment, tail, level, r, e);
    }
  }

  lemma LongWritten(fragment: seq<string>, tail: seq<string>)
    ensures |Written(fragment, tail)| >= |fragment|
  {
  }

  /** The check accepts exactly a self-contained section that comes back under its path. */
  lemma CheckAccepts(prefix: seq<string>, fragment: seq<string>, tail: seq<string>, level: nat, r: seq<string>,
          s: seq<Section>, path: Trail, idx: nat)
    requires Outcome(prefix, fragment, tail, level, r, s, idx) && Lines(Join(r)) == r
    ensures idx < |s|
    ensures CheckUpserted(Join(r), path, idx, |fragment|).Ok? <==> s[idx].trail == path && SelfContained(fragment)
    ensures CheckUpserted(Join(r), path, idx, |fragment|).Ok? ==>
      CheckUpserted(Join(r), path, idx, |fragment|) == Ok(Join(r))
  {
    hide Outline, SelfContained, Join, Lines, RangeStart, RangeEnd, Outcome;
    WrittenReaches(prefix, fragment, tail, level, r, s, idx);
    assert s == Outline(r) by { OutcomeText(prefix, fragment, tail, level, r, s, idx); }
  }

  // ---- Doing it again ----

  /** After a successful upsert the path finds the written section, whole. */
  lemma FirstUpsert(lines: seq<string>, s: seq<Section>, path: Trail, level: nat, heading: string, text: string,
          idx: nat, a: nat, b: nat, f: seq<string>, r: seq<string>)
    requires Request(lines, s, path, level, heading, text, idx, a, b, f) && r == Assemble(lines[..a], f, lines[b..])
    requires Upsert(Join(lines), path, level, heading, text).Ok?
    ensures Upsert(Join(lines), path, level, heading, text) == Ok(Join(r)) && Lines(Join(r)) == r && WellFormed(r)
    ensures Find(Outline(r), path) == idx < |Outline(r)| && SelfContained(f)
  {
    hide *;
    RequestParts(lines, s, path, level, heading, text, idx, a, b, f);
    var prefix, tail, s' := lines[..a], lines[b..], Outline(r);
    UpsertUnfolds(lines, s, path, level, heading, text, idx, a, b, f, r);
    CheckAccepts(prefix, f, tail, level, r, s', path, idx);
    OutcomeText(prefix, f, tail, level, r, s', idx);
    WrittenMarks(prefix, f, tail, level, r, idx - 1, idx - 1 + |Heads(f)|);
    EarlierPathsStay(lines, s, r, s', path, idx - 1);
    FindHere(s', path, idx);
  }

  /** The same request on the text it left: it replaces the section it wrote. */
  lemma RequestAgain(lines: seq<string>, s: seq<Section>, path: Trail, level: nat, heading: string, text: string,
          idx: nat, a: nat, b: nat, f: seq<string>, r: seq<string>, e: nat)
    requires Request(lines, s, path, level, heading, text, idx, a, b, f) && r == Assemble(lines[..a], f, lines[b..])
    requires WellFormed(r)
    requires Find(Outline(r), path) == idx < |Outline(r)| && SubtreeEnd(Outline(r), idx) == e + 1
    ensures Request(r, Outline(r), path, level, heading, text, idx, |Seam(lines[..a], true)|, At(r, e), f)
    ensures |Seam(lines[..a], true)| <= At(r, e) <= |r| && e <= |Heads(r)|
  {
    hide *;
    RequestParts(lines, s, path, level, heading, text, idx, a, b, f);
    WrittenRange(lines[..a], f, lines[b..], level, r, Outline(r), idx, e);
    RequestIs(r, Outline(r), path, level, heading, text, idx, |Seam(lines[..a], true)|, At(r, e), f);
  }

  lemma RequestIs(lines: seq<string>, s: seq<Section>, path: Trail, level: nat, heading: string, text: string,
          idx: nat, a: nat, b: nat, f: seq<string>)
    requires WellFormed(lines) && 1 <= level <= 6 && path != PREAMBLE && f == Lines(Rendered(level, heading, text))
    requires s == Outline(lines) && idx == Find(s, path) < |s| && a == RangeStart(s, idx)
    requires b == RangeEnd(lines, s, idx) && a <= b <= |lines|
    ensures Request(lines, s, path, level, heading, text, idx, a, b, f)
  {
    hide Outline, Rendered, Lines, WellFormed, SubtreeEnd;
  }

  /** Nothing can fall into the section: replacing it by itself rebuilds the text. */
  lemma SameAgain(prefix: seq<string>, f: seq<string>, tail: seq<string>, level: nat, r: seq<string>, e: nat)
    requires Parts(prefix, f, tail, level) && r == Seam(prefix, true) + (Written(f, tail) + Terminated(tail))
    requires e == |Seam(prefix, true)| + |Written(f, tail)|
    ensures e <= |r| && Assemble(r[..|Seam(prefix, true)|], f, r[e..]) == r
  {
    hide *;
    PartsFacts(prefix, f, tail, level);
    var head, w, t := Seam(prefix, true), Written(f, tail), Terminated(tail);
    CutAfter(head, w + t);
    Assoc(head, w, t);
    CutAfter(head + w, t);
    SplitAssemble(head, f, t);
    SeamTwice(prefix);
    TailTerminated(f, tail);
  }

  lemma HeadingKept(lines: seq<string>)
    requires lines != [] && IsHeading(lines[0])
    ensures |NonBlank(lines)| > 0
  {
    hide *;
    HeadingIsContent(lines[0]);
    OneInFront(lines);
    NonBlankAppend([lines[0]], lines[1..]);
  }

  lemma HeadingIsContent(line: string)
    requires IsHeading(line)
    ensures |NonBlank([line])| == 1
  {
    hide Content;
    EmptyLineIsNoHeading();
    assert [line][..0] == [] && HeadingOf("") == HeadingOf("\n");
    assert NonBlank([line]) == NonBlank([]) + Kept(line);
  }

  /** The tail starts inside the section: replacing it loses at least the tail's first heading. */
  lemma LosesTail(prefix: seq<string>, f: seq<string>, tail: seq<string>, level: nat, r: seq<string>, e: nat)
    requires Parts(prefix, f, tail, level) && r == Seam(prefix, true) + (Written(f, tail) + Terminated(tail))
    requires WellFormed(r)
    requires |Seam(prefix, true)| + |Written(f, tail)| < e <= |r| && tail != []
    ensures |Seam(prefix, true)| <= |r| && Assemble(r[..|Seam(prefix, true)|], f, r[e..]) != r
  {
    hide *;
    PartsFacts(prefix, f, tail, level);
    WrittenFacts(f, tail);
    WrittenStarts(prefix, f, tail, level);
    SeamKeeps(prefix, true);
    TerminatedWellFormed(tail);
    var head, w, t := Seam(prefix, true), Written(f, tail), Terminated(tail);
    CutAfter(head, w + t);
    Assoc(head, w, t);
    Slice(r, e, |r|);
    assert r[e..|r|] == r[e..];
    AssembleKeeps(head, f, r[e..]);
    assert t == t[..e - |head + w|] + r[e..] && t[..e - |head + w|] != [] && t[..e - |head + w|][0] == t[0];
    NonBlankAppend(head + w, t);
    NonBlankAppend(head, w);
    StartsHeading(t);
    HeadingKept(t[..e - |head + w|]);
    NonBlankAppend(t[..e - |head + w|], r[e..]);
  }

  lemma StartsHeading(t: seq<string>)
    requires StartsSection(t) && t != []
    ensures IsHeading(t[0])
  {
  }

  /**
    Upsert reaches a fixed point exactly when nothing behind the written section can fall into it: the
    text ended there, or goes on with an outline heading at the requested level or above.
  */
  lemma UpsertFixpointIff(lines: seq<string>, s: seq<Section>, path: Trail, level: nat, heading: string, text: string,
          idx: nat, a: nat, b: nat, f: seq<string>)
    requires Request(lines, s, path, level, heading, text, idx, a, b, f) && a <= b <= |lines|
    requires Upsert(Join(lines), path, level, heading, text).Ok?
    ensures var done := Upsert(Join(lines), path, level, heading, text).value;
      Upsert(done, path, level, heading, text) == Ok(done) <==> StaysClosed(lines[b..], level)
  {
    hide *;
    var prefix, tail, r := lines[..a], lines[b..], Assemble(lines[..a], f, lines[b..]);
    var s', n, m := Outline(r), |Heads(prefix)|, |Heads(f)|;
    FirstUpsert(lines, s, path, level, heading, text, idx, a, b, f, r);
    RequestParts(lines, s, path, level, heading, text, idx, a, b, f);
    OutcomeText(prefix, f, tail, level, r, s', idx);
    WrittenEndOf(prefix, f, tail, level, r, s', idx, m);
    WrittenMarks(prefix, f, tail, level, r, n, n + m);
    var e := SubtreeEnd(s', idx) - 1;
    RequestAgain(lines, s, path, level, heading, text, idx, a, b, f, r, e);
    var r2 := Assemble(r[..|Seam(prefix, true)|], f, r[At(r, e)..]);
    UpsertUnfolds(r, s', path, level, heading, text, idx, |Seam(prefix, true)|, At(r, e), f, r2);
    if StaysClosed(tail, level) {
      SameAgain(prefix, f, tail, level, r, At(r, e));
      CheckAccepts(prefix, f, tail, level, r, s', path, idx);
    } else {
      LaterCut(r, n + m, e);
      NotClosedIsSomething(tail, level);
      LosesTail(prefix, f, tail, level, r, At(r, e));
      CheckGives(Join(r2), path, idx, |f|);
    }
  }

  lemma LaterCut(r: seq<string>, j: nat, k: nat)
    requires j < k <= |Heads(r)|
    ensures At(r, j) < At(r, k) <= |r|
  {
    CutsAscend(r, j, k);
  }

  lemma NotClosedIsSomething(tail: seq<string>, level: nat)
    requires !StaysClosed(tail, level)
    ensures tail != []
  {
  }

  lemma CheckGives(text: string, path: Trail, idx: nat, n: nat)
    ensures CheckUpserted(text, path, idx, n).Ok? ==> CheckUpserted(text, path, idx, n) == Ok(text)
  {
    hide Outline, Lines, RangeStart, RangeEnd;
  }

  /** After a successful upsert the path still addresses every rendered line. */
  lemma UpsertedSectionIsWhole(lines: seq<string>, s: seq<Section>, path: Trail, level: nat, heading: string,
          text: string, idx: nat, a: nat, b: nat, f: seq<string>, r: seq<string>)
    requires Request(lines, s, path, level, heading, text, idx, a, b, f) && a <= b <= |lines|
    requires r == Assemble(lines[..a], f, lines[b..])
    requires Upsert(Join(lines), path, level, heading, text).Ok?
    ensures Upsert(Join(lines), path, level, heading, text) == Ok(Join(r))
    ensures Find(Outline(r), path) == idx < |Outline(r)|
    ensures var (from, end) := (RangeStart(Outline(r), idx), RangeEnd(r, Outline(r), idx));
      from + |f| <= end <= |r| && r[from..from + |f|] == Terminated(f)
  {
    hide *;
    var prefix, tail, s' := lines[..a], lines[b..], Outline(r);
    FirstUpsert(lines, s, path, level, heading, text, idx, a, b, f, r);
    RequestParts(lines, s, path, level, heading, text, idx, a, b, f);
    OutcomeText(prefix, f, tail, level, r, s', idx);
    WrittenReaches(prefix, f, tail, level, r, s', idx);
    WrittenRange(prefix, f, tail, level, r, s', idx, SubtreeEnd(s', idx) - 1);
    PartsFacts(prefix, f, tail, level);
    WrittenFacts(f, tail);
    var head, w, t := Seam(prefix, true), Written(f, tail), Terminated(tail);
  }

  /** A new path is appended, so its upsert is a fixed point at once. */
  lemma NewPathSettles(lines: seq<string>, s: seq<Section>, path: Trail, level: nat, heading: string, text: string,
          a: nat, b: nat, f: seq<string>)
    requires Request(lines, s, path, level, heading, text, |s|, a, b, f) && a <= b <= |lines|
    requires Upsert(Join(lines), path, level, heading, text).Ok?
    ensures var done := Upsert(Join(lines), path, level, heading, text).value;
      Upsert(done, path, level, heading, text) == Ok(done)
  {
    assert lines[b..] == [];
    hide *;
    UpsertFixpointIff(lines, s, path, level, heading, text, |s|, a, b, f);
  }

  lemma ClosingLine(lines: seq<string>, s: seq<Section>, idx: nat, a: nat, b: nat, level: nat)
    requires IsRange(lines, s, idx, a, b) && 0 < idx < |s| && s[idx].depth == 0 && level >= s[idx].level
    ensures StaysClosed(lines[b..], level)
  {
    OutlineDescribes(lines);
    MarksAreHeadings(lines);
    hide Outline, Heads, Marks, Behind;
    RangeFacts(lines, idx);
    var end := SubtreeEnd(s, idx);
    if end < |s| {
      assert s[end - 1 + 1].level == Heads(lines)[end - 1].level;
      assert lines[b..][0] == lines[b];
    }
  }

  /**
    So is replacing an outline section at its own level or deeper. Only shallower levels and quoted headings can
    take in what follows.
  */
  lemma OutlineSectionSettles(lines: seq<string>, s: seq<Section>, path: Trail, level: nat, heading: string,
          text: string, idx: nat, a: nat, b: nat, f: seq<string>)
    requires Request(lines, s, path, level, heading, text, idx, a, b, f) && a <= b <= |lines| && idx < |s|
    requires s[idx].depth == 0 && level >= s[idx].level
    requires Upsert(Join(lines), path, level, heading, text).Ok?
    ensures var done := Upsert(Join(lines), path, level, heading, text).value;
      Upsert(done, path, level, heading, text) == Ok(done)
  {
    assert IsRange(lines, s, idx, a, b);
    hide *;
    RequestParts(lines, s, path, level, heading, text, idx, a, b, f);
    ClosingLine(lines, s, idx, a, b, level);
    UpsertFixpointIff(lines, s, path, level, heading, text, idx, a, b, f);
  }
}
