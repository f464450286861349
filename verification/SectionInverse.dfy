/** Moving a section behind its next sibling and back again restores the body. */
module SectionInverse {
  import opened Basics
  import opened TextLines
  import opened Headings
  import opened Outlines
  import opened Splices
  import opened SectionOps
  import opened SectionShape
  import opened SectionRanges
  import opened SectionMoves
  import SectionAnchors

  // ---- Blocks of lines as sections ----

  /** The lines of one outline section with its subtree, at `level`. */
  ghost predicate SectionLines(block: seq<string>, level: nat) {
    && block != [] && HeadingOf(block[0]).Some? && HeadingOf(block[0]).value.depth == 0 &&
       HeadingOf(block[0]).value.level == level
    && IsBlock(Heads(block))
  }

  /** Lines that can follow a section at `level`. */
  ghost predicate Follows(rest: seq<string>, level: nat) {
    rest != [] ==>
      HeadingOf(rest[0]).Some? && HeadingOf(rest[0]).value.depth == 0 && HeadingOf(rest[0]).value.level <= level
  }

  lemma HeadsOfParts(front: seq<string>, block: seq<string>, rest: seq<string>)
    ensures Heads(front + block + rest) == Heads(front) + Heads(block) + Heads(rest)
  {
    HeadsAppend(front + block, rest);
    HeadsAppend(front, block);
  }

  lemma MarkOf(front: seq<string>, rest: seq<string>, lines: seq<string>, j: nat)
    requires lines == front + rest && j == |Heads(front)| && StartsSection(rest)
    ensures At(lines, j) == |front|
  {
    if rest != [] {
      hide Heads, IsHeading;
      HeadingFirst(front, rest);
    } else {
      assert lines == front;
    }
  }

  /** Where a block of lines stands among the headings of the whole text. */
  lemma BlockMarks(front: seq<string>, block: seq<string>, rest: seq<string>, level: nat, lines: seq<string>, j: nat,
          k: nat)
    requires SectionLines(block, level) && Follows(rest, level) && lines == front + block + rest
    requires j == |Heads(front)| && k == |Heads(front)| + |Heads(block)|
    ensures At(lines, j) == |front| && At(lines, k) == |front| + |block|
  {
    assert At(lines, j) == |front| by { StartMark(front, block, rest, level, lines, j); }
    assert At(lines, k) == |front| + |block| by { EndMark(front, block, rest, level, lines, k); }
  }

  lemma StartMark(front: seq<string>, block: seq<string>, rest: seq<string>, level: nat, lines: seq<string>, j: nat)
    requires SectionLines(block, level) && lines == front + block + rest && j == |Heads(front)|
    ensures At(lines, j) == |front|
  {
    hide At, Heads, HeadingOf, IsBlock;
    assert lines == front + (block + rest) && (block + rest)[0] == block[0];
    MarkOf(front, block + rest, lines, j);
  }

  lemma EndMark(front: seq<string>, block: seq<string>, rest: seq<string>, level: nat, lines: seq<string>, k: nat)
    requires Follows(rest, level) && lines == front + block + rest && k == |Heads(front)| + |Heads(block)|
    ensures At(lines, k) == |front| + |block|
  {
    hide At, Heads;
    HeadsAppend(front, block);
    MarkOf(front + block, rest, lines, k);
  }

  lemma RangeByMarks(lines: seq<string>, s: seq<Section>, idx: nat, j: nat, k: nat, a: nat, b: nat)
    requires s == Outline(lines) && idx == j + 1 < |s| && SubtreeEnd(s, idx) == k + 1 && At(lines, j) == a
    requires At(lines, k) == b
    ensures IsRange(lines, s, idx, a, b)
  {
    hide Outline, At, SubtreeEnd, RangeStart, RangeEnd;
    RangeFacts(lines, idx);
  }

  lemma FirstHead(block: seq<string>)
    requires block != [] && IsHeading(block[0])
    ensures Heads(block) != [] && Some(Heads(block)[0]) == HeadingOf(block[0])
  {
    hide *;
    HeadingFirst([], block);
  }

  lemma HeadsClose(block: seq<string>, rest: seq<string>, level: nat)
    requires SectionLines(block, level) && Follows(rest, level)
    ensures IsBlock(Heads(block)) && Heads(block)[0].depth == 0 && ClosedBy(Heads(block), Heads(rest))
  {
    FirstHead(block);
    if rest != [] { FirstHead(rest); } else { assert Heads(rest) == []; }
  }

  lemma EndOfBlock(s: seq<Section>, trails: seq<Trail>, heads: seq<Heading>, front: seq<Heading>, block: seq<Heading>,
          rest: seq<Heading>, idx: nat, k: nat)
    requires heads == front + block + rest && Describes(s, heads, trails) && IsBlock(block) && block[0].depth == 0
    requires ClosedBy(block, rest)
    requires idx == |front| + 1 && k == |front| + |block|
    ensures idx < |s| && SubtreeEnd(s, idx) == k + 1
  {
    var n, m := |front|, |block|;
    assert heads[n] == block[0] && s[n + 1].level == heads[n].level && s[n + 1].depth == heads[n].depth;
    forall i | n + 2 <= i < n + 1 + m ensures s[i].depth > 0 || s[i].level > s[n + 1].level {
      assert heads[i - 1] == block[i - 1 - n] && s[i - 1 + 1].level == heads[i - 1].level;
    }
    if n + 1 + m < |s| {
      assert heads[n + m] == rest[0] && s[n + m + 1].level == heads[n + m].level;
    }
    ClosingIs(s, s[n + 1].level, n + 2, n + 1 + m);
  }

  /** A block of lines is the range of the section its first heading names. */
  lemma BlockIsRange(front: seq<string>, block: seq<string>, rest: seq<string>, level: nat, lines: seq<string>,
          s: seq<Section>, idx: nat)
    requires SectionLines(block, level) && Follows(rest, level)
    requires lines == front + block + rest && s == Outline(lines) && idx == |Heads(front)| + 1
    ensures IsRange(lines, s, idx, |front|, |front| + |block|) && idx < |s|
    ensures SubtreeEnd(s, idx) == idx + |Heads(block)|
  {
    hide *;
    var j, k := |Heads(front)|, |Heads(front)| + |Heads(block)|;
    BlockMarks(front, block, rest, level, lines, j, k);
    HeadsOfParts(front, block, rest);
    HeadsClose(block, rest, level);
    OutlineDescribes(lines);
    EndOfBlock(s, Trails(FRESH, Heads(lines)), Heads(lines), Heads(front), Heads(block), Heads(rest), idx, k);
    RangeByMarks(lines, s, idx, j, k, |front|, |front| + |block|);
  }

  // ---- Seams that are already there ----

  /** Terminated lines a heading can follow without a seam. */
  predicate Ready(lines: seq<string>) {
    lines == [] || EndsBlank(lines)
  }

  predicate Closed(lines: seq<string>) {
    lines == [] || Ended(lines[|lines| - 1])
  }

  lemma CleanAssemble(prefix: seq<string>, fragment: seq<string>, tail: seq<string>)
    requires Ready(prefix) && Closed(fragment) && Closed(tail) && (tail != [] ==> Ready(fragment))
    ensures Assemble(prefix, fragment, tail) == prefix + fragment + tail
  {
    hide IsOutline;
    assert Ended("\n");
    assert forall b :: Seam(prefix, b) == prefix;
    var front := prefix + fragment;
    assert tail != [] ==> Ready(front) && forall b :: Seam(front, b) == front;
    assert Closed(front + tail) && Terminated(front + tail) == front + tail;
  }

  /** A heading appended behind an unseparated line gets its blank line. */
  lemma SeparatedAppend(prefix: seq<string>, fragment: seq<string>)
    requires prefix != [] && Closed(prefix) && !EndsBlank(prefix) && Opens(fragment) && Closed(fragment)
    ensures Assemble(prefix, fragment, []) == prefix + ["\n"] + fragment
  {
    hide IsOutline;
    assert Seam(prefix, true) == prefix + ["\n"];
    assert Closed(prefix + ["\n"] + fragment);
  }

  // ---- The setting: adjacent siblings `x` then `y` ----

  /** Two sibling sections between `front` and `rest`, headings set off by blank lines, no blank line at the end. */
  ghost predicate Adjacent(front: seq<string>, x: seq<string>, y: seq<string>, rest: seq<string>, level: nat) {
    && WellFormed(front + x + y + rest)
    && SectionLines(x, level) && SectionLines(y, level) && Follows(rest, level)
    && Ready(front) && EndsBlank(x)
    && (rest == [] ==> !EndsBlank(y)) && (rest != [] ==> EndsBlank(y))
  }

  /** The same with the last line ended. */
  ghost predicate AdjacentEnded(front: seq<string>, x: seq<string>, y: seq<string>, rest: seq<string>, level: nat) {
    Adjacent(front, x, y, rest, level) && Closed(y) && Closed(rest)
  }

  /** The second sibling once the body's last line is ended. */
  function EndedSibling(y: seq<string>, rest: seq<string>): seq<string> {
    if rest == [] then Terminated(y) else y
  }

  lemma EndedText(front: seq<string>, x: seq<string>, y: seq<string>, rest: seq<string>)
    requires y != []
    ensures Terminated(front + x + y + rest) == front + x + EndedSibling(y, rest) + Terminated(rest)
    ensures Terminated(front + (y + rest)) == front + EndedSibling(y, rest) + Terminated(rest)
  {
    hide Terminated;
    TerminatedNothing();
    TerminatedLast(front + x, y);
    TerminatedLast(front + x + y, rest);
    TerminatedLast(front, y);
    TerminatedLast(front + y, rest);
    Assoc(front, y, rest);
  }

  lemma EndedHeading(line: string)
    requires !Ended(line)
    ensures HeadingOf(line + "\n") == HeadingOf(line)
  {
    assert Content(line + "\n") == line;
  }

  lemma EndedSection(y: seq<string>, level: nat)
    requires SectionLines(y, level) && WellFormed(y)
    ensures SectionLines(Terminated(y), level) && Heads(Terminated(y)) == Heads(y)
    ensures HeadingOf(Terminated(y)[0]) == HeadingOf(y[0])
  {
    hide HeadingOf, Heads, IsBlock;
    TerminatedKeeps(y);
    if !Ended(y[|y| - 1]) { EndedHeading(y[|y| - 1]); }
  }

  lemma EndedRest(rest: seq<string>, level: nat)
    requires Follows(rest, level) && WellFormed(rest)
    ensures Follows(Terminated(rest), level) && Heads(Terminated(rest)) == Heads(rest) && Closed(Terminated(rest))
    ensures rest == [] <==> Terminated(rest) == []
  {
    hide HeadingOf, Heads;
    TerminatedKeeps(rest);
    TerminatedWellFormed(rest);
    if rest != [] && !Ended(rest[|rest| - 1]) { EndedHeading(rest[|rest| - 1]); }
  }

  /** Ending the last line leaves adjacent siblings adjacent, with the headings they had. */
  lemma EndedSetting(front: seq<string>, x: seq<string>, y: seq<string>, rest: seq<string>, level: nat)
    requires Adjacent(front, x, y, rest, level)
    ensures AdjacentEnded(front, x, EndedSibling(y, rest), Terminated(rest), level)
    ensures Heads(EndedSibling(y, rest)) == Heads(y) && Heads(Terminated(rest)) == Heads(rest)
    ensures (Terminated(rest) == [] <==> rest == [])
    ensures HeadingOf(EndedSibling(y, rest)[0]) == HeadingOf(y[0])
  {
    hide Terminated, HeadingOf, Heads, WellFormed, IsBlock, EndsBlank, IsHeading;
    assert WellFormed(y) && WellFormed(rest) by { Tails(front + x, y, rest); }
    EndedText(front, x, y, rest);
    TerminatedWellFormed(front + x + y + rest);
    EndedSection(y, level);
    EndedRest(rest, level);
    TerminatedWellFormed(y);
    if rest == [] { NewEnd(y); } else { BlankIsEnd(y); }
  }

  lemma Tails(a: seq<string>, b: seq<string>, c: seq<string>)
    requires WellFormed(a + b + c)
    ensures WellFormed(b) && WellFormed(c)
  {
    WellFormedParts(a + b, c);
    WellFormedParts(a, b);
  }

  lemma NewEnd(y: seq<string>)
    requires y != [] && WellFormed(y) && !EndsBlank(y)
    ensures !EndsBlank(Terminated(y)) && Closed(Terminated(y))
  {
    assert IsLine(y[|y| - 1]);
  }

  lemma BlankIsEnd(y: seq<string>)
    requires EndsBlank(y)
    ensures Closed(y)
  {
    assert Ended("\n");
  }

  /** The blank line a move to the very end puts in front. */
  function EndGap(rest: seq<string>): seq<string> {
    if rest == [] then ["\n"] else []
  }

  lemma Joined(front: seq<string>, x: seq<string>, y: seq<string>, rest: seq<string>)
    ensures front + x + (y + rest) == front + x + y + rest
    ensures (front + x + y + rest)[..|front|] == front && (front + x + y + rest)[|front| + |x|..] == y + rest
    ensures (front + x + y + rest)[|front|..|front| + |x|] == x
    ensures front + (x + y + rest) == front + x + y + rest
  {
  }

  lemma BlockFollows(y: seq<string>, rest: seq<string>, level: nat)
    requires SectionLines(y, level)
    ensures Follows(y + rest, level) && Follows(y, level) && Opens(y)
  {
    hide HeadingOf, IsBlock;
    assert (y + rest)[0] == y[0];
  }

  lemma GapKeepsSection(y: seq<string>, rest: seq<string>, level: nat)
    requires SectionLines(y, level)
    ensures SectionLines(y + EndGap(rest), level) && Heads(y + EndGap(rest)) == Heads(y)
  {
    EmptyLineIsNoHeading();
    var gap := EndGap(rest);
    HeadsAppend(y, gap);
    assert gap != [] ==> gap[..0] == [];
    assert Heads(gap) == [];
  }

  /** Lifting the first sibling leaves the rest as it was. */
  lemma FirstLift(front: seq<string>, x: seq<string>, y: seq<string>, rest: seq<string>, level: nat, lines: seq<string>)
    requires Adjacent(front, x, y, rest, level) && lines == front + x + y + rest
    ensures Lifted(lines, |front|, |front| + |x|) == front + EndedSibling(y, rest) + Terminated(rest)
  {
    hide SectionLines, Follows, WellFormed, IsOutline, Assemble, Terminated, EndsBlank;
    Joined(front, x, y, rest);
    SectionIsSomething(y, level);
    EndedText(front, x, y, rest);
    PlainAssemble(front, y + rest);
  }

  lemma PlainAssemble(prefix: seq<string>, tail: seq<string>)
    requires Ready(prefix) && tail != []
    ensures Assemble(prefix, [], tail) == Terminated(prefix + tail)
  {
    hide IsOutline;
    assert Ended("\n");
    assert forall b :: Seam(prefix, b) == prefix;
  }

  lemma SectionIsSomething(y: seq<string>, level: nat)
    requires SectionLines(y, level)
    ensures y != []
  {
  }

  lemma AdjacentFacts(front: seq<string>, x: seq<string>, y: seq<string>, rest: seq<string>, level: nat)
    requires AdjacentEnded(front, x, y, rest, level)
    ensures x != [] && y != [] && Ready(front) && Ready(x) && Closed(x) && Closed(y) && Closed(rest) && Closed(y + rest)
    ensures Ready(front + (y + EndGap(rest))) && Opens(x)
    ensures rest == [] ==> !EndsBlank(front + y) && Closed(front + y) && front + y != []
    ensures rest != [] ==> y + EndGap(rest) == y
  {
    hide WellFormed, HeadingOf, IsBlock, Follows;
    assert Ended("\n");
  }

  lemma Assoc(a: seq<string>, b: seq<string>, c: seq<string>)
    ensures a + (b + c) == a + b + c
  {
  }

  /** Inserted behind the second sibling it stands there, behind a blank line of its own at the end of the body. */
  lemma FirstInsert(front: seq<string>, x: seq<string>, y: seq<string>, rest: seq<string>, level: nat)
    requires AdjacentEnded(front, x, y, rest, level)
    ensures Assemble(front + y, x, rest) == front + (y + EndGap(rest)) + x + rest
  {
    AdjacentFacts(front, x, y, rest, level);
    hide AdjacentEnded, Assemble, Ready, Closed, EndsBlank, Opens;
    if rest == [] {
      SeparatedAppend(front + y, x);
      Assoc(front, y, ["\n"]);
      assert front + (y + ["\n"]) + x + [] == front + (y + ["\n"]) + x;
    } else {
      CleanAssemble(front + y, x, rest);
    }
  }

  lemma LiftedLast(front: seq<string>, x: seq<string>, rest: seq<string>, lines: seq<string>, a: nat)
    requires lines == front + x + rest && a == |front| && Ready(front) && Closed(rest) && x != []
    ensures Lifted(lines, a, a + |x|) == if rest == [] then WithoutBlank(front) else front + rest
  {
    assert lines[..a] == front && lines[a + |x|..] == rest;
    hide Assemble, Ready, Closed, WithoutBlank;
    CleanAssemble(front, [], rest);
    assert front + [] + rest == front + rest && (rest == [] ==> front + rest == front);
  }

  lemma SecondLift(front: seq<string>, x: seq<string>, y: seq<string>, rest: seq<string>, level: nat,
          lines: seq<string>, a: nat)
    requires AdjacentEnded(front, x, y, rest, level) && lines == front + (y + EndGap(rest)) + x + rest
    requires a == |front + (y + EndGap(rest))|
    ensures Lifted(lines, a, a + |x|) == front + y + rest
  {
    AdjacentFacts(front, x, y, rest, level);
    hide AdjacentEnded, Lifted, Ready, Closed, Opens, WithoutBlank;
    LiftedLast(front + (y + EndGap(rest)), x, rest, lines, a);
    if rest == [] {
      Assoc(front, y, ["\n"]);
      assert front + y + rest == front + y;
    }
  }

  lemma SecondInsert(front: seq<string>, x: seq<string>, y: seq<string>, rest: seq<string>, level: nat)
    requires AdjacentEnded(front, x, y, rest, level)
    ensures Assemble(front, x, y + rest) == front + x + y + rest
  {
    AdjacentFacts(front, x, y, rest, level);
    hide AdjacentEnded, Assemble, Ready, Closed, Opens, EndsBlank;
    CleanAssemble(front, x, y + rest);
    Assoc(front + x, y, rest);
  }

  // ---- Paths while the siblings change places ----

  /** Headings of two adjacent sibling sections with different paths. */
  ghost predicate Siblings(front: seq<Heading>, x: seq<Heading>, y: seq<Heading>) {
    && IsBlock(x) && IsBlock(y) && x[0].depth == 0 && y[0].depth == 0 && x[0].level == y[0].level
    && TrailOf(Run(FRESH, front), x[0]) != TrailOf(Run(Run(FRESH, front), x), y[0])
  }

  ghost predicate Swappable(front: seq<Heading>, x: seq<Heading>, y: seq<Heading>) {
    Siblings(front, x, y) && x[0].slug != y[0].slug
  }

  lemma KeysApart(front: seq<Heading>, x: seq<Heading>, y: seq<Heading>)
    requires Swappable(front, x, y)
    ensures var st := Run(FRESH, front); Keys(Run(st, x), y) !! Keys(st, x) && Keys(Run(st, x), y[..1]) !! Keys(st, x)
  {
    hide Keys, Run, IsBlock, TrailOf;
    NeighboursApartIff(Run(FRESH, front), x, y);
  }

  lemma SplitHeads(front: seq<Heading>, x: seq<Heading>, y: seq<Heading>, rest: seq<Heading>)
    requires y != []
    ensures var all := (front + x + y + rest)[..|front| + |x| + 1];
      && all[..|front| + |x|] == front + x && all[|front| + |x|..] == y[..1] && all[..|front|] == front &&
         all[|front|..|front| + |x|] == x
  {
  }

  /** Up to the second sibling the first one shares no parent and slug exactly when their slugs differ. */
  lemma SiblingClearIff(front: seq<Heading>, x: seq<Heading>, y: seq<Heading>, rest: seq<Heading>, heads: seq<Heading>)
    requires Siblings(front, x, y) && heads == front + x + y + rest
    ensures AnchorClear(heads, |front|, |x|, |front| + |x| + 1) <==> x[0].slug != y[0].slug
  {
    hide Keys, Run, TrailOf;
    NeighboursApartIff(Run(FRESH, front), x, y);
    SplitHeads(front, x, y, rest);
    NamingAppend(FRESH, front, x);
  }

  /** The second sibling's paths do not depend on the first, nor the first one's path on the second. */
  lemma PathsStay(front: seq<Heading>, x: seq<Heading>, y: seq<Heading>)
    requires Swappable(front, x, y)
    ensures var st := Run(FRESH, front);
      Trails(st, y) == Trails(Run(st, x), y) && TrailOf(Run(st, y), x[0]) == TrailOf(st, x[0])
  {
    hide Trails, Keys, Run;
    var st := Run(FRESH, front);
    KeysApart(front, x, y);
    assert ClosedBy(x, y) && ClosedBy(y, x) && Swappable(front, x, y);
    FirstKey(st, x);
    BlockKeepsBase(st, x, y);
    RunCounts(st, x);
    SameTrailsIff(st, Run(st, x), y, Keys(st, x));
    BlockKeepsBase(st, y, x);
    RunCounts(st, y);
    assert KeyOf(st, x[0]) !in Keys(st, y);
    assert KeyOf(Run(st, y), x[0]) == KeyOf(st, x[0]);
  }

  lemma FirstKey(st: Naming, x: seq<Heading>)
    requires x != []
    ensures KeyOf(st, x[0]) in Keys(st, x)
  {
  }

  lemma FindByTrails(s: seq<Section>, heads: seq<Heading>, trails: seq<Trail>, k: nat, path: Trail)
    requires Describes(s, heads, trails) && k < |trails| && trails[k] == path && path != PREAMBLE
    requires forall j :: 0 <= j < k ==> trails[j] != path
    ensures Find(s, path) == k + 1
  {
    assert s[k + 1].trail == path;
    forall i | 0 <= i <= k ensures s[i].trail != path {
      if i > 0 { assert s[i - 1 + 1].trail == trails[i - 1]; }
    }
  }

  /** `after` is `before` with the `y` trails in front of the `x` ones, as far as the first of the latter. */
  ghost predicate Swapped(before: seq<Trail>, after: seq<Trail>, n: nat, x: nat, y: nat) {
    && n + x + y <= |before| == |after| && x > 0 && y > 0
    && after[..n] == before[..n] && after[n..n + y] == before[n + x..n + x + y] && after[n + y] == before[n]
  }

  lemma SwappedOrder(before: seq<Trail>, after: seq<Trail>, n: nat, x: nat, y: nat)
    requires Swapped(before, after, n, x, y)
    requires forall j, k :: 0 <= j < k < |before| ==> before[j] != before[k]
    ensures after[n + y] == before[n] && after[n] == before[n + x]
    ensures forall j :: 0 <= j < n + y ==> after[j] != before[n]
    ensures forall j :: 0 <= j < n ==> after[j] != before[n + x]
  {
    forall j | 0 <= j < n + y ensures after[j] == before[if j < n then j else j + x] {
      if j >= n {
        assert after[n..n + y][j - n] == before[n + x..n + x + y][j - n];
      } else {
        assert after[..n][j] == before[..n][j];
      }
    }
  }

  lemma SwapTrails(front: seq<Heading>, x: seq<Heading>, y: seq<Heading>, rest: seq<Heading>, before: seq<Trail>,
          after: seq<Trail>)
    requires Swappable(front, x, y)
    requires before == Trails(FRESH, front + x + y + rest) && after == Trails(FRESH, front + y + x + rest)
    ensures Swapped(before, after, |front|, |x|, |y|)
  {
    hide *;
    assert |x| > 0 && |y| > 0 by { NotEmpty(front, x, y); }
    PathsStay(front, x, y);
    TrailsLaidOut(front, x, y, rest, before);
    TrailsLaidOut(front, y, x, rest, after);
    var st, n := Run(FRESH, front), |front|;
    FirstOfSlice(before, n, n + |x|);
    FirstOfSlice(after, n + |y|, n + |y| + |x|);
    FirstTrail(st, x);
    FirstTrail(Run(st, y), x);
    SwappedIs(before, after, n, |x|, |y|);
  }

  lemma NotEmpty(front: seq<Heading>, x: seq<Heading>, y: seq<Heading>)
    requires Swappable(front, x, y)
    ensures x != [] && y != []
  {
  }

  lemma FirstOfSlice(trails: seq<Trail>, a: nat, b: nat)
    requires a < b <= |trails|
    ensures trails[a..b][0] == trails[a]
  {
  }

  lemma SwappedIs(before: seq<Trail>, after: seq<Trail>, n: nat, x: nat, y: nat)
    requires n + x + y <= |before| == |after| && x > 0 && y > 0
    requires after[..n] == before[..n] && after[n..n + y] == before[n + x..n + x + y] && after[n + y] == before[n]
    ensures Swapped(before, after, n, x, y)
  {
  }

  /** Both siblings are still found under their paths after the swap. */
  lemma FoundAfterSwap(s: seq<Section>, s': seq<Section>, heads: seq<Heading>, heads': seq<Heading>,
          before: seq<Trail>, after: seq<Trail>, n: nat, x: nat, y: nat)
    requires Describes(s, heads, before) && DistinctPaths(s) && Describes(s', heads', after)
    requires Swapped(before, after, n, x, y)
    ensures Find(s', s[n + 1].trail) == n + y + 1 && Find(s', s[n + x + 1].trail) == n + 1
    ensures Find(s, s[n + 1].trail) == n + 1 && Find(s, s[n + x + 1].trail) == n + x + 1
  {
    SectionAnchors.DistinctTrails(s, heads, before);
    SwappedOrder(before, after, n, x, y);
    assert s[n + 1].trail == before[n] && s[n + x + 1].trail == before[n + x];
    hide Describes, DistinctPaths;
    FindByTrails(s', heads', after, n + y, before[n]);
    FindByTrails(s', heads', after, n, before[n + x]);
    FindByTrails(s, heads, before, n, before[n]);
    FindByTrails(s, heads, before, n + x, before[n + x]);
  }

  lemma FirstTrail(st: Naming, x: seq<Heading>)
    requires x != []
    ensures |Trails(st, x)| > 0 && Trails(st, x)[0] == TrailOf(st, x[0])
  {
  }

  lemma TrailsLaidOut(front: seq<Heading>, x: seq<Heading>, y: seq<Heading>, rest: seq<Heading>, trails: seq<Trail>)
    requires trails == Trails(FRESH, front + x + y + rest)
    ensures var (st, n) := (Run(FRESH, front), |front|);
      && |trails| == n + |x| + |y| + |rest|
      && trails[..n] == Trails(FRESH, front) && trails[n..n + |x|] == Trails(st, x)
      && trails[n + |x|..n + |x| + |y|] == Trails(Run(st, x), y)
  {
    hide *;
    var a, b, c := Trails(FRESH, front), Trails(Run(FRESH, front), x), Trails(Run(Run(FRESH, front), x), y);
    NamingAppend(FRESH, front + x + y, rest);
    NamingAppend(FRESH, front + x, y);
    NamingAppend(FRESH, front, x);
  }

  // ---- There and back ----

  /** The whole setting: adjacent siblings in a body with distinct paths. */
  ghost predicate Setting(front: seq<string>, x: seq<string>, y: seq<string>, rest: seq<string>, level: nat,
          lines: seq<string>, s: seq<Section>, first: Trail, second: Trail) {
    && Adjacent(front, x, y, rest, level) && lines == front + x + y + rest && s == Outline(lines) && DistinctPaths(s)
    && |Heads(front)| + |Heads(x)| + 1 < |s| && first == s[|Heads(front)| + 1].trail &&
       second == s[|Heads(front)| + |Heads(x)| + 1].trail
  }

  lemma SettingIs(front: seq<string>, x: seq<string>, y: seq<string>, rest: seq<string>, level: nat,
          lines: seq<string>, s: seq<Section>, first: Trail, second: Trail)
    requires Adjacent(front, x, y, rest, level) && lines == front + x + y + rest && s == Outline(lines)
    requires DistinctPaths(s)
    requires |Heads(front)| + |Heads(x)| + 1 < |s| && first == s[|Heads(front)| + 1].trail
    requires second == s[|Heads(front)| + |Heads(x)| + 1].trail
    ensures Setting(front, x, y, rest, level, lines, s, first, second)
  {
    hide Adjacent, Heads, Outline, DistinctPaths;
  }

  /** The headings of the two sections have different slugs. */
  ghost predicate SlugsDiffer(x: seq<string>, y: seq<string>)
    requires x != [] && y != [] && IsHeading(x[0]) && IsHeading(y[0])
  {
    HeadingOf(x[0]).value.slug != HeadingOf(y[0]).value.slug
  }

  lemma SettingParts(front: seq<string>, x: seq<string>, y: seq<string>, rest: seq<string>, level: nat,
          lines: seq<string>, s: seq<Section>, first: Trail, second: Trail)
    requires Setting(front, x, y, rest, level, lines, s, first, second)
    ensures Adjacent(front, x, y, rest, level) && SectionLines(x, level) && SectionLines(y, level)
    ensures Follows(rest, level)
    ensures x != [] && y != [] && IsHeading(x[0]) && IsHeading(y[0])
    ensures lines == front + x + y + rest && s == Outline(lines) && DistinctPaths(s) && WellFormed(lines)
    ensures |Heads(front)| + |Heads(x)| + 1 < |s| && first == s[|Heads(front)| + 1].trail
    ensures second == s[|Heads(front)| + |Heads(x)| + 1].trail
  {
    hide Heads, Outline, DistinctPaths, WellFormed, Follows, Ready, Closed, EndsBlank, HeadingOf;
  }

  lemma SettingHeads(front: seq<string>, x: seq<string>, y: seq<string>, rest: seq<string>, level: nat,
          lines: seq<string>, s: seq<Section>, first: Trail, second: Trail)
    requires Setting(front, x, y, rest, level, lines, s, first, second)
    ensures Heads(lines) == Heads(front) + Heads(x) + Heads(y) + Heads(rest)
    ensures Siblings(Heads(front), Heads(x), Heads(y)) && first != second
    ensures x != [] && y != [] && IsHeading(x[0]) && IsHeading(y[0])
    ensures SlugsDiffer(x, y) <==> Heads(x)[0].slug != Heads(y)[0].slug
  {
    hide *;
    SettingParts(front, x, y, rest, level, lines, s, first, second);
    HeadsOfFour(front, x, y, rest);
    SameLevel(x, y, level);
    OutlineDescribes(lines);
    SiblingsAre(s, Heads(front), Heads(x), Heads(y), Heads(rest), Heads(lines), Trails(FRESH, Heads(lines)));
    PathsDiffer(s, |Heads(front)| + 1, |Heads(front)| + |Heads(x)| + 1);
  }

  lemma HeadsOfFour(front: seq<string>, x: seq<string>, y: seq<string>, rest: seq<string>)
    ensures Heads(front + x + y + rest) == Heads(front) + Heads(x) + Heads(y) + Heads(rest)
  {
    hide *;
    HeadsAppend(front + x + y, rest);
    HeadsOfParts(front, x, y);
  }

  lemma PathsDiffer(s: seq<Section>, i: nat, j: nat)
    requires DistinctPaths(s) && i < j < |s|
    ensures s[i].trail != s[j].trail
  {
  }

  lemma SameLevel(x: seq<string>, y: seq<string>, level: nat)
    requires SectionLines(x, level) && SectionLines(y, level)
    ensures IsBlock(Heads(x)) && IsBlock(Heads(y)) && Heads(x) != [] && Heads(y) != []
    ensures Heads(x)[0].depth == 0 && Heads(y)[0].depth == 0 && Heads(x)[0].level == Heads(y)[0].level
    ensures SlugsDiffer(x, y) <==> Heads(x)[0].slug != Heads(y)[0].slug
  {
    hide Heads, HeadingOf, IsBlock;
    FirstHead(x);
    FirstHead(y);
  }

  lemma SiblingsAre(s: seq<Section>, front: seq<Heading>, x: seq<Heading>, y: seq<Heading>, rest: seq<Heading>,
          all: seq<Heading>, trails: seq<Trail>)
    requires IsBlock(x) && IsBlock(y) && x[0].depth == 0 && y[0].depth == 0 && x[0].level == y[0].level
    requires all == front + x + y + rest && trails == Trails(FRESH, all)
    requires Describes(s, all, trails) && DistinctPaths(s)
    ensures Siblings(front, x, y)
  {
    hide Trails, Run, TrailOf, Describes, DistinctPaths;
    SectionAnchors.DistinctTrails(s, all, trails);
    var st, n := Run(FRESH, front), |front|;
    TrailsLaidOut(front, x, y, rest, trails);
    FirstOfSlice(trails, n, n + |x|);
    FirstOfSlice(trails, n + |x|, n + |x| + |y|);
    FirstTrail(st, x);
    FirstTrail(Run(st, x), y);
    assert trails[n] != trails[n + |x|];
  }

  /** The first move up to its insertion. */
  lemma ForthResolves(front: seq<string>, x: seq<string>, y: seq<string>, rest: seq<string>, level: nat,
          lines: seq<string>, s: seq<Section>, first: Trail, second: Trail)
    requires Setting(front, x, y, rest, level, lines, s, first, second)
    ensures var (n, m) := (|Heads(front)|, |Heads(x)|);
      Resolved(Join(lines), first, second, lines, s, n + 1, n + m + 1, |front|, |front| + |x|, n, m) &&
      Outside(s, n + 1, n + m + 1)
    ensures IsRange(lines, s, |Heads(front)| + 1, |front|, |front| + |x|)
    ensures |Heads(front)| == BlockStart(|Heads(front)| + 1) - 1 && |Heads(x)| == BlockWidth(s, |Heads(front)| + 1)
  {
    hide *;
    var n, m, i, q := |Heads(front)|, |Heads(x)|, |Heads(front)| + 1, |Heads(front)| + |Heads(x)| + 1;
    SettingParts(front, x, y, rest, level, lines, s, first, second);
    LinesOfJoin(lines);
    Assoc(front + x, y, rest);
    BlockFollows(y, rest, level);
    BlockIsRange(front, x, y + rest, level, lines, s, i);
    SettingFinds(front, x, y, rest, level, lines, s, first, second);
    ResolvedHere(Join(lines), first, second, lines, s, i, q, |front|, |front| + |x|, n, m);
    BlockIs(s, n, m);
  }

  lemma BlockIs(s: seq<Section>, n: nat, m: nat)
    requires n + 1 < |s| && SubtreeEnd(s, n + 1) == n + 1 + m
    ensures n == BlockStart(n + 1) - 1 && m == BlockWidth(s, n + 1)
  {
  }

  /**
    The condition on the slugs is exact: with the first sibling lifted, the second is still found under its
    path if and only if the two headings have different slugs. Of two equal ones it loses its suffix.
  */
  lemma SiblingFoundIff(front: seq<string>, x: seq<string>, y: seq<string>, rest: seq<string>, level: nat,
          lines: seq<string>, s: seq<Section>, first: Trail, second: Trail)
    requires Setting(front, x, y, rest, level, lines, s, first, second)
    ensures x != [] && y != [] && IsHeading(x[0]) && IsHeading(y[0]) && |front| + |x| <= |lines|
    ensures Find(Outline(Lifted(lines, |front|, |front| + |x|)), second) == |Heads(front)| + 1 <==> SlugsDiffer(x, y)
  {
    hide *;
    SettingParts(front, x, y, rest, level, lines, s, first, second);
    var n, m, s' := |Heads(front)|, |Heads(x)|, Outline(Lifted(lines, |front|, |front| + |x|));
    SettingHeads(front, x, y, rest, level, lines, s, first, second);
    ForthResolves(front, x, y, rest, level, lines, s, first, second);
    AnchorsFoundIff(lines, s, n + 1, |front|, |front| + |x|, s', n, m, n + m + 1);
    AnchorsFoundIff(lines, s, n + 1, |front|, |front| + |x|, s', n, m, n);
    ClearInFront(Heads(lines), n, m, n);
    SiblingClearIff(Heads(front), Heads(x), Heads(y), Heads(rest), Heads(lines));
    OneMoreAnchor(s, s', n, m);
  }

  /** Between the section in front of a block and the one behind it lies the block only. */
  lemma OneMoreAnchor(s: seq<Section>, s': seq<Section>, n: nat, m: nat)
    requires n + m + 1 < |s| && AnchorsFound(s, s', n, m, n)
    ensures AnchorsFound(s, s', n, m, n + m + 1) <==> Find(s', s[n + m + 1].trail) == n + 1
  {
  }

  lemma FoundAt(lines: seq<string>, a: nat, b: nat, anchor: Trail, n: nat, m: nat, r: nat)
    requires a <= b <= |lines| && Finds(lines, a, b, anchor, n, m, r)
    ensures Find(Outline(Lifted(lines, a, b)), anchor) == Forth(r, n + 1, m) < |Outline(Lifted(lines, a, b))|
  {
  }

  /** The result of the first move and what its outline looks like; `y'` and `rest'` end the body's last line. */
  lemma MoveForth(front: seq<string>, x: seq<string>, y: seq<string>, rest: seq<string>, level: nat,
          lines: seq<string>, s: seq<Section>, first: Trail, second: Trail, y': seq<string>, rest': seq<string>)
    requires Setting(front, x, y, rest, level, lines, s, first, second) && y' == EndedSibling(y, rest)
    requires rest' == Terminated(rest)
    requires x != [] && y != [] && IsHeading(x[0]) && IsHeading(y[0]) && SlugsDiffer(x, y)
    ensures var moved := front + (y' + EndGap(rest')) + x + rest'; var lifted := front + y' + rest';
      && Move(Join(lines), first, second, false) == Ok(Join(moved)) && WellFormed(moved) && WellFormed(lifted)
      && Find(Outline(lifted), second) == |Heads(front)| + 1 < |Outline(lifted)|
  {
    hide *;
    var n, m, i, q := |Heads(front)|, |Heads(x)|, |Heads(front)| + 1, |Heads(front)| + |Heads(x)| + 1;
    var lifted := front + y' + rest';
    SettingParts(front, x, y, rest, level, lines, s, first, second);
    SettingHeads(front, x, y, rest, level, lines, s, first, second);
    ForthResolves(front, x, y, rest, level, lines, s, first, second);
    SiblingClearIff(Heads(front), Heads(x), Heads(y), Heads(rest), Heads(lines));
    ClearFinds(Join(lines), first, second, lines, s, i, q, |front|, |front| + |x|, n, m);
    FoundAt(lines, |front|, |front| + |x|, second, n, m, q);
    var p, p' := MoveParts(Join(lines), first, second, false, lines, s, i, q, |front|, |front| + |x|, n, m, q);
    FirstLift(front, x, y, rest, level, lines);
    ForthIs(q, n, m);
    EndedSetting(front, x, y, rest, level);
    EndedParts(front, x, y', rest', level);
    BlockIsRange(front, y', rest', level, lifted, Outline(lifted), i);
    PointAtEnd(lifted, Outline(lifted), i, |front|, |front| + |y'|);
    Joined(front, x, y', rest');
    Joined(front, x, y, rest);
    CutAfter(front + y', rest');
    FirstInsert(front, x, y', rest', level);
    LinesOfText(Join(front + (y' + EndGap(rest')) + x + rest'));
  }

  lemma EndedParts(front: seq<string>, x: seq<string>, y: seq<string>, rest: seq<string>, level: nat)
    requires AdjacentEnded(front, x, y, rest, level)
    ensures SectionLines(x, level) && SectionLines(y, level) && Follows(rest, level)
  {
    hide SectionLines, Follows, WellFormed, Ready, EndsBlank, Closed;
  }

  lemma CutAfter(a: seq<string>, b: seq<string>)
    ensures (a + b)[..|a|] == a && (a + b)[|a|..] == b
  {
  }

  lemma ForthIs(q: nat, n: nat, m: nat)
    requires q == n + m + 1
    ensures Forth(q, n + 1, m) == n + 1
  {
  }

  lemma PointAtEnd(lines: seq<string>, s: seq<Section>, idx: nat, a: nat, b: nat)
    requires IsRange(lines, s, idx, a, b)
    ensures idx < |s| && Point(lines, s, idx, false) == b && Point(lines, s, idx, true) == a
  {
    hide Outline, SubtreeEnd;
  }

  lemma ResolvedHere(body: string, first: Trail, second: Trail, lines: seq<string>, s: seq<Section>, i: nat, q: nat,
          a: nat, b: nat, n: nat, m: nat)
    requires lines == Lines(body) && IsRange(lines, s, i, a, b) && i == Find(s, first) < |s|
    requires q == Find(s, second) < |s|
    requires i == n + 1 && q == n + 1 + m == SubtreeEnd(s, i) && m > 0
    ensures Resolved(body, first, second, lines, s, i, q, a, b, n, m) && Outside(s, i, q)
  {
    hide Lines, Outline, Heads, SubtreeEnd, RangeStart, RangeEnd, Find;
  }

  lemma SettingFinds(front: seq<string>, x: seq<string>, y: seq<string>, rest: seq<string>, level: nat,
          lines: seq<string>, s: seq<Section>, first: Trail, second: Trail)
    requires Setting(front, x, y, rest, level, lines, s, first, second)
    ensures Find(s, first) == |Heads(front)| + 1 && Find(s, second) == |Heads(front)| + |Heads(x)| + 1 && |Heads(x)| > 0
  {
    hide *;
    SettingParts(front, x, y, rest, level, lines, s, first, second);
    SameLevel(x, y, level);
    FindDistinct(s, |Heads(front)| + 1);
    FindDistinct(s, |Heads(front)| + |Heads(x)| + 1);
  }

  lemma BackLifts(front: seq<string>, x: seq<string>, y: seq<string>, rest: seq<string>, level: nat, first: Trail,
          second: Trail, head: seq<string>, moved: seq<string>, i: nat, q: nat)
    requires AdjacentEnded(front, x, y, rest, level) && head == front + (y + EndGap(rest)) && moved == head + x + rest
    requires WellFormed(moved)
    requires SectionLines(x, level) && Follows(rest, level) && i == |Heads(head)| + 1 && q < i
    requires Find(Outline(moved), first) == i && Find(Outline(moved), second) == q
    ensures Move(Join(moved), first, second, true) == MoveInto(Join(front + y + rest), Join(x), second, true)
    ensures WellFormed(x)
  {
    hide *;
    LinesOfJoin(moved);
    BlockIsRange(head, x, rest, level, moved, Outline(moved), i);
    MoveLifts(Join(moved), first, second, true, moved, Outline(moved), i, q, |head|, |head| + |x|);
    SecondLift(front, x, y, rest, level, moved, |head|);
  }

  lemma BackInserts(front: seq<string>, x: seq<string>, y: seq<string>, rest: seq<string>, level: nat, second: Trail,
          lifted: seq<string>)
    requires AdjacentEnded(front, x, y, rest, level) && lifted == front + y + rest && WellFormed(lifted)
    requires WellFormed(x)
    requires SectionLines(y, level) && Follows(rest, level)
    requires Find(Outline(lifted), second) == |Heads(front)| + 1 < |Outline(lifted)|
    ensures MoveInto(Join(lifted), Join(x), second, true) == Ok(Join(front + x + y + rest))
  {
    hide *;
    var q := |Heads(front)| + 1;
    InsertIntoLifted(lifted, x, second, true, Outline(lifted), q);
    BlockIsRange(front, y, rest, level, lifted, Outline(lifted), q);
    PointAtEnd(lifted, Outline(lifted), q, |front|, |front| + |y|);
    Assoc(front, y, rest);
    CutAfter(front, y + rest);
    SecondInsert(front, x, y, rest, level);
  }

  lemma MoveBack(front: seq<string>, x: seq<string>, y: seq<string>, rest: seq<string>, level: nat, first: Trail,
          second: Trail, moved: seq<string>)
    requires AdjacentEnded(front, x, y, rest, level) && moved == front + (y + EndGap(rest)) + x + rest
    requires WellFormed(moved)
    requires Find(Outline(front + y + rest), second) == |Heads(front)| + 1 < |Outline(front + y + rest)|
    requires WellFormed(front + y + rest)
    requires Find(Outline(moved), first) == |Heads(front)| + |Heads(y)| + 1
    requires Find(Outline(moved), second) == |Heads(front)| + 1
    ensures Move(Join(moved), first, second, true) == Ok(Join(front + x + y + rest))
  {
    hide *;
    var head := front + (y + EndGap(rest));
    EndedParts(front, x, y, rest, level);
    GapKeepsSection(y, rest, level);
    HeadsAppend(front, y + EndGap(rest));
    SameLevel(x, y, level);
    BackLifts(front, x, y, rest, level, first, second, head, moved, |Heads(head)| + 1, |Heads(front)| + 1);
    BackInserts(front, x, y, rest, level, second, front + y + rest);
  }

  /**
    Moving a section behind its next sibling and then in front of it again gives back the body with its
    last line ended, also when the sibling ends the body and the blank line set for it has to go again.
  */
  lemma MoveAndBack(front: seq<string>, x: seq<string>, y: seq<string>, rest: seq<string>, level: nat,
          lines: seq<string>, s: seq<Section>, first: Trail, second: Trail)
    requires Setting(front, x, y, rest, level, lines, s, first, second)
    requires x != [] && y != [] && IsHeading(x[0]) && IsHeading(y[0]) && SlugsDiffer(x, y)
    ensures var away := Move(Join(lines), first, second, false);
      away.Ok? && Move(away.value, first, second, true) == Ok(Join(Terminated(lines)))
  {
    hide *;
    var y', rest' := EndedSibling(y, rest), Terminated(rest);
    var moved := front + (y' + EndGap(rest')) + x + rest';
    MoveForth(front, x, y, rest, level, lines, s, first, second, y', rest');
    SettingParts(front, x, y, rest, level, lines, s, first, second);
    EndedSetting(front, x, y, rest, level);
    EndedText(front, x, y, rest);
    SwapFinds(front, x, y, rest, level, lines, s, first, second, y', rest', moved);
    MoveBack(front, x, y', rest', level, first, second, moved);
  }

  lemma SwapFinds(front: seq<string>, x: seq<string>, y: seq<string>, rest: seq<string>, level: nat,
          lines: seq<string>, s: seq<Section>, first: Trail, second: Trail,
          y': seq<string>, rest': seq<string>, moved: seq<string>)
    requires Setting(front, x, y, rest, level, lines, s, first, second) && y' == EndedSibling(y, rest)
    requires rest' == Terminated(rest)
    requires x != [] && y != [] && IsHeading(x[0]) && IsHeading(y[0]) && SlugsDiffer(x, y)
    requires moved == front + (y' + EndGap(rest')) + x + rest'
    ensures Find(Outline(moved), first) == |Heads(front)| + |Heads(y')| + 1
    ensures Find(Outline(moved), second) == |Heads(front)| + 1
  {
    hide *;
    var hf, hx, hy, hr := Heads(front), Heads(x), Heads(y), Heads(rest);
    SettingParts(front, x, y, rest, level, lines, s, first, second);
    SettingHeads(front, x, y, rest, level, lines, s, first, second);
    EndedSetting(front, x, y, rest, level);
    EndedParts(front, x, y', rest', level);
    MovedHeads(front, x, y', rest', level);
    OutlineDescribes(lines);
    OutlineDescribes(moved);
    SwappableIs(hf, hx, hy);
    SwapTrails(hf, hx, hy, hr, Trails(FRESH, Heads(lines)), Trails(FRESH, Heads(moved)));
    FoundAfterSwap(s, Outline(moved), Heads(lines), Heads(moved), Trails(FRESH, Heads(lines)),
      Trails(FRESH, Heads(moved)), |hf|, |hx|, |hy|);
  }

  lemma SwappableIs(front: seq<Heading>, x: seq<Heading>, y: seq<Heading>)
    requires Siblings(front, x, y) && x[0].slug != y[0].slug
    ensures Swappable(front, x, y)
  {
  }

  lemma JoinEnded(lines: seq<string>)
    requires WellFormed(lines)
    ensures Join(Terminated(lines)) == Join(lines) <==> Closed(lines)
  {
    hide Join, Lines;
    TerminatedWellFormed(lines);
    LinesOfJoin(lines);
    LinesOfJoin(Terminated(lines));
  }

  /** So the way there and back restores the body byte for byte exactly when its last line was ended. */
  lemma MoveAndBackIff(front: seq<string>, x: seq<string>, y: seq<string>, rest: seq<string>, level: nat,
          lines: seq<string>, s: seq<Section>, first: Trail, second: Trail)
    requires Setting(front, x, y, rest, level, lines, s, first, second)
    requires x != [] && y != [] && IsHeading(x[0]) && IsHeading(y[0]) && SlugsDiffer(x, y)
    ensures var away := Move(Join(lines), first, second, false);
      (away.Ok? && Move(away.value, first, second, true) == Ok(Join(lines))) <==> Closed(lines)
  {
    hide *;
    MoveAndBack(front, x, y, rest, level, lines, s, first, second);
    SettingParts(front, x, y, rest, level, lines, s, first, second);
    JoinEnded(lines);
  }

  lemma MovedHeads(front: seq<string>, x: seq<string>, y: seq<string>, rest: seq<string>, level: nat)
    requires SectionLines(y, level)
    ensures Heads(front + (y + EndGap(rest)) + x + rest) == Heads(front) + Heads(y) + Heads(x) + Heads(rest)
  {
    hide *;
    GapKeepsSection(y, rest, level);
    var y2 := y + EndGap(rest);
    HeadsAppend(front + y2 + x, rest);
    HeadsOfParts(front, y2, x);
  }
}
