/** Concrete bodies on which the section operations do not do what their documentation suggests. */
module SectionWitnesses {
  import opened Basics
  import opened Whitespace
  import opened Decimals
  import opened TextLines
  import opened Headings
  import opened Outlines
  import opened Splices
  import opened SectionOps
  import opened SectionShape
  import opened SectionRanges
  import opened SectionMoves
  import opened Renumbering
  import opened SectionAnchors
  import opened SectionInverse
  import opened SectionUpsert

  lemma HeadingN()
    ensures HeadingOf("# N\n") == Some(Heading(1, "n", 0))
  {
    assert Content("# N\n") == "# N";
    assert Hashes("# N") == 1 by { assert "# N"[1..] == " N"; }
    assert "# N"[1..] == " N" && " N"[1..] == "N";
    assert Title(" N") == "N" by { assert TrimLeft(" N") == "N" && TrimRight("N") == "N" && DropClosing("N") == "N"; }
    assert Slugify("N") == "n" by { assert "N"[..0] == "" && Words("") == "" && Words("N") == "n"; }
    assert "# N"[0..] == "# N";
  }

  const TWINS: seq<string> := ["# N\n", "# N\n"]

  lemma TwinHeads()
    ensures WellFormed(TWINS) && Heads(TWINS) == [Heading(1, "n", 0), Heading(1, "n", 0)]
    ensures Heads(["# N\n"]) == [Heading(1, "n", 0)]
  {
    HeadingN();
    hide HeadingOf;
    assert TWINS[..1] == ["# N\n"] && ["# N\n"][..0] == [] && Heads([]) == [];
  }

  lemma TwinNames(h: Heading, st: Naming)
    requires h == Heading(1, "n", 0) && st == Named(FRESH, h)
    ensures TrailOf(FRESH, h) == ["n"] && TrailOf(st, h) == ["n-2"]
  {
    assert Segments([]) == [] && Popped([], 1) == [];
    assert TrailOf(FRESH, h) == ["n"];
    assert st.stack == [(1, "n")] && Popped(st.stack, 1) == [];
    assert Decimal(2) == "2" && "n" + "-" + "2" == "n-2" && KeyOf(st, h) == Key([], "n");
    assert SegmentOf(st, h) == "n-2";
  }

  lemma TwinSections()
    ensures WellFormed(TWINS) && |Heads(TWINS)| == 2 && |Heads(["# N\n"])| == 1
    ensures Trails(FRESH, Heads(["# N\n"])) == [["n"]] && Trails(FRESH, Heads(TWINS)) == [["n"], ["n-2"]]
  {
    hide *;
    TwinHeads();
    var h := Heading(1, "n", 0);
    var st := Named(FRESH, h);
    TwinNames(h, st);
    assert [h, h][1..] == [h] && [h][1..] == [];
    NextTrail(FRESH, [h]);
    NextTrail(st, [h]);
    NextTrail(FRESH, [h, h]);
    var two, one, last := Trails(FRESH, [h, h]), Trails(FRESH, [h]), Trails(st, [h]);
    assert one == [one[0]] && two == [two[0]] + two[1..] && last == [last[0]];
  }

  /**
    Distinct paths are not enough for a move: of two sections with one heading the second is addressed
    by its suffix, which it loses as soon as the first is lifted out, so the anchor is gone.
  */
  lemma MovePastTwinFails()
    ensures DistinctPaths(Outline(TWINS))
    ensures Find(Outline(TWINS), ["n"]) == 1 && Find(Outline(TWINS), ["n-2"]) == 2
    ensures Move(Join(TWINS), ["n"], ["n-2"], false) == Err(SectionNotFound(["n-2"]))
  {
    TwinSections();
    OutlineDescribes(TWINS);
    OutlineDescribes(["# N\n"]);
    TwinRange();
    hide Heads, Outline, HeadingOf, Trails, SubtreeEnd, Move, Join, Lines;
    var s, s' := Outline(TWINS), Outline(["# N\n"]);
    var twins, one := Trails(FRESH, Heads(TWINS)), Trails(FRESH, Heads(["# N\n"]));
    assert twins[0] == ["n"] && twins[1] == ["n-2"] && one[0] == ["n"];
    assert |s| == 3 && s[0 + 1].trail == ["n"] && s[1 + 1].trail == ["n-2"] && |s'| == 2 && s'[0 + 1].trail == ["n"];
    FindHere(s, ["n"], 1);
    FindHere(s, ["n-2"], 2);
    assert s'[0].trail != ["n-2"] && s'[1].trail != ["n-2"];
    LinesOfJoin(TWINS);
    LinesOfJoin(["# N\n"]);
    MoveLifts(Join(TWINS), ["n"], ["n-2"], false, TWINS, s, 1, 2, 0, 1);
  }

  lemma TwinRange()
    ensures IsRange(TWINS, Outline(TWINS), 1, 0, 1) && SubtreeEnd(Outline(TWINS), 1) == 2
    ensures Lifted(TWINS, 0, 1) == ["# N\n"] && WellFormed(["# N\n"])
  {
    hide *;
    var x := ["# N\n"];
    TwinBlock(x);
    BlockIsRange([], x, x, 1, TWINS, Outline(TWINS), 1);
    CleanAssemble([], [], x);
    TwinLift(x);
  }

  lemma TwinBlock(x: seq<string>)
    requires x == ["# N\n"]
    ensures SectionLines(x, 1) && Follows(x, 1) && TWINS == [] + x + x && 1 == |Heads([])| + 1 && |Heads(x)| == 1
    ensures Ready([]) && Closed([]) && Closed(x) && WellFormed(x)
  {
    HeadingN();
    TwinHeads();
    hide HeadingOf;
  }

  lemma TwinLift(x: seq<string>)
    requires x == ["# N\n"] && Assemble([], [], x) == [] + [] + x
    ensures Lifted(TWINS, 0, 1) == x
  {
    hide Assemble;
    assert TWINS[1..] == x && TWINS[..0] == [] && [] + [] + x == x;
  }

  // ---- Three sections with one heading ----

  const ONE: seq<string> := ["# N\n", "a\n"]
  const TWO: seq<string> := ["# N\n", "b\n"]
  const THREE: seq<string> := ["# N\n", "c\n"]
  const TRIPLETS: seq<string> := ONE + TWO + THREE

  lemma PlainLine(line: string)
    requires line == "a\n" || line == "b\n" || line == "c\n"
    ensures HeadingOf(line).None? && IsLine(line) && Ended(line) && Content(line) != "" && Content(line) == [line[0]]
  {
    var c := Content(line);
    assert c == [line[0]] && c[0..] == c && Hashes(c) == 0 && c[0] != '>';
  }

  /** One of the three: a heading and a line of text. */
  lemma TripletBlock(block: seq<string>, line: string)
    requires block == ["# N\n", line] && (line == "a\n" || line == "b\n" || line == "c\n")
    ensures Heads(block) == [Heading(1, "n", 0)] && SectionLines(block, 1) && Follows(block, 1) && WellFormed(block)
    ensures Closed(block)
    ensures NonBlank(block) == ["# N", [line[0]]]
  {
    hide *;
    HeadingN();
    PlainLine(line);
    TripletHeads(block, line);
    TripletText(block, line);
    TripletShape(block, line);
  }

  lemma TripletShape(block: seq<string>, line: string)
    requires block == ["# N\n", line] && HeadingOf("# N\n") == Some(Heading(1, "n", 0)) && IsBlock(Heads(block))
    requires IsLine(line) && Ended(line)
    ensures SectionLines(block, 1) && Follows(block, 1) && WellFormed(block) && Closed(block)
  {
    hide HeadingOf, Heads, IsBlock;
    assert IsLine("# N\n") && Ended("# N\n");
  }

  lemma TripletHeads(block: seq<string>, line: string)
    requires block == ["# N\n", line] && HeadingOf(line).None? && HeadingOf("# N\n") == Some(Heading(1, "n", 0))
    ensures Heads(block) == [Heading(1, "n", 0)] && IsBlock(Heads(block))
  {
    hide HeadingOf;
    assert block[..1] == ["# N\n"] && ["# N\n"][..0] == [] && Heads([]) == [];
    assert Heads(["# N\n"]) == [Heading(1, "n", 0)] && Heads(block) == Heads(["# N\n"]) + [];
  }

  lemma TripletText(block: seq<string>, line: string)
    requires block == ["# N\n", line] && line != "" && Content(line) == [line[0]]
    ensures NonBlank(block) == ["# N", [line[0]]]
  {
    assert block[..1] == ["# N\n"] && ["# N\n"][..0] == [] && NonBlank([]) == [];
    assert Content("# N\n") == "# N";
    hide Content;
    assert NonBlank(["# N\n"]) == [] + ["# N"] && NonBlank(block) == ["# N"] + [[line[0]]];
  }

  /** Two such sections follow one another. */
  lemma TripletPair(x: seq<string>, y: seq<string>)
    requires SectionLines(x, 1) && Heads(x) == [Heading(1, "n", 0)] && Heads(y) == [Heading(1, "n", 0)]
    requires WellFormed(x) && Closed(x) && WellFormed(y) && Closed(y) && y != []
    ensures Heads(x + y) == [Heading(1, "n", 0), Heading(1, "n", 0)] && Follows(x + y, 1) && WellFormed(x + y)
    ensures Closed(x + y) && x + y != []
    ensures NonBlank(x + y) == NonBlank(x) + NonBlank(y)
  {
    hide *;
    HeadsAppend(x, y);
    NonBlankAppend(x, y);
    BlockFollows(x, y, 1);
    ClosedJoin(x, y);
    WellFormedAppend(x, y);
  }

  lemma ClosedJoin(x: seq<string>, y: seq<string>)
    requires Closed(x) && Closed(y) && y != []
    ensures Closed(x + y) && (x != [] ==> Ended(x[|x| - 1]))
  {
    assert (x + y)[|x + y| - 1] == y[|y| - 1];
  }

  lemma TripletTrails(heads: seq<Heading>)
    requires |heads| >= 2 && heads[0] == Heading(1, "n", 0) && heads[1] == Heading(1, "n", 0)
    ensures |Trails(FRESH, heads)| == |heads| && Trails(FRESH, heads)[0] == ["n"] && Trails(FRESH, heads)[1] == ["n-2"]
  {
    hide *;
    var h := heads[0];
    var st := Named(FRESH, h);
    TwinNames(h, st);
    NextTrail(FRESH, heads);
    NextTrail(st, heads[1..]);
    assert Trails(FRESH, heads)[1] == Trails(FRESH, heads)[1..][0];
  }

  lemma TripletFinds(s: seq<Section>, heads: seq<Heading>, trails: seq<Trail>)
    requires Describes(s, heads, trails) && |trails| >= 2 && trails[0] == ["n"] && trails[1] == ["n-2"]
    ensures |s| > 2 && Find(s, ["n"]) == 1 && Find(s, ["n-2"]) == 2
  {
    hide *;
    NotThePreamble();
    DescribedSize(s, heads, trails);
    FindByTrails(s, heads, trails, 0, ["n"]);
    FindByTrails(s, heads, trails, 1, ["n-2"]);
  }

  lemma NotThePreamble()
    ensures ["n"] != PREAMBLE && ["n-2"] != PREAMBLE && ["n"] != ["n-2"]
  {
    assert ["n"][0] == "n" && ["n-2"][0] == "n-2" && |"n"| != |"n-2"|;
  }

  lemma TripletOutline(lines: seq<string>)
    requires |Heads(lines)| >= 2 && Heads(lines)[0] == Heading(1, "n", 0) && Heads(lines)[1] == Heading(1, "n", 0)
    ensures |Outline(lines)| > 2 && Find(Outline(lines), ["n"]) == 1 && Find(Outline(lines), ["n-2"]) == 2
  {
    hide *;
    TripletTrails(Heads(lines));
    OutlineDescribes(lines);
    TripletFinds(Outline(lines), Heads(lines), Trails(FRESH, Heads(lines)));
  }

  lemma TripletLift(x: seq<string>, rest: seq<string>)
    requires x != [] && rest != [] && Closed(rest)
    ensures Lifted(x + rest, 0, |x|) == rest
  {
    assert (x + rest)[|x|..] == rest && (x + rest)[..0] == [];
    CleanAssemble([], [], rest);
    assert [] + [] + rest == rest;
  }

  lemma TripletParts()
    ensures ONE == ["# N\n", "a\n"] && TWO == ["# N\n", "b\n"] && THREE == ["# N\n", "c\n"]
    ensures TRIPLETS == ONE + (TWO + THREE) && |ONE| == 2 && |TWO + THREE| == 4 && TRIPLETS[0..2] == ONE
    ensures TRIPLETS == [] + ONE + (TWO + THREE) && TWO + THREE == TWO + THREE + []
    ensures (TWO + THREE)[..4] == TWO + THREE && (TWO + THREE)[4..] == []
  {
  }

  lemma NoHeads()
    ensures Heads([]) == [] && NonBlank([]) == [] && Follows([], 1)
  {
  }

  /**
    Nor does a move that succeeds always go to its anchor: of three sections with one heading the third
    takes the second one's path when the first is lifted, and the first ends up behind the third.
  */
  lemma MovePastTwinGoesTooFar()
    ensures Find(Outline(TRIPLETS), ["n"]) == 1 && Find(Outline(TRIPLETS), ["n-2"]) == 2
    ensures var moved := Move(Join(TRIPLETS), ["n"], ["n-2"], false);
      moved.Ok? && NonBlank(Lines(moved.value)) == ["# N", "b", "# N", "c", "# N", "a"]
  {
    hide *;
    var rest, h := TWO + THREE, Heading(1, "n", 0);
    TripletParts();
    NoHeads();
    TripletBlock(ONE, "a\n");
    TripletBlock(TWO, "b\n");
    TripletBlock(THREE, "c\n");
    TripletPair(TWO, THREE);
    HeadsAppend(ONE, rest);
    WellFormedAppend(ONE, rest);
    TripletOutline(TRIPLETS);
    TripletOutline(rest);
    BlockIsRange([], ONE, rest, 1, TRIPLETS, Outline(TRIPLETS), 1);
    BlockIsRange(TWO, THREE, [], 1, rest, Outline(rest), 2);
    PointAtEnd(rest, Outline(rest), 2, 2, 4);
    TripletLift(ONE, rest);
    LinesOfJoin(TRIPLETS);
    MoveLifts(Join(TRIPLETS), ["n"], ["n-2"], false, TRIPLETS, Outline(TRIPLETS), 1, 2, 0, 2);
    InsertIntoLifted(rest, ONE, ["n-2"], false, Outline(rest), 2);
  }

  /**
    A twin between the target and an anchor of another name does no harm: of the sections `n`, `n-2` and `a`, lifting
    the first renames the second, and a move behind the third still finds it.
  */
  lemma TwinInBetweenDoesNoHarm(heads: seq<Heading>)
    requires heads == [Heading(1, "n", 0), Heading(1, "n", 0), Heading(1, "a", 0)]
    ensures Trails(FRESH, heads) == [["n"], ["n-2"], ["a"]]
    ensures !AnchorClear(heads, 0, 1, 3) && AnchorKept(heads, 0, 1, ["a"]) && !AnchorKept(heads, 0, 1, ["n-2"])
  {
    TwinNaming(heads);
    var trails, keys := Trails(FRESH, heads), KeyList(FRESH, heads);
    TwinKeys(heads);
    hide Trails, KeyList, Keys, Run;
    assert heads[0..1] == heads[..1] && heads[..3] == heads && heads[..0] == [];
    assert ["n-2"] <= ["n-2"] && !(["n-2"] <= ["a"]) by { assert ["n-2"][0] == "n-2"; }
    assert trails[1] <= ["n-2"] && keys[1] == Key([], "n") && keys[2] == Key([], "a");
  }

  lemma TwinNaming(heads: seq<Heading>)
    requires heads == [Heading(1, "n", 0), Heading(1, "n", 0), Heading(1, "a", 0)]
    ensures Trails(FRESH, heads) == [["n"], ["n-2"], ["a"]]
    ensures KeyList(FRESH, heads) == [Key([], "n"), Key([], "n"), Key([], "a")]
  {
    var h, third := heads[0], heads[2];
    var st := Named(FRESH, h);
    TwinNames(h, st);
    ThirdNames(h, third);
    var keys, trails := KeyList(FRESH, heads), Trails(FRESH, heads);
    hide TrailOf, KeyOf, Named;
    NextTrail(FRESH, heads);
    NextTrail(st, heads[1..]);
    NextTrail(Named(st, h), heads[2..]);
    assert heads[1..][1..] == heads[2..] && heads[2..][1..] == [];
    assert trails[1] == trails[1..][0] && trails[2] == trails[1..][1..][0];
    assert keys == [KeyOf(FRESH, h)] + KeyList(st, heads[1..]);
    assert KeyList(st, heads[1..]) == [KeyOf(st, h)] + KeyList(Named(st, h), heads[2..]);
    assert KeyList(Named(st, h), heads[2..]) == [KeyOf(Named(st, h), third)] + [];
  }

  lemma TwinKeys(heads: seq<Heading>)
    requires heads == [Heading(1, "n", 0), Heading(1, "n", 0), Heading(1, "a", 0)]
    ensures Keys(Run(FRESH, []), heads[..1]) == {Key([], "n")}
    ensures Key([], "n") in Keys(Run(FRESH, heads[..1]), heads[1..])
  {
    var h := heads[0];
    ThirdNames(h, heads[2]);
    hide KeyOf, Named;
    assert heads[..1] == [h] && [h][1..] == [] && Run(FRESH, [h]) == Run(Named(FRESH, h), []);
    assert heads[1..][0] == h;
  }

  lemma ThirdNames(h: Heading, third: Heading)
    requires h == Heading(1, "n", 0) && third == Heading(1, "a", 0)
    ensures var st := Named(FRESH, h);
      KeyOf(FRESH, h) == KeyOf(st, h) == Key([], "n") && KeyOf(Named(st, h), third) == Key([], "a") &&
      TrailOf(Named(st, h), third) == ["a"]
  {
    var st := Named(FRESH, h);
    assert Segments([]) == [] && Popped([], 1) == [];
    assert st.stack == [(1, "n")] && Popped(st.stack, 1) == [];
    assert Named(st, h).stack == [(1, SegmentOf(st, h))] && Popped(Named(st, h).stack, 1) == [];
    assert KeyOf(Named(st, h), third) == Key([], "a");
  }

  // ---- A quoted heading that an upsert turns into a section of its own ----

  const QUOTED: seq<string> := ["# A\n", "> # Q\n", "### D\n"]
  const QUERY: Trail := ["a", "q"]

  lemma LetterSlugs()
    ensures Slugify("A") == "a" && Slugify("Q") == "q" && Slugify("D") == "d"
    ensures Title(" A") == "A" && Title(" Q") == "Q" && Title(" D") == "D"
  {
    assert "A"[..0] == "" && "Q"[..0] == "" && "D"[..0] == "" && Words("") == "";
    assert Words("A") == "a" && Words("Q") == "q" && Words("D") == "d";
    assert " A"[1..] == "A" && " Q"[1..] == "Q" && " D"[1..] == "D";
    assert TrimLeft(" A") == "A" && TrimLeft(" Q") == "Q" && TrimLeft(" D") == "D";
    assert TrimRight("A") == "A" && TrimRight("Q") == "Q" && TrimRight("D") == "D";
  }

  lemma HashCounts()
    ensures Hashes("# A") == 1 && Hashes("# Q") == 1 && Hashes("### D") == 3 && Hashes("## Q") == 2
  {
    assert "# A"[1..] == " A" && "# Q"[1..] == " Q" && "## Q"[1..] == "# Q";
    assert "### D"[1..] == "## D" && "## D"[1..] == "# D" && "# D"[1..] == " D";
    assert Hashes("# D") == 1 && Hashes("## D") == 2;
  }

  lemma QuotedHeadings()
    ensures HeadingOf("# A\n") == Some(Heading(1, "a", 0)) && HeadingOf("> # Q\n") == Some(Heading(1, "q", 1))
    ensures HeadingOf("### D\n") == Some(Heading(3, "d", 0)) && HeadingOf("## Q") == Some(Heading(2, "q", 0))
  {
    LetterSlugs();
    HashCounts();
    hide Slugify, Title, Hashes;
    assert Content("# A\n") == "# A" && "# A"[0..] == "# A" && "# A"[1..] == " A";
    assert Content("### D\n") == "### D" && "### D"[0..] == "### D" && "### D"[3..] == " D";
    assert Content("## Q") == "## Q" && "## Q"[0..] == "## Q" && "## Q"[2..] == " Q";
    assert Content("> # Q\n") == "> # Q" && "> # Q"[1..] == " # Q" && " # Q"[1..] == "# Q" && "# Q"[0..] == "# Q" &&
           "# Q"[1..] == " Q";
    assert Behind("# Q", 1) == Atx("# Q", 1);
    assert Behind("> # Q", 0) == Behind("# Q", 1);
  }

  lemma QuotedHeads()
    ensures WellFormed(QUOTED) && Heads(QUOTED) == [Heading(1, "a", 0), Heading(1, "q", 1), Heading(3, "d", 0)]
    ensures Marks(QUOTED) == [0, 1, 2]
    ensures Heads(QUOTED[..1]) == [Heading(1, "a", 0)] && Heads(QUOTED[2..]) == [Heading(3, "d", 0)]
    ensures Heads(["## Q"]) == [Heading(2, "q", 0)]
  {
    QuotedHeadings();
    hide HeadingOf;
    assert QUOTED[..2] == ["# A\n", "> # Q\n"] && QUOTED[..2][..1] == ["# A\n"] && QUOTED[..1] == ["# A\n"] &&
           ["# A\n"][..0] == [];
    assert QUOTED[2..] == ["### D\n"] && ["### D\n"][..0] == [] && ["## Q"][..0] == [];
    assert Heads(["# A\n"]) == [Heading(1, "a", 0)];
    assert Heads(QUOTED[..2]) == [Heading(1, "a", 0), Heading(1, "q", 1)] && Marks(QUOTED[..2]) == [0, 1];
  }

  /** The second heading is addressed as `a.q` whether it is the quoted one or the one an upsert puts there. */
  lemma SecondTrail(second: Heading, third: Heading)
    requires second == Heading(1, "q", 1) || second == Heading(2, "q", 0)
    ensures var trails := Trails(FRESH, [Heading(1, "a", 0)] + [second] + [third]);
      trails[0] == ["a"] && trails[1] == QUERY
  {
    hide *;
    var h := Heading(1, "a", 0);
    var st := Named(FRESH, h);
    SecondNames(h, st, second);
    var rest := [second] + [third];
    assert [h] + [second] + [third] == [h] + rest && ([h] + rest)[1..] == rest && ([h] + rest)[0] == h &&
           rest[0] == second;
    NextTrail(FRESH, [h] + rest);
    NextTrail(st, rest);
    var trails := Trails(FRESH, [h] + rest);
    assert trails[1] == trails[1..][0];
  }

  lemma SecondNames(h: Heading, st: Naming, second: Heading)
    requires h == Heading(1, "a", 0) && st == Named(FRESH, h)
    requires (second == Heading(1, "q", 1) || second == Heading(2, "q", 0))
    ensures TrailOf(FRESH, h) == ["a"] && TrailOf(st, second) == QUERY
  {
    assert Segments([]) == [] && Popped([], 1) == [] && TrailOf(FRESH, h) == ["a"];
    assert st.stack == [(1, "a")] && st.stack[..0] == [] && Segments(st.stack) == ["a"];
    assert Base(st.stack, second) == st.stack;
  }

  lemma QuotedTrails(s: seq<Section>, heads: seq<Heading>, trails: seq<Trail>)
    requires Describes(s, heads, trails) && heads == [Heading(1, "a", 0), Heading(1, "q", 1), Heading(3, "d", 0)]
    requires |trails| == 3 && trails[0] == ["a"] && trails[1] == QUERY
    ensures |s| == 4 && Find(s, QUERY) == 2 && s[2].depth == 1 && s[2].level == 1 && SubtreeEnd(s, 2) == 3
  {
    hide SubtreeEnd, Find;
    assert s[0 + 1].trail == trails[0] && s[1 + 1].trail == trails[1] && s[1 + 1].depth == 1 && s[1 + 1].level == 1;
    hide Describes;
    FindHere(s, QUERY, 2);
    QuotedEnds(s, 2);
  }

  lemma QuotedEnds(s: seq<Section>, idx: nat)
    requires idx < |s| && s[idx].depth > 0
    ensures SubtreeEnd(s, idx) == idx + 1
  {
  }

  lemma QuotedOutline()
    ensures |Outline(QUOTED)| == 4 && Find(Outline(QUOTED), QUERY) == 2 && Outline(QUOTED)[2].depth == 1
    ensures Outline(QUOTED)[2].level == 1
    ensures SubtreeEnd(Outline(QUOTED), 2) == 3 && At(QUOTED, 1) == 1 && At(QUOTED, 2) == 2
  {
    hide *;
    QuotedHeads();
    OutlineDescribes(QUOTED);
    var heads := Heads(QUOTED);
    assert heads == [Heading(1, "a", 0)] + [Heading(1, "q", 1)] + [Heading(3, "d", 0)];
    SecondTrail(Heading(1, "q", 1), Heading(3, "d", 0));
    QuotedTrails(Outline(QUOTED), heads, Trails(FRESH, heads));
    QuotedMarks();
  }

  lemma QuotedMarks()
    ensures At(QUOTED, 1) == 1 && At(QUOTED, 2) == 2
  {
    QuotedHeads();
    hide Marks, Heads, HeadingOf;
  }

  lemma QuotedRequest()
    ensures Request(QUOTED, Outline(QUOTED), QUERY, 2, "Q", "", 2, 1, 2, ["## Q"])
  {
    assert |QUOTED| == 3 && QUERY != PREAMBLE;
    hide *;
    QuotedHeads();
    QuotedOutline();
    RenderedQ();
    RangeAt(QUOTED, Outline(QUOTED), 2, 1, 2);
    RequestIs(QUOTED, Outline(QUOTED), QUERY, 2, "Q", "", 2, 1, 2, ["## Q"]);
  }

  lemma RenderedQ()
    ensures Rendered(2, "Q", "") == "## Q" && Lines("## Q") == ["## Q"]
  {
    hide *;
    PiecesOfQ();
    RenderedIs(2, "Q", "");
    assert "##" + " " + "Q" + "" == "## Q";
    OneLineText("## Q");
  }

  lemma PiecesOfQ()
    ensures Marker(2) == "##" && Trim("Q") == "Q" && TrimBreaks("") == "" && IsLine("## Q")
  {
    hide *;
    NoBreaks();
    SolidQ();
    SolidTrim("Q");
  }

  lemma NoBreaks()
    ensures TrimBreaks("") == "" && IsLine("## Q")
  {
  }

  lemma SolidQ()
    ensures "Q" != "" && |"Q"| == 1 && !IsWhite("Q"[0])
  {
  }

  lemma SolidTrim(text: string)
    requires text != "" && !IsWhite(text[0]) && !IsWhite(text[|text| - 1])
    ensures Trim(text) == text
  {
    hide IsWhite, IsBlank;
  }

  lemma OneLineText(line: string)
    requires IsLine(line)
    ensures Lines(line) == [line]
  {
    hide Lines;
    LinesOfJoin([line]);
    assert [line][1..] == [] && Join([line]) == line + "" && line + "" == line;
  }

  // ---- A body stored without its last newline ----

  const OPEN_X: seq<string> := ["# A\n", "\n"]
  const OPEN_Y: seq<string> := ["# N"]

  lemma OpenHeading()
    ensures HeadingOf("# N") == Some(Heading(1, "n", 0)) && !IsHeading("\n")
  {
    assert !Ended("# N");
    EndedHeading("# N");
    assert "# N" + "\n" == "# N\n";
    HeadingN();
    EmptyLineIsNoHeading();
  }

  lemma OpenBlocks()
    ensures SectionLines(OPEN_X, 1) && SectionLines(OPEN_Y, 1) && OPEN_X == ["# A\n", "\n"] && OPEN_Y == ["# N"]
    ensures Heads(OPEN_X) == [Heading(1, "a", 0)] && Heads(OPEN_Y) == [Heading(1, "n", 0)]
  {
    OpenHeading();
    QuotedHeadings();
    hide HeadingOf;
    assert OPEN_X[..1] == ["# A\n"] && ["# A\n"][..0] == [] && ["# N"][..0] == [] && Heads([]) == [];
    assert Heads(["# A\n"]) == [Heading(1, "a", 0)] && Heads(OPEN_X) == Heads(["# A\n"]) + [];
  }

  lemma OpenAdjacent()
    ensures Adjacent([], OPEN_X, OPEN_Y, [], 1) && SlugsDiffer(OPEN_X, OPEN_Y) && !Closed([] + OPEN_X + OPEN_Y + [])
  {
    OpenBlocks();
    OpenHeading();
    QuotedHeadings();
    hide HeadingOf, Heads, IsBlock;
    var lines := [] + OPEN_X + OPEN_Y + [];
    assert lines == ["# A\n", "\n", "# N"];
  }

  lemma OpenNames(h: Heading, k: Heading, st: Naming)
    requires h == Heading(1, "a", 0) && k == Heading(1, "n", 0) && st == Named(FRESH, h)
    ensures TrailOf(FRESH, h) == ["a"] && TrailOf(st, k) == ["n"]
  {
    assert Segments([]) == [] && Popped([], 1) == [];
    assert TrailOf(FRESH, h) == ["a"];
    assert st.stack == [(1, "a")] && Popped(st.stack, 1) == [] && KeyOf(st, k) == Key([], "n");
  }

  lemma OpenTrails(heads: seq<Heading>)
    requires heads == [Heading(1, "a", 0), Heading(1, "n", 0)]
    ensures Trails(FRESH, heads) == [["a"], ["n"]]
  {
    hide *;
    var st := Named(FRESH, heads[0]);
    OpenNames(heads[0], heads[1], st);
    NextTrail(FRESH, heads);
    NextTrail(st, heads[1..]);
    var trails := Trails(FRESH, heads);
    assert trails == [trails[0], trails[1..][0]];
  }

  lemma OpenSections(s: seq<Section>, heads: seq<Heading>, trails: seq<Trail>)
    requires Describes(s, heads, trails) && trails == [["a"], ["n"]]
    ensures DistinctPaths(s) && |s| == 3 && s[1].trail == ["a"] && s[2].trail == ["n"]
  {
    assert s[0 + 1].trail == trails[0] && s[1 + 1].trail == trails[1];
    assert ["a"][0] == "a" && ["n"][0] == "n" && ["a"] != PREAMBLE && ["n"] != PREAMBLE;
  }

  /** There and back, a body stored without its last newline gains one. */
  lemma MoveAndBackAddsNewline()
    ensures var body := Join([] + OPEN_X + OPEN_Y + []); var away := Move(body, ["a"], ["n"], false);
      away.Ok? && Move(away.value, ["a"], ["n"], true).Ok? && Move(away.value, ["a"], ["n"], true) != Ok(body)
  {
    hide *;
    var lines := [] + OPEN_X + OPEN_Y + [];
    OpenAdjacent();
    OpenBlocks();
    HeadsOfFour([], OPEN_X, OPEN_Y, []);
    NoHeads();
    var heads := Heads(lines);
    assert heads == [Heading(1, "a", 0), Heading(1, "n", 0)];
    OpenTrails(heads);
    OutlineDescribes(lines);
    OpenSections(Outline(lines), heads, Trails(FRESH, heads));
    SettingIs([], OPEN_X, OPEN_Y, [], 1, lines, Outline(lines), ["a"], ["n"]);
    OpenStarts();
    MoveAndBack([], OPEN_X, OPEN_Y, [], 1, lines, Outline(lines), ["a"], ["n"]);
    MoveAndBackIff([], OPEN_X, OPEN_Y, [], 1, lines, Outline(lines), ["a"], ["n"]);
  }

  lemma OpenStarts()
    ensures OPEN_X != [] && OPEN_Y != [] && IsHeading(OPEN_X[0]) && IsHeading(OPEN_Y[0])
  {
    OpenHeading();
    QuotedHeadings();
    hide HeadingOf;
  }

  /**
    Replacing a quoted heading at a deeper level than its own is not a fixed point: the rewritten heading
    takes in the deeper section behind it, and the same upsert run again deletes that section.
  */
  lemma QuotedUpsertDoesNotSettle()
    ensures Find(Outline(QUOTED), QUERY) == 2 < |Outline(QUOTED)| && Outline(QUOTED)[2].level < 2
    ensures var once := Upsert(Join(QUOTED), QUERY, 2, "Q", "");
      once.Ok? && Upsert(once.value, QUERY, 2, "Q", "") != once
  {
    DeepTail();
    hide *;
    QuotedOutline();
    QuotedRequest();
    QuotedUpsertSucceeds();
    UpsertFixpointIff(QUOTED, Outline(QUOTED), QUERY, 2, "Q", "", 2, 1, 2, ["## Q"]);
  }

  lemma DeepTail()
    ensures |QUOTED| == 3 && !StaysClosed(QUOTED[2..], 2)
  {
    QuotedHeadings();
    hide HeadingOf;
    assert QUOTED[2..] == ["### D\n"];
  }

  lemma QuotedUpsertSucceeds()
    ensures Upsert(Join(QUOTED), QUERY, 2, "Q", "").Ok? && |QUOTED| == 3
  {
    QuotedHeads();
    SecondTrail(Heading(2, "q", 0), Heading(3, "d", 0));
    assert IsBlock(Heads(["## Q"]));
    QuotedRequest();
    var f := ["## Q"];
    var r := Assemble(QUOTED[..1], f, QUOTED[2..]);
    hide Outline, HeadingOf, Assemble, Lines, Join, Upsert, CheckUpserted, Request, Outcome, Trails, IsBlock;
    RequestParts(QUOTED, Outline(QUOTED), QUERY, 2, "Q", "", 2, 1, 2, f);
    UpsertUnfolds(QUOTED, Outline(QUOTED), QUERY, 2, "Q", "", 2, 1, 2, f, r);
    OutcomeText(QUOTED[..1], f, QUOTED[2..], 2, r, Outline(r), 2);
    CheckAccepts(QUOTED[..1], f, QUOTED[2..], 2, r, Outline(r), QUERY, 2);
    WrittenMarks(QUOTED[..1], f, QUOTED[2..], 2, r, 1, 2);
    OutlineDescribes(r);
    hide Heads, Seam, Written, Terminated;
    assert Heads(r) == [Heading(1, "a", 0)] + [Heading(2, "q", 0)] + [Heading(3, "d", 0)];
    assert Outline(r)[1 + 1].trail == Trails(FRESH, Heads(r))[1];
  }
}
