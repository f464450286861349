/**
  The outline of a memory body: one section per heading behind a synthetic preamble, each named by the
  slugs on its heading trail, with a counter suffix when a slug repeats under one parent.
*/
module Outlines {
  import opened Basics
  import opened Decimals
  import opened Headings

  /** Path segments from the outermost heading; the source joins them with dots, which no segment contains. */
  type Trail = seq<string>

  datatype Section = Section(trail: Trail, level: nat, lineStart: nat, headingEnd: nat, depth: nat)

  const PREAMBLE: Trail := ["preamble"]

  // ---- Headings and where they stand ----

  function Marks(lines: seq<string>): seq<nat> {
    if lines == [] then []
    else
      var n := |lines| - 1;
      Marks(lines[..n]) + (if IsHeading(lines[n]) then [n] else [])
  }

  function Heads(lines: seq<string>): (heads: seq<Heading>)
    ensures |heads| == |Marks(lines)|
  {
    if lines == [] then []
    else
      var n := |lines| - 1;
      Heads(lines[..n]) + (if IsHeading(lines[n]) then [HeadingOf(lines[n]).value] else [])
  }

  /** The marks are the heading lines, in order, and the heads are what stands on them. */
  lemma {:induction false} MarksAreHeadings(lines: seq<string>)
    ensures forall k ::
      0 <= k < |Marks(lines)| ==>
        Marks(lines)[k] < |lines| && HeadingOf(lines[Marks(lines)[k]]) == Some(Heads(lines)[k])
    ensures forall j, k :: 0 <= j < k < |Marks(lines)| ==> Marks(lines)[j] < Marks(lines)[k]
  {
    hide HeadingOf;
    if lines != [] { MarksAreHeadings(lines[..|lines| - 1]); }
  }

  lemma {:induction false} HeadingsAreMarked(lines: seq<string>, i: nat)
    requires i < |lines| && IsHeading(lines[i])
    ensures i in Marks(lines)
  {
    hide IsHeading;
    if i < |lines| - 1 { HeadingsAreMarked(lines[..|lines| - 1], i); }
  }

  lemma HeadsSnoc(a: seq<string>, line: string)
    ensures Heads(a + [line]) == Heads(a) + Heads([line])
  {
    hide HeadingOf;
    assert (a + [line])[..|a|] == a && [line][..0] == [] && Heads([]) == [];
  }

  lemma {:induction false} HeadsAppend(a: seq<string>, b: seq<string>)
    ensures Heads(a + b) == Heads(a) + Heads(b)
    decreases |b|
  {
    hide *;
    if b == [] {
      HeadsNothing(a);
    } else {
      var front, last := b[..|b| - 1], b[|b| - 1];
      HeadsAppend(a, front);
      assert b == front + [last] && a + b == a + front + [last];
      HeadsSnoc(front, last);
      HeadsSnoc(a + front, last);
      assert Heads(a) + (Heads(front) + Heads([last])) == Heads(a) + Heads(front) + Heads([last]);
    }
  }

  lemma HeadsNothing(a: seq<string>)
    ensures Heads(a + []) == Heads(a) + Heads([])
  {
    assert a + [] == a;
  }

  function Shifted(marks: seq<nat>, offset: nat): seq<nat> {
    if marks == [] then [] else Shifted(marks[..|marks| - 1], offset) + [offset + marks[|marks| - 1]]
  }

  lemma {:induction false} ShiftedAt(marks: seq<nat>, offset: nat)
    ensures |Shifted(marks, offset)| == |marks| && forall k :: 0 <= k < |marks| ==>
      Shifted(marks, offset)[k] == offset + marks[k]
  {
    if marks != [] { ShiftedAt(marks[..|marks| - 1], offset); }
  }

  function MarkAt(line: string, n: nat): seq<nat> {
    if IsHeading(line) then [n] else []
  }

  lemma MarksSnoc(a: seq<string>, line: string, whole: seq<string>)
    requires whole == a + [line]
    ensures Marks(whole) == Marks(a) + MarkAt(line, |a|)
  {
    hide IsHeading;
    assert whole[..|a|] == a;
  }

  lemma ShiftedMark(marks: seq<nat>, line: string, n: nat, offset: nat)
    ensures Shifted(marks + MarkAt(line, n), offset) == Shifted(marks, offset) + MarkAt(line, offset + n)
  {
    hide IsHeading;
    if IsHeading(line) { assert (marks + [n])[..|marks|] == marks; } else { assert marks + [] == marks; }
  }

  lemma NoMarks(a: seq<string>)
    ensures Marks(a + []) == Marks(a) + Shifted(Marks([]), |a|)
  {
    hide IsHeading;
    assert a + [] == a;
  }

  lemma {:induction false} MarksShift(a: seq<string>, b: seq<string>)
    ensures Marks(a + b) == Marks(a) + Shifted(Marks(b), |a|)
    decreases |b|
  {
    hide *;
    if b == [] {
      NoMarks(a);
    } else {
      var n := |b| - 1;
      var front, line := b[..n], b[n];
      MarksShift(a, front);
      MarksSnoc(front, line, b);
      MarksSnoc(a + front, line, a + b);
      MarksJoin(Marks(a), Marks(front), line, n, |a|, Marks(b), Marks(a + b));
    }
  }

  lemma MarksJoin(x: seq<nat>, y: seq<nat>, line: string, n: nat, offset: nat, right: seq<nat>, whole: seq<nat>)
    requires right == y + MarkAt(line, n) && whole == x + Shifted(y, offset) + MarkAt(line, offset + n)
    ensures whole == x + Shifted(right, offset)
  {
    hide *;
    ShiftedMark(y, line, n, offset);
  }

  lemma MarksAppend(a: seq<string>, b: seq<string>)
    ensures |Marks(a + b)| == |Marks(a)| + |Marks(b)|
    ensures forall k :: 0 <= k < |Marks(a)| ==> Marks(a + b)[k] == Marks(a)[k]
    ensures forall k :: 0 <= k < |Marks(b)| ==> Marks(a + b)[|Marks(a)| + k] == |a| + Marks(b)[k]
  {
    hide Marks, Shifted;
    MarksShift(a, b);
    ShiftedAt(Marks(b), |a|);
  }

  lemma CountBelow(all: seq<nat>, n: nat, k: nat)
    requires k < |all| && n <= |all|
    requires forall i, j :: 0 <= i < j < |all| ==> all[i] < all[j]
    requires forall j :: 0 <= j < n ==> all[j] < all[k]
    requires forall j :: n <= j < |all| ==> all[j] >= all[k]
    ensures n == k
  {
    var mark := all[k];
    assert forall j :: 0 <= j < n ==> all[j] != mark;
    if n < |all| { var next := all[n]; }
  }

  /** The headings before a marked line are those of the lines before it. */
  lemma HeadsBefore(lines: seq<string>, k: nat)
    requires k < |Heads(lines)|
    ensures Marks(lines)[k] < |lines|
    ensures Heads(lines[..Marks(lines)[k]]) == Heads(lines)[..k]
    ensures Heads(lines[Marks(lines)[k]..]) == Heads(lines)[k..]
  {
    hide *;
    MarksAreHeadings(lines);
    var m := Marks(lines)[k];
    var a, b := lines[..m], lines[m..];
    assert a + b == lines;
    HeadsAppend(a, b);
    MarksAppend(a, b);
    MarksAreHeadings(a);
    forall j | |Marks(a)| <= j < |Marks(lines)| ensures Marks(lines)[j] >= m {
      assert Marks(lines)[|Marks(a)| + (j - |Marks(a)|)] == |a| + Marks(b)[j - |Marks(a)|];
    }
    CountBelow(Marks(lines), |Marks(a)|, k);
  }

  /** A text whose first line is a heading starts with that section. */
  lemma HeadingFirst(a: seq<string>, b: seq<string>)
    requires b != [] && IsHeading(b[0])
    ensures Heads(b) != [] && Some(Heads(b)[0]) == HeadingOf(b[0])
    ensures |Heads(a)| < |Heads(a + b)| && Marks(a + b)[|Heads(a)|] == |a|
  {
    MarksAppend(a, b);
    HeadingsAreMarked(b, 0);
    MarksAreHeadings(b);
    hide HeadingOf, Heads, Marks;
    assert Marks(b)[0] == 0;
  }

  // ---- Naming ----

  datatype Key = Key(parent: Trail, slug: string)

  /** The open ancestors, outermost first, and how often each slug has occurred under each parent. */
  datatype Naming = Naming(stack: seq<(nat, string)>, counts: map<Key, nat>)

  const FRESH := Naming([], map[])

  function Segments(stack: seq<(nat, string)>): (trail: Trail)
    ensures |trail| == |stack|
  {
    if stack == [] then [] else Segments(stack[..|stack| - 1]) + [stack[|stack| - 1].1]
  }

  function Popped(stack: seq<(nat, string)>, level: nat): seq<(nat, string)> {
    if stack != [] && stack[|stack| - 1].0 >= level then Popped(stack[..|stack| - 1], level) else stack
  }

  /** A quoted heading neither closes a section nor parents one. */
  function Base(stack: seq<(nat, string)>, h: Heading): seq<(nat, string)> {
    if h.depth == 0 then Popped(stack, h.level) else stack
  }

  function CountOf(counts: map<Key, nat>, key: Key): nat {
    if key in counts then counts[key] else 0
  }

  function Segment(slug: string, count: nat): string {
    if count == 1 then slug else slug + "-" + Decimal(count)
  }

  function KeyOf(st: Naming, h: Heading): Key {
    Key(Segments(Base(st.stack, h)), h.slug)
  }

  function SegmentOf(st: Naming, h: Heading): string {
    Segment(h.slug, CountOf(st.counts, KeyOf(st, h)) + 1)
  }

  function TrailOf(st: Naming, h: Heading): Trail {
    KeyOf(st, h).parent + [SegmentOf(st, h)]
  }

  function Named(st: Naming, h: Heading): Naming {
    Naming(if h.depth == 0 then Base(st.stack, h) + [(h.level, SegmentOf(st, h))] else st.stack,
           st.counts[KeyOf(st, h) := CountOf(st.counts, KeyOf(st, h)) + 1])
  }

  function Run(st: Naming, heads: seq<Heading>): Naming
    decreases |heads|
  {
    if heads == [] then st else Run(Named(st, heads[0]), heads[1..])
  }

  function Trails(st: Naming, heads: seq<Heading>): (trails: seq<Trail>)
    ensures |trails| == |heads|
    decreases |heads|
  {
    if heads == [] then [] else [TrailOf(st, heads[0])] + Trails(Named(st, heads[0]), heads[1..])
  }

  /** The parent and slug of every heading, the coordinates its suffix is counted in. */
  function Keys(st: Naming, heads: seq<Heading>): set<Key>
    decreases |heads|
  {
    if heads == [] then {} else {KeyOf(st, heads[0])} + Keys(Named(st, heads[0]), heads[1..])
  }

  lemma {:induction false} NamingAppend(st: Naming, a: seq<Heading>, b: seq<Heading>)
    ensures Run(st, a + b) == Run(Run(st, a), b)
    ensures Trails(st, a + b) == Trails(st, a) + Trails(Run(st, a), b)
    ensures Keys(st, a + b) == Keys(st, a) + Keys(Run(st, a), b)
    decreases |a|
  {
    if a == [] {
      assert a + b == b;
    } else {
      assert (a + b)[1..] == a[1..] + b;
      NamingAppend(Named(st, a[0]), a[1..], b);
    }
  }

  // ---- Sections ----

  function SectionAt(trails: seq<Trail>, heads: seq<Heading>, marks: seq<nat>, k: nat): Section
    requires k < |trails| == |heads| == |marks|
  {
    Section(trails[k], heads[k].level, marks[k], marks[k] + 1, heads[k].depth)
  }

  function Outline(lines: seq<string>): (sections: seq<Section>)
    ensures |sections| == |Heads(lines)| + 1
  {
    var heads, marks := Heads(lines), Marks(lines);
    var trails := Trails(FRESH, heads);
    [Section(PREAMBLE, 0, 0, 0, 0)] + seq(|heads|, k requires 0 <= k < |heads| => SectionAt(trails, heads, marks, k))
  }

  lemma OutlinePrefix(lines: seq<string>, k: nat)
    requires k < |Heads(lines)|
    ensures Outline(lines)[..k + 2]
         == Outline(lines)[..k + 1] + [Section(Trails(FRESH, Heads(lines))[k], Heads(lines)[k].level, Marks(lines)[k],
           Marks(lines)[k] + 1, Heads(lines)[k].depth)]
  {
    hide Heads, Marks, Trails;
  }

  lemma OutlineStart(lines: seq<string>)
    ensures Outline(lines)[..1] == [Section(PREAMBLE, 0, 0, 0, 0)]
    ensures Outline(lines)[..|Heads(lines)| + 1] == Outline(lines)
    ensures Trails(Naming([], map[]), Heads(lines)[0..]) == Trails(FRESH, Heads(lines))[0..]
  {
    assert Heads(lines)[0..] == Heads(lines) && Trails(FRESH, Heads(lines))[0..] == Trails(FRESH, Heads(lines));
    hide Heads, Marks, Trails;
  }

  lemma NextTrail(st: Naming, heads: seq<Heading>)
    requires heads != []
    ensures Trails(st, heads)[0] == TrailOf(st, heads[0])
    ensures Trails(st, heads)[1..] == Trails(Named(st, heads[0]), heads[1..])
  {
  }

  lemma ParseStep(lines: seq<string>, st: Naming, k: nat)
    requires k < |Heads(lines)| && Trails(st, Heads(lines)[k..]) == Trails(FRESH, Heads(lines))[k..]
    ensures Outline(lines)[..k + 2]
         == Outline(lines)[..k + 1] + [Section(TrailOf(st, Heads(lines)[k]), Heads(lines)[k].level, Marks(lines)[k],
           Marks(lines)[k] + 1, Heads(lines)[k].depth)]
    ensures Trails(Named(st, Heads(lines)[k]), Heads(lines)[k + 1..]) == Trails(FRESH, Heads(lines))[k + 1..]
  {
    var heads, trails := Heads(lines), Trails(FRESH, Heads(lines));
    hide *;
    OutlinePrefix(lines, k);
    NextTrail(st, heads[k..]);
    assert heads[k..][1..] == heads[k + 1..] && trails[k] == trails[k..][0] && trails[k + 1..] == trails[k..][1..];
  }

  /** Walk the headings with a stack of open sections and a table of sibling counts. */
  method ParseSections(lines: seq<string>) returns (sections: seq<Section>)
    ensures sections == Outline(lines)
  {
    hide *;
    var heads, marks := Heads(lines), Marks(lines);
    sections := [Section(PREAMBLE, 0, 0, 0, 0)];
    OutlineStart(lines);
    var stack: seq<(nat, string)> := [];
    var counts: map<Key, nat> := map[];
    for k := 0 to |heads|
      invariant sections == Outline(lines)[..k + 1]
      invariant Trails(Naming(stack, counts), heads[k..]) == Trails(FRESH, heads)[k..]
    {
      ParseStep(lines, Naming(stack, counts), k);
      var trail;
      stack, counts, trail := NameHeading(stack, counts, heads[k]);
      sections := sections + [Section(trail, heads[k].level, marks[k], marks[k] + 1, heads[k].depth)];
    }
  }

  /** Pop the sections the heading closes, count its slug under what is left, push it if it may parent others. */
  method NameHeading(open: seq<(nat, string)>, counted: map<Key, nat>, h: Heading)
    returns (stack: seq<(nat, string)>, counts: map<Key, nat>, trail: Trail)
    ensures var st := Naming(open, counted); Naming(stack, counts) == Named(st, h) && trail == TrailOf(st, h)
  {
    stack := open;
    if h.depth == 0 {
      while stack != [] && stack[|stack| - 1].0 >= h.level
        invariant Popped(stack, h.level) == Popped(open, h.level)
        decreases |stack|
      {
        stack := stack[..|stack| - 1];
      }
    }
    var key := Key(Segments(stack), h.slug);
    var count := 1;
    if key in counted { count := counted[key] + 1; }
    counts := counted[key := count];
    var segment := if count == 1 then h.slug else h.slug + "-" + Decimal(count);
    trail := key.parent + [segment];
    if h.depth == 0 { stack := stack + [(h.level, segment)]; }
  }

  // ---- What removing a block does to the trails of the sections behind it ----

  lemma SegmentInjective(slug: string, m: nat, n: nat)
    requires m >= 1 && n >= 1 && Segment(slug, m) == Segment(slug, n)
    ensures m == n
  {
    if m != 1 && n != 1 {
      assert Segment(slug, m)[|slug| + 1..] == Decimal(m) && Segment(slug, n)[|slug| + 1..] == Decimal(n);
      DecimalInjective(m, n);
    }
  }

  /** Same ancestors as far as `heads` can tell. */
  ghost predicate SameBase(a: Naming, b: Naming, heads: seq<Heading>) {
    heads != [] ==> Base(a.stack, heads[0]) == Base(b.stack, heads[0]) && (heads[0].depth > 0 ==> a.stack == b.stack)
  }

  /** `b` has counted every key of `gone` more often than `a`, and all others alike. */
  ghost predicate Ahead(a: Naming, b: Naming, gone: set<Key>) {
    forall k ::
      if k in gone then CountOf(a.counts, k) < CountOf(b.counts, k) else CountOf(a.counts, k) == CountOf(b.counts, k)
  }

  lemma SameTrailIff(a: Naming, b: Naming, heads: seq<Heading>, gone: set<Key>)
    requires heads != [] && SameBase(a, b, heads) && Ahead(a, b, gone)
    ensures KeyOf(a, heads[0]) == KeyOf(b, heads[0])
    ensures TrailOf(a, heads[0]) == TrailOf(b, heads[0]) <==> KeyOf(b, heads[0]) !in gone
    ensures KeyOf(b, heads[0]) !in gone ==>
      Named(a, heads[0]).stack == Named(b, heads[0]).stack && Ahead(Named(a, heads[0]), Named(b, heads[0]), gone)
  {
    hide Segments, Popped;
    var h := heads[0];
    var key := KeyOf(b, h);
    assert KeyOf(a, h) == key;
    hide Segment;
    if key in gone {
      assert TrailOf(a, h)[|key.parent|] == SegmentOf(a, h) && TrailOf(b, h)[|key.parent|] == SegmentOf(b, h);
      if SegmentOf(a, h) == SegmentOf(b, h) {
        SegmentInjective(h.slug, CountOf(a.counts, key) + 1, CountOf(b.counts, key) + 1);
      }
    }
  }

  /** Trails come out the same exactly when no heading falls under a key counted differently. */
  lemma {:induction false} SameTrailsIff(a: Naming, b: Naming, heads: seq<Heading>, gone: set<Key>)
    requires SameBase(a, b, heads) && Ahead(a, b, gone)
    ensures Trails(a, heads) == Trails(b, heads) <==> Keys(b, heads) !! gone
    ensures Keys(b, heads) !! gone ==> Keys(a, heads) == Keys(b, heads)
    decreases |heads|
  {
    hide TrailOf, KeyOf, Named, Ahead;
    if heads != [] {
      var h := heads[0];
      SameTrailIff(a, b, heads, gone);
      assert Trails(a, heads)[0] == TrailOf(a, h) && Trails(b, heads)[0] == TrailOf(b, h);
      if KeyOf(b, h) !in gone {
        SameTrailsIff(Named(a, h), Named(b, h), heads[1..], gone);
        assert Trails(a, heads)[1..] == Trails(Named(a, h), heads[1..]) &&
               Trails(b, heads)[1..] == Trails(Named(b, h), heads[1..]);
      }
    }
  }

  lemma {:induction false} RunCounts(st: Naming, heads: seq<Heading>)
    ensures Ahead(st, Run(st, heads), Keys(st, heads))
    decreases |heads|
  {
    if heads != [] {
      RunCounts(Named(st, heads[0]), heads[1..]);
      var st1 := Named(st, heads[0]);
      assert forall k :: CountOf(st1.counts, k) == CountOf(st.counts, k) + if k == KeyOf(st, heads[0]) then 1 else 0;
    }
  }

  /** A block of sections that moves as one: a quoted heading, or an outline heading with all that lies below it. */
  ghost predicate IsBlock(block: seq<Heading>) {
    block != [] &&
    if block[0].depth > 0 then |block| == 1
    else forall i :: 1 <= i < |block| ==> block[i].depth > 0 || block[i].level > block[0].level
  }

  /** `rest` can follow the block: it opens with a heading that closes the block's root. */
  ghost predicate ClosedBy(block: seq<Heading>, rest: seq<Heading>)
    requires block != []
  {
    rest != [] && block[0].depth == 0 ==> rest[0].depth == 0 && rest[0].level <= block[0].level
  }

  lemma {:induction false} PoppedPrefix(stack: seq<(nat, string)>, more: seq<(nat, string)>, level: nat)
    requires forall i :: 0 <= i < |more| ==> more[i].0 >= level
    ensures Popped(stack + more, level) == Popped(stack, level)
    decreases |more|
  {
    if more == [] {
      assert stack + more == stack;
    } else {
      assert (stack + more)[..|stack + more| - 1] == stack + more[..|more| - 1];
      PoppedPrefix(stack, more[..|more| - 1], level);
    }
  }

  /** Popping for a deeper level first changes nothing for a shallower one. */
  lemma {:induction false} PoppedTwice(stack: seq<(nat, string)>, deep: nat, level: nat)
    requires level <= deep
    ensures Popped(Popped(stack, deep), level) == Popped(stack, level)
  {
    if stack != [] && stack[|stack| - 1].0 >= deep {
      PoppedTwice(stack[..|stack| - 1], deep, level);
    }
  }

  /** Below the root nothing the block does to the stack survives a heading that closes the root. */
  lemma {:induction false} BlockPopped(st: Naming, heads: seq<Heading>, level: nat)
    requires forall i :: 0 <= i < |heads| ==> heads[i].depth > 0 || heads[i].level >= level
    ensures Popped(Run(st, heads).stack, level) == Popped(st.stack, level)
    decreases |heads|
  {
    if heads != [] {
      BlockPopped(Named(st, heads[0]), heads[1..], level);
      if heads[0].depth == 0 {
        var base := Popped(st.stack, heads[0].level);
        PoppedPrefix(base, [(heads[0].level, SegmentOf(st, heads[0]))], level);
        PoppedTwice(st.stack, heads[0].level, level);
      }
    }
  }

  lemma BlockKeepsBase(st: Naming, block: seq<Heading>, rest: seq<Heading>)
    requires IsBlock(block) && ClosedBy(block, rest)
    ensures SameBase(st, Run(st, block), rest)
  {
    if block[0].depth > 0 {
      assert Run(st, block) == Run(Named(st, block[0]), block[1..]);
    } else if rest != [] {
      BlockPopped(st, block, rest[0].level);
    }
  }

  /**
    Taking a section out keeps the path of every section behind it exactly when none of those falls
    under a parent and slug that the section, or one nested in it, was counted under.
  */
  lemma RemovalKeepsTrailsIff(before: seq<Heading>, block: seq<Heading>, rest: seq<Heading>)
    requires IsBlock(block) && ClosedBy(block, rest)
    ensures var st := Run(FRESH, before);
      Trails(FRESH, before + rest) == Trails(FRESH, before) + Trails(Run(st, block), rest)
      <==> Keys(Run(st, block), rest) !! Keys(st, block)
  {
    var st := Run(FRESH, before);
    NamingAppend(FRESH, before, rest);
    BlockKeepsBase(st, block, rest);
    RunCounts(st, block);
    SameTrailsIff(st, Run(st, block), rest, Keys(st, block));
    var front, x, y := Trails(FRESH, before), Trails(st, rest), Trails(Run(st, block), rest);
    assert (front + x)[|front|..] == x && (front + y)[|front|..] == y;
  }

  // ---- What two neighbouring sections are counted under ----

  /** A heading below `level` pops no open section at `level` or above. */
  lemma {:induction false} PoppedKeepsRoot(stack: seq<(nat, string)>, root: seq<(nat, string)>, level: nat)
    requires root != [] && |root| <= |stack| && stack[..|root|] == root && root[|root| - 1].0 < level
    ensures |root| <= |Popped(stack, level)| && Popped(stack, level)[..|root|] == root
    decreases |stack|
  {
    assert stack[|root| - 1] == stack[..|root|][|root| - 1];
    if stack[|stack| - 1].0 >= level {
      var front := stack[..|stack| - 1];
      assert front[..|root|] == stack[..|root|];
      PoppedKeepsRoot(front, root, level);
    }
  }

  lemma {:induction false} SegmentsPrefix(stack: seq<(nat, string)>, n: nat)
    requires n <= |stack|
    ensures Segments(stack)[..n] == Segments(stack[..n])
    decreases |stack|
  {
    if n < |stack| {
      var front := stack[..|stack| - 1];
      SegmentsPrefix(front, n);
      assert front[..n] == stack[..n];
    } else {
      assert stack[..n] == stack;
    }
  }

  /** The open sections a heading finds keep `root` at the bottom, unless the heading closes it. */
  ghost predicate Rooted(stack: seq<(nat, string)>, root: seq<(nat, string)>) {
    root != [] && |root| <= |stack| && stack[..|root|] == root
  }

  lemma RootedStep(st: Naming, h: Heading, root: seq<(nat, string)>)
    requires Rooted(st.stack, root) && (h.depth > 0 || h.level > root[|root| - 1].0)
    ensures Rooted(Base(st.stack, h), root) && Rooted(Named(st, h).stack, root)
    ensures |root| <= |KeyOf(st, h).parent| && KeyOf(st, h).parent[..|root|] == Segments(root)
  {
    hide Segments, Popped, SegmentOf, KeyOf;
    if h.depth == 0 { PoppedKeepsRoot(st.stack, root, h.level); }
    var base := Base(st.stack, h);
    SegmentsPrefix(base, |root|);
    assert KeyOf(st, h).parent == Segments(base) by { KeyParent(st, h); }
    assert h.depth == 0 ==> (base + [(h.level, SegmentOf(st, h))])[..|root|] == base[..|root|];
  }

  lemma KeyParent(st: Naming, h: Heading)
    ensures KeyOf(st, h) == Key(Segments(Base(st.stack, h)), h.slug)
  {
  }

  lemma {:induction false} InnerKeys(st: Naming, heads: seq<Heading>, root: seq<(nat, string)>)
    requires Rooted(st.stack, root) && forall i :: 0 <= i < |heads| ==>
      heads[i].depth > 0 || heads[i].level > root[|root| - 1].0
    ensures forall k :: k in Keys(st, heads) ==> |root| <= |k.parent| && k.parent[..|root|] == Segments(root)
    decreases |heads|
  {
    hide Segments, KeyOf, Named, Rooted;
    if heads != [] {
      RootedStep(st, heads[0], root);
      InnerKeys(Named(st, heads[0]), heads[1..], root);
    }
  }

  /** Inside an outline section everything is counted under the section's own path. */
  lemma BlockKeys(st: Naming, block: seq<Heading>)
    requires IsBlock(block) && block[0].depth == 0
    ensures KeyOf(st, block[0]) in Keys(st, block)
    ensures forall k :: k in Keys(st, block) && k != KeyOf(st, block[0]) ==>
      |TrailOf(st, block[0])| <= |k.parent| && k.parent[..|TrailOf(st, block[0])|] == TrailOf(st, block[0])
  {
    hide Segments, Popped, SegmentOf;
    var h := block[0];
    var base := Base(st.stack, h);
    var root := base + [(h.level, SegmentOf(st, h))];
    assert Named(st, h).stack == root && root[..|root|] == root;
    SegmentsSnoc(base, (h.level, SegmentOf(st, h)));
    InnerKeys(Named(st, h), block[1..], root);
  }

  lemma SegmentsSnoc(base: seq<(nat, string)>, last: (nat, string))
    ensures Segments(base + [last]) == Segments(base) + [last.1]
  {
    assert (base + [last])[..|base + [last]| - 1] == base;
  }

  /** Neighbouring sections at one level under different paths are counted apart exactly when their slugs differ. */
  lemma NeighboursApartIff(st: Naming, x: seq<Heading>, y: seq<Heading>)
    requires IsBlock(x) && IsBlock(y) && x[0].depth == 0 && y[0].depth == 0 && x[0].level == y[0].level
    requires TrailOf(st, x[0]) != TrailOf(Run(st, x), y[0])
    ensures Keys(Run(st, x), y) !! Keys(st, x) <==> x[0].slug != y[0].slug
    ensures Keys(Run(st, x), y[..1]) !! Keys(st, x) <==> x[0].slug != y[0].slug
    ensures x[0].slug == y[0].slug ==> KeyOf(st, x[0]) == KeyOf(Run(st, x), y[0])
  {
    var st' := Run(st, x);
    BlockKeepsBase(st, x, y);
    assert KeyOf(st', y[0]).parent == KeyOf(st, x[0]).parent;
    hide Run, IsBlock, Keys, KeyOf;
    BlockKeys(st, x);
    BlockKeys(st', y);
  }
}
