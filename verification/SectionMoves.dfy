/** Moving a section: a block of lines changes place, and nothing else does. */
module SectionMoves {
  import opened Basics
  import opened TextLines
  import opened Headings
  import opened Outlines
  import opened Splices
  import opened SectionOps
  import opened SectionShape
  import opened SectionRanges

  // ---- The outline without one block ----

  /** First index past the preamble that the section's removal can shift. */
  function BlockStart(idx: nat): nat {
    if idx == 0 then 1 else idx
  }

  /** Number of sections a removal takes out; clearing the preamble takes out none. */
  function BlockWidth(s: seq<Section>, idx: nat): nat
    requires idx < |s|
  {
    if idx == 0 then 0 else SubtreeEnd(s, idx) - idx
  }

  function Back(r: nat, start: nat, width: nat): nat {
    if r < start then r else r + width
  }

  function Forth(q: nat, start: nat, width: nat): nat {
    if q < start + width then q else q - width
  }

  /** `s'` is `s` without `width` sections from `start` on, as far as levels and containers go. */
  ghost predicate SameShape(s: seq<Section>, s': seq<Section>, start: nat, width: nat) {
    && |s'| + width == |s| && 1 <= start <= |s'|
    && forall r ::
      0 <= r < |s'| ==> s'[r].level == s[Back(r, start, width)].level && s'[r].depth == s[Back(r, start, width)].depth
  }

  ghost predicate SameTrails(s: seq<Section>, s': seq<Section>, start: nat, width: nat)
    requires |s'| + width == |s|
  {
    forall r :: 0 <= r < |s'| ==> s'[r].trail == s[Back(r, start, width)].trail
  }

  /** Up to section `last` of `s`, whatever the removal leaves keeps its path. */
  ghost predicate SameTrailsTo(s: seq<Section>, s': seq<Section>, start: nat, width: nat, last: nat)
    requires |s'| + width == |s|
  {
    forall r :: 0 <= r < |s'| && Back(r, start, width) <= last ==> s'[r].trail == s[Back(r, start, width)].trail
  }

  /** The block is one section with its subtree. */
  ghost predicate IsSubtree(s: seq<Section>, start: nat, width: nat) {
    width > 0 ==> start < |s| && s[start].level > 0 && SubtreeEnd(s, start) == start + width
  }

  /** With the trails kept up to it, a section outside the block is found where it slid to. */
  lemma FindSlid(s: seq<Section>, s': seq<Section>, start: nat, width: nat, q: nat, path: Trail)
    requires SameShape(s, s', start, width) && SameTrailsTo(s, s', start, width, q)
    requires q == Find(s, path) < |s| && !(start <= q < start + width)
    ensures Find(s', path) == Forth(q, start, width)
  {
    var r, found := Forth(q, start, width), Find(s', path);
    assert Back(r, start, width) == q && s'[r].trail == path;
    assert found <= r;
    assert found < |s'| && s[Back(found, start, width)].trail == path;
    assert Back(found, start, width) >= q;
  }

  /** A subtree outside the block keeps its end, whether the block lay in it, behind it or closed it. */
  lemma EndSlid(s: seq<Section>, s': seq<Section>, start: nat, width: nat, q: nat)
    requires SameShape(s, s', start, width) && IsSubtree(s, start, width)
    requires q < |s| && !(start <= q < start + width)
    ensures var end := SubtreeEnd(s, q);
      && (end <= start || end >= start + width)
      && SubtreeEnd(s', Forth(q, start, width)) == if end <= start then end else end - width
  {
    hide NextClosing;
    var r, end := Forth(q, start, width), SubtreeEnd(s, q);
    assert Back(r, start, width) == q;
    if s[q].level > 0 && s[q].depth == 0 {
      var expected := if end <= start then end else end - width;
      assert end <= start || end >= start + width;
      ClosingIs(s', s[q].level, r + 1, expected);
    }
  }

  lemma ClosingIs(s: seq<Section>, level: nat, from: nat, end: nat)
    requires from <= end <= |s|
    requires end < |s| ==> s[end].depth == 0 && s[end].level <= level
    requires forall i :: from <= i < end ==> s[i].depth > 0 || s[i].level > level
    ensures NextClosing(s, level, from) == end
  {
  }

  // ---- The text without one block ----

  function WithoutBlank(lines: seq<string>): seq<string> {
    if EndsBlank(lines) then lines[..|lines| - 1] else lines
  }

  /**
    The text a move inserts into: the target lifted out, and one trailing blank line with it at the end of the
    body.
  */
  function Lifted(lines: seq<string>, a: nat, b: nat): seq<string>
    requires a <= b <= |lines|
  {
    var rest := Assemble(lines[..a], [], lines[b..]);
    if b == |lines| then WithoutBlank(rest) else rest
  }

  lemma DroppedText(lines: seq<string>)
    requires WellFormed(lines)
    ensures DropOneTrailingBlankLine(Join(lines)) == Join(WithoutBlank(lines)) && WellFormed(WithoutBlank(lines))
  {
    hide Join, WellFormed, EndsBlank;
    if lines == [] {
      NothingEndsBlank();
      assert !EndsBlank(lines) by { BlankEnd(lines); }
    } else if EndsBlank(lines) {
      BlankLast(lines);
    } else {
      SolidLast(lines);
    }
  }

  lemma WithoutBlankKeeps(lines: seq<string>)
    requires WellFormed(lines)
    ensures NonBlank(WithoutBlank(lines)) == NonBlank(lines) && Heads(WithoutBlank(lines)) == Heads(lines)
  {
    EmptyLineIsNoHeading();
    assert EndsBlank(lines) ==> Kept(lines[|lines| - 1]) == [];
  }

  lemma LiftedKeeps(lines: seq<string>, a: nat, b: nat)
    requires WellFormed(lines) && a <= b <= |lines|
    ensures WellFormed(Lifted(lines, a, b))
    ensures NonBlank(Lifted(lines, a, b)) == NonBlank(lines[..a]) + NonBlank(lines[b..])
    ensures Heads(Lifted(lines, a, b)) == Heads(lines[..a]) + Heads(lines[b..])
  {
    CutText(lines, a, b);
    hide *;
    AssembleKeeps(lines[..a], [], lines[b..]);
    assert NonBlank(lines[..a]) + [] == NonBlank(lines[..a]) && Heads(lines[..a]) + [] == Heads(lines[..a]);
    var rest := Assemble(lines[..a], [], lines[b..]);
    WithoutBlankKeeps(rest);
    DroppedText(rest);
  }

  lemma Slice(lines: seq<string>, i: nat, j: nat)
    requires WellFormed(lines) && i <= j <= |lines|
    ensures WellFormed(lines[i..j]) && (i < j < |lines| ==> Ended(lines[i..j][j - i - 1]))
  {
  }

  lemma SkippedSlice(lines: seq<string>, i: nat, a: nat, b: nat, j: nat)
    requires WellFormed(lines) && i <= a <= b <= j <= |lines|
    ensures WellFormed(lines[i..a] + lines[b..j])
  {
    Slice(lines, i, a);
    Slice(lines, b, j);
    WellFormedAppend(lines[i..a], lines[b..j]);
  }

  lemma RegroupBefore(lines: seq<string>, a: nat, b: nat, p: nat)
    requires p <= a <= b <= |lines|
    ensures NonBlank(lines[p..a] + lines[b..]) == NonBlank(lines[p..a]) + NonBlank(lines[b..])
    ensures NonBlank(lines[..a]) + NonBlank(lines[b..]) == NonBlank(lines[..p]) + NonBlank(lines[p..a] + lines[b..])
  {
    hide NonBlank;
    NonBlankAppend(lines[..p], lines[p..a]);
    NonBlankAppend(lines[p..a], lines[b..]);
    assert lines[..a] == lines[..p] + lines[p..a];
    var x, y, z := NonBlank(lines[..p]), NonBlank(lines[p..a]), NonBlank(lines[b..]);
    assert (x + y) + z == x + (y + z);
  }

  lemma RegroupBehind(lines: seq<string>, a: nat, b: nat, p: nat)
    requires a <= b <= p <= |lines|
    ensures NonBlank(lines[..a] + lines[b..p]) == NonBlank(lines[..a]) + NonBlank(lines[b..p])
    ensures NonBlank(lines[..a]) + NonBlank(lines[b..]) == NonBlank(lines[..a] + lines[b..p]) + NonBlank(lines[p..])
    ensures |Heads(lines[..a] + lines[b..p])| == |Heads(lines[..a])| + |Heads(lines[b..p])|
  {
    hide *;
    NonBlankAppend(lines[..a], lines[b..p]);
    NonBlankAppend(lines[b..p], lines[p..]);
    HeadsAppend(lines[..a], lines[b..p]);
    assert lines[b..] == lines[b..p] + lines[p..];
  }

  /** `lifted` holds the non-blank lines `x` then `y`; its cut with as many headings before it falls between them. */
  lemma CutOfLifted(lifted: seq<string>, p': nat, x: seq<string>, y: seq<string>)
    requires WellFormed(lifted) && p' <= |lifted| && WellFormed(x) && WellFormed(y)
    requires NonBlank(lifted) == NonBlank(x) + NonBlank(y)
    requires StartsSection(y) && StartsSection(lifted[p'..]) && |Heads(lifted[..p'])| == |Heads(x)|
    ensures NonBlank(lifted[..p']) == NonBlank(x) && NonBlank(lifted[p'..]) == NonBlank(y)
  {
    hide NonBlank, Heads, IsHeading;
    Slice(lifted, 0, p');
    Slice(lifted, p', |lifted|);
    assert lifted[..p'] + lifted[p'..] == lifted && lifted[0..p'] == lifted[..p'];
    NonBlankAppend(lifted[..p'], lifted[p'..]);
    SameCut(lifted[..p'], lifted[p'..], x, y);
  }

  /** A cut before the block stands at the same place of the lifted text. */
  lemma CutBefore(lines: seq<string>, a: nat, b: nat, p: nat, lifted: seq<string>, p': nat)
    requires WellFormed(lines) && p <= a <= b <= |lines| && WellFormed(lifted) && p' <= |lifted|
    requires NonBlank(lifted) == NonBlank(lines[..a]) + NonBlank(lines[b..])
    requires StartsSection(lines[p..]) && StartsSection(lines[b..]) && StartsSection(lifted[p'..])
    requires |Heads(lifted[..p'])| == |Heads(lines[..p])|
    ensures NonBlank(lifted[..p']) == NonBlank(lines[..p])
    ensures NonBlank(lifted[p'..]) == NonBlank(lines[p..a]) + NonBlank(lines[b..])
  {
    hide NonBlank, Heads, IsHeading, WellFormed;
    SkippedSlice(lines, p, a, b, |lines|);
    Slice(lines, 0, p);
    assert lines[b..] == lines[b..|lines|] && lines[..p] == lines[0..p];
    var y := lines[p..a] + lines[b..];
    assert y != [] ==> y[0] == if p < a then lines[p..][0] else lines[b..][0];
    RegroupBefore(lines, a, b, p);
    CutOfLifted(lifted, p', lines[..p], y);
  }

  /** A cut behind the block stands behind what is left of the text before it. */
  lemma CutBehind(lines: seq<string>, a: nat, b: nat, p: nat, lifted: seq<string>, p': nat)
    requires WellFormed(lines) && a <= b <= p <= |lines| && WellFormed(lifted) && p' <= |lifted|
    requires NonBlank(lifted) == NonBlank(lines[..a]) + NonBlank(lines[b..])
    requires StartsSection(lines[p..]) && StartsSection(lifted[p'..])
    requires |Heads(lifted[..p'])| == |Heads(lines[..a])| + |Heads(lines[b..p])|
    ensures NonBlank(lifted[..p']) == NonBlank(lines[..a]) + NonBlank(lines[b..p])
    ensures NonBlank(lifted[p'..]) == NonBlank(lines[p..])
  {
    hide NonBlank, Heads, IsHeading, WellFormed;
    SkippedSlice(lines, 0, a, b, p);
    Slice(lines, p, |lines|);
    assert lines[0..a] == lines[..a] && lines[p..|lines|] == lines[p..];
    RegroupBehind(lines, a, b, p);
    CutOfLifted(lifted, p', lines[..a] + lines[b..p], lines[p..]);
  }

  // ---- Both together ----

  /** `s` is the outline over these headings and trails. */
  ghost predicate Describes(s: seq<Section>, heads: seq<Heading>, trails: seq<Trail>) {
    && |s| == |heads| + 1 == |trails| + 1
    && s[0].level == 0 && s[0].depth == 0 && s[0].trail == PREAMBLE
    && forall k ::
      0 <= k < |heads| ==>
        s[k + 1].level == heads[k].level > 0 && s[k + 1].depth == heads[k].depth && s[k + 1].trail == trails[k]
  }

  lemma OutlineDescribes(lines: seq<string>)
    ensures Describes(Outline(lines), Heads(lines), Trails(FRESH, Heads(lines)))
  {
    var s, heads, trails := Outline(lines), Heads(lines), Trails(FRESH, Heads(lines));
    assert |s| == |heads| + 1 == |trails| + 1;
    hide Outline, Heads, Trails;
    SectionFacts(lines, 0);
    forall k | 0 <= k < |heads|
      ensures s[k + 1].level == heads[k].level > 0 && s[k + 1].depth == heads[k].depth && s[k + 1].trail == trails[k]
    {
      SectionFacts(lines, k + 1);
    }
  }

  /** Lines `a` to `b` are the range of section `idx`. */
  ghost predicate IsRange(lines: seq<string>, s: seq<Section>, idx: nat, a: nat, b: nat) {
    s == Outline(lines) && idx < |s| && a == RangeStart(s, idx) && b == RangeEnd(lines, s, idx) && a <= b <= |lines|
  }

  /** Lines `a` to `b` hold headings `n` to `n + m`, and the rest starts with a section. */
  ghost predicate Cuts(lines: seq<string>, a: nat, b: nat, n: nat, m: nat) {
    && a <= b <= |lines| && n + m <= |Heads(lines)|
    && Heads(lines[..a]) == Heads(lines)[..n] && Heads(lines[b..]) == Heads(lines)[n + m..]
    && StartsSection(lines[b..]) && b == At(lines, n + m) && (m > 0 ==> a == At(lines, n))
  }

  lemma CutsAt(lines: seq<string>, n: nat, m: nat)
    requires n + m <= |Heads(lines)|
    ensures Cuts(lines, At(lines, n), At(lines, n + m), n, m)
  {
    hide Heads, At, IsHeading;
    Cut(lines, n);
    Cut(lines, n + m);
    CutsAscend(lines, n, n + m);
  }

  lemma CutsPreamble(lines: seq<string>)
    ensures Cuts(lines, 0, At(lines, 0), 0, 0)
  {
    hide At, IsHeading;
    Cut(lines, 0);
    assert lines[..0] == [] && Heads([]) == [];
  }

  lemma RangeCuts(lines: seq<string>, s: seq<Section>, idx: nat, a: nat, b: nat, n: nat, m: nat)
    requires IsRange(lines, s, idx, a, b) && n == BlockStart(idx) - 1 && m == BlockWidth(s, idx)
    ensures Cuts(lines, a, b, n, m) && |s| == |Heads(lines)| + 1
  {
    hide Outline, Heads, At, IsHeading, Cuts;
    OutlineDescribes(lines);
    RangeFacts(lines, idx);
    if idx == 0 { CutsPreamble(lines); } else { CutsAt(lines, n, m); }
  }

  /** The lifted text has the headings of the body without the block. */
  lemma LiftedHeads(lines: seq<string>, a: nat, b: nat, n: nat, m: nat)
    requires WellFormed(lines) && Cuts(lines, a, b, n, m)
    ensures Heads(Lifted(lines, a, b)) == Heads(lines)[..n] + Heads(lines)[n + m..]
  {
    hide Heads, Lifted, At, WellFormed, IsHeading;
    LiftedKeeps(lines, a, b);
  }

  lemma ShapeWithout(s: seq<Section>, s': seq<Section>, heads: seq<Heading>, trails: seq<Trail>, rest: seq<Trail>,
          n: nat, m: nat)
    requires n + m <= |heads| && Describes(s, heads, trails) && Describes(s', heads[..n] + heads[n + m..], rest)
    ensures SameShape(s, s', n + 1, m)
    ensures SameTrails(s, s', n + 1, m) <==> rest == trails[..n] + trails[n + m..]
  {
    var kept, want := heads[..n] + heads[n + m..], trails[..n] + trails[n + m..];
    forall r | 0 <= r < |s'|
      ensures s'[r].level == s[Back(r, n + 1, m)].level && s'[r].depth == s[Back(r, n + 1, m)].depth
      ensures s[Back(r, n + 1, m)].trail == (if r == 0 then PREAMBLE else want[r - 1])
    {
      if r > 0 {
        assert kept[r - 1] == heads[Back(r - 1, n, m)] && want[r - 1] == trails[Back(r - 1, n, m)];
        assert s'[r - 1 + 1].level == kept[r - 1].level &&
               s[Back(r - 1, n, m) + 1].level == heads[Back(r - 1, n, m)].level;
      }
    }
    if SameTrails(s, s', n + 1, m) {
      forall k | 0 <= k < |rest|
        ensures rest[k] == want[k]
      {
        assert s'[k + 1].trail == rest[k] && s[Back(k + 1, n + 1, m)].trail == want[k];
      }
    }
  }

  lemma BlockIsSubtree(s: seq<Section>, heads: seq<Heading>, trails: seq<Trail>, idx: nat)
    requires Describes(s, heads, trails) && idx < |s|
    ensures var (n, m) := (BlockStart(idx) - 1, BlockWidth(s, idx));
      && n + m <= |heads| && IsSubtree(s, n + 1, m)
      && (m > 0 ==> IsBlock(heads[n..n + m]) && ClosedBy(heads[n..n + m], heads[n + m..]))
  {
    var n, m := BlockStart(idx) - 1, BlockWidth(s, idx);
    if m > 0 {
      var block, rest := heads[n..n + m], heads[n + m..];
      assert block[0] == heads[n] && s[n + 1].level == heads[n].level;
      assert rest != [] ==> rest[0] == heads[n + m] && s[n + m + 1].level == heads[n + m].level;
      forall i | 1 <= i < |block|
        ensures block[0].depth == 0 ==> block[i].depth > 0 || block[i].level > block[0].level
      {
        assert block[i] == heads[n + i] && s[n + i + 1].level == heads[n + i].level;
      }
    }
  }

  /** No section behind the block falls under a parent and slug that a section of the block was counted under. */
  ghost predicate NoKeyShared(heads: seq<Heading>, n: nat, m: nat)
    requires n + m <= |heads|
  {
    Keys(Run(FRESH, heads[..n + m]), heads[n + m..]) !! Keys(Run(FRESH, heads[..n]), heads[n..n + m])
  }

  lemma TrailsSplit(heads: seq<Heading>, n: nat)
    requires n <= |heads|
    ensures Trails(FRESH, heads)[..n] == Trails(FRESH, heads[..n])
    ensures Trails(FRESH, heads)[n..] == Trails(Run(FRESH, heads[..n]), heads[n..])
  {
    hide *;
    assert heads == heads[..n] + heads[n..];
    NamingAppend(FRESH, heads[..n], heads[n..]);
  }

  lemma NoBlock(heads: seq<Heading>, n: nat)
    requires n <= |heads|
    ensures heads[..n] + heads[n..] == heads
    ensures Trails(FRESH, heads)[..n] + Trails(FRESH, heads)[n..] == Trails(FRESH, heads)
    ensures NoKeyShared(heads, n, 0)
  {
    hide *;
    CutJoined(heads, n);
    CutJoined(Trails(FRESH, heads), n);
    NothingShared(heads, n);
  }

  lemma CutJoined<T>(s: seq<T>, n: nat)
    requires n <= |s|
    ensures s[..n] + s[n..] == s
  {
  }

  lemma NothingShared(heads: seq<Heading>, n: nat)
    requires n <= |heads|
    ensures NoKeyShared(heads, n, 0)
  {
    hide Run, Keys;
    NoKeys(Run(FRESH, heads[..n]), heads[n..n + 0]);
  }

  lemma NoKeys(st: Naming, block: seq<Heading>)
    requires block == []
    ensures Keys(st, block) == {}
  {
  }

  lemma TrailsOfParts(heads: seq<Heading>, n: nat, m: nat)
    requires n + m <= |heads|
    requires m > 0 ==> IsBlock(heads[n..n + m]) && ClosedBy(heads[n..n + m], heads[n + m..])
    ensures var all, rest := Trails(FRESH, heads), Trails(FRESH, heads[..n] + heads[n + m..]);
      rest == all[..n] + all[n + m..] <==> NoKeyShared(heads, n, m)
  {
    hide Trails, Keys, Run, IsBlock, ClosedBy;
    if m > 0 {
      TrailsSplit(heads, n);
      TrailsSplit(heads, n + m);
      assert heads[..n + m] == heads[..n] + heads[n..n + m];
      NamingAppend(FRESH, heads[..n], heads[n..n + m]);
      RemovalKeepsTrailsIff(heads[..n], heads[n..n + m], heads[n + m..]);
    } else {
      NoBlock(heads, n);
    }
  }

  /**
    No section behind the block and up to section `last` falls under a parent and slug that a section of
    the block was counted under. Nothing is asked for a section in front of the block.
  */
  ghost predicate AnchorClear(heads: seq<Heading>, n: nat, m: nat, last: nat)
    requires n + m <= |heads| && last <= |heads|
  {
    last > n + m ==> NoKeyShared(heads[..last], n, m)
  }

  /** Up to heading `last` the trails without the block are the ones with it. */
  ghost predicate TrailsKept(all: seq<Trail>, rest: seq<Trail>, n: nat, m: nat, last: nat)
    requires |rest| + m == |all| && n <= |rest|
  {
    forall k :: 0 <= k < |rest| && Back(k, n, m) < last ==> rest[k] == all[Back(k, n, m)]
  }

  lemma KeptInFront(all: seq<Trail>, rest: seq<Trail>, n: nat, m: nat, last: nat)
    requires |rest| + m == |all| && n <= |rest| && last <= n + m && rest[..n] == all[..n]
    ensures TrailsKept(all, rest, n, m, last)
  {
    forall k | 0 <= k < |rest| && Back(k, n, m) < last ensures rest[k] == all[Back(k, n, m)] {
      assert rest[..n][k] == all[..n][k];
    }
  }

  lemma KeptBehind(all: seq<Trail>, rest: seq<Trail>, n: nat, m: nat, last: nat)
    requires |rest| + m == |all| && n <= |rest| && n + m < last <= |all|
    ensures TrailsKept(all, rest, n, m, last) <==> rest[..last - m] == all[..last][..n] + all[..last][n + m..]
  {
    var want := all[..last][..n] + all[..last][n + m..];
    assert |want| == last - m;
    assert forall k :: 0 <= k < last - m ==> want[k] == all[Back(k, n, m)];
    if rest[..last - m] == want {
      forall k | 0 <= k < |rest| && Back(k, n, m) < last ensures rest[k] == all[Back(k, n, m)] {
        assert rest[..last - m][k] == want[k];
      }
    } else {
      var k :| 0 <= k < last - m && rest[..last - m][k] != want[k];
      assert Back(k, n, m) < last;
    }
  }

  lemma WithoutPrefix(heads: seq<Heading>, n: nat, m: nat, last: nat)
    requires n + m <= last <= |heads|
    ensures (heads[..n] + heads[n + m..])[..last - m] == heads[..last][..n] + heads[..last][n + m..]
    ensures heads[..last][n..n + m] == heads[n..n + m] && heads[..last][n + m..] == heads[n + m..last]
  {
  }

  lemma KeptIff(heads: seq<Heading>, n: nat, m: nat, last: nat)
    requires n + m <= |heads| && last <= |heads|
    requires m > 0 ==> IsBlock(heads[n..n + m]) && ClosedBy(heads[n..n + m], heads[n + m..])
    ensures TrailsKept(Trails(FRESH, heads), Trails(FRESH, heads[..n] + heads[n + m..]), n, m, last)
       <==> AnchorClear(heads, n, m, last)
  {
    hide *;
    var kept := heads[..n] + heads[n + m..];
    if last <= n + m {
      FrontKept(heads, n, m);
      KeptInFront(Trails(FRESH, heads), Trails(FRESH, kept), n, m, last);
      ClearInFront(heads, n, m, last);
    } else {
      KeptBehind(Trails(FRESH, heads), Trails(FRESH, kept), n, m, last);
      TrailsPrefix(heads, last);
      RestPrefix(heads, n, m, last);
      PrefixParts(heads, heads[..last], n, m, last);
      ClearBehind(heads, n, m, last);
    }
  }

  lemma TrailsPrefix(heads: seq<Heading>, last: nat)
    requires last <= |heads|
    ensures Trails(FRESH, heads)[..last] == Trails(FRESH, heads[..last])
  {
    hide *;
    TrailsSplit(heads, last);
  }

  lemma RestPrefix(heads: seq<Heading>, n: nat, m: nat, last: nat)
    requires n + m <= last <= |heads|
    ensures Trails(FRESH, heads[..n] + heads[n + m..])[..last - m] ==
      Trails(FRESH, heads[..last][..n] + heads[..last][n + m..])
  {
    hide *;
    WithoutPrefix(heads, n, m, last);
    TrailsPrefix(heads[..n] + heads[n + m..], last - m);
  }

  lemma PrefixParts(heads: seq<Heading>, prefix: seq<Heading>, n: nat, m: nat, last: nat)
    requires n + m < last <= |heads| && prefix == heads[..last]
    requires m > 0 ==> IsBlock(heads[n..n + m]) && ClosedBy(heads[n..n + m], heads[n + m..])
    ensures var all, rest := Trails(FRESH, prefix), Trails(FRESH, prefix[..n] + prefix[n + m..]);
      rest == all[..n] + all[n + m..] <==> NoKeyShared(prefix, n, m)
  {
    hide *;
    WithoutPrefix(heads, n, m, last);
    ClosedByPrefix(heads, n, m, last);
    TrailsOfParts(prefix, n, m);
  }

  lemma FrontKept(heads: seq<Heading>, n: nat, m: nat)
    requires n + m <= |heads|
    ensures Trails(FRESH, heads[..n] + heads[n + m..])[..n] == Trails(FRESH, heads)[..n]
  {
    hide *;
    TrailsSplit(heads, n);
    TrailsSplit(heads[..n] + heads[n + m..], n);
    assert (heads[..n] + heads[n + m..])[..n] == heads[..n];
  }

  lemma ClearInFront(heads: seq<Heading>, n: nat, m: nat, last: nat)
    requires n + m <= |heads| && last <= |heads| && last <= n + m
    ensures AnchorClear(heads, n, m, last)
  {
  }

  lemma ClearBehind(heads: seq<Heading>, n: nat, m: nat, last: nat)
    requires n + m < last <= |heads|
    ensures AnchorClear(heads, n, m, last) <==> NoKeyShared(heads[..last], n, m)
  {
  }

  lemma ClosedByPrefix(heads: seq<Heading>, n: nat, m: nat, last: nat)
    requires n + m < last <= |heads| && m > 0 ==> ClosedBy(heads[n..n + m], heads[n + m..])
    requires n + m < last <= |heads|
    ensures m > 0 ==> ClosedBy(heads[n..n + m], heads[n + m..last])
  {
    assert heads[n + m..last][0] == heads[n + m..][0];
  }

  /** `s'` is `s` without one subtree. */
  ghost predicate Without(s: seq<Section>, s': seq<Section>, start: nat, m: nat) {
    SameShape(s, s', start, m) && IsSubtree(s, start, m)
  }

  lemma WithoutByHeads(s: seq<Section>, s': seq<Section>, heads: seq<Heading>, idx: nat, n: nat, m: nat)
    requires Describes(s, heads, Trails(FRESH, heads)) && idx < |s| && n == BlockStart(idx) - 1
    requires m == BlockWidth(s, idx)
    requires n + m <= |heads| && Describes(s', heads[..n] + heads[n + m..], Trails(FRESH, heads[..n] + heads[n + m..]))
    ensures Without(s, s', n + 1, m)
    ensures SameTrails(s, s', n + 1, m) <==> NoKeyShared(heads, n, m)
  {
    hide Trails, NoKeyShared, SameTrails, IsBlock, ClosedBy, IsSubtree, SameShape, SubtreeEnd;
    assert |s| == |heads| + 1 && n + 1 <= |s|;
    hide Describes;
    BlockIsSubtree(s, heads, Trails(FRESH, heads), idx);
    TrailsOfParts(heads, n, m);
    ShapeWithout(s, s', heads, Trails(FRESH, heads), Trails(FRESH, heads[..n] + heads[n + m..]), n, m);
  }

  lemma TrailsToIff(s: seq<Section>, s': seq<Section>, all: seq<Trail>, rest: seq<Trail>, heads: seq<Heading>,
          kept: seq<Heading>, n: nat, m: nat, last: nat)
    requires Describes(s, heads, all) && Describes(s', kept, rest) && |rest| + m == |all| && n <= |rest| && last < |s|
    ensures SameTrailsTo(s, s', n + 1, m, last) <==> TrailsKept(all, rest, n, m, last)
  {
    if TrailsKept(all, rest, n, m, last) {
      forall r | 0 <= r < |s'| && Back(r, n + 1, m) <= last ensures s'[r].trail == s[Back(r, n + 1, m)].trail {
        if r > 0 {
          assert s'[r - 1 + 1].trail == rest[r - 1] && s[Back(r - 1, n, m) + 1].trail == all[Back(r - 1, n, m)];
        }
      }
    }
    if SameTrailsTo(s, s', n + 1, m, last) {
      forall k | 0 <= k < |rest| && Back(k, n, m) < last ensures rest[k] == all[Back(k, n, m)] {
        assert s'[k + 1].trail == rest[k] && s[Back(k, n, m) + 1].trail == all[Back(k, n, m)] &&
               Back(k + 1, n + 1, m) == Back(k, n, m) + 1;
      }
    }
  }

  /** After lifting, the paths up to a section are kept exactly when the block shares no key with what lies between. */
  lemma LiftedKeepsPathsTo(lines: seq<string>, s: seq<Section>, idx: nat, a: nat, b: nat, s': seq<Section>, n: nat,
          m: nat, last: nat)
    requires WellFormed(lines) && IsRange(lines, s, idx, a, b) && last < |s|
    requires s' == Outline(Lifted(lines, a, b)) && n == BlockStart(idx) - 1 && m == BlockWidth(s, idx)
    ensures |s'| + m == |s| && n + m <= |Heads(lines)| && |s| == |Heads(lines)| + 1
    ensures SameTrailsTo(s, s', n + 1, m, last) <==> AnchorClear(Heads(lines), n, m, last)
  {
    hide *;
    var heads := Heads(lines);
    RangeCuts(lines, s, idx, a, b, n, m);
    CutsFit(lines, a, b, n, m);
    LiftedHeads(lines, a, b, n, m);
    RangeIsOutline(lines, s, idx, a, b);
    OutlineDescribes(lines);
    OutlineDescribes(Lifted(lines, a, b));
    BlockIsSubtree(s, heads, Trails(FRESH, heads), idx);
    KeptIff(heads, n, m, last);
    TrailsToIff(s, s', Trails(FRESH, heads), Trails(FRESH, heads[..n] + heads[n + m..]), heads,
      heads[..n] + heads[n + m..], n, m, last);
  }

  lemma CutsFit(lines: seq<string>, a: nat, b: nat, n: nat, m: nat)
    requires Cuts(lines, a, b, n, m)
    ensures n + m <= |Heads(lines)|
  {
  }

  lemma RangeIsOutline(lines: seq<string>, s: seq<Section>, idx: nat, a: nat, b: nat)
    requires IsRange(lines, s, idx, a, b)
    ensures s == Outline(lines) && idx < |s| && a <= b <= |lines|
  {
  }

  lemma LiftedOutline(lines: seq<string>, s: seq<Section>, idx: nat, a: nat, b: nat, s': seq<Section>, n: nat, m: nat)
    requires WellFormed(lines) && IsRange(lines, s, idx, a, b)
    requires s' == Outline(Lifted(lines, a, b)) && n == BlockStart(idx) - 1 && m == BlockWidth(s, idx)
    ensures Without(s, s', n + 1, m) && n + m <= |Heads(lines)|
    ensures SameTrails(s, s', n + 1, m) <==> NoKeyShared(Heads(lines), n, m)
  {
    hide Trails, Describes, NoKeyShared, SameTrails, SameShape, IsSubtree, Heads, Outline, Lifted;
    RangeCuts(lines, s, idx, a, b, n, m);
    LiftedHeads(lines, a, b, n, m);
    hide IsRange, Cuts, BlockStart, BlockWidth;
    OutlineDescribes(lines);
    OutlineDescribes(Lifted(lines, a, b));
    WithoutByHeads(s, s', Heads(lines), idx, n, m);
  }

  // ---- Where the anchor went ----

  /** What surrounds an insertion at `p'` of the lifted text is what surrounded `p` of the body, the block aside. */
  ghost predicate SamePlace(lines: seq<string>, a: nat, b: nat, p: nat, lifted: seq<string>, p': nat)
    requires a <= b <= |lines| && p <= |lines| && p' <= |lifted|
  {
    || (p <= a && NonBlank(lifted[..p']) == NonBlank(lines[..p]) &&
        NonBlank(lifted[p'..]) == NonBlank(lines[p..a]) + NonBlank(lines[b..]))
    || (p >= b && NonBlank(lifted[..p']) == NonBlank(lines[..a]) + NonBlank(lines[b..p]) &&
        NonBlank(lifted[p'..]) == NonBlank(lines[p..]))
  }

  lemma CountBetween(lines: seq<string>, b: nat, p: nat)
    requires b <= p <= |lines|
    ensures |Heads(lines[..p])| == |Heads(lines[..b])| + |Heads(lines[b..p])|
    ensures |Heads(lines)| == |Heads(lines[..b])| + |Heads(lines[b..])|
  {
    hide Heads;
    assert lines[..p] == lines[..b] + lines[b..p] && lines == lines[..b] + lines[b..];
    HeadsAppend(lines[..b], lines[b..p]);
    HeadsAppend(lines[..b], lines[b..]);
  }

  lemma CutOrders(lines: seq<string>, j: nat, k: nat)
    requires j <= |Heads(lines)| && k <= |Heads(lines)|
    ensures At(lines, k) <= |lines| && (k <= j ==> At(lines, k) <= At(lines, j))
    ensures (j <= k ==> At(lines, j) <= At(lines, k))
  {
    if k <= j { CutsAscend(lines, k, j); } else { CutsAscend(lines, j, k); }
  }

  /** Lifting lines `a` to `b`, which hold headings `n` to `n + m`. */
  ghost predicate Lifts(lines: seq<string>, a: nat, b: nat, lifted: seq<string>, n: nat, m: nat) {
    && WellFormed(lines) && WellFormed(lifted) && a <= b <= |lines|
    && NonBlank(lifted) == NonBlank(lines[..a]) + NonBlank(lines[b..])
    && |Heads(lines[..a])| == n && |Heads(lines)| == n + m + |Heads(lines[b..])| &&
       |Heads(lifted)| + m == |Heads(lines)|
    && StartsSection(lines[b..]) && b == At(lines, n + m) && (m > 0 ==> a == At(lines, n))
  }

  lemma CutsLift(lines: seq<string>, a: nat, b: nat, n: nat, m: nat)
    requires WellFormed(lines) && Cuts(lines, a, b, n, m)
    ensures Lifts(lines, a, b, Lifted(lines, a, b), n, m)
  {
    hide Lifted, Heads, At, NonBlank, WellFormed, IsHeading;
    LiftedKeeps(lines, a, b);
  }

  lemma CutBeforeBlock(lines: seq<string>, a: nat, b: nat, lifted: seq<string>, n: nat, m: nat, k: nat)
    requires Lifts(lines, a, b, lifted, n, m) && m > 0 && k <= n
    ensures At(lines, k) <= |lines| && At(lifted, k) <= |lifted|
    ensures SamePlace(lines, a, b, At(lines, k), lifted, At(lifted, k))
  {
    hide Heads, At, NonBlank, WellFormed, IsHeading;
    Cut(lines, k);
    Cut(lifted, k);
    CutOrders(lines, n, k);
    CutBefore(lines, a, b, At(lines, k), lifted, At(lifted, k));
  }

  lemma CutBehindBlock(lines: seq<string>, a: nat, b: nat, lifted: seq<string>, n: nat, m: nat, k: nat)
    requires Lifts(lines, a, b, lifted, n, m) && n + m <= k <= |Heads(lines)|
    ensures At(lines, k) <= |lines| && At(lifted, k - m) <= |lifted|
    ensures SamePlace(lines, a, b, At(lines, k), lifted, At(lifted, k - m))
  {
    hide Heads, At, NonBlank, WellFormed, IsHeading, StartsSection;
    Cut(lines, k);
    Cut(lifted, k - m);
    CutOrders(lines, n + m, k);
    CountBetween(lines, b, At(lines, k));
    CutBehind(lines, a, b, At(lines, k), lifted, At(lifted, k - m));
  }

  function Point(lines: seq<string>, s: seq<Section>, idx: nat, before: bool): nat
    requires idx < |s|
  {
    if before then RangeStart(s, idx) else RangeEnd(lines, s, idx)
  }

  /** The heading count before an insertion point; none before the preamble. */
  function PointIndex(s: seq<Section>, idx: nat, before: bool): nat
    requires idx < |s|
  {
    if !before then SubtreeEnd(s, idx) - 1 else if idx == 0 then 0 else idx - 1
  }

  lemma PointIsCut(lines: seq<string>, s: seq<Section>, idx: nat, before: bool)
    requires s == Outline(lines) && idx < |s|
    ensures Point(lines, s, idx, before) == if before && idx == 0 then 0 else At(lines, PointIndex(s, idx, before))
    ensures Point(lines, s, idx, before) <= |lines| && PointIndex(s, idx, before) <= |Heads(lines)|
    ensures |s| == |Heads(lines)| + 1
  {
    assert |s| == |Heads(lines)| + 1;
    hide Outline, At, Heads, SubtreeEnd;
    RangeFacts(lines, idx);
  }

  lemma PointIndexSlid(s: seq<Section>, s': seq<Section>, n: nat, m: nat, q: nat, before: bool)
    requires Without(s, s', n + 1, m) && q < |s| && !(n + 1 <= q < n + 1 + m) && (m == 0 ==> n == 0)
    ensures var (q', k) := (Forth(q, n + 1, m), PointIndex(s, q, before));
      && q' < |s'| && (q' == 0 <==> q == 0)
      && ((k >= n + m && PointIndex(s', q', before) == k - m) || (m > 0 && k <= n && PointIndex(s', q', before) == k))
  {
    EndSlid(s, s', n + 1, m, q);
  }

  lemma AnchorPlace(lines: seq<string>, s: seq<Section>, a: nat, b: nat, lifted: seq<string>, s': seq<Section>,
          n: nat, m: nat, q: nat, before: bool)
    requires Lifts(lines, a, b, lifted, n, m) && s == Outline(lines) && s' == Outline(lifted)
    requires Without(s, s', n + 1, m)
    requires q < |s| && !(n + 1 <= q < n + 1 + m) && (m == 0 ==> n == 0 && q > 0)
    ensures Forth(q, n + 1, m) < |s'| && Point(lines, s, q, before) <= |lines|
    ensures Point(lifted, s', Forth(q, n + 1, m), before) <= |lifted|
    ensures SamePlace(lines, a, b, Point(lines, s, q, before), lifted, Point(lifted, s', Forth(q, n + 1, m), before))
  {
    hide Outline, At, Heads, Point, PointIndex, Lifts, SamePlace, Without;
    var q' := Forth(q, n + 1, m);
    PointIndexSlid(s, s', n, m, q, before);
    PointIsCut(lines, s, q, before);
    PointIsCut(lifted, s', q', before);
    if before && q == 0 {
      StartPlace(lines, a, b, lifted, n, m);
    } else if PointIndex(s, q, before) >= n + m && PointIndex(s', q', before) == PointIndex(s, q, before) - m {
      CutBehindBlock(lines, a, b, lifted, n, m, PointIndex(s, q, before));
    } else {
      CutBeforeBlock(lines, a, b, lifted, n, m, PointIndex(s, q, before));
    }
  }

  lemma StartPlace(lines: seq<string>, a: nat, b: nat, lifted: seq<string>, n: nat, m: nat)
    requires Lifts(lines, a, b, lifted, n, m)
    ensures a <= b <= |lines| && SamePlace(lines, a, b, 0, lifted, 0)
  {
    assert lines[..0] == [] && lifted[..0] == [] && lifted[0..] == lifted && lines[0..a] == lines[..a];
  }

  // ---- The operation ----

  /** The non-blank lines with lines `a` to `b` taken to position `p`. */
  function Relocated(lines: seq<string>, a: nat, b: nat, p: nat): seq<string>
    requires a <= b <= |lines| && p <= |lines| && (p <= a || p >= b)
  {
    if p <= a then NonBlank(lines[..p]) + NonBlank(lines[a..b]) + (NonBlank(lines[p..a]) + NonBlank(lines[b..]))
    else NonBlank(lines[..a]) + NonBlank(lines[b..p]) + NonBlank(lines[a..b]) + NonBlank(lines[p..])
  }

  lemma MoveUnfolds(body: string, target: Trail, anchor: Trail, before: bool, lines: seq<string>, s: seq<Section>,
          i: nat, q: nat, a: nat, b: nat, rest: string)
    requires lines == Lines(body) && IsRange(lines, s, i, a, b)
    requires i == Find(s, target) && q == Find(s, anchor) < |s| && i != q && !(i < q < SubtreeEnd(s, i))
    requires ByteOffset(lines, a) <= ByteOffset(lines, b) <= |body| && SpliceAt(body, a, b, "") == Ok(rest)
    ensures Move(body, target, anchor, before)
         == MoveInto(if ByteOffset(lines, b) == |body| then DropOneTrailingBlankLine(rest) else rest,
           body[ByteOffset(lines, a)..ByteOffset(lines, b)], anchor, before)
  {
    hide Lines, Outline, SpliceAt, ByteOffset, MoveInto, DropOneTrailingBlankLine, SubtreeEnd, RangeStart, RangeEnd;
  }

  /** Past its checks a move inserts the target's lines, unchanged, into the lifted text. */
  lemma MoveLifts(body: string, target: Trail, anchor: Trail, before: bool, lines: seq<string>, s: seq<Section>,
          i: nat, q: nat, a: nat, b: nat)
    requires lines == Lines(body) && IsRange(lines, s, i, a, b)
    requires i == Find(s, target) && q == Find(s, anchor) < |s| && i != q && !(i < q < SubtreeEnd(s, i))
    ensures Move(body, target, anchor, before) == MoveInto(Join(Lifted(lines, a, b)), Join(lines[a..b]), anchor, before)
    ensures WellFormed(lines) && WellFormed(lines[a..b]) && WellFormed(Lifted(lines, a, b))
  {
    hide Lines, Outline, Assemble, SpliceAt, SubtreeEnd, WellFormed, Join, ByteOffset, Move, MoveInto,
      DropOneTrailingBlankLine, WithoutBlank, RangeStart, RangeEnd;
    LinesOfText(body);
    NothingToSplit();
    SpliceAtLines(body, a, b, "");
    var rest := Assemble(lines[..a], [], lines[b..]);
    MoveBytes(body, lines, a, b);
    DroppedText(rest);
    MoveUnfolds(body, target, anchor, before, lines, s, i, q, a, b, Join(rest));
  }

  lemma NothingToSplit()
    ensures Lines("") == []
  {
  }

  lemma MoveBytes(body: string, lines: seq<string>, a: nat, b: nat)
    requires lines == Lines(body) && a <= b <= |lines|
    ensures var (start, end) := (ByteOffset(lines, a), ByteOffset(lines, b));
      start <= end <= |body| && body[start..end] == Join(lines[a..b]) && (end == |body| <==> b == |lines|)
    ensures WellFormed(lines[a..b])
  {
    LinesOfText(body);
    hide Lines, WellFormed;
    ByteOffsets(lines, a, b);
    ByteOffsets(lines, b, b);
    CutText(lines, a, b);
    Slice(lines, a, b);
    OffsetCuts(lines, b);
    OffsetCuts(lines[..b], a);
    PrefixOffset(lines, b, a);
    assert lines[..b][a..] == lines[a..b];
    var start, end := ByteOffset(lines, a), ByteOffset(lines, b);
    assert body[start..end] == body[..end][start..];
  }

  lemma InsertIntoLifted(lifted: seq<string>, block: seq<string>, anchor: Trail, before: bool, s': seq<Section>,
          q': nat)
    requires WellFormed(lifted) && WellFormed(block) && s' == Outline(lifted) && q' == Find(s', anchor) < |s'|
    ensures Point(lifted, s', q', before) <= |lifted|
    ensures var p' := Point(lifted, s', q', before); var after := Assemble(lifted[..p'], block, lifted[p'..]);
      && MoveInto(Join(lifted), Join(block), anchor, before) == Ok(Join(after)) && Lines(Join(after)) == after
      && NonBlank(after) == NonBlank(lifted[..p']) + NonBlank(block) + NonBlank(lifted[p'..])
  {
    LinesOfJoin(lifted);
    LinesOfJoin(block);
    hide Lines, Join, Outline, SpliceAt, SubtreeEnd, NonBlank, Assemble, Heads, WellFormed;
    PointIsCut(lifted, s', q', before);
    var p' := Point(lifted, s', q', before);
    SpliceAtLines(Join(lifted), p', p', Join(block));
    CutText(lifted, p', p');
    AssembleKeeps(lifted[..p'], block, lifted[p'..]);
  }

  /** Target and anchor name sections `i` and `q`; the target covers lines `a` to `b`, sections `n + 1` to `n + m`. */
  ghost predicate Resolved(body: string, target: Trail, anchor: Trail, lines: seq<string>, s: seq<Section>, i: nat,
          q: nat, a: nat, b: nat, n: nat, m: nat) {
    && lines == Lines(body) && IsRange(lines, s, i, a, b) && i == Find(s, target) && q == Find(s, anchor) < |s|
    && n == BlockStart(i) - 1 && m == BlockWidth(s, i) && n + m <= |Heads(lines)| && a <= b <= |lines|
  }

  /** The anchor lies outside the target and its subtree. */
  ghost predicate Outside(s: seq<Section>, i: nat, q: nat)
  {
    i < |s| && q < |s| && i != q && !(i < q < SubtreeEnd(s, i))
  }

  /** With lines `a` to `b` lifted out, the lookup of `anchor` finds what was section `r`, outside the target. */
  ghost predicate Finds(lines: seq<string>, a: nat, b: nat, anchor: Trail, n: nat, m: nat, r: nat)
    requires a <= b <= |lines|
  {
    var s' := Outline(Lifted(lines, a, b));
    Find(s', anchor) == Forth(r, n + 1, m) < |s'| && !(n + 1 <= r < n + 1 + m)
  }

  lemma LiftedSections(lines: seq<string>, s: seq<Section>, i: nat, a: nat, b: nat, n: nat, m: nat)
    requires WellFormed(lines) && IsRange(lines, s, i, a, b) && n == BlockStart(i) - 1 && m == BlockWidth(s, i)
    ensures Without(s, Outline(Lifted(lines, a, b)), n + 1, m) && |Outline(Lifted(lines, a, b))| + m == |s|
    ensures Lifts(lines, a, b, Lifted(lines, a, b), n, m)
  {
    hide Outline, Lifted, Heads, NoKeyShared, SameTrails, Cuts, Lifts, IsSubtree, WellFormed;
    LiftedOutline(lines, s, i, a, b, Outline(Lifted(lines, a, b)), n, m);
    RangeCuts(lines, s, i, a, b, n, m);
    CutsLift(lines, a, b, n, m);
  }

  lemma MoveParts(body: string, target: Trail, anchor: Trail, before: bool, lines: seq<string>, s: seq<Section>,
          i: nat, q: nat, a: nat, b: nat, n: nat, m: nat, r: nat)
    returns (p: nat, p': nat)
    requires Resolved(body, target, anchor, lines, s, i, q, a, b, n, m) && Outside(s, i, q)
    requires Finds(lines, a, b, anchor, n, m, r) && r < |s| && (m == 0 ==> r > 0)
    ensures p == Point(lines, s, r, before) <= |lines| && p' <= |Lifted(lines, a, b)|
    ensures SamePlace(lines, a, b, p, Lifted(lines, a, b), p')
    ensures WellFormed(lines[a..b]) && WellFormed(Lifted(lines, a, b))
    ensures Forth(r, n + 1, m) < |Outline(Lifted(lines, a, b))|
    ensures p' == Point(Lifted(lines, a, b), Outline(Lifted(lines, a, b)), Forth(r, n + 1, m), before)
    ensures var lifted := Lifted(lines, a, b); var after := Assemble(lifted[..p'], lines[a..b], lifted[p'..]);
      && Move(body, target, anchor, before) == Ok(Join(after)) && Lines(Join(after)) == after
      && NonBlank(after) == NonBlank(lifted[..p']) + NonBlank(lines[a..b]) + NonBlank(lifted[p'..])
  {
    hide Lines, Outline, Assemble, SubtreeEnd, WellFormed, Join, Move, MoveInto, Lifted, NonBlank, SamePlace, Heads,
      Lifts, Point, RangeStart, RangeEnd, Without;
    var lifted, s' := Lifted(lines, a, b), Outline(Lifted(lines, a, b));
    MoveLifts(body, target, anchor, before, lines, s, i, q, a, b);
    LiftedSections(lines, s, i, a, b, n, m);
    AnchorPlace(lines, s, a, b, lifted, s', n, m, r, before);
    var r' := Forth(r, n + 1, m);
    InsertIntoLifted(lifted, lines[a..b], anchor, before, s', r');
    p, p' := Point(lines, s, r, before), Point(lifted, s', r', before);
  }

  /** No section from behind the target up to the anchor shares its keys: the lookup finds the anchor. */
  lemma ClearFinds(body: string, target: Trail, anchor: Trail, lines: seq<string>, s: seq<Section>, i: nat, q: nat,
          a: nat, b: nat, n: nat, m: nat)
    requires Resolved(body, target, anchor, lines, s, i, q, a, b, n, m) && Outside(s, i, q)
    requires AnchorClear(Heads(lines), n, m, q)
    ensures Finds(lines, a, b, anchor, n, m, q) && (m == 0 ==> q > 0)
  {
    LinesOfText(body);
    hide Lines, Outline, SubtreeEnd, WellFormed, Join, Lifted, Heads, RangeStart, RangeEnd, SameTrailsTo, SameShape,
      IsSubtree, AnchorClear, Lifts, Find;
    var s' := Outline(Lifted(lines, a, b));
    LiftedSections(lines, s, i, a, b, n, m);
    LiftedKeepsPathsTo(lines, s, i, a, b, s', n, m, q);
    BlockAvoids(s, i, q, n, m);
    FindSlid(s, s', n + 1, m, q, anchor);
    ForthFits(s, s', n, m, q);
  }

  lemma ForthFits(s: seq<Section>, s': seq<Section>, n: nat, m: nat, q: nat)
    requires |s'| + m == |s| && SameShape(s, s', n + 1, m) && q < |s| && !(n + 1 <= q < n + 1 + m)
    ensures Forth(q, n + 1, m) < |s'|
  {
  }

  lemma BlockAvoids(s: seq<Section>, i: nat, q: nat, n: nat, m: nat)
    requires Outside(s, i, q) && n == BlockStart(i) - 1 && m == BlockWidth(s, i)
    ensures !(n + 1 <= q < n + 1 + m) && (m == 0 ==> n == 0 && q > 0)
  {
  }

  /** The target's block taken to section `r`. */
  ghost predicate RelocatedTo(moved: Edited, lines: seq<string>, s: seq<Section>, a: nat, b: nat, r: nat,
          before: bool, front: seq<string>, rear: seq<string>)
    requires a <= b <= |lines| && r < |s|
  {
    var p := Point(lines, s, r, before);
    && p <= |lines| && (p <= a || p >= b)
    && moved.Ok? && NonBlank(Lines(moved.value)) == Relocated(lines, a, b, p)
    && Lines(moved.value) == front + Terminated(lines[a..b]) + rear
  }

  /**
    A move is a block permutation in every body. Past the check for loops, the target's lines stand together and
    unchanged in the result, at the section the second lookup finds, and the non-blank lines are the original
    ones with that block relocated.
  */
  lemma MoveRelocates(body: string, target: Trail, anchor: Trail, before: bool, lines: seq<string>, s: seq<Section>,
          i: nat, q: nat, a: nat, b: nat, n: nat, m: nat, r: nat)
    returns (front: seq<string>, rear: seq<string>)
    requires Resolved(body, target, anchor, lines, s, i, q, a, b, n, m) && Outside(s, i, q)
    requires Finds(lines, a, b, anchor, n, m, r)
    ensures r < |s| && RelocatedTo(Move(body, target, anchor, before), lines, s, a, b, r, before, front, rear)
  {
    LinesOfText(body);
    assert WellFormed(lines);
    hide *;
    ResolvedFacts(body, target, anchor, lines, s, i, q, a, b, n, m);
    FoundOutside(lines, s, a, b, target, anchor, i, q, n, m, r);
    var p, p' := MoveParts(body, target, anchor, before, lines, s, i, q, a, b, n, m, r);
    RelocatedIs(lines, a, b, p, Lifted(lines, a, b), p');
    front, rear := BlockInPlace(Lifted(lines, a, b), lines[a..b], p');
    ToSection(Move(body, target, anchor, before), Assemble(Lifted(lines, a, b)[..p'], lines[a..b],
      Lifted(lines, a, b)[p'..]), lines, s, a, b, r, before, front, rear);
  }

  lemma ToSection(moved: Edited, after: seq<string>, lines: seq<string>, s: seq<Section>, a: nat, b: nat, r: nat,
          before: bool, front: seq<string>, rear: seq<string>)
    requires a <= b <= |lines| && r < |s| && moved == Ok(Join(after)) && Lines(Join(after)) == after
    requires Point(lines, s, r, before) <= |lines|
    requires Point(lines, s, r, before) <= a || Point(lines, s, r, before) >= b
    requires NonBlank(after) == Relocated(lines, a, b, Point(lines, s, r, before))
    requires after == front + Terminated(lines[a..b]) + rear
    ensures RelocatedTo(moved, lines, s, a, b, r, before, front, rear)
  {
    hide NonBlank, Lines, Join, Point, Relocated, Terminated;
  }

  lemma ResolvedFacts(body: string, target: Trail, anchor: Trail, lines: seq<string>, s: seq<Section>, i: nat, q: nat,
          a: nat, b: nat, n: nat, m: nat)
    requires Resolved(body, target, anchor, lines, s, i, q, a, b, n, m)
    ensures lines == Lines(body) && IsRange(lines, s, i, a, b) && s == Outline(lines) && a <= b <= |lines|
    ensures i == Find(s, target) < |s| && q == Find(s, anchor) < |s| && s[i].trail == target && s[q].trail == anchor
    ensures n == BlockStart(i) - 1 && m == BlockWidth(s, i) && n + m <= |Heads(lines)| && |s| == |Heads(lines)| + 1
  {
    hide Lines, Outline, RangeStart, RangeEnd, Heads;
    OutlineDescribes(lines);
  }

  /** The preamble's own path finds nothing but the preamble, so a lifted preamble is never the anchor found. */
  lemma FoundOutside(lines: seq<string>, s: seq<Section>, a: nat, b: nat, target: Trail, anchor: Trail, i: nat, q: nat,
          n: nat, m: nat, r: nat)
    requires WellFormed(lines) && IsRange(lines, s, i, a, b) && n == BlockStart(i) - 1 && m == BlockWidth(s, i)
    requires i == Find(s, target) && q == Find(s, anchor) < |s| && Outside(s, i, q)
    requires a <= b <= |lines| && Finds(lines, a, b, anchor, n, m, r)
    ensures r < |s| && (m == 0 ==> r > 0)
  {
    OutlineDescribes(lines);
    OutlineDescribes(Lifted(lines, a, b));
    hide Outline, Lifted, WellFormed, SubtreeEnd, RangeStart, RangeEnd, Heads, Trails;
    LiftedSections(lines, s, i, a, b, n, m);
    assert Outline(Lifted(lines, a, b))[0].trail == PREAMBLE && s[0].trail == PREAMBLE;
  }

  lemma BlockInPlace(lifted: seq<string>, block: seq<string>, p': nat) returns (front: seq<string>, rear: seq<string>)
    requires WellFormed(lifted) && WellFormed(block) && p' <= |lifted|
    ensures Assemble(lifted[..p'], block, lifted[p'..]) == front + Terminated(block) + rear
  {
    hide WellFormed, Assemble, Terminated;
    CutText(lifted, p', p');
    var gap, gap' := PartsStandVerbatim(lifted[..p'], block, lifted[p'..]);
    front, rear := Terminated(lifted[..p']) + gap, gap' + Terminated(lifted[p'..]);
  }

  lemma RelocatedIs(lines: seq<string>, a: nat, b: nat, p: nat, lifted: seq<string>, p': nat)
    requires a <= b <= |lines| && p <= |lines| && p' <= |lifted| && SamePlace(lines, a, b, p, lifted, p')
    ensures p <= a || p >= b
    ensures NonBlank(lifted[..p']) + NonBlank(lines[a..b]) + NonBlank(lifted[p'..]) == Relocated(lines, a, b, p)
  {
    hide NonBlank;
    if p >= b && p <= a {
      assert a == b && lines[b..p] == [] && lines[p..a] == [] && lines[a..b] == [];
      NothingKept();
      assert NonBlank([]) == [];
    }
  }

  lemma LoopingMove(body: string, target: Trail, anchor: Trail, before: bool, lines: seq<string>, s: seq<Section>,
          i: nat, q: nat, a: nat, b: nat, n: nat, m: nat)
    requires Resolved(body, target, anchor, lines, s, i, q, a, b, n, m) && !Outside(s, i, q)
    ensures Move(body, target, anchor, before) == Err(MoveWouldLoop(target, anchor))
  {
    hide Lines, Outline, SubtreeEnd, SpliceAt, MoveInto, Heads, RangeStart, RangeEnd, ByteOffset;
  }

  /** A move outside its own subtree fails only when the second lookup finds nothing. */
  lemma MissedAnchor(body: string, target: Trail, anchor: Trail, before: bool, lines: seq<string>, s: seq<Section>,
          i: nat, q: nat, a: nat, b: nat, n: nat, m: nat)
    requires Resolved(body, target, anchor, lines, s, i, q, a, b, n, m) && Outside(s, i, q)
    requires Find(Outline(Lifted(lines, a, b)), anchor) == |Outline(Lifted(lines, a, b))|
    ensures Move(body, target, anchor, before) == Err(SectionNotFound(anchor))
  {
    hide *;
    ResolvedFacts(body, target, anchor, lines, s, i, q, a, b, n, m);
    OutsideIs(s, i, q);
    MoveLifts(body, target, anchor, before, lines, s, i, q, a, b);
    LinesOfJoin(Lifted(lines, a, b));
    NothingFound(Join(Lifted(lines, a, b)), Join(lines[a..b]), anchor, before, Lifted(lines, a, b));
  }

  lemma OutsideIs(s: seq<Section>, i: nat, q: nat)
    requires Outside(s, i, q)
    ensures i < |s| && q < |s| && i != q && !(i < q < SubtreeEnd(s, i))
  {
  }

  lemma NothingFound(text: string, extracted: string, anchor: Trail, before: bool, lines: seq<string>)
    requires lines == Lines(text) && Find(Outline(lines), anchor) == |Outline(lines)|
    ensures MoveInto(text, extracted, anchor, before) == Err(SectionNotFound(anchor))
  {
    hide Lines, Outline;
  }

  ghost predicate DistinctPaths(s: seq<Section>) {
    forall x, y :: 0 <= x < y < |s| ==> s[x].trail != s[y].trail
  }

  /** After lifting, the lookup finds every section outside the block, up to section `last`, where it slid to. */
  ghost predicate AnchorsFound(s: seq<Section>, s': seq<Section>, n: nat, m: nat, last: nat) {
    forall q :: 0 <= q < |s| && q <= last && !(n + 1 <= q < n + 1 + m) ==> Find(s', s[q].trail) == Forth(q, n + 1, m)
  }

  lemma FindDistinct(s: seq<Section>, q: nat)
    requires DistinctPaths(s) && q < |s|
    ensures Find(s, s[q].trail) == q
  {
  }

  lemma FoundIffSameTrails(s: seq<Section>, s': seq<Section>, n: nat, m: nat, last: nat)
    requires DistinctPaths(s) && SameShape(s, s', n + 1, m)
    ensures AnchorsFound(s, s', n, m, last) <==> SameTrailsTo(s, s', n + 1, m, last)
  {
    hide DistinctPaths;
    if SameTrailsTo(s, s', n + 1, m, last) {
      forall q | 0 <= q < |s| && q <= last && !(n + 1 <= q < n + 1 + m)
        ensures Find(s', s[q].trail) == Forth(q, n + 1, m)
      {
        FindDistinct(s, q);
        FindSlid(s, s', n + 1, m, q, s[q].trail);
      }
    } else {
      var r :| 0 <= r < |s'| && Back(r, n + 1, m) <= last && s'[r].trail != s[Back(r, n + 1, m)].trail;
      assert Forth(Back(r, n + 1, m), n + 1, m) == r;
    }
  }

  /**
    For all anchors at once: in a body with distinct paths, the lookup after lifting finds every section up to
    `last` and outside the block where it slid to, if and only if none of them behind the block shares a parent
    and slug with it. Distinct paths alone do not do: a repeated sibling loses its suffix.
  */
  lemma AnchorsFoundIff(lines: seq<string>, s: seq<Section>, i: nat, a: nat, b: nat, s': seq<Section>, n: nat, m: nat,
          last: nat)
    requires WellFormed(lines) && IsRange(lines, s, i, a, b) && s' == Outline(Lifted(lines, a, b)) && DistinctPaths(s)
    requires n == BlockStart(i) - 1 && m == BlockWidth(s, i) && last < |s|
    ensures |s| == |Heads(lines)| + 1 && n + m <= |Heads(lines)|
    ensures AnchorsFound(s, s', n, m, last) <==> AnchorClear(Heads(lines), n, m, last)
  {
    hide Outline, Lifted, Heads, AnchorClear, IsSubtree, SameShape, WellFormed, AnchorsFound, DistinctPaths,
      SameTrailsTo, NoKeyShared, SameTrails;
    LiftedOutline(lines, s, i, a, b, s', n, m);
    LiftedKeepsPathsTo(lines, s, i, a, b, s', n, m, last);
    FoundIffSameTrails(s, s', n, m, last);
  }
}
