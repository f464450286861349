/** Where a move goes: what the lookup of the anchor finds once the target is lifted out. */
module SectionAnchors {
  import opened Basics
  import opened TextLines
  import opened Headings
  import opened Outlines
  import opened Renumbering
  import opened SectionOps
  import opened SectionMoves

  /** The sections counted with the root of the block of `m` headings from `n` on. */
  function TwinsOf(heads: seq<Heading>, n: nat, m: nat): Twins
    requires n + m <= |heads| && m > 0
  {
    var st := Run(FRESH, heads[..n]);
    var key := KeyOf(st, heads[n]);
    Twins(key, CountOf(st.counts, key) + 1, CountOf(Run(FRESH, heads).counts, key))
  }

  /**
    No section behind the block that the path leads through, the path's own included, has a parent and slug
    that a section of the block was counted under.
  */
  ghost predicate AnchorKept(heads: seq<Heading>, n: nat, m: nat, path: Trail)
    requires n + m <= |heads|
  {
    forall x :: n + m <= x < |heads| && Trails(FRESH, heads)[x] <= path ==>
      KeyList(FRESH, heads)[x] !in Keys(Run(FRESH, heads[..n]), heads[n..n + m])
  }

  /** `u` is the place of `t` one twin further on. */
  ghost predicate NextTwin(w: Twins, t: Trail, u: Trail) {
    exists c: nat :: Through(w, t, c) && Through(w, u, c + 1) &&
      |t| > |w.key.parent| && |u| > |w.key.parent| && t[|w.key.parent| + 1..] == u[|w.key.parent| + 1..]
  }

  // ---- Paths without the block ----

  lemma Parts(heads: seq<Heading>, n: nat, m: nat)
    requires n + m <= |heads|
    ensures heads[..n] + heads[n..n + m] + heads[n + m..] == heads && heads[..n] + heads[n..n + m] == heads[..n + m]
  {
  }

  lemma {:induction false} KeyListAppend(st: Naming, a: seq<Heading>, b: seq<Heading>)
    ensures KeyList(st, a + b) == KeyList(st, a) + KeyList(Run(st, a), b)
    decreases |a|
  {
    hide Named, KeyOf;
    if a == [] {
      assert a + b == b;
    } else {
      assert (a + b)[1..] == a[1..] + b;
      KeyListAppend(Named(st, a[0]), a[1..], b);
    }
  }

  ghost predicate Lifting(heads: seq<Heading>, n: nat, m: nat) {
    && n + m <= |heads| && m > 0 && IsBlock(heads[n..n + m]) && ClosedBy(heads[n..n + m], heads[n + m..])
    && Distinct(Trails(FRESH, heads))
  }

  lemma LiftingIsRemoval(heads: seq<Heading>, n: nat, m: nat)
    requires Lifting(heads, n, m)
    ensures Removal(heads[..n], heads[n..n + m], heads[n + m..], Run(FRESH, heads[..n]), TwinsOf(heads, n, m))
  {
    Parts(heads, n, m);
    hide IsBlock, ClosedBy, Trails, Run, KeyOf, Distinct;
    assert heads[n..n + m][0] == heads[n];
  }

  /** Every path outside the block is renumbered, and none leads through the block's root. */
  ghost predicate RenumberedTrails(w: Twins, all: seq<Trail>, rest: seq<Trail>, n: nat, m: nat) {
    && |rest| + m == |all| && n <= |rest| && w.gone >= 1
    && forall k ::
      0 <= k < |rest| ==>
        rest[k] == Renumbered(w, all[Back(k, n, m)]) && !(TwinPath(w, w.gone) <= all[Back(k, n, m)])
  }

  lemma TrailsAfter(heads: seq<Heading>, n: nat, m: nat)
    requires Lifting(heads, n, m)
    ensures n + m <= |heads| && m > 0
    ensures RenumberedTrails(TwinsOf(heads, n, m), Trails(FRESH, heads), Trails(FRESH, heads[..n] + heads[n + m..]), n,
      m)
  {
    assert n + m <= |heads|;
    var front, block, behind := heads[..n], heads[n..n + m], heads[n + m..];
    var st, w := Run(FRESH, front), TwinsOf(heads, n, m);
    assert |front| == n && |block| == m && |front + behind| == |heads| - m;
    hide *;
    LiftingIsRemoval(heads, n, m);
    Parts(heads, n, m);
    RemovalFacts(front, block, behind, st, w);
    NamingAppend(FRESH, front, behind);
    BehindRenumbered(front, block, behind, st, w);
    forall j: nat | j < n
      ensures Renumbered(w, Trails(FRESH, front)[j]) == Trails(FRESH, front)[j]
      ensures !(TwinPath(w, w.gone) <= Trails(FRESH, front)[j])
    {
      FrontUnmoved(front, block, behind, st, w, j);
    }
    Reassembled(w, Trails(FRESH, front), Trails(st, block), Trails(Run(st, block), behind), Trails(st, behind), n, m);
  }

  lemma Reassembled(w: Twins, x: seq<Trail>, y: seq<Trail>, z: seq<Trail>, z': seq<Trail>, n: nat, m: nat)
    requires |x| == n && |y| == m && RenumberedTo(w, z', z)
    requires forall j: nat :: j < n ==> Renumbered(w, x[j]) == x[j] && !(TwinPath(w, w.gone) <= x[j])
    requires w.gone >= 1
    ensures RenumberedTrails(w, x + y + z, x + z', n, m)
  {
    hide Renumbered, TwinPath;
    assert |z'| == |z|;
    forall k | 0 <= k < |x + z'|
      ensures (x + z')[k] == Renumbered(w, (x + y + z)[Back(k, n, m)])
      ensures !(TwinPath(w, w.gone) <= (x + y + z)[Back(k, n, m)])
    {
      if k < n {
        assert (x + y + z)[k] == x[k] && (x + z')[k] == x[k];
      } else {
        assert (x + y + z)[k + m] == z[k - n] && (x + z')[k] == z'[k - n];
      }
    }
  }

  /** Exactly the paths that are not kept are renumbered. */
  lemma KeptIffUnmoved(heads: seq<Heading>, n: nat, m: nat, path: Trail)
    requires Lifting(heads, n, m)
    ensures n + m <= |heads| && m > 0
    ensures AnchorKept(heads, n, m, path) <==> Renumbered(TwinsOf(heads, n, m), path) == path
  {
    var front, block, behind := heads[..n], heads[n..n + m], heads[n + m..];
    var st, w := Run(FRESH, front), TwinsOf(heads, n, m);
    assert |front + block| == n + m;
    hide Run, Trails, KeyList, Keys, Renumbered, TwinsOf, Removal, IsBlock, ClosedBy, Distinct;
    LiftingIsRemoval(heads, n, m);
    Parts(heads, n, m);
    NamingAppend(FRESH, front + block, behind);
    NamingAppend(FRESH, front, block);
    KeyListAppend(FRESH, front + block, behind);
    RenumberedIff(front, block, behind, st, w, path);
    SameBehind(Trails(FRESH, heads), Trails(Run(st, block), behind), KeyList(FRESH, heads),
      KeyList(Run(st, block), behind), n + m, Trails(FRESH, front + block), KeyList(FRESH, front + block));
  }

  lemma SameBehind(all: seq<Trail>, trails: seq<Trail>, allKeys: seq<Key>, keys: seq<Key>, n: nat, x: seq<Trail>,
          y: seq<Key>)
    requires all == x + trails && allKeys == y + keys && |x| == |y| == n && |trails| == |keys|
    ensures forall j :: 0 <= j < |trails| ==> all[n + j] == trails[j] && allKeys[n + j] == keys[j]
    ensures forall k :: n <= k < |all| ==> all[k] == trails[k - n] && allKeys[k] == keys[k - n]
  {
  }

  // ---- Sections without the block ----

  /** `s'` is `s` without `m` sections from `n + 1` on, its paths renumbered. */
  ghost predicate RenumberedSections(w: Twins, s: seq<Section>, s': seq<Section>, n: nat, m: nat) {
    && |s'| + m == |s| && n + 1 <= |s'| && w.gone >= 1
    && forall r ::
      0 <= r < |s'| ==>
        && s'[r].trail == Renumbered(w, s[Back(r, n + 1, m)].trail)
        && !(TwinPath(w, w.gone) <= s[Back(r, n + 1, m)].trail)
  }

  /** No twin bears the preamble's path, so it is not renumbered either. */
  lemma PreambleUnmoved(heads: seq<Heading>, n: nat, m: nat)
    requires Lifting(heads, n, m) && PREAMBLE !in Trails(FRESH, heads)
    ensures n + m <= |heads| && m > 0
    ensures var w := TwinsOf(heads, n, m); Renumbered(w, PREAMBLE) == PREAMBLE && !(TwinPath(w, w.gone) <= PREAMBLE)
  {
    assert n + m <= |heads| && m > 0 && |PREAMBLE| == 1 && CountOf(FRESH.counts, TwinsOf(heads, n, m).key) == 0;
    hide *;
    var w := TwinsOf(heads, n, m);
    LiftingIsRemoval(heads, n, m);
    RemovalFacts(heads[..n], heads[n..n + m], heads[n + m..], Run(FRESH, heads[..n]), w);
    FrontAvoidsAll(heads[..n], heads[n..n + m], heads[n + m..], Run(FRESH, heads[..n]), w);
    forall c: nat | w.gone <= c <= w.last ensures !(TwinPath(w, c) <= PREAMBLE) {
      var j := NumberOwned(FRESH, heads, w.key, c);
      TwinPathIs(w, c);
      Member(Trails(FRESH, heads), j);
      OneSegment(TwinPath(w, c), PREAMBLE);
    }
    Unmoved(w, PREAMBLE);
  }

  lemma OneSegment(t: Trail, u: Trail)
    requires |u| == 1 && t != [] && t != u
    ensures !(t <= u)
  {
  }

  lemma SectionsAfter(s: seq<Section>, s': seq<Section>, heads: seq<Heading>, n: nat, m: nat)
    requires Describes(s, heads, Trails(FRESH, heads)) && DistinctPaths(s)
    requires n + m <= |heads| && m > 0 && IsBlock(heads[n..n + m]) && ClosedBy(heads[n..n + m], heads[n + m..])
    requires Describes(s', heads[..n] + heads[n + m..], Trails(FRESH, heads[..n] + heads[n + m..]))
    ensures Lifting(heads, n, m) && RenumberedSections(TwinsOf(heads, n, m), s, s', n, m)
  {
    hide *;
    var all, kept := Trails(FRESH, heads), heads[..n] + heads[n + m..];
    DistinctTrails(s, heads, all);
    AllLifting(heads, n, m);
    PreambleUnmoved(heads, n, m);
    TrailsAfter(heads, n, m);
    SectionsByTrails(TwinsOf(heads, n, m), s, s', heads, kept, all, Trails(FRESH, kept), n, m);
  }

  lemma AllLifting(heads: seq<Heading>, n: nat, m: nat)
    requires n + m <= |heads| && m > 0 && IsBlock(heads[n..n + m]) && ClosedBy(heads[n..n + m], heads[n + m..])
    requires Distinct(Trails(FRESH, heads))
    ensures Lifting(heads, n, m)
  {
    hide Trails, Distinct, IsBlock, ClosedBy, Run, KeyOf;
  }

  lemma SectionsByTrails(w: Twins, s: seq<Section>, s': seq<Section>, heads: seq<Heading>, kept: seq<Heading>,
          all: seq<Trail>, rest: seq<Trail>, n: nat, m: nat)
    requires Describes(s, heads, all) && Describes(s', kept, rest) && RenumberedTrails(w, all, rest, n, m)
    requires Renumbered(w, PREAMBLE) == PREAMBLE && !(TwinPath(w, w.gone) <= PREAMBLE)
    ensures RenumberedSections(w, s, s', n, m)
  {
    hide TwinPath, Renumbered;
    forall r | 0 <= r < |s'|
      ensures s'[r].trail == Renumbered(w, s[Back(r, n + 1, m)].trail)
      ensures !(TwinPath(w, w.gone) <= s[Back(r, n + 1, m)].trail)
    {
      if r > 0 {
        assert s'[r - 1 + 1].trail == rest[r - 1] && s[Back(r - 1, n, m) + 1].trail == all[Back(r - 1, n, m)];
      }
    }
  }

  lemma DistinctTrails(s: seq<Section>, heads: seq<Heading>, trails: seq<Trail>)
    requires Describes(s, heads, trails) && DistinctPaths(s)
    ensures Distinct(trails) && PREAMBLE !in trails
  {
    forall i, j | 0 <= i < j < |trails| ensures trails[i] != trails[j] {
      assert s[i + 1].trail == trails[i] && s[j + 1].trail == trails[j];
    }
    forall i | 0 <= i < |trails| ensures trails[i] != PREAMBLE {
      assert s[i + 1].trail == trails[i] && s[0].trail == PREAMBLE;
    }
  }

  /** The lookup finds a section exactly by its renumbered path. */
  lemma FoundIff(w: Twins, s: seq<Section>, s': seq<Section>, n: nat, m: nat, path: Trail, r: nat)
    requires RenumberedSections(w, s, s', n, m) && DistinctPaths(s) && r < |s| && !(n + 1 <= r < n + 1 + m)
    ensures Find(s', path) == Forth(r, n + 1, m) <==> Renumbered(w, s[r].trail) == path
  {
    hide Renumbered, TwinPath, DistinctPaths;
    var r', found := Forth(r, n + 1, m), Find(s', path);
    assert Back(r', n + 1, m) == r && r' < |s'|;
    if Renumbered(w, s[r].trail) == path {
      assert s'[r'].trail == path;
      assert found <= r';
      RenumberedInjective(w, s[Back(found, n + 1, m)].trail, s[r].trail);
      SamePath(s, Back(found, n + 1, m), r);
    }
  }

  lemma SamePath(s: seq<Section>, x: nat, y: nat)
    requires DistinctPaths(s) && x < |s| && y < |s| && s[x].trail == s[y].trail
    ensures x == y
  {
  }

  lemma FoundNothingIff(w: Twins, s: seq<Section>, s': seq<Section>, n: nat, m: nat, path: Trail)
    requires RenumberedSections(w, s, s', n, m)
    ensures Find(s', path) == |s'| <==>
      forall x :: 0 <= x < |s| && !(n + 1 <= x < n + 1 + m) ==> Renumbered(w, s[x].trail) != path
  {
    hide Renumbered, TwinPath;
    var found := Find(s', path);
    if found < |s'| {
      assert Renumbered(w, s[Back(found, n + 1, m)].trail) == path;
    } else {
      forall x | 0 <= x < |s| && !(n + 1 <= x < n + 1 + m) ensures Renumbered(w, s[x].trail) != path {
        assert Back(Forth(x, n + 1, m), n + 1, m) == x && s'[Forth(x, n + 1, m)].trail != path;
      }
    }
  }

  /** A path that moves away is taken by the same place one twin further on, and by nothing else. */
  lemma TakenIff(w: Twins, t: Trail, u: Trail)
    requires w.gone >= 1 && Renumbered(w, t) != t
    requires !(TwinPath(w, w.gone) <= t)
    ensures Renumbered(w, u) == t <==> NextTwin(w, t, u)
  {
    hide Renumbered;
    if c: nat :| Through(w, t, c) {
      RenumberedThrough(w, t, c);
      if NextTwin(w, t, u) { Takes(w, t, u); }
      if Renumbered(w, u) == t { TakenBy(w, t, u, c); }
    } else {
      NotThrough(w, t);
    }
  }

  lemma Takes(w: Twins, t: Trail, u: Trail)
    requires NextTwin(w, t, u)
    ensures Renumbered(w, u) == t
  {
    hide Renumbered;
    var c: nat :| Through(w, t, c) && Through(w, u, c + 1) &&
      |t| > |w.key.parent| && |u| > |w.key.parent| && t[|w.key.parent| + 1..] == u[|w.key.parent| + 1..];
    RenumberedThrough(w, u, c + 1);
    RenumberedThrough(w, t, c);
    assert t == TwinPath(w, c) + t[|w.key.parent| + 1..];
  }

  lemma TakenBy(w: Twins, t: Trail, u: Trail, c: nat)
    requires w.gone >= 1 && Through(w, t, c) && Renumbered(w, u) == t && Renumbered(w, t) != t
    ensures NextTwin(w, t, u)
  {
    hide Renumbered, Segment;
    if d: nat :| Through(w, u, d) {
      RenumberedThrough(w, u, d);
      RenumberedThrough(w, t, c);
      var i := |w.key.parent|;
      assert t[..i + 1][i] == Segment(w.key.slug, c) &&
             (TwinPath(w, d - 1) + u[i + 1..])[i] == Segment(w.key.slug, d - 1);
      SegmentInjective(w.key.slug, c, d - 1);
      assert t[i + 1..] == u[i + 1..];
    } else {
      NotThrough(w, u);
    }
  }

  // ---- The lookup after lifting ----

  lemma LiftedRenumbered(lines: seq<string>, s: seq<Section>, i: nat, a: nat, b: nat, n: nat, m: nat)
    requires WellFormed(lines) && IsRange(lines, s, i, a, b) && n == BlockStart(i) - 1 && m == BlockWidth(s, i)
    requires DistinctPaths(s) && m > 0
    ensures Lifting(Heads(lines), n, m) && n + m <= |Heads(lines)|
    ensures RenumberedSections(TwinsOf(Heads(lines), n, m), s, Outline(Lifted(lines, a, b)), n, m)
  {
    hide *;
    var heads := Heads(lines);
    RangeCuts(lines, s, i, a, b, n, m);
    CutsFit(lines, a, b, n, m);
    LiftedHeads(lines, a, b, n, m);
    RangeIsOutline(lines, s, i, a, b);
    OutlineDescribes(lines);
    OutlineDescribes(Lifted(lines, a, b));
    BlockIsSubtree(s, heads, Trails(FRESH, heads), i);
    SectionsAfter(s, Outline(Lifted(lines, a, b)), heads, n, m);
  }

  /**
    In a body with distinct paths the lookup after lifting finds the anchor, where it slid to, if and only if
    neither the anchor nor any section its path leads through stands behind the target under one of its keys.
  */
  lemma AnchorFoundIff(lines: seq<string>, s: seq<Section>, i: nat, a: nat, b: nat, n: nat, m: nat, q: nat)
    requires WellFormed(lines) && IsRange(lines, s, i, a, b) && n == BlockStart(i) - 1 && m == BlockWidth(s, i)
    requires DistinctPaths(s) && q < |s| && !(n + 1 <= q < n + 1 + m)
    ensures a <= b <= |lines| && n + m <= |Heads(lines)|
    ensures Finds(lines, a, b, s[q].trail, n, m, q) <==> AnchorKept(Heads(lines), n, m, s[q].trail)
  {
    hide *;
    RangeCuts(lines, s, i, a, b, n, m);
    CutsFit(lines, a, b, n, m);
    RangeIsOutline(lines, s, i, a, b);
    var s' := Outline(Lifted(lines, a, b));
    LiftedSections(lines, s, i, a, b, n, m);
    OutlineDescribes(lines);
    DescribedSize(s, Heads(lines), Trails(FRESH, Heads(lines)));
    if m > 0 {
      LiftedRenumbered(lines, s, i, a, b, n, m);
      KeptIffUnmoved(Heads(lines), n, m, s[q].trail);
      FoundIff(TwinsOf(Heads(lines), n, m), s, s', n, m, s[q].trail, q);
    } else {
      NoneLifted(Heads(lines), n, m, q, s[q].trail);
      AnchorsFoundIff(lines, s, i, a, b, s', n, m, q);
      OneFound(s, s', n, m, q);
    }
    FindsIs(lines, s, a, b, s[q].trail, n, m, q);
  }

  lemma NoneLifted(heads: seq<Heading>, n: nat, m: nat, last: nat, path: Trail)
    requires n <= |heads| && m == 0 && last <= |heads|
    ensures AnchorClear(heads, n, m, last) && AnchorKept(heads, n, m, path)
  {
    if last > n { NothingShared(heads[..last], n); }
    assert heads[n..n + m] == [];
    hide Trails, KeyList, Run;
  }

  lemma OneFound(s: seq<Section>, s': seq<Section>, n: nat, m: nat, q: nat)
    requires AnchorsFound(s, s', n, m, q) && q < |s| && !(n + 1 <= q < n + 1 + m)
    ensures Find(s', s[q].trail) == Forth(q, n + 1, m)
  {
  }

  lemma FindsIs(lines: seq<string>, s: seq<Section>, a: nat, b: nat, anchor: Trail, n: nat, m: nat, r: nat)
    requires a <= b <= |lines| && r < |s| && !(n + 1 <= r < n + 1 + m)
    requires Without(s, Outline(Lifted(lines, a, b)), n + 1, m)
    ensures Finds(lines, a, b, anchor, n, m, r) <==> Find(Outline(Lifted(lines, a, b)), anchor) == Forth(r, n + 1, m)
  {
    hide Outline, Lifted, IsSubtree, Find;
    ForthFits(s, Outline(Lifted(lines, a, b)), n, m, r);
  }

  /** Otherwise it finds the same place behind the target's next twin, if there is one, and else nothing. */
  lemma FoundInstead(lines: seq<string>, s: seq<Section>, i: nat, a: nat, b: nat, n: nat, m: nat, q: nat)
    requires WellFormed(lines) && IsRange(lines, s, i, a, b) && n == BlockStart(i) - 1 && m == BlockWidth(s, i)
    requires DistinctPaths(s) && q < |s| && !(n + 1 <= q < n + 1 + m) && n + m <= |Heads(lines)|
    requires !AnchorKept(Heads(lines), n, m, s[q].trail)
    ensures a <= b <= |lines| && m > 0
    ensures var w := TwinsOf(Heads(lines), n, m); var s' := Outline(Lifted(lines, a, b));
      && (forall r :: 0 <= r < |s| && !(n + 1 <= r < n + 1 + m) ==>
            (Finds(lines, a, b, s[q].trail, n, m, r) <==> NextTwin(w, s[q].trail, s[r].trail)))
      && (Find(s', s[q].trail) == |s'| <==>
          forall r :: 0 <= r < |s| && !(n + 1 <= r < n + 1 + m) ==> !NextTwin(w, s[q].trail, s[r].trail))
  {
    hide *;
    RangeIsOutline(lines, s, i, a, b);
    OutlineDescribes(lines);
    DescribedSize(s, Heads(lines), Trails(FRESH, Heads(lines)));
    if m == 0 { NoneLifted(Heads(lines), n, m, n, s[q].trail); }
    var s', w := Outline(Lifted(lines, a, b)), TwinsOf(Heads(lines), n, m);
    LiftedSections(lines, s, i, a, b, n, m);
    LiftedRenumbered(lines, s, i, a, b, n, m);
    KeptIffUnmoved(Heads(lines), n, m, s[q].trail);
    NotBelowRoot(w, s, s', n, m, q);
    FoundNothingIff(w, s, s', n, m, s[q].trail);
    forall r | 0 <= r < |s| && !(n + 1 <= r < n + 1 + m)
      ensures Finds(lines, a, b, s[q].trail, n, m, r) <==> NextTwin(w, s[q].trail, s[r].trail)
      ensures Renumbered(w, s[r].trail) == s[q].trail <==> NextTwin(w, s[q].trail, s[r].trail)
    {
      TakenIff(w, s[q].trail, s[r].trail);
      FoundIff(w, s, s', n, m, s[q].trail, r);
      FindsIs(lines, s, a, b, s[q].trail, n, m, r);
    }
  }

  lemma DescribedSize(s: seq<Section>, heads: seq<Heading>, trails: seq<Trail>)
    requires Describes(s, heads, trails)
    ensures |s| == |heads| + 1 == |trails| + 1
  {
  }

  lemma NotBelowRoot(w: Twins, s: seq<Section>, s': seq<Section>, n: nat, m: nat, q: nat)
    requires RenumberedSections(w, s, s', n, m) && q < |s| && !(n + 1 <= q < n + 1 + m)
    ensures !(TwinPath(w, w.gone) <= s[q].trail) && w.gone >= 1
  {
    hide Renumbered, TwinPath;
    var r := Forth(q, n + 1, m);
    assert Back(r, n + 1, m) == q && s'[r].trail == Renumbered(w, s[q].trail);
  }

  // ---- What a move does ----

  /** The anchor's path survives the lift. */
  ghost predicate StaysPut(heads: seq<Heading>, s: seq<Section>, n: nat, m: nat, q: nat)
    requires n + m <= |heads| && q <= |heads| && q < |s|
  {
    AnchorClear(heads, n, m, q) || (DistinctPaths(s) && AnchorKept(heads, n, m, s[q].trail))
  }

  /** Then the target ends up at the anchor. */
  lemma MoveReachesAnchor(body: string, target: Trail, anchor: Trail, before: bool, lines: seq<string>,
          s: seq<Section>, i: nat, q: nat, a: nat, b: nat, n: nat, m: nat)
    returns (front: seq<string>, rear: seq<string>)
    requires Resolved(body, target, anchor, lines, s, i, q, a, b, n, m) && Outside(s, i, q)
    requires q <= |Heads(lines)| && StaysPut(Heads(lines), s, n, m, q)
    ensures RelocatedTo(Move(body, target, anchor, before), lines, s, a, b, q, before, front, rear)
  {
    LinesOfText(body);
    assert WellFormed(lines);
    hide *;
    ResolvedFacts(body, target, anchor, lines, s, i, q, a, b, n, m);
    AnchorFound(body, target, anchor, lines, s, i, q, a, b, n, m);
    front, rear := MoveRelocates(body, target, anchor, before, lines, s, i, q, a, b, n, m, q);
  }

  lemma AnchorFound(body: string, target: Trail, anchor: Trail, lines: seq<string>, s: seq<Section>, i: nat, q: nat,
          a: nat, b: nat, n: nat, m: nat)
    requires Resolved(body, target, anchor, lines, s, i, q, a, b, n, m) && Outside(s, i, q) && WellFormed(lines)
    requires q <= |Heads(lines)| && StaysPut(Heads(lines), s, n, m, q)
    ensures Finds(lines, a, b, anchor, n, m, q)
  {
    assert AnchorClear(Heads(lines), n, m, q) || (DistinctPaths(s) && AnchorKept(Heads(lines), n, m, s[q].trail));
    hide *;
    ResolvedFacts(body, target, anchor, lines, s, i, q, a, b, n, m);
    if AnchorClear(Heads(lines), n, m, q) {
      ClearFinds(body, target, anchor, lines, s, i, q, a, b, n, m);
    } else {
      BlockAvoids(s, i, q, n, m);
      AnchorFoundIff(lines, s, i, a, b, n, m, q);
    }
  }

  /** So such a move fails exactly when the target is the anchor or contains it. */
  lemma MoveFailsIff(body: string, target: Trail, anchor: Trail, before: bool, lines: seq<string>, s: seq<Section>,
          i: nat, q: nat, a: nat, b: nat, n: nat, m: nat)
    requires Resolved(body, target, anchor, lines, s, i, q, a, b, n, m) && q <= |Heads(lines)|
    requires StaysPut(Heads(lines), s, n, m, q)
    ensures Move(body, target, anchor, before).Err? <==> !Outside(s, i, q)
    ensures Move(body, target, anchor, before).Err? ==>
      Move(body, target, anchor, before) == Err(MoveWouldLoop(target, anchor))
  {
    hide *;
    if Outside(s, i, q) {
      var front, rear := MoveReachesAnchor(body, target, anchor, before, lines, s, i, q, a, b, n, m);
      ResolvedFacts(body, target, anchor, lines, s, i, q, a, b, n, m);
      RelocatedIsOk(Move(body, target, anchor, before), lines, s, a, b, q, before, front, rear);
    } else {
      LoopingMove(body, target, anchor, before, lines, s, i, q, a, b, n, m);
    }
  }

  lemma RelocatedIsOk(moved: Edited, lines: seq<string>, s: seq<Section>, a: nat, b: nat, r: nat, before: bool,
          front: seq<string>, rear: seq<string>)
    requires a <= b <= |lines| && r < |s| && RelocatedTo(moved, lines, s, a, b, r, before, front, rear)
    ensures moved.Ok?
  {
  }

  /**
    A lost anchor, in a body with distinct paths: the move takes the target to the same place behind its next
    twin, or fails with the anchor not found when there is no such place.
  */
  lemma MoveMissesAnchor(body: string, target: Trail, anchor: Trail, before: bool, lines: seq<string>,
          s: seq<Section>, i: nat, q: nat, a: nat, b: nat, n: nat, m: nat)
    returns (r: nat, front: seq<string>, rear: seq<string>)
    requires Resolved(body, target, anchor, lines, s, i, q, a, b, n, m) && Outside(s, i, q)
    requires DistinctPaths(s) && !AnchorKept(Heads(lines), n, m, anchor)
    ensures m > 0
    ensures var moved, w := Move(body, target, anchor, before), TwinsOf(Heads(lines), n, m);
      && (moved.Ok? <==> exists x :: 0 <= x < |s| && !(n + 1 <= x < n + 1 + m) && NextTwin(w, anchor, s[x].trail))
      && (moved.Ok? ==> r < |s| && r != q && NextTwin(w, anchor, s[r].trail) &&
                        RelocatedTo(moved, lines, s, a, b, r, before, front, rear))
      && (moved.Err? ==> moved == Err(SectionNotFound(anchor)))
  {
    LinesOfText(body);
    assert WellFormed(lines);
    hide *;
    ResolvedFacts(body, target, anchor, lines, s, i, q, a, b, n, m);
    BlockAvoids(s, i, q, n, m);
    FoundInstead(lines, s, i, a, b, n, m, q);
    AnchorFoundIff(lines, s, i, a, b, n, m, q);
    LiftedSections(lines, s, i, a, b, n, m);
    var s' := Outline(Lifted(lines, a, b));
    r, front, rear := Back(Find(s', anchor), n + 1, m), [], [];
    if Find(s', anchor) == |s'| {
      MissedAnchor(body, target, anchor, before, lines, s, i, q, a, b, n, m);
    } else {
      BackAndForth(s, s', n, m, Find(s', anchor));
      FindsIs(lines, s, a, b, anchor, n, m, r);
      front, rear := MoveRelocates(body, target, anchor, before, lines, s, i, q, a, b, n, m, r);
      RelocatedIsOk(Move(body, target, anchor, before), lines, s, a, b, r, before, front, rear);
    }
  }

  lemma BackAndForth(s: seq<Section>, s': seq<Section>, n: nat, m: nat, r: nat)
    requires |s'| + m == |s| && r < |s'|
    ensures Forth(Back(r, n + 1, m), n + 1, m) == r && Back(r, n + 1, m) < |s|
    ensures !(n + 1 <= Back(r, n + 1, m) < n + 1 + m)
  {
  }
}
