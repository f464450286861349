/**
  What removing a section does to the paths behind it: the later sections of its parent and slug move up by
  one number, their descendants with them, and every other path stays.
*/
module Renumbering {
  import opened Headings
  import opened Outlines

  /** The sections counted under one key: number `gone` is removed, and `last` is the highest number. */
  datatype Twins = Twins(key: Key, gone: nat, last: nat)

  function TwinPath(w: Twins, c: nat): Trail {
    w.key.parent + [Segment(w.key.slug, c)]
  }

  /** The path is that of a later twin, the one with number `c`, or leads through it. */
  ghost predicate Through(w: Twins, t: Trail, c: nat) {
    w.gone < c <= w.last && TwinPath(w, c) <= t
  }

  /** The path with the number of the twin it leads through one less. */
  ghost function Renumbered(w: Twins, t: Trail): Trail {
    if exists c: nat :: Through(w, t, c) then
      var c: nat :| Through(w, t, c);
      TwinPath(w, c - 1) + t[|w.key.parent| + 1..]
    else t
  }

  // ---- Renumbering paths ----

  lemma ThroughOne(w: Twins, t: Trail, c: nat, d: nat)
    requires Through(w, t, c) && Through(w, t, d)
    ensures c == d
  {
    hide Segment;
    var i := |w.key.parent|;
    assert t[i] == TwinPath(w, c)[i] == TwinPath(w, d)[i];
    SegmentInjective(w.key.slug, c, d);
  }

  lemma RenumberedThrough(w: Twins, t: Trail, c: nat)
    requires Through(w, t, c)
    ensures |w.key.parent| < |t| && t[..|w.key.parent| + 1] == TwinPath(w, c)
    ensures Renumbered(w, t) == TwinPath(w, c - 1) + t[|w.key.parent| + 1..]
  {
    assert |TwinPath(w, c)| == |w.key.parent| + 1;
    hide TwinPath;
    var d: nat :| Through(w, t, d) && Renumbered(w, t) == TwinPath(w, d - 1) + t[|w.key.parent| + 1..];
    ThroughOne(w, t, c, d);
  }

  lemma RenumberedLength(w: Twins, t: Trail)
    ensures |Renumbered(w, t)| == |t|
  {
    if c: nat :| Through(w, t, c) { RenumberedThrough(w, t, c); }
  }

  lemma RenumberedPrefix(w: Twins, t: Trail, k: nat)
    requires k <= |t|
    ensures |Renumbered(w, t)| == |t| && Renumbered(w, t)[..k] == Renumbered(w, t[..k])
  {
    RenumberedLength(w, t);
    if c: nat :| Through(w, t, c) {
      RenumberedThrough(w, t, c);
      if k > |w.key.parent| {
        assert Through(w, t[..k], c);
        RenumberedThrough(w, t[..k], c);
      }
    } else if d: nat :| Through(w, t[..k], d) {
      assert Through(w, t, d);
    }
  }

  /** Apart from the removed section's own descendants no two paths become one. */
  lemma RenumberedInjective(w: Twins, t: Trail, u: Trail)
    requires w.gone >= 1 && Renumbered(w, t) == Renumbered(w, u)
    requires !(TwinPath(w, w.gone) <= t) && !(TwinPath(w, w.gone) <= u)
    ensures t == u
  {
    RenumberedLength(w, t);
    RenumberedLength(w, u);
    if c: nat :| Through(w, t, c) {
      RenumberedThrough(w, t, c);
      if d: nat :| Through(w, u, d) {
        RenumberedThrough(w, u, d);
        SameNumber(w, t, u, c, d);
      } else {
        TakesPlace(w, u, t, c);
      }
    } else if d: nat :| Through(w, u, d) {
      RenumberedThrough(w, u, d);
      TakesPlace(w, t, u, d);
    }
  }

  lemma SameNumber(w: Twins, t: Trail, u: Trail, c: nat, d: nat)
    requires w.gone >= 1 && Through(w, t, c) && Through(w, u, d)
    requires TwinPath(w, c - 1) + t[|w.key.parent| + 1..] == TwinPath(w, d - 1) + u[|w.key.parent| + 1..]
    ensures t == u
  {
    hide Segment;
    var i := |w.key.parent|;
    var x, y := TwinPath(w, c - 1) + t[i + 1..], TwinPath(w, d - 1) + u[i + 1..];
    assert x[i] == Segment(w.key.slug, c - 1) && y[i] == Segment(w.key.slug, d - 1);
    SegmentInjective(w.key.slug, c - 1, d - 1);
    assert x[i + 1..] == t[i + 1..] && y[i + 1..] == u[i + 1..];
    assert t == TwinPath(w, c) + t[i + 1..] && u == TwinPath(w, c) + u[i + 1..];
  }

  /** A renumbered path never takes the place of a path that stays. */
  lemma TakesPlace(w: Twins, t: Trail, u: Trail, c: nat)
    requires Through(w, u, c) && t == TwinPath(w, c - 1) + u[|w.key.parent| + 1..]
    ensures TwinPath(w, w.gone) <= t || Through(w, t, c - 1)
  {
  }

  lemma RenumberedSnoc(w: Twins, p: Trail, segment: string)
    ensures forall c: nat :: w.gone < c <= w.last && p + [segment] == TwinPath(w, c) ==>
      Renumbered(w, p + [segment]) == TwinPath(w, c - 1)
    ensures (forall c: nat :: w.gone < c <= w.last ==> p + [segment] != TwinPath(w, c)) ==>
      Renumbered(w, p + [segment]) == Renumbered(w, p) + [segment]
  {
    var t := p + [segment];
    forall c: nat | w.gone < c <= w.last && t == TwinPath(w, c) ensures Renumbered(w, t) == TwinPath(w, c - 1) {
      RenumberedThrough(w, t, c);
    }
    if forall c: nat :: w.gone < c <= w.last ==> t != TwinPath(w, c) {
      assert t[..|p|] == p;
      RenumberedPrefix(w, t, |p|);
      assert Renumbered(w, t) == Renumbered(w, t)[..|p|] + [Renumbered(w, t)[|p|]];
    }
  }

  // ---- Renumbering a naming ----

  /** The parent and slug of every heading, in order. */
  function KeyList(st: Naming, heads: seq<Heading>): (keys: seq<Key>)
    ensures |keys| == |heads|
    decreases |heads|
  {
    if heads == [] then [] else [KeyOf(st, heads[0])] + KeyList(Named(st, heads[0]), heads[1..])
  }

  /** Open sections of the same levels. */
  ghost predicate SameLevels(a: seq<(nat, string)>, b: seq<(nat, string)>) {
    |a| == |b| && forall i :: 0 <= i < |a| ==> a[i].0 == b[i].0
  }

  /** `a` is `b` without the removed twin: its paths are renumbered, and it counted that one section less. */
  ghost predicate Renumbers(w: Twins, a: Naming, b: Naming) {
    && SameLevels(a.stack, b.stack) && Segments(a.stack) == Renumbered(w, Segments(b.stack))
    && !(TwinPath(w, w.gone) <= Segments(b.stack)) && w.gone <= CountOf(b.counts, w.key)
    && CountsLess(w, a, b)
  }

  /** Outside the removed section every key was counted alike under its new parent, the twins' own one less. */
  ghost predicate CountsLess(w: Twins, a: Naming, b: Naming) {
    forall k: Key ::
      !(TwinPath(w, w.gone) <= k.parent) ==>
        CountOf(b.counts, k)
        == CountOf(a.counts, Key(Renumbered(w, k.parent), k.slug)) + if k == w.key then 1 else 0
  }

  lemma {:induction false} PoppedLevels(a: seq<(nat, string)>, b: seq<(nat, string)>, level: nat)
    requires SameLevels(a, b)
    ensures SameLevels(Popped(a, level), Popped(b, level)) && |Popped(b, level)| <= |b|
    ensures Popped(a, level) == a[..|Popped(b, level)|] && Popped(b, level) == b[..|Popped(b, level)|]
    decreases |a|
  {
    if b != [] && b[|b| - 1].0 >= level {
      PoppedLevels(a[..|a| - 1], b[..|b| - 1], level);
    } else {
      assert a[..|b|] == a && b[..|b|] == b;
    }
  }

  /** The heading finds renumbered ancestors. */
  lemma BaseRenumbers(w: Twins, a: Naming, b: Naming, h: Heading)
    requires Renumbers(w, a, b)
    ensures SameLevels(Base(a.stack, h), Base(b.stack, h))
    ensures KeyOf(a, h).parent == Renumbered(w, KeyOf(b, h).parent)
    ensures !(TwinPath(w, w.gone) <= KeyOf(b, h).parent)
  {
    hide Segments, Popped, Renumbered, CountsLess, TwinPath;
    assert SameLevels(a.stack, b.stack);
    if h.depth == 0 {
      PoppedLevels(a.stack, b.stack, h.level);
      var k := |Popped(b.stack, h.level)|;
      SegmentsPrefix(a.stack, k);
      SegmentsPrefix(b.stack, k);
      RenumberedPrefix(w, Segments(b.stack), k);
      LongerPrefix(TwinPath(w, w.gone), Segments(b.stack), k);
    }
  }

  lemma LongerPrefix(front: Trail, t: Trail, k: nat)
    requires k <= |t| && !(front <= t)
    ensures !(front <= t[..k])
  {
  }

  /** The heading is no removed section, and only a twin bears a twin's path. */
  ghost predicate Fits(w: Twins, b: Naming, h: Heading) {
    && TrailOf(b, h) != TwinPath(w, w.gone)
    && (KeyOf(b, h) == w.key ==> CountOf(b.counts, w.key) < w.last)
    && (KeyOf(b, h) != w.key ==> forall c: nat :: w.gone < c <= w.last ==> TrailOf(b, h) != TwinPath(w, c))
  }

  lemma TrailParts(st: Naming, h: Heading)
    ensures TrailOf(st, h) == KeyOf(st, h).parent + [Segment(h.slug, CountOf(st.counts, KeyOf(st, h)) + 1)]
    ensures KeyOf(st, h).slug == h.slug
  {
    hide Segments, Base, Segment;
  }

  /** The heading's own path is renumbered. */
  lemma StepTrail(w: Twins, a: Naming, b: Naming, h: Heading)
    requires Renumbers(w, a, b) && Fits(w, b, h) && w.gone >= 1
    ensures TrailOf(a, h) == Renumbered(w, TrailOf(b, h))
    ensures KeyOf(a, h) == Key(Renumbered(w, KeyOf(b, h).parent), KeyOf(b, h).slug)
    ensures !(TwinPath(w, w.gone) <= KeyOf(b, h).parent) && !(TwinPath(w, w.gone) <= TrailOf(b, h))
  {
    var k, n := KeyOf(b, h), CountOf(b.counts, KeyOf(b, h));
    BaseRenumbers(w, a, b, h);
    TrailParts(a, h);
    TrailParts(b, h);
    hide Segments, Base, Segment, TrailOf, KeyOf, Renumbered, SegmentOf;
    RenumberedSnoc(w, k.parent, Segment(h.slug, n + 1));
    if k == w.key {
      KeyUnmoved(w);
      assert TrailOf(b, h) == TwinPath(w, n + 1) && TrailOf(a, h) == TwinPath(w, n);
    }
  }

  lemma KeyUnmoved(w: Twins)
    ensures Renumbered(w, w.key.parent) == w.key.parent && !(TwinPath(w, w.gone) <= w.key.parent)
  {
    assert forall c: nat :: |TwinPath(w, c)| > |w.key.parent|;
  }

  /** Counting one key of each keeps all others in step. */
  lemma StepCounts(w: Twins, a: Naming, b: Naming, h: Heading)
    requires CountsLess(w, a, b) && w.gone >= 1
    requires KeyOf(a, h) == Key(Renumbered(w, KeyOf(b, h).parent), KeyOf(b, h).slug)
    requires !(TwinPath(w, w.gone) <= KeyOf(b, h).parent)
    ensures CountsLess(w, Named(a, h), Named(b, h))
  {
    hide KeyOf, Renumbered, TwinPath;
    var a', b', key := Named(a, h), Named(b, h), KeyOf(b, h);
    forall k: Key | !(TwinPath(w, w.gone) <= k.parent)
      ensures CountOf(b'.counts, k)
           == CountOf(a'.counts, Key(Renumbered(w, k.parent), k.slug)) + if k == w.key then 1 else 0
    {
      if Renumbered(w, k.parent) == Renumbered(w, key.parent) { RenumberedInjective(w, k.parent, key.parent); }
    }
  }

  lemma StepRenumbers(w: Twins, a: Naming, b: Naming, h: Heading)
    requires Renumbers(w, a, b) && Fits(w, b, h) && w.gone >= 1
    ensures TrailOf(a, h) == Renumbered(w, TrailOf(b, h)) && Renumbers(w, Named(a, h), Named(b, h))
    ensures !(TwinPath(w, w.gone) <= KeyOf(b, h).parent) && !(TwinPath(w, w.gone) <= TrailOf(b, h))
  {
    assert CountsLess(w, a, b);
    hide *;
    StepTrail(w, a, b, h);
    StepCounts(w, a, b, h);
    StepStacks(w, a, b, h);
    CountGrows(b, h, w.key);
    RenumbersIs(w, Named(a, h), Named(b, h));
  }

  lemma StepStacks(w: Twins, a: Naming, b: Naming, h: Heading)
    requires Renumbers(w, a, b) && TrailOf(a, h) == Renumbered(w, TrailOf(b, h))
    requires !(TwinPath(w, w.gone) <= TrailOf(b, h))
    ensures SameLevels(Named(a, h).stack, Named(b, h).stack) && w.gone <= CountOf(b.counts, w.key)
    ensures Segments(Named(a, h).stack) == Renumbered(w, Segments(Named(b, h).stack))
    ensures !(TwinPath(w, w.gone) <= Segments(Named(b, h).stack))
  {
    BaseRenumbers(w, a, b, h);
    StackNamed(a, h);
    StackNamed(b, h);
    hide Segments, Base, TwinPath, TrailOf, KeyOf, Renumbered, CountsLess, SegmentOf, Named;
  }

  lemma RenumbersIs(w: Twins, a: Naming, b: Naming)
    requires SameLevels(a.stack, b.stack) && Segments(a.stack) == Renumbered(w, Segments(b.stack))
    requires !(TwinPath(w, w.gone) <= Segments(b.stack)) && w.gone <= CountOf(b.counts, w.key) && CountsLess(w, a, b)
    ensures Renumbers(w, a, b)
  {
  }

  lemma CountGrows(st: Naming, h: Heading, k: Key)
    ensures CountOf(Named(st, h).counts, k) == CountOf(st.counts, k) + if k == KeyOf(st, h) then 1 else 0
  {
    hide KeyOf;
  }

  lemma CountNeverFalls(st: Naming, heads: seq<Heading>, k: Key)
    ensures CountOf(st.counts, k) <= CountOf(Run(st, heads).counts, k)
  {
    hide CountOf, Run, Keys;
    RunCounts(st, heads);
  }

  lemma StackNamed(st: Naming, h: Heading)
    ensures h.depth > 0 ==> Named(st, h).stack == st.stack
    ensures h.depth == 0 ==> Named(st, h).stack == Base(st.stack, h) + [(h.level, SegmentOf(st, h))]
    ensures h.depth == 0 ==> Segments(Named(st, h).stack) == TrailOf(st, h)
    ensures Named(st, h).counts == st.counts[KeyOf(st, h) := CountOf(st.counts, KeyOf(st, h)) + 1]
  {
    SegmentsSnoc(Base(st.stack, h), (h.level, SegmentOf(st, h)));
  }

  // ---- Renumbering all trails ----

  ghost predicate FitsAll(w: Twins, b: Naming, heads: seq<Heading>) {
    && CountOf(Run(b, heads).counts, w.key) <= w.last
    && forall j ::
      0 <= j < |heads| ==>
        && Trails(b, heads)[j] != TwinPath(w, w.gone)
        && (KeyList(b, heads)[j] != w.key ==>
            forall c: nat :: w.gone < c <= w.last ==> Trails(b, heads)[j] != TwinPath(w, c))
  }

  lemma FitsStep(w: Twins, b: Naming, heads: seq<Heading>)
    requires heads != [] && FitsAll(w, b, heads)
    ensures Fits(w, b, heads[0]) && FitsAll(w, Named(b, heads[0]), heads[1..])
  {
    var b', rest := Named(b, heads[0]), heads[1..];
    assert CountOf(b'.counts, KeyOf(b, heads[0])) == CountOf(b.counts, KeyOf(b, heads[0])) + 1;
    RunCounts(b', rest);
    assert Run(b, heads) == Run(b', rest);
    assert CountOf(b'.counts, w.key) <= CountOf(Run(b', rest).counts, w.key);
    hide Run, Named, KeyOf, TrailOf, TwinPath, CountOf;
    assert Trails(b, heads)[0] == TrailOf(b, heads[0]) && KeyList(b, heads)[0] == KeyOf(b, heads[0]);
    forall j | 0 <= j < |rest|
      ensures Trails(b', rest)[j] == Trails(b, heads)[j + 1] && KeyList(b', rest)[j] == KeyList(b, heads)[j + 1]
    {
    }
  }

  /** The trails of the headings behind: all renumbered, and none leads through the removed section. */
  ghost predicate RenumberedTo(w: Twins, mine: seq<Trail>, theirs: seq<Trail>) {
    |mine| == |theirs| && forall j ::
      0 <= j < |theirs| ==> mine[j] == Renumbered(w, theirs[j]) && !(TwinPath(w, w.gone) <= theirs[j])
  }

  lemma {:induction false} TrailsRenumbered(w: Twins, a: Naming, b: Naming, heads: seq<Heading>)
    requires Renumbers(w, a, b) && FitsAll(w, b, heads) && w.gone >= 1
    ensures RenumberedTo(w, Trails(a, heads), Trails(b, heads))
    ensures forall j :: 0 <= j < |heads| ==> !(TwinPath(w, w.gone) <= KeyList(b, heads)[j].parent)
    decreases |heads|
  {
    hide Renumbers, FitsAll, Named, KeyOf, TrailOf, TwinPath, Renumbered;
    if heads != [] {
      FitsStep(w, b, heads);
      StepRenumbers(w, a, b, heads[0]);
      TrailsRenumbered(w, Named(a, heads[0]), Named(b, heads[0]), heads[1..]);
    }
  }

  /** Every number counted is some section's. */
  lemma {:induction false} NumberOwned(st: Naming, heads: seq<Heading>, k: Key, c: nat) returns (j: nat)
    requires CountOf(st.counts, k) < c <= CountOf(Run(st, heads).counts, k)
    ensures j < |heads| && KeyList(st, heads)[j] == k && Trails(st, heads)[j] == k.parent + [Segment(k.slug, c)]
    decreases |heads|
  {
    var h := heads[0];
    hide KeyOf, TrailOf, Named, Segment, CountOf;
    CountGrows(st, h, k);
    TrailParts(st, h);
    if CountOf(Named(st, h).counts, k) < c {
      j := NumberOwned(Named(st, h), heads[1..], k, c);
      j := j + 1;
    } else {
      j := 0;
    }
  }

  /** And every section under a key has a number of its own among those counted. */
  lemma {:induction false} NumberCounted(st: Naming, heads: seq<Heading>, j: nat) returns (c: nat)
    requires j < |heads|
    ensures var k := KeyList(st, heads)[j];
      && CountOf(st.counts, k) < c <= CountOf(Run(st, heads).counts, k)
      && Trails(st, heads)[j] == k.parent + [Segment(k.slug, c)]
    decreases |heads|
  {
    var h, k := heads[0], KeyList(st, heads)[j];
    hide KeyOf, TrailOf, Named, Segment, CountOf;
    CountGrows(st, h, k);
    TrailParts(st, h);
    CountNeverFalls(Named(st, h), heads[1..], k);
    if j > 0 {
      c := NumberCounted(Named(st, h), heads[1..], j - 1);
    } else {
      c := CountOf(st.counts, k) + 1;
    }
  }

  // ---- Paths nobody in front has ----

  /** No open section and no counted one lies under `t`. */
  ghost predicate Avoids(st: Naming, t: Trail) {
    !(t <= Segments(st.stack)) && forall k :: CountOf(st.counts, k) > 0 ==> !(t <= k.parent)
  }

  lemma AvoidsStep(st: Naming, h: Heading, t: Trail)
    requires Avoids(st, t) && TrailOf(st, h) != t
    ensures Avoids(Named(st, h), t) && !(t <= TrailOf(st, h)) && !(t <= KeyOf(st, h).parent)
  {
    StackNamed(st, h);
    TrailParts(st, h);
    if h.depth == 0 {
      PoppedLevels(st.stack, st.stack, h.level);
      SegmentsPrefix(st.stack, |Popped(st.stack, h.level)|);
    }
    assert !(t <= KeyOf(st, h).parent);
    hide Segments, Popped, Base, KeyOf, TrailOf, Segment, SegmentOf;
  }

  lemma {:induction false} AvoidsRun(st: Naming, heads: seq<Heading>, t: Trail)
    requires Avoids(st, t) && t !in Trails(st, heads)
    ensures Avoids(Run(st, heads), t)
    ensures forall j :: 0 <= j < |heads| ==> !(t <= Trails(st, heads)[j])
    decreases |heads|
  {
    hide Avoids, Named, TrailOf;
    if heads != [] {
      var more := Trails(Named(st, heads[0]), heads[1..]);
      assert Trails(st, heads) == [TrailOf(st, heads[0])] + more;
      assert Trails(st, heads)[0] == TrailOf(st, heads[0]) && more == Trails(st, heads)[1..];
      AvoidsStep(st, heads[0], t);
      AvoidsRun(Named(st, heads[0]), heads[1..], t);
    }
  }

  // ---- Removing a block ----

  lemma {:induction false} CountsUntouched(st: Naming, heads: seq<Heading>, k: Key)
    requires k !in Keys(st, heads)
    ensures CountOf(Run(st, heads).counts, k) == CountOf(st.counts, k)
  {
    RunCounts(st, heads);
  }

  /** A block counts its root once, and otherwise only what lies below the root. */
  lemma BlockCounts(st: Naming, block: seq<Heading>, k: Key)
    requires IsBlock(block) && !(TrailOf(st, block[0]) <= k.parent)
    ensures CountOf(Run(st, block).counts, k)
         == CountOf(st.counts, k) + if k == KeyOf(st, block[0]) then 1 else 0
    ensures KeyOf(st, block[0]) in Keys(st, block) && (k in Keys(st, block) ==> k == KeyOf(st, block[0]))
  {
    var h := block[0];
    if h.depth > 0 {
      assert block[1..] == [] && Run(st, block) == Named(st, h);
    } else {
      BlockKeys(st, block);
      BelowRoot(st, block, k);
    }
  }

  lemma BelowRoot(st: Naming, block: seq<Heading>, k: Key)
    requires IsBlock(block) && block[0].depth == 0 && !(TrailOf(st, block[0]) <= k.parent)
    ensures CountOf(Run(st, block).counts, k)
         == CountOf(st.counts, k) + if k == KeyOf(st, block[0]) then 1 else 0
  {
    hide Segments, Popped, SegmentOf, KeyOf;
    var h := block[0];
    var root := Base(st.stack, h) + [(h.level, SegmentOf(st, h))];
    StackNamed(st, h);
    assert root[..|root|] == root;
    InnerKeys(Named(st, h), block[1..], root);
    CountsUntouched(Named(st, h), block[1..], k);
  }

  /** The first heading behind pops for itself, so popping for it beforehand changes no trail. */
  lemma PoppedFirst(st: Naming, heads: seq<Heading>)
    requires heads != []
    ensures var base := Naming(Base(st.stack, heads[0]), st.counts);
      && Trails(base, heads) == Trails(st, heads) && KeyList(base, heads) == KeyList(st, heads)
      && Run(base, heads) == Run(st, heads)
  {
    var h := heads[0];
    if h.depth == 0 { PoppedTwice(st.stack, h.level, h.level); }
    var base := Naming(Base(st.stack, h), st.counts);
    assert Base(base.stack, h) == Base(st.stack, h);
    hide Popped, Base;
    assert KeyOf(base, h) == KeyOf(st, h);
    hide KeyOf;
    assert TrailOf(base, h) == TrailOf(st, h);
    StackNamed(base, h);
    StackNamed(st, h);
    hide TrailOf, SegmentOf, Segments;
    assert h.depth > 0 ==> base.stack == st.stack;
    assert Named(base, h) == Named(st, h);
  }

  /** Removing `block` from between `front` and `behind`, where all paths differ. */
  ghost predicate Removal(front: seq<Heading>, block: seq<Heading>, behind: seq<Heading>, st: Naming, w: Twins) {
    && IsBlock(block) && ClosedBy(block, behind) && st == Run(FRESH, front)
    && w == Twins(KeyOf(st, block[0]), CountOf(st.counts, KeyOf(st, block[0])) + 1,
                  CountOf(Run(FRESH, front + block + behind).counts, KeyOf(st, block[0])))
    && Distinct(Trails(FRESH, front + block + behind))
  }

  ghost predicate Distinct(trails: seq<Trail>) {
    forall i, j :: 0 <= i < j < |trails| ==> trails[i] != trails[j]
  }

  lemma DistinctPieces(x: seq<Trail>, y: seq<Trail>, z: seq<Trail>)
    requires Distinct(x + y + z)
    ensures Distinct(z) && forall t :: t in z ==> t !in x && t !in y
    ensures forall t :: t in y ==> t !in x
  {
    var all := x + y + z;
    forall i, j | 0 <= i < j < |z| ensures z[i] != z[j] {
      assert all[|x| + |y| + i] == z[i] && all[|x| + |y| + j] == z[j];
    }
    forall t | t in z ensures t !in x && t !in y {
      var j :| 0 <= j < |z| && z[j] == t;
      assert all[|x| + |y| + j] == t;
      assert forall i :: 0 <= i < |x| ==> all[i] == x[i];
      assert forall i :: 0 <= i < |y| ==> all[|x| + i] == y[i];
    }
    forall t | t in y ensures t !in x {
      var j :| 0 <= j < |y| && y[j] == t;
      assert all[|x| + j] == t;
      assert forall i :: 0 <= i < |x| ==> all[i] == x[i];
    }
  }

  lemma RemovalFacts(front: seq<Heading>, block: seq<Heading>, behind: seq<Heading>, st: Naming, w: Twins)
    requires Removal(front, block, behind, st, w)
    ensures IsBlock(block) && ClosedBy(block, behind) && st == Run(FRESH, front) && w.gone >= 1
    ensures w.key == KeyOf(st, block[0]) && w.gone == CountOf(st.counts, w.key) + 1
    ensures w.last == CountOf(Run(Run(st, block), behind).counts, w.key)
    ensures TwinPath(w, w.gone) == TrailOf(st, block[0])
    ensures Distinct(Trails(FRESH, front) + Trails(st, block) + Trails(Run(st, block), behind))
    ensures Trails(FRESH, front + block + behind)
         == Trails(FRESH, front) + Trails(st, block) + Trails(Run(st, block), behind)
    ensures CountOf(Run(st, block).counts, w.key) == w.gone
  {
    NamingAppend(FRESH, front + block, behind);
    NamingAppend(FRESH, front, block);
    TrailParts(st, block[0]);
    assert |TrailOf(st, block[0])| > |KeyOf(st, block[0]).parent|;
    BlockCounts(st, block, KeyOf(st, block[0]));
    hide Trails, Run, KeyOf, TrailOf, Segment, IsBlock, ClosedBy;
  }

  /** The paths of the removed section and its later twins lead nowhere in front. */
  lemma FrontAvoids(front: seq<Heading>, block: seq<Heading>, behind: seq<Heading>, st: Naming, w: Twins, c: nat)
    requires Removal(front, block, behind, st, w) && w.gone <= c <= w.last
    ensures Avoids(st, TwinPath(w, c))
    ensures forall j :: 0 <= j < |front| ==> !(TwinPath(w, c) <= Trails(FRESH, front)[j])
  {
    assert Avoids(FRESH, TwinPath(w, c));
    hide *;
    RemovalFacts(front, block, behind, st, w);
    DistinctPieces(Trails(FRESH, front), Trails(st, block), Trails(Run(st, block), behind));
    if c == w.gone {
      RootTrail(st, block);
    } else {
      var j := NumberOwned(Run(st, block), behind, w.key, c);
      TwinPathIs(w, c);
      Member(Trails(Run(st, block), behind), j);
    }
    AvoidsRun(FRESH, front, TwinPath(w, c));
  }

  lemma TwinPathIs(w: Twins, c: nat)
    ensures TwinPath(w, c) == w.key.parent + [Segment(w.key.slug, c)]
  {
  }

  lemma Member(s: seq<Trail>, j: nat)
    requires j < |s|
    ensures s[j] in s
  {
  }

  lemma RootTrail(st: Naming, block: seq<Heading>)
    requires IsBlock(block)
    ensures block != [] && TrailOf(st, block[0]) in Trails(st, block)
  {
    assert Trails(st, block)[0] == TrailOf(st, block[0]);
  }

  /** Distinct paths make the headings behind fit. */
  lemma BehindFits(front: seq<Heading>, block: seq<Heading>, behind: seq<Heading>, st: Naming, w: Twins)
    requires Removal(front, block, behind, st, w)
    ensures FitsAll(w, Run(st, block), behind)
  {
    hide Removal, Run, Trails, KeyList, Keys, TwinPath, TrailOf, KeyOf, IsBlock, ClosedBy, Distinct;
    RemovalFacts(front, block, behind, st, w);
    var b, z := Run(st, block), Trails(Run(st, block), behind);
    DistinctPieces(Trails(FRESH, front), Trails(st, block), z);
    RootTrail(st, block);
    forall j | 0 <= j < |behind|
      ensures z[j] != TwinPath(w, w.gone)
      ensures KeyList(b, behind)[j] != w.key ==> forall c: nat :: w.gone < c <= w.last ==> z[j] != TwinPath(w, c)
    {
      Member(z, j);
      if KeyList(b, behind)[j] != w.key {
        forall c: nat | w.gone < c <= w.last ensures z[j] != TwinPath(w, c) {
          OtherKey(w, b, behind, j, c);
        }
      }
    }
  }

  lemma OtherKey(w: Twins, b: Naming, heads: seq<Heading>, j: nat, c: nat)
    requires Distinct(Trails(b, heads)) && CountOf(b.counts, w.key) < c <= CountOf(Run(b, heads).counts, w.key)
    requires j < |heads| && KeyList(b, heads)[j] != w.key
    ensures Trails(b, heads)[j] != TwinPath(w, c)
  {
    hide Run, Trails, KeyList, CountOf;
    var i := NumberOwned(b, heads, w.key, c);
    assert i != j;
  }

  lemma FrontAvoidsAll(front: seq<Heading>, block: seq<Heading>, behind: seq<Heading>, st: Naming, w: Twins)
    requires Removal(front, block, behind, st, w)
    ensures forall c: nat :: w.gone <= c <= w.last ==> Avoids(st, TwinPath(w, c))
    ensures forall c: nat, j :: w.gone <= c <= w.last && 0 <= j < |front| ==>
      !(TwinPath(w, c) <= Trails(FRESH, front)[j])
    ensures w.gone <= w.last
  {
    RemovalFacts(front, block, behind, st, w);
    RunCounts(Run(st, block), behind);
    assert CountOf(Run(st, block).counts, w.key) <= CountOf(Run(Run(st, block), behind).counts, w.key);
    hide *;
    forall c: nat | w.gone <= c <= w.last
      ensures Avoids(st, TwinPath(w, c))
      ensures forall j :: 0 <= j < |front| ==> !(TwinPath(w, c) <= Trails(FRESH, front)[j])
    {
      FrontAvoids(front, block, behind, st, w, c);
    }
  }

  /** A path nothing in front lies under is no twin's, so it keeps its name. */
  lemma Unmoved(w: Twins, t: Trail)
    requires forall c: nat :: w.gone <= c <= w.last ==> !(TwinPath(w, c) <= t)
    ensures Renumbered(w, t) == t
  {
  }

  lemma StartCounts(st: Naming, block: seq<Heading>, w: Twins, k: Key)
    requires IsBlock(block) && TwinPath(w, w.gone) == TrailOf(st, block[0]) && w.key == KeyOf(st, block[0])
    requires forall c: nat :: w.gone <= c <= w.last ==> Avoids(st, TwinPath(w, c))
    requires !(TwinPath(w, w.gone) <= k.parent)
    ensures CountOf(Run(st, block).counts, k)
         == CountOf(st.counts, Key(Renumbered(w, k.parent), k.slug)) + if k == w.key then 1 else 0
  {
    hide Segments, KeyOf, TrailOf, CountOf, Renumbered, TwinPath, IsBlock, Run;
    BlockCounts(st, block, k);
    if c: nat :| Through(w, k.parent, c) {
      RenumberedThrough(w, k.parent, c);
      assert TwinPath(w, c - 1) <= Renumbered(w, k.parent);
      assert CountOf(st.counts, k) == 0;
      KeyUnmoved(w);
    } else {
      NotThrough(w, k.parent);
    }
  }

  lemma NotThrough(w: Twins, t: Trail)
    requires forall c: nat :: !Through(w, t, c)
    ensures Renumbered(w, t) == t
  {
  }

  lemma StartRenumbers(front: seq<Heading>, block: seq<Heading>, behind: seq<Heading>, st: Naming, w: Twins,
          stack: seq<(nat, string)>)
    requires Removal(front, block, behind, st, w) && behind != [] && stack == Base(st.stack, behind[0])
    ensures Renumbers(w, Naming(stack, st.counts), Naming(stack, Run(st, block).counts))
  {
    hide Removal, Segments, Base, Renumbered, TwinPath, CountOf, IsBlock, ClosedBy, KeyOf, TrailOf, Run, Trails, Avoids;
    RemovalFacts(front, block, behind, st, w);
    FrontAvoidsAll(front, block, behind, st, w);
    StartStack(st, w, behind[0]);
    forall k: Key | !(TwinPath(w, w.gone) <= k.parent)
      ensures CountOf(Run(st, block).counts, k)
           == CountOf(st.counts, Key(Renumbered(w, k.parent), k.slug)) + if k == w.key then 1 else 0
    {
      StartCounts(st, block, w, k);
    }
  }

  lemma StartStack(st: Naming, w: Twins, h: Heading)
    requires w.gone <= w.last && forall c: nat :: w.gone <= c <= w.last ==> Avoids(st, TwinPath(w, c))
    ensures Segments(Base(st.stack, h)) == Renumbered(w, Segments(Base(st.stack, h)))
    ensures !(TwinPath(w, w.gone) <= Segments(Base(st.stack, h)))
  {
    hide Segments, Popped, Renumbered, TwinPath;
    var stack := Base(st.stack, h);
    if h.depth == 0 { PoppedLevels(st.stack, st.stack, h.level); }
    assert st.stack[..|st.stack|] == st.stack;
    SegmentsPrefix(st.stack, |stack|);
    assert Segments(stack) == Segments(st.stack)[..|stack|];
    forall c: nat | w.gone <= c <= w.last ensures !(TwinPath(w, c) <= Segments(stack)) {
      assert Avoids(st, TwinPath(w, c));
      LongerPrefix(TwinPath(w, c), Segments(st.stack), |stack|);
    }
    Unmoved(w, Segments(stack));
  }

  /** Behind the removed block every path is renumbered, and none leads through the block's root. */
  lemma BehindRenumbered(front: seq<Heading>, block: seq<Heading>, behind: seq<Heading>, st: Naming, w: Twins)
    requires Removal(front, block, behind, st, w)
    ensures RenumberedTo(w, Trails(st, behind), Trails(Run(st, block), behind))
    ensures forall j :: 0 <= j < |behind| ==> !(TwinPath(w, w.gone) <= KeyList(Run(st, block), behind)[j].parent)
  {
    hide *;
    if behind == [] {
      NothingBehind(w, st, Run(st, block), behind);
    } else {
      var h, b := behind[0], Run(st, block);
      RemovalFacts(front, block, behind, st, w);
      BlockKeepsBase(st, block, behind);
      PoppedFirst(st, behind);
      PoppedFirst(b, behind);
      StartRenumbers(front, block, behind, st, w, Base(st.stack, h));
      BehindFits(front, block, behind, st, w);
      FitsPopped(w, b, behind);
      TrailsRenumbered(w, Naming(Base(st.stack, h), st.counts), Naming(Base(st.stack, h), b.counts), behind);
    }
  }

  lemma NothingBehind(w: Twins, a: Naming, b: Naming, heads: seq<Heading>)
    requires heads == []
    ensures RenumberedTo(w, Trails(a, heads), Trails(b, heads))
  {
  }

  lemma FitsPopped(w: Twins, b: Naming, heads: seq<Heading>)
    requires FitsAll(w, b, heads) && heads != []
    ensures FitsAll(w, Naming(Base(b.stack, heads[0]), b.counts), heads)
  {
    PoppedFirst(b, heads);
    hide Run, Trails, KeyList, Base, TwinPath;
  }

  /** Paths in front stay, and lead neither through the block's root nor through a later twin. */
  lemma FrontUnmoved(front: seq<Heading>, block: seq<Heading>, behind: seq<Heading>, st: Naming, w: Twins, j: nat)
    requires Removal(front, block, behind, st, w) && j < |front|
    ensures Renumbered(w, Trails(FRESH, front)[j]) == Trails(FRESH, front)[j]
    ensures !(TwinPath(w, w.gone) <= Trails(FRESH, front)[j])
  {
    hide *;
    FrontAvoidsAll(front, block, behind, st, w);
    Unmoved(w, Trails(FRESH, front)[j]);
  }

  /** Exactly the paths that lead through a section behind the block counted under one of its keys are renumbered. */
  lemma RenumberedIff(front: seq<Heading>, block: seq<Heading>, behind: seq<Heading>, st: Naming, w: Twins, t: Trail)
    requires Removal(front, block, behind, st, w)
    ensures Renumbered(w, t) != t <==>
      exists j :: 0 <= j < |behind| && Trails(Run(st, block), behind)[j] <= t &&
        KeyList(Run(st, block), behind)[j] in Keys(st, block)
  {
    hide Removal, IsBlock, ClosedBy, Run, Trails, KeyList, Keys, Renumbered, KeyOf, TrailOf, CountOf, TwinPath;
    RemovalFacts(front, block, behind, st, w);
    BehindRenumbered(front, block, behind, st, w);
    var b := Run(st, block);
    if c: nat :| Through(w, t, c) {
      RenumberedMoves(w, t, c);
      var j := NumberOwned(b, behind, w.key, c);
      TwinPathIs(w, c);
      RootKey(st, block);
      assert Trails(b, behind)[j] <= t && KeyList(b, behind)[j] in Keys(st, block);
    } else {
      NotThrough(w, t);
      forall j | 0 <= j < |behind| && KeyList(b, behind)[j] in Keys(st, block) ensures !(Trails(b, behind)[j] <= t) {
        BlockCounts(st, block, KeyList(b, behind)[j]);
        var c := NumberCounted(b, behind, j);
        TwinPathIs(w, c);
        assert !Through(w, t, c);
      }
    }
  }

  lemma RootKey(st: Naming, block: seq<Heading>)
    requires IsBlock(block)
    ensures block != [] && KeyOf(st, block[0]) in Keys(st, block)
  {
  }

  lemma RenumberedMoves(w: Twins, t: Trail, c: nat)
    requires Through(w, t, c) && w.gone >= 1
    ensures Renumbered(w, t) != t
  {
    RenumberedThrough(w, t, c);
    hide Segment, Renumbered;
    var i := |w.key.parent|;
    assert t[..i + 1][i] == Segment(w.key.slug, c) &&
           (TwinPath(w, c - 1) + t[i + 1..])[i] == Segment(w.key.slug, c - 1);
    if Segment(w.key.slug, c) == Segment(w.key.slug, c - 1) { SegmentInjective(w.key.slug, c, c - 1); }
  }
}
