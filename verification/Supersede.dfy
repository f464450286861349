/** Supersede chains: the typed back-links between features and the integrity pass over them. */
module Supersede {
  import opened Basics
  import opened Refs
  import opened Memories
  import opened TrackerOps
  import opened Tickets
  import opened Rename

  /** A file the diagnostics read as a feature: UUID-named, below a slug, valid UTF-8, with a `[feature]` block. */
  predicate IsFeature(t: Tree, p: Path) {
    p in t && p.slug != "" && IsUuidName(p.name) && Strict(t[p]).Some? && Strict(t[p]).value.feature.Some?
  }

  /** The feature in `p` says it was superseded by `to`. */
  predicate Linked(t: Tree, p: Path, to: Uuid) {
    IsFeature(t, p) && var link := Strict(t[p]).value.feature.value.supersededBy; link.Some? && link.value.target == to
  }

  predicate RefersTo(t: Tree, p: Path, id: Uuid) {
    IsFeature(t, p) && id in Targets(Strict(t[p]).value.refs)
  }

  /** Feature `to` exists and one of its references points back at `id`. */
  ghost predicate Backed(t: Tree, id: Uuid, to: Uuid) {
    exists q :: q in t && IsUuidName(q.name) && IdOf(q.name) == to && RefersTo(t, q, id)
  }

  ghost predicate LinksBacked(t: Tree) {
    forall p, to :: p in t && Linked(t, p, to) ==> Backed(t, IdOf(p.name), to)
  }

  ghost predicate OnePredecessor(t: Tree) {
    forall p, q, to :: p in t && q in t && Linked(t, p, to) && Linked(t, q, to) ==> p == q
  }

  /** Every link goes from an older memory to a strictly younger one; memories without a birth predate the run. */
  ghost predicate LinksAscend(t: Tree, births: map<Uuid, nat>) {
    forall p, to ::
      p in t && Linked(t, p, to) ==> to in births && (IdOf(p.name) in births ==> births[IdOf(p.name)] < births[to])
  }

  ghost predicate ChainsOk(t: Tree, births: map<Uuid, nat>) {
    LinksBacked(t) && OnePredecessor(t) && LinksAscend(t, births) && IdsUnique(t)
  }

  /** Nothing in the tree knows `id` yet. */
  ghost predicate Unborn(t: Tree, id: Uuid) {
    id !in AllIds(t) && forall p :: p in t ==> !Linked(t, p, id)
  }

  // ---- What one operation keeps ----

  /** The first commit of a create adds an unlinked memory nobody links to. */
  lemma AddKeepsChains(t: Tree, births: map<Uuid, nat>, clock: nat, on: Surface, spec: AddSpec, id: Uuid, edits: Edits)
    requires ChainsOk(t, births) && Unborn(t, id) && AddEdits(t, on, spec, id) == Ok(edits)
    ensures ChainsOk(Apply(t, edits), births[id := clock])
    ensures forall p :: p in Apply(t, edits) ==> !Linked(Apply(t, edits), p, id)
  {
    var n, over := AddedMemory(t, on, spec, id, edits);
    var path := MemoryPath(SlugOf(spec), id);
    var t' := Apply(t, edits);
    assert forall p, to :: p in t' && Linked(t', p, to) ==> p in t && Linked(t, p, to) && p != path;
    forall p, to | p in t' && Linked(t', p, to) ensures Backed(t', IdOf(p.name), to) {
      var q :| q in t && IsUuidName(q.name) && IdOf(q.name) == to && RefersTo(t, q, IdOf(p.name));
      assert RefersTo(t', q, IdOf(p.name));
    }
    forall p | p in t && IsUuidName(p.name) ensures IdOf(p.name) != id {
      assert IdOf(p.name) in AllIds(t);
    }
  }

  /** The memory a superseding create writes refers back to the memory it supersedes. */
  lemma AddedMemoryRefersBack(t: Tree, spec: AddSpec, id: Uuid, edits: Edits)
    requires AddEdits(t, Features, spec, id) == Ok(edits) && spec.supersedes.Some?
    ensures SupersedeTarget(t, Features, spec.supersedes.value).Ok?
    ensures var target := SupersedeTarget(t, Features, spec.supersedes.value).value;
      RefersTo(Apply(t, edits), MemoryPath(SlugOf(spec), id), target)
  {
    var n, over := AddedMemory(t, Features, spec, id, edits);
    var m := NewMemory(Features, spec, id, n, over);
    if over.value !in Targets(spec.refs) {
      assert Ref(over.value, "") in m.refs;
    }
  }

  // ---- Updates ----

  /** What any update does to the features of the tree: only the rewritten file changes. */
  lemma UpdatedFile(t: Tree, on: Surface, slug: string, spec: UpdateSpec, edits: Edits) returns (p: Path)
    requires UpdateEdits(t, on, slug, spec) == Ok(edits)
    ensures Resolve(t, slug).Ok? && p == MemoryPath(slug, Resolve(t, slug).value)
    ensures var t' := Apply(t, edits);
      && p in t && p in t' && t' == t[p := t'[p]] && (on == Features ==> IsFeature(t, p)) &&
         IsFeature(t', p) == (on == Features)
    ensures forall id :: RefersTo(Apply(t, edits), p, id) <==> on == Features && RefKept(t, p, spec, id)
    ensures forall to :: Linked(Apply(t, edits), p, to) <==> on == Features && LinksAfter(t, p, spec, to)
  {
    var id, m := UpdatedMemory(t, on, slug, spec, edits);
    p := MemoryPath(slug, id);
    var before := Strict(t[p]).value;
    ComposeTargets(before.refs, spec.refsRemove, spec.refsAdd);
  }

  /** The link the update leaves: the one it sets, or the one that was there. */
  predicate LinksAfter(t: Tree, p: Path, spec: UpdateSpec, to: Uuid) {
    if spec.supersededBy.Some? then spec.supersededBy.value.target == to else Linked(t, p, to)
  }

  /** The update leaves or puts a reference to `id` in the file. */
  predicate RefKept(t: Tree, p: Path, spec: UpdateSpec, id: Uuid) {
    id in Targets(OrEmpty(spec.refsAdd)) || (RefersTo(t, p, id) && id !in Elements(OrEmpty(spec.refsRemove)))
  }

  /** No other feature says it was superseded by the one in `p`. */
  ghost predicate NobodyElseLinks(t: Tree, p: Path, id: Uuid) {
    forall q :: q in t && q != p ==> !Linked(t, q, id)
  }

  /** Whoever links to the feature in `p` keeps the reference back. */
  ghost predicate RefsStay(t: Tree, p: Path, id: Uuid, spec: UpdateSpec) {
    forall q :: q in t && q != p && Linked(t, q, id) ==> RefKept(t, p, spec, IdOf(q.name))
  }

  /**
    A link from `p`, which holds memory `id`, to `to`: an existing younger feature that refers back and that
    nobody else links to.
  */
  ghost predicate LinkFits(t: Tree, births: map<Uuid, nat>, p: Path, id: Uuid, to: Uuid) {
    to in births && (id in births ==> births[id] < births[to]) && Backed(t, id, to) && NobodyElseLinks(t, p, to)
  }

  /** What an update must meet to leave every chain intact. */
  ghost predicate UpdateSafe(t: Tree, births: map<Uuid, nat>, on: Surface, p: Path, id: Uuid, spec: UpdateSpec) {
    if on == Features then RefsStay(t, p, id, spec) &&
    (spec.supersededBy.Some? ==> LinkFits(t, births, p, id, spec.supersededBy.value.target))
    else IsFeature(t, p) ==> NobodyElseLinks(t, p, id)
  }

  /** `t'` is `t` with the file of memory `id` rewritten: as a feature with these references and links, or as none. */
  ghost predicate Rewritten(t: Tree, t': Tree, p: Path, id: Uuid, on: Surface, spec: UpdateSpec) {
    && p in t && p in t' && t' == t[p := t'[p]] && IsUuidName(p.name) && IdOf(p.name) == id
    && (on == Features ==> IsFeature(t, p)) && IsFeature(t', p) == (on == Features)
    && (forall x :: RefersTo(t', p, x) <==> on == Features && RefKept(t, p, spec, x))
    && (forall to :: Linked(t', p, to) <==> on == Features && LinksAfter(t, p, spec, to))
  }

  lemma OthersAsBefore(t: Tree, t': Tree, p: Path, q: Path)
    requires p in t && p in t' && t' == t[p := t'[p]] && q != p
    ensures q in t <==> q in t'
    ensures IsFeature(t', q) == IsFeature(t, q)
    ensures forall to :: Linked(t', q, to) == Linked(t, q, to)
    ensures forall id :: RefersTo(t', q, id) == RefersTo(t, q, id)
  {
  }

  /** What backs a link from another file than `p`, or to another memory than the one in `p`, is as before. */
  lemma BackedAsBefore(t: Tree, t': Tree, p: Path, id: Uuid, to: Uuid)
    requires IdsUnique(t) && p in t && p in t' && t' == t[p := t'[p]] && IsUuidName(p.name)
    ensures IdOf(p.name) != to ==> (Backed(t', id, to) <==> Backed(t, id, to))
    ensures IdOf(p.name) == to ==>
      (Backed(t', id, to) <==> RefersTo(t', p, id)) && (Backed(t, id, to) <==> RefersTo(t, p, id))
  {
    hide IsFeature, RefersTo;
    forall q | q != p
      ensures (q in t <==> q in t') && RefersTo(t', q, id) == RefersTo(t, q, id)
    {
      OthersAsBefore(t, t', p, q);
    }
  }

  lemma LinkersAreNamed(t: Tree)
    ensures forall q, to :: Linked(t, q, to) ==> q in t && IsUuidName(q.name)
  {
  }

  lemma SafeRewriteKeepsChains(t: Tree, t': Tree, births: map<Uuid, nat>, p: Path, id: Uuid, on: Surface,
          spec: UpdateSpec)
    requires ChainsOk(t, births) && Rewritten(t, t', p, id, on, spec) && UpdateSafe(t, births, on, p, id, spec)
    ensures ChainsOk(t', births)
  {
    hide IsFeature, Linked, RefersTo, Backed, RefKept;
    LinkersAreNamed(t');
    forall q | q != p
      ensures (q in t <==> q in t') && forall to :: Linked(t', q, to) == Linked(t, q, to)
    {
      OthersAsBefore(t, t', p, q);
    }
    forall q, to | q in t' && Linked(t', q, to) ensures Backed(t', IdOf(q.name), to) {
      BackedAsBefore(t, t', p, IdOf(q.name), to);
      if q != p && to == id { RefersFromFeature(t, p, IdOf(q.name)); }
    }
  }

  lemma RefersFromFeature(t: Tree, p: Path, id: Uuid)
    ensures RefersTo(t, p, id) ==> IsFeature(t, p)
  {
  }

  lemma KeptChainsWereSafe(t: Tree, t': Tree, births: map<Uuid, nat>, p: Path, id: Uuid, on: Surface, spec: UpdateSpec)
    requires ChainsOk(t, births) && ChainsOk(t', births) && Rewritten(t, t', p, id, on, spec)
    ensures UpdateSafe(t, births, on, p, id, spec)
  {
    hide IsFeature, Linked, RefersTo, Backed, RefKept;
    LinkersAreNamed(t);
    forall q | q != p
      ensures (q in t <==> q in t') && forall to :: Linked(t', q, to) == Linked(t, q, to)
    {
      OthersAsBefore(t, t', p, q);
    }
    forall q | q in t && q != p && Linked(t, q, id) ensures on == Features && RefKept(t, p, spec, IdOf(q.name)) {
      assert q in t' && Linked(t', q, id);
      BackedAsBefore(t, t', p, IdOf(q.name), id);
    }
    if on == Features && spec.supersededBy.Some? {
      var to := spec.supersededBy.value.target;
      assert Linked(t', p, to);
      BackedAsBefore(t, t', p, id, to);
    }
  }

  /**
    An update keeps every chain exactly when it is safe: a feature keeps the references that back links to
    it, a link it sets goes to a younger feature that refers back and has no predecessor yet, and an issue
    update of a file that is also a feature, which drops the feature, meets one nobody links to.
  */
  lemma UpdateKeepsChainsIff(t: Tree, births: map<Uuid, nat>, on: Surface, slug: string, spec: UpdateSpec, edits: Edits)
    requires ChainsOk(t, births) && UpdateEdits(t, on, slug, spec) == Ok(edits)
    ensures Resolve(t, slug).Ok?
    ensures var id := Resolve(t, slug).value;
      ChainsOk(Apply(t, edits), births) <==> UpdateSafe(t, births, on, MemoryPath(slug, id), id, spec)
  {
    hide UpdateEdits, Resolve, ChainsOk, Apply, Linked, RefersTo, IsFeature, UpdateSafe, RefKept;
    var p := UpdatedFile(t, on, slug, spec, edits);
    var id, t' := Resolve(t, slug).value, Apply(t, edits);
    assert Rewritten(t, t', p, id, on, spec);
    if UpdateSafe(t, births, on, p, id, spec) { SafeRewriteKeepsChains(t, t', births, p, id, on, spec); }
    if ChainsOk(t', births) { KeptChainsWereSafe(t, t', births, p, id, on, spec); }
  }

  /**
    The second commit of a superseding create is safe: it links the old feature to the young one, which
    nobody linked to yet, exists, refers back, and was born later. A middle link of a longer chain is
    rewritten the same way; its own references, and so the link that leads to it, stay.
  */
  lemma BackLinkKeepsChains(t: Tree, births: map<Uuid, nat>, slug: string, id: Uuid, commit: string, edits: Edits)
    requires ChainsOk(t, births) && UpdateEdits(t, Features, slug, BackLink(id, commit)) == Ok(edits)
    requires forall p :: p in t ==> !Linked(t, p, id)
    requires var old_ := Resolve(t, slug).value;
      Backed(t, old_, id) && id in births && (old_ in births ==> births[old_] < births[id])
    ensures ChainsOk(Apply(t, edits), births)
  {
    hide UpdateEdits, Resolve, Backed, ChainsOk, Apply, Linked, RefersTo, IsFeature;
    UpdateKeepsChainsIff(t, births, Features, slug, BackLink(id, commit), edits);
    var p := UpdatedFile(t, Features, slug, BackLink(id, commit), edits);
    LinkersAreReferredTo(t, births, p);
  }

  /** Nothing is removed, so every reference that backs a link stays. */
  lemma LinkersAreReferredTo(t: Tree, births: map<Uuid, nat>, p: Path)
    requires ChainsOk(t, births) && p in t && IsUuidName(p.name)
    ensures forall q :: q in t && Linked(t, q, IdOf(p.name)) ==> RefersTo(t, p, IdOf(q.name))
  {
    hide Linked, RefersTo;
  }

  /** An update that neither sets a link nor removes references is safe on a feature. */
  predicate LinkNeutral(spec: UpdateSpec) {
    spec.supersededBy.None? && OrEmpty(spec.refsRemove) == []
  }

  lemma LinkNeutralIsSafe(t: Tree, births: map<Uuid, nat>, p: Path, id: Uuid, spec: UpdateSpec)
    requires ChainsOk(t, births) && p in t && IsUuidName(p.name) && IdOf(p.name) == id && LinkNeutral(spec)
    ensures UpdateSafe(t, births, Features, p, id, spec)
  {
    hide Linked, RefersTo, ChainsOk;
    LinkersAreReferredTo(t, births, p);
  }

  lemma RenameKeepsChains(t: Tree, births: map<Uuid, nat>, on: Surface, old_: string, new_: string, edits: Edits)
    requires ChainsOk(t, births) && RenameEdits(t, on, old_, new_) == Ok(edits)
    ensures ChainsOk(Apply(t, edits), births)
  {
    if old_ != new_ {
      var t' := Apply(t, edits);
      RenameConserves(t, on, old_, new_, edits);
      RenameKeepsIds(t, on, old_, new_, edits);
      MovedFilesAreTheNames(t, on, old_, new_, edits);
      SameFilesSameChains(t, t', births, old_, new_);
    }
  }

  /** `t'` holds the same blobs under the same ids, some of them at another slug. */
  lemma SameFilesSameChains(t: Tree, t': Tree, births: map<Uuid, nat>, old_: string, new_: string)
    requires ChainsOk(t, births) && IdsUnique(t') && old_ != "" && new_ != "" && old_ != new_
    requires forall n :: n in UuidNames(t, old_) ==> Path(new_, n) in t' && t'[Path(new_, n)] == t[Path(old_, n)]
    requires forall p :: p !in t && p in t' ==> p.slug == new_ && p.name in UuidNames(t, old_)
    requires forall p :: p in t && !(p.slug == old_ && IsUuidName(p.name)) ==> p in t' && t'[p] == t[p]
    requires UuidNames(t', old_) == {}
    ensures ChainsOk(t', births)
  {
    forall p | p in t'
      ensures Home(t, p, old_) in t && t'[p] == t[Home(t, p, old_)] && Home(t, p, old_).name == p.name
    {
      assert p.slug == old_ ==> !IsUuidName(p.name) || p.name in UuidNames(t', old_);
    }
    forall p, to | p in t' && Linked(t', p, to)
      ensures Linked(t, Home(t, p, old_), to) && Backed(t', IdOf(p.name), to)
    {
      assert Linked(t, Home(t, p, old_), to) && Backed(t, IdOf(p.name), to);
      var q :| q in t && IsUuidName(q.name) && IdOf(q.name) == to && RefersTo(t, q, IdOf(p.name));
      var q' := if q.slug == old_ then Path(new_, q.name) else q;
      if q.slug == old_ { assert q.name in UuidNames(t, old_); }
      assert q' in t' && RefersTo(t', q', IdOf(p.name));
    }
  }

  function Home(t: Tree, p: Path, old_: string): Path {
    if p in t then p else Path(old_, p.name)
  }

  lemma WithoutOne(t: Tree, t': Tree, p: Path, q: Path)
    requires p in t && t' == t - {p}
    ensures q in t' <==> q in t && q != p
    ensures q in t' ==> IsFeature(t', q) == IsFeature(t, q)
    ensures forall to :: q in t' ==> Linked(t', q, to) == Linked(t, q, to)
    ensures forall id :: q in t' ==> RefersTo(t', q, id) == RefersTo(t, q, id)
  {
  }

  lemma BackedWithoutOne(t: Tree, t': Tree, p: Path, id: Uuid, to: Uuid)
    requires IdsUnique(t) && p in t && t' == t - {p} && IsUuidName(p.name)
    ensures Backed(t', id, to) <==> Backed(t, id, to) && IdOf(p.name) != to
  {
    hide IsFeature, RefersTo;
    forall q
      ensures (q in t' <==> q in t && q != p) && (q in t' ==> RefersTo(t', q, id) == RefersTo(t, q, id))
    {
      WithoutOne(t, t', p, q);
    }
  }

  /** A delete keeps every chain exactly when no other feature links to the file it removes. */
  lemma DeleteKeepsChainsIff(t: Tree, births: map<Uuid, nat>, on: Surface, slug: string, edits: Edits)
    requires ChainsOk(t, births) && DeleteEdits(t, on, slug) == Ok(edits)
    ensures Resolve(t, slug).Ok?
    ensures var id := Resolve(t, slug).value;
      ChainsOk(Apply(t, edits), births) <==> NobodyElseLinks(t, MemoryPath(slug, id), id)
  {
    hide DeleteEdits, Resolve, Apply, Linked, Backed, IsFeature;
    var id := DeletedMemory(t, on, slug, edits);
    var p, t' := MemoryPath(slug, id), Apply(t, edits);
    LinkersAreNamed(t');
    forall q
      ensures (q in t' <==> q in t && q != p) && forall to :: q in t' ==> Linked(t', q, to) == Linked(t, q, to)
    {
      WithoutOne(t, t', p, q);
    }
    forall q, to | q in t' && Linked(t', q, to)
      ensures Backed(t', IdOf(q.name), to) <==> to != id
    {
      BackedWithoutOne(t, t', p, IdOf(q.name), to);
    }
    if q :| q in t && q != p && Linked(t, q, id) {
      assert q in t' && Linked(t', q, id) && !Backed(t', IdOf(q.name), id);
    }
  }

  /** A file that is no feature has no links to it. */
  lemma NonFeatureIsUnlinked(t: Tree, births: map<Uuid, nat>, p: Path)
    requires ChainsOk(t, births) && p in t && IsUuidName(p.name) && !IsFeature(t, p)
    ensures NobodyElseLinks(t, p, IdOf(p.name))
  {
    forall q | q in t && q != p ensures Linked(t, q, IdOf(p.name)) ==> IsFeature(t, p) {
      if Linked(t, q, IdOf(p.name)) { TargetIsFeature(t, births, p, q); }
    }
  }

  lemma TargetIsFeature(t: Tree, births: map<Uuid, nat>, p: Path, q: Path)
    requires ChainsOk(t, births) && p in t && IsUuidName(p.name) && q in t && Linked(t, q, IdOf(p.name))
    ensures IsFeature(t, p)
  {
    assert Backed(t, IdOf(q.name), IdOf(p.name));
  }

  // ---- No cycles ----

  ghost predicate Follows(t: Tree, a: Uuid, b: Uuid) {
    exists p :: p in t && IsUuidName(p.name) && IdOf(p.name) == a && Linked(t, p, b)
  }

  lemma {:induction false} ChainAscends(t: Tree, births: map<Uuid, nat>, chain: seq<Uuid>)
    requires LinksAscend(t, births) && |chain| >= 2
    requires forall i :: 0 <= i < |chain| - 1 ==> Follows(t, chain[i], chain[i + 1])
    ensures chain[|chain| - 1] in births
    ensures chain[0] in births ==> births[chain[0]] < births[chain[|chain| - 1]]
    decreases |chain|
  {
    assert Follows(t, chain[|chain| - 2], chain[|chain| - 1]);
    if |chain| > 2 {
      var front := chain[..|chain| - 1];
      assert forall i :: 0 <= i < |front| - 1 ==> Follows(t, front[i], front[i + 1]);
      ChainAscends(t, births, front);
    }
  }

  /** Following `superseded_by` links never leads back to where it started. */
  lemma NoSupersedeCycle(t: Tree, births: map<Uuid, nat>, chain: seq<Uuid>)
    requires ChainsOk(t, births) && |chain| >= 2
    requires forall i :: 0 <= i < |chain| - 1 ==> Follows(t, chain[i], chain[i + 1])
    ensures chain[0] != chain[|chain| - 1]
  {
    ChainAscends(t, births, chain);
  }

  // ---- The integrity pass ----

  datatype Finding = TargetMissing(slug: string, target: Uuid) | OneSided(slug: string, target: Uuid)

  ghost predicate IsListing(t: Tree, files: seq<Path>) {
    && (forall p :: p in files <==> p in t && p.slug != "" && IsUuidName(p.name))
    && (forall i, j :: 0 <= i < j < |files| ==> files[i] != files[j])
  }

  function LinkOf(t: Tree, p: Path): (link: Option<Uuid>)
    ensures forall to: Uuid :: Linked(t, p, to) <==> link == Some(to)
  {
    if IsFeature(t, p) && Strict(t[p]).value.feature.value.supersededBy.Some?
    then Some(Strict(t[p]).value.feature.value.supersededBy.value.target) else None
  }

  ghost predicate FeatureExists(t: Tree, id: Uuid) {
    exists q :: q in t && IsFeature(t, q) && IdOf(q.name) == id
  }

  /** The references of the last feature listed under this id; a later one displaces an earlier one. */
  function LastFeature(t: Tree, files: seq<Path>, id: Uuid): Option<seq<Ref>> {
    if files == [] then None
    else
      var front, p := files[..|files| - 1], files[|files| - 1];
      if IsFeature(t, p) && IdOf(p.name) == id then Some(Strict(t[p]).value.refs) else LastFeature(t, front, id)
  }

  /** What the pass says of one link, given all listed files. */
  function FindingOf(t: Tree, all: seq<Path>, p: Path, to: Uuid): seq<Finding>
    requires IsUuidName(p.name)
  {
    match LastFeature(t, all, to)
    case None => [TargetMissing(p.slug, to)]
    case Some(refs) => if IdOf(p.name) !in Targets(refs) then [OneSided(p.slug, to)] else []
  }

  /**
    The findings the links of `files` call for, in listing order: a missing target, or one that does not refer
    back.
  */
  function ExpectedFindings(t: Tree, all: seq<Path>, files: seq<Path>): seq<Finding> {
    if files == [] then []
    else
      var front, p := files[..|files| - 1], files[|files| - 1];
      ExpectedFindings(t, all, front) + (if LinkOf(t, p).Some? then FindingOf(t, all, p, LinkOf(t, p).value) else [])
  }

  lemma {:induction false} LastOfMany(t: Tree, files: seq<Path>, id: Uuid)
    ensures LastFeature(t, files, id).Some? <==> exists p :: p in files && IsFeature(t, p) && IdOf(p.name) == id
    ensures LastFeature(t, files, id).Some? ==>
      exists p ::
        p in files && IsFeature(t, p) && IdOf(p.name) == id &&
        LastFeature(t, files, id).value == Strict(t[p]).value.refs
  {
    hide IsFeature;
    if files != [] {
      LastOfMany(t, files[..|files| - 1], id);
      assert forall p :: p in files <==> p == files[|files| - 1] || p in files[..|files| - 1];
    }
  }

  /** With each id in one file, the pass looks at the target itself. */
  lemma LastIsTheOne(t: Tree, files: seq<Path>, id: Uuid, to: Uuid)
    requires IsListing(t, files) && IdsUnique(t)
    ensures LastFeature(t, files, to).Some? <==> FeatureExists(t, to)
    ensures LastFeature(t, files, to).Some? ==> (id in Targets(LastFeature(t, files, to).value) <==> Backed(t, id, to))
  {
    LastOfMany(t, files, to);
    if LastFeature(t, files, to).Some? {
      var p :| p in files && IsFeature(t, p) && IdOf(p.name) == to &&
      LastFeature(t, files, to).value == Strict(t[p]).value.refs;
      assert id in Targets(LastFeature(t, files, to).value) <==> RefersTo(t, p, id);
    }
  }

  /** References of the features by id, the last one listed winning, and every link with its source. */
  method CollectLinks(t: Tree, files: seq<Path>) returns (features: map<Uuid, seq<Ref>>, links: seq<(Path, Uuid)>)
    ensures forall id :: LastFeature(t, files, id) == if id in features then Some(features[id]) else None
    ensures links == LinksOf(t, files)
  {
    features := map[];
    links := [];
    for i := 0 to |files|
      invariant forall id :: LastFeature(t, files[..i], id) == if id in features then Some(features[id]) else None
      invariant links == LinksOf(t, files[..i])
    {
      var p := files[i];
      assert files[..i + 1] == files[..i] + [p] && files[..i + 1][..i] == files[..i];
      if IsFeature(t, p) {
        var block := Strict(t[p]).value.feature.value;
        if block.supersededBy.Some? {
          links := links + [(p, block.supersededBy.value.target)];
        }
        features := features[IdOf(p.name) := Strict(t[p]).value.refs];
      }
    }
    assert files[..|files|] == files;
  }

  function LinksOf(t: Tree, files: seq<Path>): seq<(Path, Uuid)> {
    if files == [] then []
    else
      var front, p := files[..|files| - 1], files[|files| - 1];
      LinksOf(t, front) + (if LinkOf(t, p).Some? then [(p, LinkOf(t, p).value)] else [])
  }

  function FindingsOf(t: Tree, all: seq<Path>, links: seq<(Path, Uuid)>): seq<Finding>
    requires forall l :: l in links ==> IsUuidName(l.0.name)
  {
    if links == [] then []
    else
      var front, l := links[..|links| - 1], links[|links| - 1];
      FindingsOf(t, all, front) + FindingOf(t, all, l.0, l.1)
  }

  lemma {:induction false} FindingsAreExpected(t: Tree, all: seq<Path>, files: seq<Path>)
    ensures forall l :: l in LinksOf(t, files) ==> IsUuidName(l.0.name)
    ensures FindingsOf(t, all, LinksOf(t, files)) == ExpectedFindings(t, all, files)
  {
    if files != [] {
      hide FindingOf, LastFeature;
      var front, p := files[..|files| - 1], files[|files| - 1];
      FindingsAreExpected(t, all, front);
      if LinkOf(t, p).Some? {
        var links := LinksOf(t, files);
        assert links[..|links| - 1] == LinksOf(t, front) && links[|links| - 1] == (p, LinkOf(t, p).value);
      } else {
        assert LinksOf(t, files) == LinksOf(t, front);
      }
    }
  }

  lemma NextFinding(t: Tree, all: seq<Path>, links: seq<(Path, Uuid)>, i: nat)
    requires i < |links| && forall l :: l in links ==> IsUuidName(l.0.name)
    ensures FindingsOf(t, all, links[..i + 1]) ==
      FindingsOf(t, all, links[..i]) + FindingOf(t, all, links[i].0, links[i].1)
  {
    hide FindingOf;
    assert links[..i + 1][..i] == links[..i];
  }

  /** The supersede-chain part of the diagnostics. */
  method DiagnoseSupersede(t: Tree, files: seq<Path>) returns (findings: seq<Finding>)
    ensures findings == ExpectedFindings(t, files, files)
  {
    hide LastFeature, IsFeature, LinksOf, ExpectedFindings;
    var features, links := CollectLinks(t, files);
    FindingsAreExpected(t, files, files);
    findings := [];
    for i := 0 to |links|
      invariant findings == FindingsOf(t, files, links[..i])
    {
      var l := links[i];
      NextFinding(t, files, links, i);
      if l.1 !in features {
        findings := findings + [TargetMissing(l.0.slug, l.1)];
      } else if !(exists r: Ref :: r in features[l.1] && r.target == IdOf(l.0.name)) {
        findings := findings + [OneSided(l.0.slug, l.1)];
      }
    }
    assert links[..|links|] == links;
  }

  /** The pass is silent on every tree whose chains are intact. */
  lemma {:induction false} IntactChainsAreSilent(t: Tree, births: map<Uuid, nat>, all: seq<Path>, files: seq<Path>)
    requires ChainsOk(t, births) && IsListing(t, all)
    ensures ExpectedFindings(t, all, files) == []
  {
    hide LastFeature, IsFeature, RefersTo;
    LinkersAreNamed(t);
    if files != [] {
      IntactChainsAreSilent(t, births, all, files[..|files| - 1]);
      var p := files[|files| - 1];
      if LinkOf(t, p).Some? {
        var to := LinkOf(t, p).value;
        LastIsTheOne(t, all, IdOf(p.name), to);
        BackedExists(t, IdOf(p.name), to);
      }
    }
  }

  lemma BackedExists(t: Tree, id: Uuid, to: Uuid)
    requires Backed(t, id, to)
    ensures FeatureExists(t, to)
  {
  }
}
