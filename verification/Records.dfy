/** What each tracker operation writes, field by field, and exactly when it succeeds on a tree. */
module Records {
  import opened Basics
  import opened Whitespace
  import opened Refs
  import opened Memories
  import opened Conventions
  import opened TrackerOps
  import opened Tickets
  import Rename

  function OtherSurface(on: Surface): Surface {
    if on == Features then Issues else Features
  }

  /** The record of one surface in a file: the file parses, also strictly, and carries that surface's block. */
  ghost predicate Reads(on: Surface, t: Tree, p: Path, m: Memory, block: Block) {
    p in t && !t[p].Unreadable? && Strict(t[p]) == Some(m) && Lossy(t[p]) == Some(m) && BlockOf(on, m) == Some(block)
  }

  /** `slug` names one UUID-named file, and `id` is its id. */
  ghost predicate Names(t: Tree, slug: string, id: Uuid) {
    exists n :: UuidNames(t, slug) == {n} && IsUuidName(n) && IdOf(n) == id
  }

  /** The trees agree everywhere but at `p`. */
  ghost predicate SameBut(t: Tree, t': Tree, p: Path) {
    forall q :: q != p ==> (q in t <==> q in t') && (q in t ==> t'[q] == t[q])
  }

  lemma ResolveIff(t: Tree, slug: string, id: Uuid)
    ensures Resolve(t, slug) == Ok(id) <==> Names(t, slug, id)
    ensures Resolve(t, slug) == Err(NotFound) <==> forall n :: IsUuidName(n) ==> Path(slug, n) !in t
    ensures Resolve(t, slug) == Err(Ambiguous) <==>
      exists m, n :: m != n && IsUuidName(m) && IsUuidName(n) && Path(slug, m) in t && Path(slug, n) in t
  {
    var names := UuidNames(t, slug);
    forall n | IsUuidName(n) ensures Path(slug, n) in t <==> n in names {
      if Path(slug, n) in t { assert Path(slug, n).name in names; }
    }
    if n :| Sole(t, slug, n) {
      assert n in names && names == {n};
    } else if names != {} {
      var m :| m in names;
      assert !Sole(t, slug, m) && names != {m};
      var n :| n in names && n != m;
    }
  }

  // ---- Update ----

  /** Field by field: what the change names is given, what it does not name stays. */
  ghost predicate Rewritten(before: Memory, old_: Block, after: Memory, block: Block, spec: UpdateSpec) {
    && (match spec.title case Some(x) => after.title == x case None => after.title == before.title)
    && (match spec.description case Some(x) => after.description == x
        case None => after.description == before.description)
    && (match spec.body case Some(x) => after.body == x case None => after.body == before.body)
    && (match spec.status case Some(x) => block.status == x case None => block.status == old_.status)
    && (match spec.dependsOn case Some(x) => block.dependsOn == x case None => block.dependsOn == old_.dependsOn)
    && (match spec.blocks case Some(x) => block.blocks == x case None => block.blocks == old_.blocks)
    && (match spec.supersededBy case Some(x) => block.supersededBy == Some(x)
        case None => block.supersededBy == old_.supersededBy)
    && (match spec.milestone
        case Some(Some(x)) => block.milestone == Some(x)
        case Some(None) => block.milestone == None
        case None => block.milestone == old_.milestone)
    && block.number == old_.number
    && after.refs == Compose(before.refs, spec.refsRemove, spec.refsAdd)
  }

  /**
    A successful update rewrites the one file its slug names and nothing else. Every field the change names
    reads back as given, every other one as before; the file's block of the other surface, its source and
    whatever else the frontmatter held are gone.
  */
  lemma UpdateWrites(t: Tree, on: Surface, slug: string, spec: UpdateSpec, edits: Edits)
    returns (path: Path, before: Memory, old_: Block, after: Memory, block: Block)
    requires UpdateEdits(t, on, slug, spec) == Ok(edits)
    ensures path.slug == slug && path.name.Canonical? && Names(t, slug, path.name.id)
    ensures Reads(on, t, path, before, old_) && Reads(on, Apply(t, edits), path, after, block)
    ensures SameBut(t, Apply(t, edits), path)
    ensures Rewritten(before, old_, after, block, spec)
    ensures BlockOf(OtherSurface(on), after) == None && after.id == Some(path.name.id)
    ensures after.kind == (if on == Features then FeatureKind else IssueKind)
    ensures after.source == None && after.extras == []
    ensures block.status.Superseded? <==> block.supersededBy.Some?
  {
    var id, m := UpdatedMemory(t, on, slug, spec, edits);
    ResolveIff(t, slug, id);
    path := MemoryPath(slug, id);
    before := Strict(t[path]).value;
    old_, after := BlockOf(on, before).value, m;
    block := BlockOf(on, after).value;
  }

  /**
    An update succeeds exactly when its slug is valid and names one file, which stands under its canonical name,
    reads as a record of the surface in valid UTF-8, and is left superseded and linked, or neither.
  */
  lemma UpdateSucceedsIff(t: Tree, on: Surface, slug: string, spec: UpdateSpec)
    ensures UpdateEdits(t, on, slug, spec).Ok? <==>
      ValidMemorySlug(slug) && exists id, m, block ::
        Names(t, slug, id) && Reads(on, t, MemoryPath(slug, id), m, block) &&
        ((if spec.status.Some? then spec.status.value.Superseded? else block.status.Superseded?) <==>
         spec.supersededBy.Some? || block.supersededBy.Some?)
  {
    if UpdateEdits(t, on, slug, spec).Ok? {
      var path, before, old_, after, block := UpdateWrites(t, on, slug, spec, UpdateEdits(t, on, slug, spec).value);
      var id, m := UpdatedMemory(t, on, slug, spec, UpdateEdits(t, on, slug, spec).value);
      assert Names(t, slug, path.name.id) && Reads(on, t, MemoryPath(slug, path.name.id), before, old_);
    }
    forall id: Uuid, m, block | Names(t, slug, id) && Reads(on, t, MemoryPath(slug, id), m, block)
      ensures Resolve(t, slug) == Ok(id) && DecodeRecord(on, t, MemoryPath(slug, id)) == Ok(m)
      ensures ReadRefs(t, MemoryPath(slug, id)) == Ok(m.refs)
    {
      ResolveIff(t, slug, id);
    }
  }

  // ---- Create ----

  /** Some file beside a memory file of the group carries the number. */
  ghost predicate InUse(t: Tree, n: nat) {
    exists p, q ::
      p in t && q in t && p.slug == q.slug && p.slug != "" && IsMarkdown(q.name) && Carries(t[p], n)
  }

  /** Valid UTF-8 with the number in the block of either surface. */
  ghost predicate Carries(b: Blob, n: nat) {
    exists m, on :: Strict(b) == Some(m) && BlockOf(on, m).Some? && BlockOf(on, m).value.number == Some(n)
  }

  lemma CarriesIff(b: Blob, n: nat)
    ensures n in Numbers(b) <==> Carries(b, n)
    ensures Carries(b, n) ==> n < U32_LIMIT
  {
    if Strict(b).Some? {
      var m := Strict(b).value;
      assert BlockOf(Features, m) == m.feature && BlockOf(Issues, m) == m.issue;
    }
  }

  lemma CountedIff(t: Tree, n: nat)
    ensures n in CountedNumbers(t, t) <==> InUse(t, n)
    ensures InUse(t, n) ==> n < U32_LIMIT
  {
    hide Carries, Numbers;
    forall p | p in t
      ensures n in Numbers(t[p]) <==> Carries(t[p], n)
      ensures Carries(t[p], n) ==> n < U32_LIMIT
    {
      CarriesIff(t[p], n);
    }
    if p, q :| p in t && q in t && p.slug == q.slug && p.slug != "" && IsMarkdown(q.name) && Carries(t[p], n) {
      assert Counted(t, p);
    }
  }

  /** The smallest number above all in use; none when that needs more than 32 bits. */
  lemma MintedNumberIs(t: Tree)
    ensures NextTicket(t, t).Ok? ==> (var n := NextTicket(t, t).value;
      n > 0 && (forall m: nat :: InUse(t, m) ==> m < n) && (n == 1 || InUse(t, n - 1)))
    ensures NextTicket(t, t).Err? <==> InUse(t, U32_LIMIT - 1)
    ensures NextTicket(t, t).Err? ==> NextTicket(t, t) == Err(CounterOverflow)
  {
    hide MaxOf, CountedNumbers, InUse;
    forall n: nat
      ensures (n in CountedNumbers(t, t) <==> InUse(t, n)) && (InUse(t, n) ==> n < U32_LIMIT)
    {
      CountedIff(t, n);
    }
    assert MaxOf(CountedNumbers(t, t)) == 0 || InUse(t, MaxOf(CountedNumbers(t, t)));
  }

  /** What the caller gave is in the new file; the number is pinned or the next one, and nothing is linked yet. */
  ghost predicate Created(t: Tree, on: Surface, spec: AddSpec, id: Uuid, m: Memory, block: Block) {
    && m.title == spec.title && m.description == spec.description && m.body == spec.body && m.source == spec.source
    && m.id == Some(id) && m.kind == (if on == Features then FeatureKind else IssueKind) && m.extras == []
    && BlockOf(OtherSurface(on), m) == None
    && block.status == spec.status && block.dependsOn == spec.dependsOn && block.blocks == spec.blocks
    && block.milestone == spec.milestone && block.supersededBy == None
    && (match spec.number
        case Some(n) => block.number == Some(n)
        case None => block.number.Some? && block.number.value > 0 &&
                     (block.number.value == 1 || InUse(t, block.number.value - 1)) &&
                     forall n: nat :: InUse(t, n) ==> n < block.number.value)
  }

  /** The memory a create supersedes: one file, readable as a record of the surface in a status that allows it. */
  ghost predicate Supersedes(t: Tree, on: Surface, query: string, target: Uuid) {
    && ValidMemorySlug(query) && Names(t, query, target)
    && DecodesOn(on, t, MemoryPath(query, target)) && Replaceable(on, StatusAt(on, t, MemoryPath(query, target)))
  }

  /** A status of the surface that neither redirects to another memory nor rejects this one. */
  predicate Replaceable(on: Surface, s: Status) {
    && !s.Duplicate? && !s.Superseded? && !s.Wontfix?
    && if on == Features then !s.Open? && !s.Closed?
       else !s.Requested? && !s.Approved? && !s.Pending? && !s.Completed?
  }

  /** A record read, which replaces invalid UTF-8, finds the surface's block. */
  ghost predicate DecodesOn(on: Surface, t: Tree, p: Path) {
    p in t && !t[p].Unreadable? && Lossy(t[p]).Some? && BlockOf(on, Lossy(t[p]).value).Some?
  }

  ghost function StatusAt(on: Surface, t: Tree, p: Path): Status
    requires DecodesOn(on, t, p)
  {
    BlockOf(on, Lossy(t[p]).value).value.status
  }

  lemma SupersedesIff(t: Tree, on: Surface, query: string, target: Uuid)
    ensures SupersedeTarget(t, on, query) == Ok(target) <==> Supersedes(t, on, query, target)
  {
    ResolveIff(t, query, target);
  }

  /**
    A successful create adds one file under a path that held nothing, with everything the caller gave; its
    references are the caller's, followed by one to the superseded memory unless the caller listed it already.
  */
  lemma CreateWrites(t: Tree, on: Surface, spec: AddSpec, id: Uuid, edits: Edits)
    returns (path: Path, m: Memory, block: Block, over: Option<Uuid>)
    requires AddEdits(t, on, spec, id) == Ok(edits)
    ensures path.slug == (match spec.slug case Some(slug) => slug case None => spec.autoSlug)
    ensures path.name == Canonical(id) && path !in t && SameBut(t, Apply(t, edits), path)
    ensures Reads(on, Apply(t, edits), path, m, block) && Created(t, on, spec, id, m, block)
    ensures match spec.supersedes
            case None => over == None
            case Some(query) => over.Some? && Supersedes(t, on, query, over.value)
    ensures if over.None? || exists r :: r in spec.refs && r.target == over.value then m.refs == spec.refs
            else |m.refs| == |spec.refs| + 1 && m.refs[..|spec.refs|] == spec.refs &&
                 m.refs[|spec.refs|].target == over.value
  {
    hide NextTicket, InUse, SupersedeTarget, Supersedes, DecodesOn, Resolve, Names, ValidMemorySlug, Carries, StatusAt;
    var n;
    n, over := AddedMemory(t, on, spec, id, edits);
    path, m := MemoryPath(SlugOf(spec), id), NewMemory(on, spec, id, n, over);
    block := BlockOf(on, m).value;
    if spec.supersedes.Some? { SupersedesIff(t, on, spec.supersedes.value, over.value); }
    MintedNumberIs(t);
  }

  /**
    A create succeeds exactly when there is a title or a slug, the slug is valid, what it supersedes can be
    superseded, a number is pinned or left, and its path is free.
  */
  lemma CreateSucceedsIff(t: Tree, on: Surface, spec: AddSpec, id: Uuid)
    ensures AddEdits(t, on, spec, id).Ok? <==>
      && (!IsBlank(spec.title) || spec.slug.Some?) && ValidMemorySlug(SlugOf(spec))
      && (spec.supersedes.Some? ==> exists target: Uuid :: Supersedes(t, on, spec.supersedes.value, target))
      && (spec.number.None? ==> !InUse(t, U32_LIMIT - 1))
      && Path(SlugOf(spec), Canonical(id)) !in t
  {
    hide NextTicket, InUse, SupersedeTarget, Supersedes, NewMemory, ValidMemorySlug;
    MintedNumberIs(t);
    if spec.supersedes.Some? {
      var query := spec.supersedes.value;
      if SupersedeTarget(t, on, query).Ok? { SupersedesIff(t, on, query, SupersedeTarget(t, on, query).value); }
      if target: Uuid :| Supersedes(t, on, query, target) { SupersedesIff(t, on, query, target); }
    }
  }

  // ---- Delete ----

  /** A successful delete takes out the one file its slug names, and nothing else. */
  lemma DeleteRemoves(t: Tree, on: Surface, slug: string, edits: Edits) returns (path: Path)
    requires DeleteEdits(t, on, slug) == Ok(edits)
    ensures path.slug == slug && path.name.Canonical? && Names(t, slug, path.name.id)
    ensures path in t && path !in Apply(t, edits) && SameBut(t, Apply(t, edits), path)
    ensures forall n :: IsUuidName(n) ==> Path(slug, n) !in Apply(t, edits)
  {
    var id := DeletedMemory(t, on, slug, edits);
    ResolveIff(t, slug, id);
    path := MemoryPath(slug, id);
    assert path.name in UuidNames(t, slug);
    forall n | IsUuidName(n) ensures Path(slug, n) !in Apply(t, edits) {
      if Path(slug, n) in t { assert Path(slug, n).name in UuidNames(t, slug); }
    }
  }

  /** It succeeds exactly when the slug is valid and names one file, canonical, that reads as the surface's record. */
  lemma DeleteSucceedsIff(t: Tree, on: Surface, slug: string)
    ensures DeleteEdits(t, on, slug).Ok? <==>
      ValidMemorySlug(slug) && exists id: Uuid :: Names(t, slug, id) && DecodesOn(on, t, MemoryPath(slug, id))
  {
    hide ValidMemorySlug;
    if Resolve(t, slug).Ok? { ResolveIff(t, slug, Resolve(t, slug).value); }
    forall id: Uuid | Names(t, slug, id) ensures Resolve(t, slug) == Ok(id) { ResolveIff(t, slug, id); }
  }

  // ---- Rename ----

  /**
    A rename succeeds exactly when both slugs are valid and, unless they are the same, the old one has files and
    every file there with a UUID for a name stands under its canonical name and reads as a record of the surface.
  */
  lemma RenameSucceedsIff(t: Tree, on: Surface, old_: string, new_: string)
    ensures RenameEdits(t, on, old_, new_).Ok? <==>
      && ValidMemorySlug(old_) && ValidMemorySlug(new_)
      && (old_ != new_ ==>
          (exists n :: IsUuidName(n) && Path(old_, n) in t) &&
          forall n :: IsUuidName(n) && Path(old_, n) in t ==> DecodesOn(on, t, MemoryPath(old_, IdOf(n))))
  {
    hide ValidMemorySlug, Listing, PlanMoves;
    var names := UuidNames(t, old_);
    forall n | IsUuidName(n) ensures Path(old_, n) in t <==> n in names {
      if Path(old_, n) in t { assert Path(old_, n).name in names; }
    }
    if names != {} {
      var n :| n in names;
      assert IsUuidName(n) && Path(old_, n) in t;
    }
    Rename.PlannedIff(t, on, Listing(names), old_, new_);
    forall n | IsUuidName(n)
      ensures DecodeRecord(on, t, MemoryPath(old_, IdOf(n))).Ok? <==> DecodesOn(on, t, MemoryPath(old_, IdOf(n)))
    {
    }
  }
}
