/**
  The content of one group repository and the frontmatter the tracker reads and writes.

  A tree maps repository paths to blobs. File names are kept structured: a canonical name is the
  lower-case hyphenated UUID the system writes, a respelled one is any other text that still parses
  as that UUID, a hand name is a `.md` file whose stem is no UUID.
*/
module Memories {
  import opened Basics
  import opened Refs

  datatype Surface = Features | Issues

  datatype MemoryKind = FeatureKind | IssueKind | OtherKind

  /**
    Both status vocabularies; a feature block uses the first eight, an issue block the rest with the shared side
    states.
  */
  datatype Status =
    | Requested | Approved | Pending | Completed | Blocked | Deferred | Duplicate | Superseded
    | Open | Closed | Wontfix

  /** The `[feature]` or `[issue]` subtable. */
  datatype Block = Block(
    status: Status,
    number: Option<U32>,
    dependsOn: seq<Uuid>,
    blocks: seq<Uuid>,
    supersededBy: Option<Ref>,
    milestone: Option<Uuid>)

  /**
    A parsed memory file. `extras` stands for the frontmatter the tracker never sets: tags, version, mandatory
    and the like.
  */
  datatype Memory = Memory(
    kind: MemoryKind,
    id: Option<Uuid>,
    title: string,
    description: string,
    body: string,
    refs: seq<Ref>,
    feature: Option<Block>,
    issue: Option<Block>,
    source: Option<string>,
    extras: seq<string>)

  /**
    File content. What the system renders parses back to the same memory. Any other content has bytes
    (`raw`), may or may not be UTF-8, and parses to a memory or not once invalid sequences are replaced.
    An unreadable blob makes every read of it fail.
  */
  datatype Blob =
    | Rendered(memory: Memory)
    | Stored(raw: nat, utf8: bool, parsed: Option<Memory>)
    | Unreadable

  datatype Name = Canonical(id: Uuid) | Respelled(of: Uuid,
    text: string) | HandNamed(stem: string) | NotMarkdown(text: string)

  datatype Path = Path(slug: string, name: Name)

  type Tree = map<Path, Blob>

  predicate IsUuidName(n: Name) {
    n.Canonical? || n.Respelled?
  }

  function IdOf(n: Name): Uuid
    requires IsUuidName(n)
  {
    if n.Canonical? then n.id else n.of
  }

  predicate IsMarkdown(n: Name) {
    !n.NotMarkdown?
  }

  function MemoryPath(slug: string, id: Uuid): Path {
    Path(slug, Canonical(id))
  }

  /** Parse after replacing invalid UTF-8, as a record read does. */
  function Lossy(b: Blob): Option<Memory> {
    match b
    case Rendered(m) => Some(m)
    case Stored(_, _, parsed) => parsed
    case Unreadable => None
  }

  /** Parse only valid UTF-8, as the counter, the id scan and the diagnostics do. */
  function Strict(b: Blob): Option<Memory> {
    match b
    case Rendered(m) => Some(m)
    case Stored(_, utf8, parsed) => if utf8 then parsed else None
    case Unreadable => None
  }

  function BlockOf(on: Surface, m: Memory): Option<Block> {
    if on == Features then m.feature else m.issue
  }

  // ---- Commits ----

  type Edits = seq<(Path, Option<Blob>)>

  function ApplyOne(t: Tree, edit: (Path, Option<Blob>)): Tree {
    match edit.1
    case Some(b) => t[edit.0 := b]
    case None => t - {edit.0}
  }

  /** A commit applies its edit list in order. */
  function Apply(t: Tree, edits: Edits): Tree
    decreases |edits|
  {
    if edits == [] then t else Apply(ApplyOne(t, edits[0]), edits[1..])
  }

  // ---- Slug resolution ----

  /** The files under `slug` whose stem parses as a UUID. */
  function UuidNames(t: Tree, slug: string): set<Name> {
    set p | p in t && p.slug == slug && IsUuidName(p.name) :: p.name
  }

  /** `n` is the one UUID-named file under `slug`. */
  predicate Sole(t: Tree, slug: string, n: Name) {
    UuidNames(t, slug) == {n}
  }
}

/** What each tracker operation does to one tree, read and written without interference. */
module TrackerOps {
  import opened Basics
  import opened Whitespace
  import opened Refs
  import opened Memories
  import opened Conventions

  datatype TrackerError =
    | TitleRequired | InvalidSlug | NotFound | Ambiguous | GitFailure | ParseFailure | NotUtf8
    | NotOnSurface | SupersedesUnknown | SupersedesInvalidStatus(status: Status)
    | CounterOverflow | AlreadyExists | SupersedeInvariant | NoChanges

  datatype AddSpec = AddSpec(
    slug: Option<string>,
    autoSlug: string,
    title: string,
    description: string,
    body: string,
    status: Status,
    number: Option<U32>,
    dependsOn: seq<Uuid>,
    blocks: seq<Uuid>,
    milestone: Option<Uuid>,
    refs: seq<Ref>,
    supersedes: Option<string>,
    source: Option<string>)

  datatype UpdateSpec = UpdateSpec(
    title: Option<string>,
    description: Option<string>,
    body: Option<string>,
    status: Option<Status>,
    dependsOn: Option<seq<Uuid>>,
    blocks: Option<seq<Uuid>>,
    refsAdd: Option<seq<Ref>>,
    refsRemove: Option<seq<Uuid>>,
    supersededBy: Option<Ref>,
    milestone: Option<Option<Uuid>>)

  const NO_CHANGE: UpdateSpec := UpdateSpec(None, None, None, None, None, None, None, None, None, None)

  function SlugOf(spec: AddSpec): string {
    if spec.slug.Some? then spec.slug.value else spec.autoSlug
  }

  // ---- Reads ----

  /** Resolve a slug to the id of its one UUID-named file. */
  ghost function Resolve(t: Tree, slug: string): Result<Uuid, TrackerError> {
    if UuidNames(t, slug) == {} then Err(NotFound)
    else if exists n :: Sole(t, slug, n) then
      var n :| Sole(t, slug, n);
      assert n in UuidNames(t, slug);
      Ok(IdOf(n))
    else Err(Ambiguous)
  }

  function ReadFile(t: Tree, p: Path): Result<Blob, TrackerError> {
    if p !in t then Err(NotFound) else if t[p].Unreadable? then Err(GitFailure) else Ok(t[p])
  }

  /** Decode a record for one surface: the file must parse and carry that surface's block. */
  function DecodeRecord(on: Surface, t: Tree, p: Path): Result<Memory, TrackerError> {
    match ReadFile(t, p)
    case Err(e) => Err(e)
    case Ok(b) =>
      match Lossy(b)
      case None => Err(ParseFailure)
      case Some(m) => if BlockOf(on, m).None? then Err(NotOnSurface) else Ok(m)
  }

  function ReadRefs(t: Tree, p: Path): Result<seq<Ref>, TrackerError> {
    match ReadFile(t, p)
    case Err(_) => Err(GitFailure)
    case Ok(b) =>
      if b.Stored? && !b.utf8 then Err(NotUtf8)
      else match Strict(b)
        case None => Err(ParseFailure)
        case Some(m) => Ok(m.refs)
  }

  // ---- The ticket counter ----

  function NumberOf(b: Option<Block>): set<nat> {
    if b.Some? && b.value.number.Some? then {b.value.number.value} else {}
  }

  /** Every ticket number a readable memory file carries, on either surface. */
  function Numbers(b: Blob): set<nat> {
    match Strict(b)
    case None => {}
    case Some(m) => NumberOf(m.feature) + NumberOf(m.issue)
  }

  /** The files the counter reads: everything beside a `.md` file in a directory below `memories/`. */
  ghost predicate Counted(t: Tree, p: Path) {
    p in t && p.slug != "" && exists q :: q in t && q.slug == p.slug && IsMarkdown(q.name)
  }

  ghost function CountedNumbers(listed: Tree, read: Tree): set<nat> {
    set p, n | p in read && Counted(listed, p) && n in Numbers(read[p]) :: n
  }

  ghost function MaxOf(s: set<nat>): (m: nat)
    ensures forall n :: n in s ==> n <= m
    ensures m == 0 || m in s
  {
    if s == {} then 0
    else
      var x :| x in s;
      var rest := MaxOf(s - {x});
      assert forall n :: n in s ==> n == x || n in s - {x};
      if x > rest then x else rest
  }

  /** One more than the largest number in use; an error at the 32-bit ceiling. */
  ghost function NextTicket(listed: Tree, read: Tree): (r: Result<U32, TrackerError>)
    ensures r.Ok? ==> forall n :: n in CountedNumbers(listed, read) ==> n < r.value
  {
    var max := MaxOf(CountedNumbers(listed, read));
    if max + 1 < U32_LIMIT then Ok(max + 1) else Err(CounterOverflow)
  }

  /** One batched read outcome of the counter. */
  type Outcome = Result<Blob, TrackerError>

  /** Fold the largest number out of a batch, skipping whatever cannot be read or parsed. */
  method MaxTicketNumberOver(batch: seq<(Path, Outcome)>) returns (max: nat)
    ensures forall i, n :: 0 <= i < |batch| && batch[i].1.Ok? && n in Numbers(batch[i].1.value) ==> n <= max
    ensures max == 0 || exists i :: 0 <= i < |batch| && batch[i].1.Ok? && max in Numbers(batch[i].1.value)
  {
    max := 0;
    for i := 0 to |batch|
      invariant forall j, n :: 0 <= j < i && batch[j].1.Ok? && n in Numbers(batch[j].1.value) ==> n <= max
      invariant max == 0 || exists j :: 0 <= j < i && batch[j].1.Ok? && max in Numbers(batch[j].1.value)
    {
      if batch[i].1.Ok? {
        var parsed := Strict(batch[i].1.value);
        if parsed.Some? {
          if parsed.value.feature.Some? && parsed.value.feature.value.number.Some? {
            var n := parsed.value.feature.value.number.value;
            if n > max { max := n; assert max in Numbers(batch[i].1.value); }
          }
          if parsed.value.issue.Some? && parsed.value.issue.value.number.Some? {
            var n := parsed.value.issue.value.number.value;
            if n > max { max := n; assert max in Numbers(batch[i].1.value); }
          }
        }
      }
    }
  }

  // ---- Update ----

  predicate SupersedeConsistent(b: Block) {
    b.status.Superseded? <==> b.supersededBy.Some?
  }

  function Or<T>(change: Option<T>, current: T): T {
    if change.Some? then change.value else current
  }

  function UpdatedBlock(current: Block, spec: UpdateSpec): Block {
    Block(Or(spec.status, current.status), current.number, Or(spec.dependsOn, current.dependsOn),
          Or(spec.blocks, current.blocks),
          if spec.supersededBy.Some? then spec.supersededBy else current.supersededBy,
          Or(spec.milestone, current.milestone))
  }

  /** A fresh file for one surface: that surface's block, nothing of the other one. */
  function BuildMemory(on: Surface, title: string, description: string, body: string, block: Block): Memory {
    Memory(if on == Features then FeatureKind else IssueKind, None, title, description, body, [],
           if on == Features then Some(block) else None,
           if on == Issues then Some(block) else None, None, [])
  }

  /** The rewritten file: the surface's own fields, the id and the composed references; everything else is dropped. */
  function Rebuild(on: Surface, id: Uuid, current: Memory, refs: seq<Ref>,
          spec: UpdateSpec): Result<Memory, TrackerError>
    requires BlockOf(on, current).Some?
  {
    var block := UpdatedBlock(BlockOf(on, current).value, spec);
    if !SupersedeConsistent(block) then Err(SupersedeInvariant)
    else Ok(BuildMemory(on, Or(spec.title, current.title), Or(spec.description, current.description),
                        Or(spec.body, current.body), block)
            .(id := Some(id), refs := Compose(refs, spec.refsRemove, spec.refsAdd)))
  }

  ghost function UpdateEdits(t: Tree, on: Surface, slug: string, spec: UpdateSpec): Result<Edits, TrackerError> {
    match Resolve(t, slug)
    case Err(e) => Err(e)
    case Ok(id) =>
      var path := MemoryPath(slug, id);
      if !ValidMemorySlug(slug) then Err(InvalidSlug)
      else match DecodeRecord(on, t, path)
        case Err(e) => Err(e)
        case Ok(current) =>
          match ReadRefs(t, path)
          case Err(e) => Err(e)
          case Ok(refs) =>
            match Rebuild(on, id, current, refs, spec)
            case Err(e) => Err(e)
            case Ok(m) => Ok([(path, Some(Rendered(m)))])
  }

  // ---- Delete ----

  ghost function DeleteEdits(t: Tree, on: Surface, slug: string): Result<Edits, TrackerError> {
    if !ValidMemorySlug(slug) then Err(InvalidSlug)
    else match Resolve(t, slug)
      case Err(e) => Err(e)
      case Ok(id) =>
        match DecodeRecord(on, t, MemoryPath(slug, id))
        case Err(e) => Err(e)
        case Ok(_) => Ok([(MemoryPath(slug, id), None)])
  }

  // ---- Create ----

  predicate Supersedable(on: Surface, s: Status) {
    if on == Features
    then s.Requested? || s.Approved? || s.Pending? || s.Blocked? || s.Deferred? || s.Completed?
    else s.Open? || s.Blocked? || s.Deferred? || s.Closed?
  }

  ghost function SupersedeTarget(t: Tree, on: Surface, query: string): Result<Uuid, TrackerError> {
    if !ValidMemorySlug(query) then Err(InvalidSlug)
    else match Resolve(t, query)
      case Err(e) => Err(if e.NotFound? then SupersedesUnknown else e)
      case Ok(id) =>
        match DecodeRecord(on, t, MemoryPath(query, id))
        case Err(e) => Err(if e.NotFound? then SupersedesUnknown else e)
        case Ok(m) =>
          var status := BlockOf(on, m).value.status;
          if Supersedable(on, status) then Ok(id) else Err(SupersedesInvalidStatus(status))
  }

  /** The caller's references, plus one to the superseded memory unless the caller already listed it. */
  function NewRefs(spec: AddSpec, target: Option<Uuid>): seq<Ref> {
    if target.Some? && target.value !in Targets(spec.refs) then spec.refs + [Ref(target.value, "")] else spec.refs
  }

  function NewMemory(on: Surface, spec: AddSpec, id: Uuid, number: U32, target: Option<Uuid>): Memory {
    BuildMemory(on, spec.title, spec.description, spec.body,
                Block(spec.status, Some(number), spec.dependsOn, spec.blocks, None, spec.milestone))
    .(id := Some(id), refs := NewRefs(spec, target), source := spec.source)
  }

  /** The first commit of a create. */
  ghost function AddEdits(t: Tree, on: Surface, spec: AddSpec, id: Uuid): Result<Edits, TrackerError> {
    if IsBlank(spec.title) && spec.slug.None? then Err(TitleRequired)
    else if !ValidMemorySlug(SlugOf(spec)) then Err(InvalidSlug)
    else
      var target := if spec.supersedes.None? then Ok(None) else
        match SupersedeTarget(t, on, spec.supersedes.value)
        case Err(e) => Err(e)
        case Ok(x) => Ok(Some(x));
      match target
      case Err(e) => Err(e)
      case Ok(over) =>
        var number := if spec.number.Some? then Ok(spec.number.value) else NextTicket(t, t);
        match number
        case Err(e) => Err(e)
        case Ok(n) =>
          var path := MemoryPath(SlugOf(spec), id);
          match ReadFile(t, path)
          case Ok(_) => Err(AlreadyExists)
          case Err(e) => if e.NotFound? then Ok([(path, Some(Rendered(NewMemory(on, spec, id, n, over))))]) else Err(e)
  }

  /** What the second commit of a superseding create asks of the old memory. */
  function BackLink(id: Uuid, commit: string): UpdateSpec {
    NO_CHANGE.(status := Some(Superseded), supersededBy := Some(Ref(id, commit)))
  }

  // ---- Rename ----

  /**
    Moves for every listed file: write the new path, drop the old one. Any bad or foreign file rejects the whole
    plan.
  */
  function PlanMoves(t: Tree, on: Surface, names: seq<Name>, old_: string, new_: string): Result<Edits, TrackerError>
    requires forall n :: n in names ==> IsUuidName(n)
  {
    if names == [] then Ok([])
    else
      var id := IdOf(names[0]);
      match ReadFile(t, MemoryPath(old_, id))
      case Err(e) => Err(GitFailure)
      case Ok(b) =>
        match Lossy(b)
        case None => Err(ParseFailure)
        case Some(m) =>
          if BlockOf(on, m).None? then Err(NotOnSurface)
          else match PlanMoves(t, on, names[1..], old_, new_)
            case Err(e) => Err(e)
            case Ok(rest) => Ok([(MemoryPath(new_, id), Some(b)), (MemoryPath(old_, id), None)] + rest)
  }

  /** An enumeration of a finite set of names; the order stands for the sorted directory listing. */
  ghost function Listing(names: set<Name>): (order: seq<Name>)
    ensures forall n :: n in order <==> n in names
    ensures forall i, j :: 0 <= i < j < |order| ==> order[i] != order[j]
  {
    if names == {} then []
    else
      var n :| n in names;
      var rest := Listing(names - {n});
      assert forall m :: m in names ==> m == n || m in names - {n};
      [n] + rest
  }

  ghost function RenameEdits(t: Tree, on: Surface, old_: string, new_: string): Result<Edits, TrackerError> {
    if !ValidMemorySlug(old_) || !ValidMemorySlug(new_) then Err(InvalidSlug)
    else if old_ == new_ then Ok([])
    else if UuidNames(t, old_) == {} then Err(NotFound)
    else PlanMoves(t, on, Listing(UuidNames(t, old_)), old_, new_)
  }
}
