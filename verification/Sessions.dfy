/**
  The tracker entry points as programs over the lock chain and the repository.

  A program is a function from what has happened so far to the next action. Every awaited call of the
  source is one event: a granted lock, one read of the repository head, or one commit. A read event
  records the tree it saw; several reads of one operation may see different trees.
*/
module Sessions {
  import opened Basics
  import opened Whitespace
  import opened Memories
  import opened Conventions
  import opened Scopes
  import opened TrackerOps

  datatype Op =
    | Add(group: Uuid, on: Surface, spec: AddSpec, id: Uuid)
    | Update(group: Uuid, on: Surface, slug: string, change: UpdateSpec)
    | Delete(group: Uuid, on: Surface, slug: string)
    | Rename(group: Uuid, on: Surface, oldSlug: string, newSlug: string)
    | CreateGroup(group: Uuid)

  /** `tree` is the group's tree when the event happened; after a commit it is the committed tree. */
  datatype Event =
    | Locked(request: Request, tree: Tree)
    | Saw(tree: Tree)
    | Wrote(tree: Tree, commit: string)

  datatype Action =
    | Acquire(request: Request)
    | Look
    | Commit(edits: Edits)
    | Finish(error: Option<TrackerError>)

  type Log = seq<Event>

  // ---- Pieces shared by several entry points ----

  /** One surface's unlocked update: resolve, read the record (resolve and file), read the references, commit. */
  ghost function UpdateUnlocked(on: Surface, slug: string, change: UpdateSpec, seen: Log): Action {
    if |seen| == 0 then Look
    else match Resolve(seen[0].tree, slug)
      case Err(e) => Finish(Some(e))
      case Ok(id) =>
        if !ValidMemorySlug(slug) then Finish(Some(InvalidSlug))
        else if |seen| == 1 then Look
        else match Resolve(seen[1].tree, slug)
          case Err(e) => Finish(Some(e))
          case Ok(readId) => if |seen| == 2 then Look else UpdateRead(on, slug, change, id, readId, seen)
  }

  ghost function UpdateRead(on: Surface, slug: string, change: UpdateSpec, id: Uuid, readId: Uuid, seen: Log): Action
    requires |seen| >= 3
  {
    match DecodeRecord(on, seen[2].tree, MemoryPath(slug, readId))
    case Err(e) => Finish(Some(e))
    case Ok(current) =>
      if |seen| == 3 then Look
      else match ReadRefs(seen[3].tree, MemoryPath(slug, id))
        case Err(e) => Finish(Some(e))
        case Ok(refs) =>
          match Rebuild(on, id, current, refs, change)
          case Err(e) => Finish(Some(e))
          case Ok(m) => if |seen| == 4 then Commit([(MemoryPath(slug, id), Some(Rendered(m)))]) else Finish(None)
  }

  // ---- Create ----

  ghost function AddAct(on: Surface, spec: AddSpec, id: Uuid, seen: Log): Action {
    if IsBlank(spec.title) && spec.slug.None? then Finish(Some(TitleRequired))
    else if !ValidMemorySlug(SlugOf(spec)) then Finish(Some(InvalidSlug))
    else if spec.supersedes.None? then AddNumbered(on, spec, id, None, seen)
    else AddSuperseding(on, spec, id, spec.supersedes.value, seen)
  }

  /** Read the superseded record, check its status, resolve it once more. */
  ghost function AddSuperseding(on: Surface, spec: AddSpec, id: Uuid, query: string, seen: Log): Action {
    if !ValidMemorySlug(query) then Finish(Some(InvalidSlug))
    else if |seen| == 0 then Look
    else match Resolve(seen[0].tree, query)
      case Err(e) => Finish(Some(if e.NotFound? then SupersedesUnknown else e))
      case Ok(first) =>
        if |seen| == 1 then Look
        else match DecodeRecord(on, seen[1].tree, MemoryPath(query, first))
          case Err(e) => Finish(Some(if e.NotFound? then SupersedesUnknown else e))
          case Ok(m) =>
            if !Supersedable(on,
              BlockOf(on, m).value.status) then Finish(Some(SupersedesInvalidStatus(BlockOf(on, m).value.status)))
            else if |seen| == 2 then Look
            else match Resolve(seen[2].tree, query)
              case Err(e) => Finish(Some(e))
              case Ok(target) => AddNumbered(on, spec, id, Some(target), seen[3..])
  }

  /** List the group, read every listed file, mint the next number; a pinned number skips both reads. */
  ghost function AddNumbered(on: Surface, spec: AddSpec, id: Uuid, target: Option<Uuid>, seen: Log): Action {
    if spec.number.Some? then AddWrite(on, spec, id, target, spec.number.value, seen)
    else if |seen| <= 1 then Look
    else match NextTicket(seen[0].tree, seen[1].tree)
      case Err(e) => Finish(Some(e))
      case Ok(n) => AddWrite(on, spec, id, target, n, seen[2..])
  }

  /** Probe the path, commit the new file, and for a superseding create commit the back-link. */
  ghost function AddWrite(on: Surface, spec: AddSpec, id: Uuid, target: Option<Uuid>, n: U32, seen: Log): Action {
    var path := MemoryPath(SlugOf(spec), id);
    if |seen| == 0 then Look
    else match ReadFile(seen[0].tree, path)
      case Ok(_) => Finish(Some(AlreadyExists))
      case Err(e) =>
        if !e.NotFound? then Finish(Some(e))
        else if |seen| == 1 then Commit([(path, Some(Rendered(NewMemory(on, spec, id, n, target))))])
        else if target.None? || spec.supersedes.None? || !seen[1].Wrote? then Finish(None)
        else UpdateUnlocked(on, spec.supersedes.value, BackLink(id, seen[1].commit), seen[2..])
  }

  // ---- Delete and rename ----

  /** After the leaf lock: read the record (resolve and file), resolve again, commit the deletion. */
  ghost function DeleteAct(on: Surface, slug: string, seen: Log): Action {
    if !ValidMemorySlug(slug) then Finish(Some(InvalidSlug))
    else if |seen| == 0 then Look
    else match Resolve(seen[0].tree, slug)
      case Err(e) => Finish(Some(e))
      case Ok(readId) =>
        if |seen| == 1 then Look
        else match DecodeRecord(on, seen[1].tree, MemoryPath(slug, readId))
          case Err(e) => Finish(Some(e))
          case Ok(_) =>
            if |seen| == 2 then Look
            else match Resolve(seen[2].tree, slug)
              case Err(e) => Finish(Some(e))
              case Ok(id) => if |seen| == 3 then Commit([(MemoryPath(slug, id), None)]) else Finish(None)
  }

  /**
    List the old directory, read its files, commit all moves at once; the listing of the new slug afterwards is
    left out.
  */
  ghost function RenameAct(on: Surface, old_: string, new_: string, seen: Log): Action {
    if !ValidMemorySlug(old_) || !ValidMemorySlug(new_) then Finish(Some(InvalidSlug))
    else if old_ == new_ then Finish(None)
    else if |seen| == 0 then Look
    else if UuidNames(seen[0].tree, old_) == {} then Finish(Some(NotFound))
    else if |seen| == 1 then Look
    else match PlanMoves(seen[1].tree, on, Listing(UuidNames(seen[0].tree, old_)), old_, new_)
      case Err(e) => Finish(Some(e))
      case Ok(moves) => if |seen| == 2 then Commit(moves) else Finish(None)
  }

  // ---- The next action ----

  const PROCESS_SHARED := Request(Process, Shared)

  function FirstLock(op: Op): Request {
    if op.CreateGroup? then Request(Process, Exclusive) else PROCESS_SHARED
  }

  function GroupLock(op: Op): Request {
    Request(Group(op.group), if op.Add? || op.Rename? then Exclusive else Shared)
  }

  ghost function Act(op: Op, log: Log): Action {
    if op.Update? && op.on == Issues && op.change.(milestone := None) == NO_CHANGE then Finish(Some(NoChanges))
    else if |log| == 0 then Acquire(FirstLock(op))
    else if op.CreateGroup? then Finish(None)
    else if |log| == 1 then Acquire(GroupLock(op))
    else match op
      case Add(_, on, spec, id) => AddAct(on, spec, id, log[2..])
      case Rename(_, on, old_, new_) => RenameAct(on, old_, new_, log[2..])
      case Update(_, on, slug, change) => LeafAct(op, slug, log)
      case Delete(_, on, slug) => LeafAct(op, slug, log)
  }

  /** Resolve under the shared group lock, then take the leaf of whatever id that gave. */
  ghost function LeafAct(op: Op, slug: string, log: Log): Action
    requires (op.Update? || op.Delete?) && |log| >= 2
  {
    if |log| == 2 then Look
    else match Resolve(log[2].tree, slug)
      case Err(e) => Finish(Some(e))
      case Ok(id) =>
        if |log| == 3 then Acquire(Request(LockScope.Memory(id), Exclusive))
        else if op.Update? then UpdateUnlocked(op.on, slug, op.change, log[4..])
        else DeleteAct(op.on, slug, log[4..])
  }

  /** Does the event answer the action? */
  ghost predicate Answers(a: Action, e: Event) {
    match a
    case Acquire(r) => e.Locked? && e.request == r
    case Look => e.Saw?
    case Commit(edits) => e.Wrote?
    case Finish(_) => false
  }

  /** The log came about by running the program. */
  ghost predicate WellLogged(op: Op, log: Log) {
    forall i :: 0 <= i < |log| ==> Answers(Act(op, log[..i]), log[i])
  }

  lemma WellLoggedSnoc(op: Op, log: Log, e: Event)
    requires WellLogged(op, log) && Answers(Act(op, log), e)
    ensures WellLogged(op, log + [e])
  {
    forall i | 0 <= i < |log + [e]| ensures Answers(Act(op, (log + [e])[..i]), (log + [e])[i]) {
      if i < |log| { assert (log + [e])[..i] == log[..i]; } else { assert (log + [e])[..i] == log; }
    }
  }

  // ---- How the chains begin ----

  predicate OnLeaf(op: Op) {
    op.Update? || op.Delete?
  }

  /** The chain taken so far is the documented one: process, group, then the resolved leaf. */
  lemma ChainTaken(op: Op, log: Log)
    requires WellLogged(op, log)
    ensures |log| > 0 ==> log[0].Locked? && log[0].request == FirstLock(op)
    ensures |log| > 1 ==> !op.CreateGroup? && log[1].Locked? && log[1].request == GroupLock(op)
    ensures |log| > 2 && OnLeaf(op) ==> log[2].Saw?
    ensures |log| > 3 && OnLeaf(op) ==>
      Resolve(log[2].tree, op.slug).Ok? && log[3].Locked? &&
      log[3].request == Request(LockScope.Memory(Resolve(log[2].tree, op.slug).value), Exclusive)
  {
    if |log| > 0 { assert Answers(Act(op, log[..0]), log[0]); }
    if |log| > 1 { assert Answers(Act(op, log[..1]), log[1]); }
    if |log| > 2 { assert Answers(Act(op, log[..2]), log[2]); }
    if |log| > 3 { assert Answers(Act(op, log[..3]), log[3]); }
  }

  lemma WriteNeverLocks(on: Surface, spec: AddSpec, id: Uuid, target: Option<Uuid>, n: U32, seen: Log)
    ensures !AddWrite(on, spec, id, target, n, seen).Acquire?
  {
  }

  lemma AddNeverLocks(on: Surface, spec: AddSpec, id: Uuid, target: Option<Uuid>, seen: Log)
    ensures !AddNumbered(on, spec, id, target, seen).Acquire?
  {
    hide AddWrite;
    if spec.number.Some? {
      WriteNeverLocks(on, spec, id, target, spec.number.value, seen);
    } else if |seen| > 1 && NextTicket(seen[0].tree, seen[1].tree).Ok? {
      WriteNeverLocks(on, spec, id, target, NextTicket(seen[0].tree, seen[1].tree).value, seen[2..]);
    }
  }

  /** Behind the chain no program asks for a lock. */
  lemma BodiesNeverLock(op: Op, seen: Log)
    ensures op.Add? ==> !AddAct(op.on, op.spec, op.id, seen).Acquire?
    ensures op.Rename? ==> !RenameAct(op.on, op.oldSlug, op.newSlug, seen).Acquire?
    ensures op.Update? ==> !UpdateUnlocked(op.on, op.slug, op.change, seen).Acquire?
    ensures op.Delete? ==> !DeleteAct(op.on, op.slug, seen).Acquire?
  {
    hide AddNumbered;
    if op.Add? {
      AddNeverLocks(op.on, op.spec, op.id, None, seen);
      if op.spec.supersedes.Some? && |seen| >= 3 && Resolve(seen[2].tree, op.spec.supersedes.value).Ok? {
        AddNeverLocks(op.on, op.spec, op.id, Some(Resolve(seen[2].tree, op.spec.supersedes.value).value), seen[3..]);
      }
    }
  }

  /** No lock is asked for anywhere else: past the chain a program only reads, commits or finishes. */
  lemma LocksOnlyInChain(op: Op, log: Log)
    requires Act(op, log).Acquire?
    ensures |log| <= 1 || (|log| == 3 && OnLeaf(op))
    ensures |log| == 3 ==>
      Resolve(log[2].tree, op.slug).Ok? &&
      Act(op, log).request == Request(LockScope.Memory(Resolve(log[2].tree, op.slug).value), Exclusive)
    ensures |log| == 0 ==> Act(op, log).request == FirstLock(op)
    ensures |log| == 1 ==> Act(op, log).request == GroupLock(op)
  {
    hide AddAct, RenameAct, UpdateUnlocked, DeleteAct, Resolve;
    if |log| >= 2 { BodiesNeverLock(op, log[2..]); }
    if |log| >= 4 { BodiesNeverLock(op, log[4..]); }
  }

  lemma LockedEventsInChain(op: Op, log: Log, i: nat)
    requires WellLogged(op, log) && i < |log| && log[i].Locked?
    ensures i <= 1 || (i == 3 && OnLeaf(op))
  {
    assert Answers(Act(op, log[..i]), log[i]);
    LocksOnlyInChain(op, log[..i]);
  }

  /** Requests of one program climb down the hierarchy strictly. */
  lemma RequestsDescend(op: Op, log: Log, i: nat)
    requires WellLogged(op, log) && Act(op, log).Acquire? && i < |log| && log[i].Locked?
    ensures Rank(log[i].request.scope) < Rank(Act(op, log).request.scope)
  {
    ChainTaken(op, log);
    LocksOnlyInChain(op, log);
    LockedEventsInChain(op, log, i);
  }

  /** Each of the program's chains is one of the documented ones. */
  lemma ChainsAreDocumented(op: Op, log: Log)
    requires WellLogged(op, log)
    ensures op.CreateGroup? && |log| > 0 ==> [log[0].request] == CoarsenProcessChain()
    ensures op.Add? && |log| > 1 ==> [log[0].request, log[1].request] == CreateChain(op.group)
    ensures op.Rename? && |log| > 1 ==> [log[0].request, log[1].request] == CoarsenGroupChain(op.group)
    ensures OnLeaf(op) && |log| > 3 ==>
      (Resolve(log[2].tree, op.slug).Ok? &&
       [log[0].request, log[1].request, log[3].request] ==
         MemoryChain(op.group, Resolve(log[2].tree, op.slug).value, Exclusive))
  {
    ChainTaken(op, log);
  }
}
