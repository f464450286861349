/** Ticket numbers and supersede chains over whole runs of the combined system. */
module SystemSafety {
  import opened Basics
  import opened Memories
  import opened LockTables
  import opened TrackerOps
  import opened Tickets
  import opened Rename
  import opened Supersede
  import opened Sessions
  import opened SessionCommits
  import opened System
  import opened SystemInvariant

  // ---- What a step does to the stored state ----

  ghost predicate SameStore(s: Sys, s': Sys) {
    s'.trees == s.trees && s'.births == s.births && s'.clock == s.clock
  }

  ghost predicate SameOps(s: Sys, s': Sys) {
    |s'.tasks| == |s.tasks| && forall t: TaskId :: t < |s.tasks| ==> s'.tasks[t].op == s.tasks[t].op
  }

  lemma CommitKeepsOps(s: Sys, t: TaskId, c: string)
    requires CanCommit(s, t)
    ensures SameOps(s, CommitNext(s, t, c))
  {
    hide Act, Apply, FirstWrite;
  }

  /** No operation changes, and whatever is stored changes by commits only. */
  lemma OnlyCommitsStore(s: Sys, s': Sys)
    requires System.Step(s, s')
    ensures SameOps(s, s') && (SameStore(s, s') || exists t, c :: CanCommit(s, t) && s' == CommitNext(s, t, c))
  {
    hide Act, Ask, Grant, GiveUp, Release, Grantable, Idle, CommitNext;
    if t: TaskId, c :| CanCommit(s, t) && s' == CommitNext(s, t, c) {
      hide CanCommit;
      CommitKeepsOps(s, t, c);
    }
  }

  lemma {:induction false} OpsNeverChange(run: seq<Sys>, n: nat)
    requires System.Run(run) && n < |run|
    ensures SameOps(run[0], run[n])
    decreases n
  {
    hide System.Step;
    if n > 0 {
      OpsNeverChange(run, n - 1);
      OnlyCommitsStore(run[n - 1], run[n]);
    }
  }

  // ---- Ticket numbers ----

  /** No create is about to commit a pinned number that some memory of its group already carries. */
  ghost predicate PinsAreFree(s: Sys) {
    forall t: TaskId :: CanCommit(s, t) && IsBirth(s.tasks[t]) && s.tasks[t].op.spec.number.Some? ==>
      !NumberInUse(TreeOf(s, s.tasks[t].op.group), s.tasks[t].op.spec.number.value)
  }

  ghost predicate AllTicketsDistinct(s: Sys) {
    forall g :: TicketsDistinct(TreeOf(s, g))
  }

  /** A commit keeps the numbers of its group distinct unless it pins a number in use, and then it does not. */
  lemma CommitKeepsTicketsIff(s: Sys, t: TaskId)
    requires System.Inv(s) && CanCommit(s, t) && TicketsDistinct(TreeOf(s, s.tasks[t].op.group))
    ensures var task := s.tasks[t]; var before := TreeOf(s, task.op.group);
      TicketsDistinct(Apply(before, Next(s, t).edits)) <==>
      (IsBirth(task) && task.op.spec.number.Some? ==> !NumberInUse(before, task.op.spec.number.value))
  {
    var op, log := s.tasks[t].op, s.tasks[t].log;
    var before, edits := TreeOf(s, op.group), Next(s, t).edits;
    CommitIsSequential(s, t);
    match op
    case Add(_, on, spec, id) =>
      AddCommitsAt(op, log);
      if IsBirth(s.tasks[t]) { AddKeepsTicketsIff(before, on, spec, id, edits); }
      else { UpdateKeepsTickets(before, on, spec.supersedes.value, BackLink(id, log[FirstWrite(spec)].commit), edits); }
    case Update(_, on, slug, change) => UpdateKeepsTickets(before, on, slug, change, edits);
    case Delete(_, on, slug) => DeleteKeepsTickets(before, on, slug, edits);
    case Rename(_, on, old_, new_) => RenameKeepsTickets(before, on, old_, new_, edits);
    case CreateGroup(_) =>
  }

  lemma CommitKeepsTickets(s: Sys, t: TaskId, c: string)
    requires System.Inv(s) && CanCommit(s, t) && PinsAreFree(s) && AllTicketsDistinct(s)
    ensures AllTicketsDistinct(CommitNext(s, t, c))
  {
    hide Act, Apply, TicketsDistinct, System.Inv, NumberInUse, FirstWrite, CommitNext;
    CommitKeepsTicketsIff(s, t);
    forall g ensures TicketsDistinct(TreeOf(CommitNext(s, t, c), g)) { TreeAfterCommit(s, t, c, g); }
  }

  lemma TreeAfterCommit(s: Sys, t: TaskId, c: string, g: Uuid)
    requires CanCommit(s, t)
    ensures TreeOf(CommitNext(s, t, c), g) ==
      if g == s.tasks[t].op.group then Apply(TreeOf(s, g), Next(s, t).edits) else TreeOf(s, g)
  {
    hide Act, Apply, FirstWrite;
  }

  lemma StepKeepsTickets(s: Sys, s': Sys)
    requires System.Inv(s) && System.Step(s, s') && PinsAreFree(s) && AllTicketsDistinct(s)
    ensures AllTicketsDistinct(s')
  {
    hide Act, Apply, TicketsDistinct, System.Inv, System.Step, PinsAreFree, CommitNext;
    OnlyCommitsStore(s, s');
    if SameStore(s, s') {
      assert forall g :: TreeOf(s', g) == TreeOf(s, g);
    } else {
      var t: TaskId, c :| CanCommit(s, t) && s' == CommitNext(s, t, c);
      CommitKeepsTickets(s, t, c);
    }
  }

  /**
    Ticket uniqueness: in every reachable state distinct memories of a group carry distinct numbers,
    provided no create pins a number that is in use when it commits.
  */
  lemma {:induction false} TicketsStayDistinct(run: seq<Sys>, n: nat)
    requires System.Run(run) && n < |run| && AllTicketsDistinct(run[0])
    requires forall i :: 0 <= i < n ==> PinsAreFree(run[i])
    ensures AllTicketsDistinct(run[n])
    decreases n
  {
    hide System.Step, System.Inv, PinsAreFree, AllTicketsDistinct;
    if n > 0 {
      TicketsStayDistinct(run, n - 1);
      SystemRunKeepsInv(run, n - 1);
      StepKeepsTickets(run[n - 1], run[n]);
    }
  }

  /** In particular when every create leaves its number to the counter. */
  lemma MintedTicketsStayDistinct(run: seq<Sys>, n: nat)
    requires System.Run(run) && n < |run| && AllTicketsDistinct(run[0])
    requires forall t: TaskId :: t < |run[0].tasks| && run[0].tasks[t].op.Add? ==> run[0].tasks[t].op.spec.number.None?
    ensures AllTicketsDistinct(run[n])
  {
    forall i | 0 <= i < n ensures PinsAreFree(run[i]) {
      OpsNeverChange(run, i);
    }
    TicketsStayDistinct(run, n);
  }

  // ---- Supersede chains ----

  /** The creates mint pairwise different ids. */
  ghost predicate MintsApart(s: Sys) {
    forall t: TaskId, u: TaskId ::
      t < |s.tasks| && u < |s.tasks| && t != u && s.tasks[t].op.Add? && s.tasks[u].op.Add? ==>
      s.tasks[t].op.id != s.tasks[u].op.id
  }

  /** Rewriting the file the slug names is safe. */
  ghost predicate RewriteSafe(t: Tree, births: map<Uuid, nat>, on: Surface, slug: string, spec: UpdateSpec) {
    Resolve(t, slug).Ok? ==>
      UpdateSafe(t, births, on, MemoryPath(slug, Resolve(t, slug).value), Resolve(t, slug).value, spec)
  }

  /** Nobody else links to the file the slug names. */
  ghost predicate RemovalSafe(t: Tree, slug: string) {
    Resolve(t, slug).Ok? ==> NobodyElseLinks(t, MemoryPath(slug, Resolve(t, slug).value), Resolve(t, slug).value)
  }

  /**
    What the call's next commit must meet. Creates and renames always do; the back-link commit of a create
    does on features, and on issues, where it rewrites an issue file, like any update of one.
  */
  ghost predicate ChainSafe(task: Task, t: Tree, births: map<Uuid, nat>) {
    match task.op
    case Update(_, on, slug, change) => RewriteSafe(t, births, on, slug, change)
    case Delete(_, _, slug) => RemovalSafe(t, slug)
    case Add(_, on, spec, _) => on == Issues && !IsBirth(task) && spec.supersedes.Some? ==>
      RewriteSafe(t, births, on, spec.supersedes.value, NO_CHANGE)
    case _ => true
  }

  ghost predicate CommitsAreSafe(s: Sys) {
    forall t: TaskId ::
      CanCommit(s, t) ==> ChainSafe(s.tasks[t], TreeOf(s, s.tasks[t].op.group), BirthsOf(s, s.tasks[t].op.group))
  }

  ghost predicate Youngest(births: map<Uuid, nat>, id: Uuid) {
    id in births && forall x :: x in births && x != id ==> births[x] < births[id]
  }

  /** Between its two commits a create's memory is the youngest of its group and nobody links to it. */
  ghost predicate CreateView(op: Op, log: Log, t: Tree, births: map<Uuid, nat>)
    requires op.Add?
  {
    && (|log| <= FirstWrite(op.spec) ==> Unborn(t, op.id))
    && (FirstWrite(op.spec) < |log| <= SecondWrite(op.spec) ==>
      Youngest(births, op.id) && forall p :: p in t ==> !Linked(t, p, op.id))
  }

  ghost predicate GroupChains(s: Sys, g: Uuid) {
    ChainsOk(TreeOf(s, g), BirthsOf(s, g)) && forall x :: x in BirthsOf(s, g) ==> BirthsOf(s, g)[x] < s.clock
  }

  ghost predicate ChainInv(s: Sys) {
    && MintsApart(s)
    && (forall g :: GroupChains(s, g))
    && (forall t: TaskId :: Running(s, t) && s.tasks[t].op.Add? ==>
          CreateView(s.tasks[t].op, s.tasks[t].log, TreeOf(s, s.tasks[t].op.group), BirthsOf(s, s.tasks[t].op.group)))
  }

  // ---- An id nobody knows stays unknown until it is created ----

  lemma AddKeepsUnborn(t: Tree, on: Surface, spec: AddSpec, id: Uuid, edits: Edits, x: Uuid)
    requires Unborn(t, x) && x != id && AddEdits(t, on, spec, id) == Ok(edits)
    ensures Unborn(Apply(t, edits), x)
  {
    var n, over := AddedMemory(t, on, spec, id, edits);
    var t' := Apply(t, edits);
    assert forall p :: p in t' && IsUuidName(p.name) && IdOf(p.name) == x ==> p in t && x in AllIds(t);
  }

  lemma UpdateKeepsUnborn(t: Tree, on: Surface, slug: string, spec: UpdateSpec, edits: Edits, x: Uuid)
    requires Unborn(t, x) && UpdateEdits(t, on, slug, spec) == Ok(edits)
    requires on == Issues || spec.supersededBy.None? || spec.supersededBy.value.target != x
    ensures Unborn(Apply(t, edits), x)
  {
    var p := UpdatedFile(t, on, slug, spec, edits);
    var t' := Apply(t, edits);
    assert forall q :: q in t' && IsUuidName(q.name) && IdOf(q.name) == x ==> q in t && x in AllIds(t);
    assert forall q :: q in t' && Linked(t', q, x) ==> q in t && Linked(t, q, x);
  }

  lemma DeleteKeepsUnborn(t: Tree, on: Surface, slug: string, edits: Edits, x: Uuid)
    requires Unborn(t, x) && DeleteEdits(t, on, slug) == Ok(edits)
    ensures Unborn(Apply(t, edits), x)
  {
    var id := DeletedMemory(t, on, slug, edits);
    var t' := Apply(t, edits);
    assert forall q :: q in t' && IsUuidName(q.name) && IdOf(q.name) == x ==> q in t && x in AllIds(t);
    assert forall q :: q in t' && Linked(t', q, x) ==> q in t && Linked(t, q, x);
  }

  lemma RenameKeepsUnborn(t: Tree, on: Surface, old_: string, new_: string, edits: Edits, x: Uuid)
    requires Unborn(t, x) && IdsUnique(t) && RenameEdits(t, on, old_, new_) == Ok(edits)
    ensures Unborn(Apply(t, edits), x)
  {
    if old_ != new_ {
      var t' := Apply(t, edits);
      RenameConserves(t, on, old_, new_, edits);
      RenameKeepsIds(t, on, old_, new_, edits);
      forall q | q in t' ensures !Linked(t', q, x) {
        assert q.slug == old_ ==> !IsUuidName(q.name) || q.name in UuidNames(t', old_);
        assert Home(t, q, old_) in t && t'[q] == t[Home(t, q, old_)];
        assert !Linked(t, Home(t, q, old_), x);
      }
    }
  }

  lemma ChainsHaveUniqueIds(t: Tree, births: map<Uuid, nat>)
    requires ChainsOk(t, births)
    ensures IdsUnique(t)
  {
  }

  lemma BackedIsBorn(t: Tree, id: Uuid, to: Uuid, x: Uuid)
    requires Backed(t, id, to) && Unborn(t, x)
    ensures to != x
  {
    var q :| q in t && IsUuidName(q.name) && IdOf(q.name) == to && RefersTo(t, q, id);
    assert to in AllIds(t);
  }

  /** A safe update links to an existing memory only. */
  lemma SafeUpdateKeepsUnborn(t: Tree, births: map<Uuid, nat>, on: Surface, slug: string, spec: UpdateSpec,
          edits: Edits, x: Uuid)
    requires Unborn(t, x) && UpdateEdits(t, on, slug, spec) == Ok(edits) && RewriteSafe(t, births, on, slug, spec)
    ensures Unborn(Apply(t, edits), x)
  {
    hide UpdateEdits, Resolve, Unborn, Backed, Apply;
    var p := UpdatedFile(t, on, slug, spec, edits);
    if on == Features && spec.supersededBy.Some? {
      BackedIsBorn(t, Resolve(t, slug).value, spec.supersededBy.value.target, x);
    }
    UpdateKeepsUnborn(t, on, slug, spec, edits, x);
  }

  lemma CommitKeepsUnborn(s: Sys, t: TaskId, x: Uuid)
    requires System.Inv(s) && CanCommit(s, t) && GroupChains(s, s.tasks[t].op.group)
    requires ChainSafe(s.tasks[t], TreeOf(s, s.tasks[t].op.group), BirthsOf(s, s.tasks[t].op.group))
    requires s.tasks[t].op.Add? ==> s.tasks[t].op.id != x
    requires Unborn(TreeOf(s, s.tasks[t].op.group), x)
    ensures Unborn(Apply(TreeOf(s, s.tasks[t].op.group), Next(s, t).edits), x)
  {
    hide Act, System.Inv, Apply, Unborn, RewriteSafe, RemovalSafe, ChainsOk, UpdateEdits, AddEdits, DeleteEdits,
      RenameEdits;
    ChainsHaveUniqueIds(TreeOf(s, s.tasks[t].op.group), BirthsOf(s, s.tasks[t].op.group));
    var op, log := s.tasks[t].op, s.tasks[t].log;
    var before, edits := TreeOf(s, op.group), Next(s, t).edits;
    CommitIsSequential(s, t);
    match op
    case Add(_, on, spec, id) =>
      AddCommitsAt(op, log);
      if IsBirth(s.tasks[t]) { AddKeepsUnborn(before, on, spec, id, edits, x); }
      else {
        UpdateKeepsUnborn(before, on, spec.supersedes.value, BackLink(id, log[FirstWrite(spec)].commit), edits, x);
      }
    case Update(_, on, slug, change) => SafeUpdateKeepsUnborn(before, BirthsOf(s, op.group), on, slug, change, edits,
      x);
    case Delete(_, on, slug) => DeleteKeepsUnborn(before, on, slug, edits, x);
    case Rename(_, on, old_, new_) => RenameKeepsUnborn(before, on, old_, new_, edits, x);
    case CreateGroup(_) =>
  }

  // ---- The second commit of a superseding create ----

  /** The slug still names the memory it named before the create, or two memories. */
  lemma TargetResolvesTheSame(t: Tree, t': Tree, slug: string, p: Path)
    requires p !in t && IsUuidName(p.name) && t'.Keys == t.Keys + {p} && Resolve(t, slug).Ok? && Resolve(t', slug).Ok?
    ensures Resolve(t', slug) == Resolve(t, slug)
  {
    ResolveSole(t, slug);
    ResolveSole(t', slug);
    var m :| Sole(t, slug, m) && IsUuidName(m) && IdOf(m) == Resolve(t, slug).value;
    var n :| Sole(t', slug, n) && IsUuidName(n) && IdOf(n) == Resolve(t', slug).value;
    assert m in UuidNames(t, slug);
    assert Path(slug, m) in t && Path(slug, m) in t';
    assert m in UuidNames(t', slug);
  }

  /** What the second commit finds: its first commit is the current tree, still with the youngest memory unlinked. */
  lemma BackLinkFinds(s: Sys, t: TaskId)
    requires System.Inv(s) && ChainInv(s) && CanCommit(s, t) && s.tasks[t].op.Add? && !IsBirth(s.tasks[t])
    ensures var op, log := s.tasks[t].op, s.tasks[t].log; var now := TreeOf(s, op.group);
      && op.spec.supersedes.Some? && FirstWritten(op, log) && now == log[FirstWrite(op.spec)].tree
      && UpdateEdits(now, op.on, op.spec.supersedes.value, BackLink(op.id, log[FirstWrite(op.spec)].commit)) ==
        Ok(Next(s, t).edits)
      && Youngest(BirthsOf(s, op.group), op.id) && (forall p :: p in now ==> !Linked(now, p, op.id))
  {
    hide LockTables.Inv, ChainsOk, UpdateEdits, AddEdits;
    CommitIsSequential(s, t);
    AddCommitsAt(s.tasks[t].op, s.tasks[t].log);
    hide Act;
    assert TaskInv(s, t) && View(s.tasks[t].op, s.tasks[t].log, TreeOf(s, s.tasks[t].op.group));
  }

  lemma BackLinkCommitKeepsChains(s: Sys, t: TaskId)
    requires System.Inv(s) && ChainInv(s) && CanCommit(s, t) && s.tasks[t].op.Add? && !IsBirth(s.tasks[t])
    requires s.tasks[t].op.on == Features
    ensures ChainsOk(Apply(TreeOf(s, s.tasks[t].op.group), Next(s, t).edits), BirthsOf(s, s.tasks[t].op.group))
  {
    BackLinkFinds(s, t);
    hide Act, System.Inv;
    assert GroupChains(s, s.tasks[t].op.group);
    BackLinkInPlace(s.tasks[t].op, s.tasks[t].log, TreeOf(s, s.tasks[t].op.group), BirthsOf(s, s.tasks[t].op.group),
      Next(s, t).edits);
  }

  lemma BackLinkInPlace(op: Op, log: Log, now: Tree, births: map<Uuid, nat>, edits: Edits)
    requires op.Add? && op.on == Features && op.spec.supersedes.Some? && FirstWritten(op, log)
    requires now == log[FirstWrite(op.spec)].tree
    requires UpdateEdits(now, op.on, op.spec.supersedes.value, BackLink(op.id, log[FirstWrite(op.spec)].commit)) ==
      Ok(edits)
    requires Youngest(births, op.id) && (forall p :: p in now ==> !Linked(now, p, op.id))
    requires ChainsOk(now, births)
    ensures ChainsOk(Apply(now, edits), births)
  {
    var query, commit := op.spec.supersedes.value, log[FirstWrite(op.spec)].commit;
    assert Resolve(now, query).Ok? by {
      hide *;
      var id, m := UpdatedMemory(now, op.on, query, BackLink(op.id, commit), edits);
    }
    BackLinkTarget(op, log, now);
    hide ChainsOk, UpdateEdits, FirstWritten, Resolve;
    BackLinkKeepsChains(now, births, query, op.id, commit, edits);
  }

  /** After its first commit the create's memory refers back to whatever the slug resolves to, and is not it. */
  lemma BackLinkTarget(op: Op, log: Log, now: Tree)
    requires op.Add? && op.on == Features && op.spec.supersedes.Some? && FirstWritten(op, log)
    requires now == log[FirstWrite(op.spec)].tree && IdsUnique(now)
    requires Resolve(now, op.spec.supersedes.value).Ok?
    ensures var old_ := Resolve(now, op.spec.supersedes.value).value; Backed(now, old_, op.id) && old_ != op.id
  {
    var before := log[1].tree;
    var query := op.spec.supersedes.value;
    var first := AddEdits(before, Features, op.spec, op.id).value;
    AddedMemoryRefersBack(before, op.spec, op.id, first);
    var n, over := AddedMemory(before, Features, op.spec, op.id, first);
    hide AddEdits, FirstWritten;
    var path := MemoryPath(SlugOf(op.spec), op.id);
    TargetResolvesTheSame(before, now, query, path);
    assert RefersTo(now, path, Resolve(now, query).value);
    ResolveSole(before, query);
    var m :| Sole(before, query, m) && IsUuidName(m) && IdOf(m) == Resolve(before, query).value;
    assert m in UuidNames(before, query);
    assert Path(query, m) in before && Path(query, m) in now && path in now;
  }

  // ---- Every step keeps the chains ----

  ghost function BirthsAfter(s: Sys, t: TaskId): map<Uuid, nat>
    requires t < |s.tasks|
  {
    var births := BirthsOf(s, s.tasks[t].op.group);
    if IsBirth(s.tasks[t]) then births[s.tasks[t].op.id := s.clock] else births
  }

  lemma BirthCommit(s: Sys, t: TaskId)
    requires System.Inv(s) && ChainInv(s) && CanCommit(s, t) && IsBirth(s.tasks[t])
    ensures var op := s.tasks[t].op; var after := Apply(TreeOf(s, op.group), Next(s, t).edits);
      ChainsOk(after, BirthsAfter(s, t)) && Youngest(BirthsAfter(s, t), op.id) && forall p :: p in after ==>
        !Linked(after, p, op.id)
  {
    var op := s.tasks[t].op;
    CommitIsSequential(s, t);
    assert CreateView(op, s.tasks[t].log, TreeOf(s, op.group), BirthsOf(s, op.group)) && GroupChains(s, op.group);
    hide Act, ChainInv, System.Inv, ChainsOk, AddEdits;
    AddKeepsChains(TreeOf(s, op.group), BirthsOf(s, op.group), s.clock, op.on, op.spec, op.id, Next(s, t).edits);
  }

  lemma OtherCommitIff(s: Sys, t: TaskId)
    requires System.Inv(s) && ChainInv(s) && CanCommit(s, t) && !IsBirth(s.tasks[t])
    ensures var op := s.tasks[t].op; var now, births := TreeOf(s, op.group), BirthsOf(s, op.group);
      ChainsOk(Apply(now, Next(s, t).edits), births) <==> ChainSafe(s.tasks[t], now, births)
  {
    hide Act, System.Inv, ChainsOk, UpdateEdits, DeleteEdits, RenameEdits, Apply, Resolve, UpdateSafe;
    var op, log := s.tasks[t].op, s.tasks[t].log;
    var now, births, edits := TreeOf(s, op.group), BirthsOf(s, op.group), Next(s, t).edits;
    CommitIsSequential(s, t);
    assert GroupChains(s, op.group);
    hide ChainInv;
    match op
    case Add(_, on, spec, id) =>
      AddCommitsAt(op, log);
      if on == Features {
        BackLinkCommitKeepsChains(s, t);
      } else {
        UpdateKeepsChainsIff(now, births, on, spec.supersedes.value, BackLink(id, log[FirstWrite(spec)].commit), edits);
        SpecIsImmaterial(now, births, spec.supersedes.value, BackLink(id, log[FirstWrite(spec)].commit));
      }
    case Update(_, on, slug, change) => UpdateKeepsChainsIff(now, births, on, slug, change, edits);
    case Delete(_, on, slug) => DeleteKeepsChainsIff(now, births, on, slug, edits);
    case Rename(_, on, old_, new_) => RenameKeepsChains(now, births, on, old_, new_, edits);
    case CreateGroup(_) =>
  }

  /** Whatever an issue update changes, it asks the same of the tree. */
  lemma SpecIsImmaterial(t: Tree, births: map<Uuid, nat>, slug: string, spec: UpdateSpec)
    ensures RewriteSafe(t, births, Issues, slug, spec) <==> RewriteSafe(t, births, Issues, slug, NO_CHANGE)
  {
  }

  /**
    A commit keeps the supersede chains of its group exactly when it is safe: it leaves every reference that
    backs a link, sets a link only to a younger feature that refers back and has no predecessor, and
    removes no feature another one links to.
  */
  lemma CommitKeepsChainsIff(s: Sys, t: TaskId)
    requires System.Inv(s) && ChainInv(s) && CanCommit(s, t)
    ensures var op := s.tasks[t].op; var now := TreeOf(s, op.group);
      ChainsOk(Apply(now, Next(s, t).edits), BirthsAfter(s, t)) <==> ChainSafe(s.tasks[t], now, BirthsOf(s, op.group))
  {
    hide System.Inv, ChainInv, ChainsOk, Act, Apply, RewriteSafe;
    if IsBirth(s.tasks[t]) { BirthCommit(s, t); } else { OtherCommitIff(s, t); }
  }

  lemma CommitKeepsGroupChains(s: Sys, t: TaskId, c: string, g: Uuid)
    requires System.Inv(s) && ChainInv(s) && CanCommit(s, t)
    requires ChainSafe(s.tasks[t], TreeOf(s, s.tasks[t].op.group), BirthsOf(s, s.tasks[t].op.group))
    ensures GroupChains(CommitNext(s, t, c), g)
  {
    hide Act, System.Inv, ChainsOk, Apply, ChainSafe;
    var s' := CommitNext(s, t, c);
    assert GroupChains(s, g);
    CommitKeepsChainsIff(s, t);
    hide ChainInv;
    if g == s.tasks[t].op.group {
      assert TreeOf(s', g) == Apply(TreeOf(s, g), Next(s, t).edits) && BirthsOf(s', g) == BirthsAfter(s, t);
    } else {
      assert TreeOf(s', g) == TreeOf(s, g) && BirthsOf(s', g) == BirthsOf(s, g);
    }
  }

  lemma CommitKeepsOthersCreateView(s: Sys, t: TaskId, c: string, u: TaskId)
    requires System.Inv(s) && ChainInv(s) && CanCommit(s, t) && Running(s, u) && u != t && s.tasks[u].op.Add?
    requires ChainSafe(s.tasks[t], TreeOf(s, s.tasks[t].op.group), BirthsOf(s, s.tasks[t].op.group))
    ensures var s' := CommitNext(s, t, c); var op := s.tasks[u].op;
      CreateView(op, s.tasks[u].log, TreeOf(s', op.group), BirthsOf(s', op.group))
  {
    hide Act, View, ChainsOk, System.Inv, ChainSafe;
    var op, log := s.tasks[u].op, s.tasks[u].log;
    var group := s.tasks[t].op.group;
    assert CreateView(op, log, TreeOf(s, op.group), BirthsOf(s, op.group));
    assert GroupChains(s, group);
    if op.group == group {
      if |log| > 1 {
        CommitsPastChain(s.tasks[t].op, s.tasks[t].log);
        TogetherOnLeaf(s, t, u);
      } else {
        CommitKeepsUnborn(s, t, op.id);
      }
    }
  }

  lemma CommitKeepsChainInv(s: Sys, t: TaskId, c: string)
    requires System.Inv(s) && ChainInv(s) && CanCommit(s, t)
    requires ChainSafe(s.tasks[t], TreeOf(s, s.tasks[t].op.group), BirthsOf(s, s.tasks[t].op.group))
    ensures ChainInv(CommitNext(s, t, c))
  {
    hide ChainSafe, System.Inv, Act, Apply;
    var s' := CommitNext(s, t, c);
    forall g ensures GroupChains(s', g) { CommitKeepsGroupChains(s, t, c, g); }
    forall u: TaskId | Running(s', u) && s'.tasks[u].op.Add?
      ensures CreateView(s'.tasks[u].op, s'.tasks[u].log, TreeOf(s', s'.tasks[u].op.group),
        BirthsOf(s', s'.tasks[u].op.group))
    {
      if u != t {
        CommitKeepsOthersCreateView(s, t, c, u);
      } else {
        AddCommitsAt(s.tasks[t].op, s.tasks[t].log);
        if IsBirth(s.tasks[t]) { BirthCommit(s, t); }
      }
    }
  }

  /** A read or a grant never falls between a create's two views. */
  lemma EventKeepsCreateView(s: Sys, s': Sys, t: TaskId)
    requires Running(s, t) && |s'.tasks| == |s.tasks| && s'.tasks[t].op == s.tasks[t].op && s.tasks[t].op.Add?
    requires SameStore(s, s')
    requires (Next(s, t).Look? || Next(s, t).Acquire?) && |s'.tasks[t].log| == |s.tasks[t].log| + 1
    requires CreateView(s.tasks[t].op, s.tasks[t].log, TreeOf(s, s.tasks[t].op.group), BirthsOf(s, s.tasks[t].op.group))
    ensures CreateView(s.tasks[t].op, s'.tasks[t].log, TreeOf(s', s.tasks[t].op.group),
      BirthsOf(s', s.tasks[t].op.group))
  {
    if IsBirth(s.tasks[t]) { AddNeverLooksAtWrite(s.tasks[t].op, s.tasks[t].log); }
  }

  /** At most one task's log grows in a step that stores nothing, and by a read or a grant. */
  lemma QuietStep(s: Sys, s': Sys, u: TaskId)
    requires System.Inv(s) && System.Step(s, s') && SameStore(s, s') && Running(s', u)
    requires !exists t, c :: CanCommit(s, t) && s' == CommitNext(s, t, c)
    ensures Running(s, u)
    ensures s'.tasks[u] == s.tasks[u] ||
            (s'.tasks[u].op == s.tasks[u].op && |s'.tasks[u].log| == |s.tasks[u].log| + 1 &&
             (Next(s, u).Look? || Next(s, u).Acquire?))
  {
    hide Act, Ask, Grant, GiveUp, Release, Grantable, Idle, Apply, FirstWrite, View, WellLogged, LockTables.Inv, Owns,
      Logged;
    if p :| CanGrant(s, p) && s' == GrantNext(s, p) {
      GranteeWaited(s, p);
    }
  }

  lemma GranteeWaited(s: Sys, p: Pending)
    requires System.Inv(s) && CanGrant(s, p)
    ensures Running(s, p.want.task) && Next(s, p.want.task).Acquire?
  {
    hide Act, Grantable, View, WellLogged, LockTables.Inv;
    assert Running(s, p.want.task) && Matched(s, p.want.task);
  }

  lemma StepKeepsChainInv(s: Sys, s': Sys)
    requires System.Inv(s) && System.Step(s, s') && ChainInv(s) && CommitsAreSafe(s)
    ensures ChainInv(s')
  {
    hide Act, ChainsOk, System.Inv, Apply, System.Step, ChainSafe;
    OnlyCommitsStore(s, s');
    if t: TaskId, c :| CanCommit(s, t) && s' == CommitNext(s, t, c) {
      CommitKeepsChainInv(s, t, c);
    } else {
      forall g ensures GroupChains(s', g) { assert GroupChains(s, g); }
      forall u: TaskId | Running(s', u) && s'.tasks[u].op.Add?
        ensures CreateView(s'.tasks[u].op, s'.tasks[u].log, TreeOf(s', s'.tasks[u].op.group),
          BirthsOf(s', s'.tasks[u].op.group))
      {
        QuietStep(s, s', u);
        if s'.tasks[u] != s.tasks[u] { EventKeepsCreateView(s, s', u); }
      }
    }
  }

  lemma {:induction false} RunKeepsChainInv(run: seq<Sys>, n: nat)
    requires System.Run(run) && n < |run| && ChainInv(run[0])
    requires forall i :: 0 <= i < n ==> CommitsAreSafe(run[i])
    ensures ChainInv(run[n])
    decreases n
  {
    hide System.Step, System.Inv, ChainInv, CommitsAreSafe;
    if n > 0 {
      RunKeepsChainInv(run, n - 1);
      SystemRunKeepsInv(run, n - 1);
      StepKeepsChainInv(run[n - 1], run[n]);
    }
  }

  /**
    Supersede chains: from any state whose chains are intact and whose creates mint new ids, every run of
    safe commits, however interleaved and wherever stopped (between the two commits of a superseding create
    too), reaches only states whose links ascend in creation order, have existing targets that refer back,
    and give each feature at most one predecessor; the integrity pass finds nothing.
  */
  lemma ChainsStayIntact(run: seq<Sys>, n: nat, g: Uuid, files: seq<Path>)
    requires System.Run(run) && n < |run| && ChainInv(run[0])
    requires forall i :: 0 <= i < n ==> CommitsAreSafe(run[i])
    ensures ChainsOk(TreeOf(run[n], g), BirthsOf(run[n], g))
    ensures IsListing(TreeOf(run[n], g), files) ==> ExpectedFindings(TreeOf(run[n], g), files, files) == []
  {
    hide System.Step, ChainsOk, ExpectedFindings, CommitsAreSafe, IsListing;
    RunKeepsChainInv(run, n);
    assert GroupChains(run[n], g);
    if IsListing(TreeOf(run[n], g), files) {
      IntactChainsAreSilent(TreeOf(run[n], g), BirthsOf(run[n], g), files, files);
    }
  }
}
