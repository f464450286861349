/**
  Supersede chains under calls that cannot break them, whatever the tree.

  These are creates, with or without `supersedes`, renames, feature updates that set no link and remove no
  reference, and all calls on issues, in groups without files that carry both a `[feature]` and an `[issue]` block.
*/
module SystemChains {
  import opened Basics
  import opened Refs
  import opened Memories
  import opened LockTables
  import opened TrackerOps
  import opened Tickets
  import opened Rename
  import opened Supersede
  import opened Sessions
  import opened SessionCommits
  import opened System
  import opened SystemInvariant
  import opened SystemSafety

  predicate Orderly(op: Op) {
    match op
    case Update(_, on, _, change) => on == Issues || LinkNeutral(change)
    case Delete(_, on, _) => on == Issues
    case _ => true
  }

  predicate Hybrid(b: Blob) {
    Strict(b).Some? && Strict(b).value.feature.Some? && Strict(b).value.issue.Some?
  }

  /** No file carries both a `[feature]` and an `[issue]` block. */
  ghost predicate NoHybrids(t: Tree) {
    forall p :: p in t ==> !Hybrid(t[p])
  }

  // ---- No operation writes such a file ----

  lemma CopiesKeepNoHybrids(t: Tree, t': Tree, from: map<Path, Path>)
    requires NoHybrids(t) && forall p :: p in t' ==>
      !Hybrid(t'[p]) || (p in from && from[p] in t && t'[p] == t[from[p]])
    ensures NoHybrids(t')
  {
  }

  lemma NewMemoryIsNoHybrid(on: Surface, spec: AddSpec, id: Uuid, n: U32, over: Option<Uuid>)
    ensures !Hybrid(Rendered(NewMemory(on, spec, id, n, over)))
  {
  }

  lemma RebuiltIsNoHybrid(on: Surface, id: Uuid, current: Memory, refs: seq<Ref>, spec: UpdateSpec)
    requires BlockOf(on, current).Some? && Rebuild(on, id, current, refs, spec).Ok?
    ensures !Hybrid(Rendered(Rebuild(on, id, current, refs, spec).value))
  {
  }

  lemma AddKeepsNoHybrids(t: Tree, on: Surface, spec: AddSpec, id: Uuid, edits: Edits)
    requires NoHybrids(t) && AddEdits(t, on, spec, id) == Ok(edits)
    ensures NoHybrids(Apply(t, edits))
  {
    hide AddEdits, Apply, NextTicket, NewMemory, Hybrid;
    var n, over := AddedMemory(t, on, spec, id, edits);
    NewMemoryIsNoHybrid(on, spec, id, n, over);
    CopiesKeepNoHybrids(t, Apply(t, edits), map p | p in t :: p);
  }

  lemma UpdateKeepsNoHybrids(t: Tree, on: Surface, slug: string, spec: UpdateSpec, edits: Edits)
    requires NoHybrids(t) && UpdateEdits(t, on, slug, spec) == Ok(edits)
    ensures NoHybrids(Apply(t, edits))
  {
    hide UpdateEdits, Apply, Rebuild, Hybrid;
    var id, m := UpdatedMemory(t, on, slug, spec, edits);
    RebuiltIsNoHybrid(on, id, Strict(t[MemoryPath(slug, id)]).value, Strict(t[MemoryPath(slug, id)]).value.refs, spec);
    CopiesKeepNoHybrids(t, Apply(t, edits), map p | p in t :: p);
  }

  lemma DeleteKeepsNoHybrids(t: Tree, on: Surface, slug: string, edits: Edits)
    requires NoHybrids(t) && DeleteEdits(t, on, slug) == Ok(edits)
    ensures NoHybrids(Apply(t, edits))
  {
    hide DeleteEdits, Apply, Hybrid;
    var id := DeletedMemory(t, on, slug, edits);
    CopiesKeepNoHybrids(t, Apply(t, edits), map p | p in t :: p);
  }

  lemma RenameKeepsNoHybrids(t: Tree, on: Surface, old_: string, new_: string, edits: Edits)
    requires NoHybrids(t) && RenameEdits(t, on, old_, new_) == Ok(edits)
    ensures NoHybrids(Apply(t, edits))
  {
    if old_ != new_ {
      hide RenameEdits, Apply, Listing, NoHybrids, UuidNames, Ids, Moved;
      RenamedTree(t, on, old_, new_, edits);
    }
  }

  lemma CommitKeepsNoHybrids(s: Sys, t: TaskId)
    requires System.Inv(s) && CanCommit(s, t) && NoHybrids(TreeOf(s, s.tasks[t].op.group))
    ensures NoHybrids(Apply(TreeOf(s, s.tasks[t].op.group), Next(s, t).edits))
  {
    hide System.Inv, NoHybrids, Apply, Act;
    var op, log := s.tasks[t].op, s.tasks[t].log;
    var before, edits := TreeOf(s, op.group), Next(s, t).edits;
    CommitIsSequential(s, t);
    match op
    case Add(_, on, spec, id) =>
      AddCommitsAt(op, log);
      if IsBirth(s.tasks[t]) { AddKeepsNoHybrids(before, on, spec, id, edits); }
      else {
        UpdateKeepsNoHybrids(before, on, spec.supersedes.value, BackLink(id, log[FirstWrite(spec)].commit), edits);
      }
    case Update(_, on, slug, change) => UpdateKeepsNoHybrids(before, on, slug, change, edits);
    case Delete(_, on, slug) => DeleteKeepsNoHybrids(before, on, slug, edits);
    case Rename(_, on, old_, new_) => RenameKeepsNoHybrids(before, on, old_, new_, edits);
    case CreateGroup(_) =>
  }

  // ---- So orderly commits are safe ----

  lemma IssueIsNoFeature(t: Tree, p: Path)
    requires NoHybrids(t) && DecodeRecord(Issues, t, p).Ok?
    ensures !IsFeature(t, p)
  {
    assert p in t && !Hybrid(t[p]);
  }

  lemma IssueUpdateIsSafe(t: Tree, births: map<Uuid, nat>, slug: string, spec: UpdateSpec, edits: Edits)
    requires NoHybrids(t) && UpdateEdits(t, Issues, slug, spec) == Ok(edits)
    ensures RewriteSafe(t, births, Issues, slug, spec)
  {
    hide Resolve, IsFeature, DecodeRecord, ReadRefs, Rebuild;
    IssueIsNoFeature(t, MemoryPath(slug, Resolve(t, slug).value));
  }

  lemma IssueDeleteIsSafe(t: Tree, births: map<Uuid, nat>, slug: string, edits: Edits)
    requires NoHybrids(t) && ChainsOk(t, births) && DeleteEdits(t, Issues, slug) == Ok(edits)
    ensures RemovalSafe(t, slug)
  {
    hide Resolve, IsFeature, DecodeRecord, ChainsOk, NobodyElseLinks;
    var id := DeletedMemory(t, Issues, slug, edits);
    IssueIsNoFeature(t, MemoryPath(slug, id));
    NonFeatureIsUnlinked(t, births, MemoryPath(slug, id));
  }

  lemma NeutralUpdateIsSafe(t: Tree, births: map<Uuid, nat>, slug: string, spec: UpdateSpec, edits: Edits)
    requires ChainsOk(t, births) && LinkNeutral(spec) && UpdateEdits(t, Features, slug, spec) == Ok(edits)
    ensures RewriteSafe(t, births, Features, slug, spec)
  {
    hide Resolve, UpdateEdits, ChainsOk, LinkNeutral, UpdateSafe;
    var id, m := UpdatedMemory(t, Features, slug, spec, edits);
    LinkNeutralIsSafe(t, births, MemoryPath(slug, id), id, spec);
  }

  lemma OrderlyIsSafe(s: Sys, t: TaskId)
    requires System.Inv(s) && ChainInv(s) && CanCommit(s, t) && Orderly(s.tasks[t].op)
    requires NoHybrids(TreeOf(s, s.tasks[t].op.group))
    ensures ChainSafe(s.tasks[t], TreeOf(s, s.tasks[t].op.group), BirthsOf(s, s.tasks[t].op.group))
  {
    hide System.Inv, NoHybrids, Act, ChainsOk, RewriteSafe, RemovalSafe, UpdateEdits, DeleteEdits, LinkNeutral,
      AddEdits;
    var op, log := s.tasks[t].op, s.tasks[t].log;
    var now, births, edits := TreeOf(s, op.group), BirthsOf(s, op.group), Next(s, t).edits;
    CommitIsSequential(s, t);
    assert GroupChains(s, op.group);
    hide ChainInv;
    match op
    case Add(_, on, spec, id) =>
      AddCommitsAt(op, log);
      if on == Issues && !IsBirth(s.tasks[t]) {
        IssueUpdateIsSafe(now, births, spec.supersedes.value, BackLink(id, log[FirstWrite(spec)].commit), edits);
        SpecIsImmaterial(now, births, spec.supersedes.value, BackLink(id, log[FirstWrite(spec)].commit));
      }
    case Update(_, on, slug, change) =>
      if on == Issues {
        IssueUpdateIsSafe(now, births, slug, change, edits);
      } else {
        NeutralUpdateIsSafe(now, births, slug, change, edits);
      }
    case Delete(_, on, slug) => IssueDeleteIsSafe(now, births, slug, edits);
    case Rename(_, _, _, _) =>
    case CreateGroup(_) =>
  }

  // ---- Over whole runs ----

  /** Orderly calls in groups without hybrid files. */
  ghost predicate OrderlyCalls(s: Sys) {
    (forall t: TaskId :: t < |s.tasks| ==> Orderly(s.tasks[t].op)) && forall g :: NoHybrids(TreeOf(s, g))
  }

  lemma StepKeepsOrder(s: Sys, s': Sys)
    requires System.Inv(s) && System.Step(s, s') && OrderlyCalls(s)
    ensures OrderlyCalls(s')
  {
    hide Act, Apply, NoHybrids, System.Inv, System.Step, CommitNext, Orderly;
    OnlyCommitsStore(s, s');
    if SameStore(s, s') {
      assert forall g :: TreeOf(s', g) == TreeOf(s, g);
    } else {
      var t: TaskId, c :| CanCommit(s, t) && s' == CommitNext(s, t, c);
      CommitKeepsNoHybrids(s, t);
      forall g ensures NoHybrids(TreeOf(s', g)) { TreeAfterCommit(s, t, c, g); }
    }
  }

  lemma {:induction false} OrderlyRunKeepsChains(run: seq<Sys>, n: nat)
    requires System.Run(run) && n < |run| && ChainInv(run[0]) && OrderlyCalls(run[0])
    ensures ChainInv(run[n]) && OrderlyCalls(run[n])
    decreases n
  {
    hide System.Step, System.Inv, ChainInv, OrderlyCalls;
    if n > 0 {
      OrderlyRunKeepsChains(run, n - 1);
      SystemRunKeepsInv(run, n - 1);
      OrderlyCommitsAreSafe(run[n - 1]);
      StepKeepsChainInv(run[n - 1], run[n]);
      StepKeepsOrder(run[n - 1], run[n]);
    }
  }

  lemma OrderlyCommitsAreSafe(s: Sys)
    requires System.Inv(s) && ChainInv(s) && OrderlyCalls(s)
    ensures CommitsAreSafe(s)
  {
    hide System.Inv, ChainInv, NoHybrids, ChainSafe, Act, Orderly;
    forall t: TaskId | CanCommit(s, t)
      ensures ChainSafe(s.tasks[t], TreeOf(s, s.tasks[t].op.group), BirthsOf(s, s.tasks[t].op.group))
    {
      OrderlyIsSafe(s, t);
    }
  }

  /** Orderly calls keep every chain intact with no condition on what they meet, and the integrity pass stays silent. */
  lemma OrderlyChainsStayIntact(run: seq<Sys>, n: nat, g: Uuid, files: seq<Path>)
    requires System.Run(run) && n < |run| && ChainInv(run[0]) && OrderlyCalls(run[0])
    ensures ChainsOk(TreeOf(run[n], g), BirthsOf(run[n], g))
    ensures IsListing(TreeOf(run[n], g), files) ==> ExpectedFindings(TreeOf(run[n], g), files, files) == []
  {
    hide System.Step, System.Inv, ChainInv, OrderlyCalls, ChainsOk, ExpectedFindings, IsListing, CommitsAreSafe;
    forall i | 0 <= i < n ensures CommitsAreSafe(run[i]) {
      OrderlyRunKeepsChains(run, i);
      SystemRunKeepsInv(run, i);
      OrderlyCommitsAreSafe(run[i]);
    }
    ChainsStayIntact(run, n, g, files);
  }
}
