/** What a program commits, compared with the one-tree operation it stands for. */
module SessionCommits {
  import opened Basics
  import opened Memories
  import opened Conventions
  import opened TrackerOps
  import opened Sessions

  /** The events from `from` up to `to` all saw the tree `t`. */
  ghost predicate Steady(log: Log, from: nat, to: nat, t: Tree) {
    to <= |log| && forall i :: from <= i < to ==> log[i].tree == t
  }

  /** Length of the log when a create commits its new file. */
  function FirstWrite(spec: AddSpec): nat {
    3 + (if spec.supersedes.Some? then 3 else 0) + (if spec.number.None? then 2 else 0)
  }

  /** Length of the log when a superseding create commits the back-link. */
  function SecondWrite(spec: AddSpec): nat {
    FirstWrite(spec) + 5
  }

  /** The unlocked update commits after four reads and then is done. */
  lemma UpdateShape(on: Surface, slug: string, change: UpdateSpec, seen: Log)
    ensures UpdateUnlocked(on, slug, change, seen).Commit? ==> |seen| == 4
    ensures !UpdateUnlocked(on, slug, change, seen).Acquire?
    ensures |seen| > 4 ==> UpdateUnlocked(on, slug, change, seen).Finish?
  {
  }

  lemma WriteShape(on: Surface, spec: AddSpec, id: Uuid, target: Option<Uuid>, n: U32, seen: Log)
    ensures var a := AddWrite(on, spec, id, target, n, seen);
      && (a.Commit? ==> |seen| == 1 || (|seen| == 6 && seen[1].Wrote? && spec.supersedes.Some? &&
                        a == UpdateUnlocked(on, spec.supersedes.value, BackLink(id, seen[1].commit), seen[2..])))
      && (|seen| > 6 ==> a.Finish?)
  {
    if |seen| > 1 && spec.supersedes.Some? && seen[1].Wrote? {
      UpdateShape(on, spec.supersedes.value, BackLink(id, seen[1].commit), seen[2..]);
    }
  }

  lemma NumberedShape(on: Surface, spec: AddSpec, id: Uuid, target: Option<Uuid>, seen: Log)
    ensures var a, k := AddNumbered(on, spec, id, target, seen), if spec.number.None? then 2 else 0;
      && (a.Commit? ==> |seen| == k + 1 || (|seen| == k + 6 && seen[k + 1].Wrote? && spec.supersedes.Some? &&
                        a ==
                          UpdateUnlocked(on, spec.supersedes.value, BackLink(id, seen[k + 1].commit), seen[k + 2..])))
      && (|seen| > k + 6 ==> a.Finish?)
  {
    if spec.number.Some? {
      WriteShape(on, spec, id, target, spec.number.value, seen);
    } else if |seen| > 1 && NextTicket(seen[0].tree, seen[1].tree).Ok? {
      WriteShape(on, spec, id, target, NextTicket(seen[0].tree, seen[1].tree).value, seen[2..]);
      assert |seen| >= 4 ==> seen[2..][2..] == seen[4..];
    }
  }

  /**
    A create commits once or twice, at these places; the second time it runs the unlocked update with the
    back-link.
  */
  lemma AddShape(on: Surface, spec: AddSpec, id: Uuid, seen: Log)
    ensures var a, k := AddAct(on, spec, id, seen), FirstWrite(spec) - 2;
      && (a.Commit? ==> |seen| == k || (|seen| == k + 5 && seen[k].Wrote? && spec.supersedes.Some? &&
                        a == UpdateUnlocked(on, spec.supersedes.value, BackLink(id, seen[k].commit), seen[k + 1..])))
      && (|seen| > k + 5 ==> a.Finish?)
  {
    NumberedShape(on, spec, id, None, seen);
    if spec.supersedes.Some? && |seen| >= 3 && Resolve(seen[2].tree, spec.supersedes.value).Ok? {
      NumberedShape(on, spec, id, Some(Resolve(seen[2].tree, spec.supersedes.value).value), seen[3..]);
      assert |seen| >= 5 ==> seen[3..][2..] == seen[5..];
      assert |seen| >= 7 ==> seen[3..][4..] == seen[7..];
    }
  }

  lemma AddCommitsAt(op: Op, log: Log)
    requires op.Add? && Act(op, log).Commit?
    ensures |log| == FirstWrite(op.spec) || (|log| == SecondWrite(op.spec) && op.spec.supersedes.Some?)
    ensures |log| == SecondWrite(op.spec) ==> log[FirstWrite(op.spec)].Wrote?
  {
    AddShape(op.on, op.spec, op.id, log[2..]);
  }

  /** Reads that all see one tree commit what the create does to that tree. */
  lemma AddFirstCommit(op: Op, log: Log, t: Tree, edits: Edits)
    requires op.Add? && |log| == FirstWrite(op.spec) && Steady(log, 1, |log|, t)
    requires Act(op, log) == Commit(edits)
    ensures AddEdits(t, op.on, op.spec, op.id) == Ok(edits)
  {
    hide NextTicket, ReadFile, NewMemory, DecodeRecord, Resolve, MemoryPath, ValidMemorySlug, SlugOf, Supersedable,
      BlockOf, UpdateUnlocked;
    assert forall i :: 2 <= i < |log| ==> log[2..][i - 2] == log[i];
  }

  lemma AddSecondCommit(op: Op, log: Log, t: Tree, edits: Edits)
    requires op.Add? && |log| == SecondWrite(op.spec) && Steady(log, FirstWrite(op.spec), |log|, t)
    requires Act(op, log) == Commit(edits)
    ensures op.spec.supersedes.Some? && log[FirstWrite(op.spec)].Wrote?
    ensures UpdateEdits(t, op.on, op.spec.supersedes.value, BackLink(op.id, log[FirstWrite(op.spec)].commit)) ==
      Ok(edits)
  {
    AddShape(op.on, op.spec, op.id, log[2..]);
    var tail := log[2..][FirstWrite(op.spec) - 1..];
    assert forall i :: 0 <= i < |tail| ==> tail[i] == log[FirstWrite(op.spec) + 1 + i];
  }

  lemma RenameCommit(op: Op, log: Log, t: Tree, edits: Edits)
    requires op.Rename? && Steady(log, 1, |log|, t) && Act(op, log) == Commit(edits)
    ensures |log| == 4 && op.oldSlug != op.newSlug && RenameEdits(t, op.on, op.oldSlug, op.newSlug) == Ok(edits)
  {
  }

  // ---- Operations under a shared group lock ----

  function At(t: Tree, p: Path): Option<Blob> {
    if p in t then Some(t[p]) else None
  }

  /** The file an update or delete has locked. */
  ghost function LeafPath(op: Op, log: Log): Path
    requires OnLeaf(op) && |log| > 2 && Resolve(log[2].tree, op.slug).Ok?
  {
    MemoryPath(op.slug, Resolve(log[2].tree, op.slug).value)
  }

  /** Relative to the first resolution no UUID-named file has appeared under the slug of `t`. */
  ghost predicate Shrunk(op: Op, log: Log, t: Tree)
    requires OnLeaf(op) && |log| > 2
  {
    UuidNames(t, op.slug) <= UuidNames(log[2].tree, op.slug)
  }

  /**
    What an update or delete may rely on while others of its kind run: the ids under its slug only
    shrink, and from the leaf grant on the locked file is the same in every tree it reads and in `t`.
  */
  ghost predicate SharedView(op: Op, log: Log, t: Tree)
    requires OnLeaf(op)
  {
    && (|log| > 2 ==> Shrunk(op, log, t))
    && (|log| > 3 ==>
         (Resolve(log[2].tree, op.slug).Ok? &&
          forall i ::
            3 <= i < |log| ==>
              Shrunk(op, log, log[i].tree) && At(log[i].tree, LeafPath(op, log)) == At(t, LeafPath(op, log))))
  }

  lemma ResolveSole(t: Tree, slug: string)
    requires Resolve(t, slug).Ok?
    ensures exists n :: Sole(t, slug, n) && IsUuidName(n) && IdOf(n) == Resolve(t, slug).value
  {
    var n :| Sole(t, slug, n);
    assert n in UuidNames(t, slug);
  }

  /** A later resolution over fewer names gives the same id or nothing. */
  lemma ResolveAgain(t: Tree, later: Tree, slug: string)
    requires Resolve(t, slug).Ok? && UuidNames(later, slug) <= UuidNames(t, slug)
    ensures Resolve(later, slug) == Err(NotFound) || Resolve(later, slug) == Resolve(t, slug)
  {
    var n :| Sole(t, slug, n);
    if UuidNames(later, slug) != {} {
      assert Sole(later, slug, n);
    }
  }

  /** When the canonical file of the first id is still there, the later resolution succeeds. */
  lemma ResolveStill(t: Tree, later: Tree, slug: string)
    requires Resolve(t, slug).Ok? && UuidNames(later, slug) <= UuidNames(t, slug)
    requires MemoryPath(slug, Resolve(t, slug).value) in later
    ensures Resolve(later, slug) == Resolve(t, slug)
  {
    ResolveAgain(t, later, slug);
    assert Canonical(Resolve(t, slug).value) in UuidNames(later, slug);
  }

  /** Where a record decodes the same and its refs read the same, so does the whole update. */
  lemma UpdateCommit(op: Op, log: Log, t: Tree, edits: Edits)
    requires op.Update? && |log| > 3 && SharedView(op, log, t) && Act(op, log) == Commit(edits)
    ensures |log| == 8 && UpdateEdits(t, op.on, op.slug, op.change) == Ok(edits)
    ensures edits == [(LeafPath(op, log), edits[0].1)] && edits[0].1.Some? && LeafPath(op, log) in t
  {
    hide Rebuild, Resolve, MemoryPath, ValidMemorySlug, UuidNames;
    var slug := op.slug;
    var id := Resolve(log[2].tree, slug).value;
    var seen := log[4..];
    assert forall i :: 0 <= i < |seen| ==> seen[i] == log[i + 4];
    assert |seen| >= 2 && Shrunk(op, log, log[4].tree) && Shrunk(op, log, log[5].tree);
    ResolveAgain(log[2].tree, seen[0].tree, slug);
    ResolveAgain(log[2].tree, seen[1].tree, slug);
    assert |seen| == 4;
    var path := MemoryPath(slug, id);
    assert At(seen[2].tree, path) == At(t, path) && At(seen[3].tree, path) == At(t, path);
    ResolveStill(log[2].tree, t, slug);
  }

  lemma DeleteCommit(op: Op, log: Log, t: Tree, edits: Edits)
    requires op.Delete? && |log| > 3 && SharedView(op, log, t) && Act(op, log) == Commit(edits)
    ensures |log| == 7 && DeleteEdits(t, op.on, op.slug) == Ok(edits)
    ensures edits == [(LeafPath(op, log), None)] && LeafPath(op, log) in t
  {
    var slug := op.slug;
    var id := Resolve(log[2].tree, slug).value;
    var seen := log[4..];
    assert forall i :: 0 <= i < |seen| ==> seen[i] == log[i + 4];
    assert |seen| >= 1 && Shrunk(op, log, log[4].tree);
    ResolveAgain(log[2].tree, seen[0].tree, slug);
    assert |seen| == 3;
    assert Shrunk(op, log, log[6].tree);
    ResolveAgain(log[2].tree, seen[2].tree, slug);
    var path := MemoryPath(slug, id);
    assert At(seen[1].tree, path) == At(t, path);
    ResolveStill(log[2].tree, t, slug);
  }

  lemma LeafCommitsAt(op: Op, log: Log)
    requires OnLeaf(op) && Act(op, log).Commit?
    ensures |log| == if op.Update? then 8 else 7
  {
  }

  /** Bound on the number of events of any operation. */
  const MAX_EVENTS: nat := 14

  lemma ProgramsAreShort(op: Op, log: Log)
    requires |log| >= MAX_EVENTS
    ensures Act(op, log).Finish?
  {
    if op.Add? { AddShape(op.on, op.spec, op.id, log[2..]); }
    if op.Update? { UpdateShape(op.on, op.slug, op.change, log[4..]); }
  }
}
