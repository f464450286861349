/**
  Programs get done: on the trees they see they commit whenever the operation they stand for succeeds, they
  fail only when it fails, and a call that finishes without an error has committed everything it should.
*/
module Completion {
  import opened Basics
  import opened Refs
  import opened Memories
  import opened Conventions
  import opened Scopes
  import opened LockTables
  import opened TrackerOps
  import opened Sessions
  import opened SessionCommits
  import opened System
  import opened SystemInvariant
  import opened Records

  /** What a program that stands for `r` does at the point where it commits. */
  ghost function Outcome(r: Result<Edits, TrackerError>): Action {
    match r
    case Ok(edits) => Commit(edits)
    case Err(e) => Finish(Some(e))
  }

  /** Before that point it goes on reading, or reports the error. */
  ghost predicate StillReads(a: Action, r: Result<Edits, TrackerError>) {
    a.Look? || (r.Err? && a == Finish(Some(r.error)))
  }

  // ---- The programs on one tree ----

  lemma UpdateActs(on: Surface, slug: string, change: UpdateSpec, seen: Log, t: Tree)
    requires forall i :: 0 <= i < |seen| && i < 4 ==> seen[i].tree == t
    ensures var (a, r) := (UpdateUnlocked(on, slug, change, seen), UpdateEdits(t, on, slug, change));
      && (|seen| < 4 ==> StillReads(a, r))
      && (|seen| == 4 ==> a == Outcome(r))
      && (|seen| > 4 ==> a == Finish(if r.Ok? then None else Some(r.error)))
  {
    hide Rebuild, Resolve, DecodeRecord, ReadRefs, ValidMemorySlug, MemoryPath;
  }

  lemma WriteActs(on: Surface, spec: AddSpec, id: Uuid, target: Option<Uuid>, n: U32, seen: Log)
    ensures |seen| == 0 ==> AddWrite(on, spec, id, target, n, seen).Look?
    ensures |seen| > 1 && AddWrite(on, spec, id, target, n, seen[..1]).Commit? && seen[1].Wrote? && target.Some? ==>
      AddWrite(on, spec, id, target, n, seen) ==
        match spec.supersedes
        case None => Finish(None)
        case Some(query) => UpdateUnlocked(on, query, BackLink(id, seen[1].commit), seen[2..])
    ensures |seen| > 1 && AddWrite(on, spec, id, target, n, seen[..1]).Commit? && spec.supersedes.None? ==>
      AddWrite(on, spec, id, target, n, seen) == Finish(None)
  {
    hide UpdateUnlocked, NewMemory, ReadFile, SlugOf;
    if |seen| > 1 { assert seen[..1][0] == seen[0]; }
  }

  /** Reads that all see one tree: the create's first commit, or its error. */
  lemma AddActs(op: Op, log: Log, t: Tree)
    requires op.Add? && 2 <= |log| <= FirstWrite(op.spec) && Steady(log, 1, |log|, t)
    ensures var (a, r) := (Act(op, log), AddEdits(t, op.on, op.spec, op.id));
      if |log| < FirstWrite(op.spec) then StillReads(a, r) else a == Outcome(r)
  {
    hide NextTicket, ReadFile, NewMemory, DecodeRecord, Resolve, MemoryPath, ValidMemorySlug, SlugOf, Supersedable,
      BlockOf, UpdateUnlocked;
    assert forall i :: 2 <= i < |log| ==> log[2..][i - 2] == log[i];
  }

  /** What a create does behind its first commit: nothing more, or the update that links the superseded memory. */
  ghost function Continued(on: Surface, spec: AddSpec, id: Uuid, commit: string, rest: Log): Action {
    match spec.supersedes
    case None => Finish(None)
    case Some(query) => UpdateUnlocked(on, query, BackLink(id, commit), rest)
  }

  lemma NumberedContinues(on: Surface, spec: AddSpec, id: Uuid, target: Option<Uuid>, seen: Log, k: nat)
    requires k == (if spec.number.None? then 3 else 1) && |seen| > k && seen[k].Wrote?
    requires AddNumbered(on, spec, id, target, seen[..k]).Commit? && (target.Some? <==> spec.supersedes.Some?)
    ensures AddNumbered(on, spec, id, target, seen) == Continued(on, spec, id, seen[k].commit, seen[k + 1..])
  {
    hide NextTicket, AddWrite, UpdateUnlocked;
    if spec.number.Some? {
      WriteActs(on, spec, id, target, spec.number.value, seen);
    } else {
      assert seen[..3][0] == seen[0] && seen[..3][1] == seen[1] && seen[..3][2..] == seen[2..][..1];
      assert seen[2..][2..] == seen[4..] && seen[2..][1] == seen[3];
      var n := NextTicket(seen[0].tree, seen[1].tree).value;
      WriteActs(on, spec, id, target, n, seen[2..]);
    }
  }

  lemma AddContinues(op: Op, log: Log, w: nat)
    requires op.Add? && w == FirstWrite(op.spec) < |log| && Act(op, log[..w]).Commit? && log[w].Wrote?
    ensures Act(op, log) == Continued(op.on, op.spec, op.id, log[w].commit, log[w + 1..])
  {
    hide AddNumbered, Resolve, DecodeRecord, ValidMemorySlug, SlugOf, Supersedable, BlockOf, Continued;
    var seen := log[2..];
    assert log[..w][2..] == seen[..w - 2] && log[w + 1..] == seen[w - 1..] && seen[w - 2] == log[w];
    if op.spec.supersedes.None? {
      NumberedContinues(op.on, op.spec, op.id, None, seen, w - 2);
    } else {
      var front := seen[..w - 2];
      assert front[0] == seen[0] && front[1] == seen[1] && front[2] == seen[2];
      assert front[3..] == seen[3..][..w - 5] && seen[3..][w - 5] == seen[w - 2];
      assert seen[3..][w - 4..] == seen[w - 1..];
      NumberedContinues(op.on, op.spec, op.id, Some(Resolve(seen[2].tree, op.spec.supersedes.value).value), seen[3..],
        w - 5);
    }
  }

  // ---- A create that finishes without an error ----

  /** The same of the back-link, behind the first commit. */
  lemma BackLinkActs(op: Op, log: Log, w: nat, t: Tree)
    requires op.Add? && op.spec.supersedes.Some? && w == FirstWrite(op.spec) < |log| <= SecondWrite(op.spec)
    requires Act(op, log[..w]).Commit? && log[w].Wrote? && Steady(log, w, |log|, t)
    ensures var (a, r) := (Act(op, log), UpdateEdits(t, op.on, op.spec.supersedes.value,
      BackLink(op.id, log[w].commit)));
      if |log| < SecondWrite(op.spec) then StillReads(a, r) else a == Outcome(r)
  {
    hide Act, UpdateEdits, UpdateUnlocked;
    AddContinues(op, log, w);
    UpdateActs(op.on, op.spec.supersedes.value, BackLink(op.id, log[w].commit), log[w + 1..], t);
  }

  lemma RenameActs(op: Op, log: Log, t: Tree)
    requires op.Rename? && 2 <= |log| <= 4 && Steady(log, 1, |log|, t) && op.oldSlug != op.newSlug
    ensures var (a, r) := (Act(op, log), RenameEdits(t, op.on, op.oldSlug, op.newSlug));
      if |log| < 4 then StillReads(a, r) else a == Outcome(r)
  {
    hide PlanMoves, Listing, ValidMemorySlug, UuidNames;
    assert forall i :: 2 <= i < |log| ==> log[2..][i - 2] == log[i];
  }

  /** An update or delete beside others: it commits when the operation succeeds on the tree it commits to. */
  lemma LeafCommits(op: Op, log: Log, t: Tree)
    requires OnLeaf(op) && 3 < |log| <= (if op.Update? then 8 else 7) && SharedView(op, log, t)
    requires op.Update? ==> !(op.on == Issues && op.change.(milestone := None) == NO_CHANGE)
    requires (if op.Update? then UpdateEdits(t, op.on, op.slug, op.change) else DeleteEdits(t, op.on, op.slug)).Ok?
    ensures if |log| < (if op.Update? then 8 else 7) then Act(op, log).Look?
            else Act(op, log) == Commit((if op.Update? then UpdateEdits(t, op.on, op.slug, op.change)
                                         else DeleteEdits(t, op.on, op.slug)).value)
  {
    hide Rebuild, Resolve, MemoryPath, ValidMemorySlug, UuidNames, DecodeRecord, ReadRefs;
    var id, seen := Resolve(log[2].tree, op.slug).value, log[4..];
    var path := MemoryPath(op.slug, id);
    LeafThere(op, log, t, id);
    DecodedIsThere(op.on, t, path);
    assert forall i :: 0 <= i < |seen| ==> seen[i] == log[i + 4];
    forall i | 0 <= i < |seen|
      ensures Resolve(seen[i].tree, op.slug) == Ok(id)
      ensures DecodeRecord(op.on, seen[i].tree, path) == DecodeRecord(op.on, t, path)
      ensures ReadRefs(seen[i].tree, path) == ReadRefs(t, path)
    {
      LeafReads(op, log, t, id, i + 4);
    }
  }

  /** Where the operation succeeds its slug still names the file it has locked. */
  lemma LeafThere(op: Op, log: Log, t: Tree, id: Uuid)
    requires OnLeaf(op) && |log| > 3 && SharedView(op, log, t) && Resolve(log[2].tree, op.slug) == Ok(id)
    requires Resolve(t, op.slug).Ok?
    ensures Resolve(t, op.slug) == Ok(id)
  {
    hide Resolve, UuidNames, MemoryPath;
    ResolveAgain(log[2].tree, t, op.slug);
  }

  lemma DecodedIsThere(on: Surface, t: Tree, p: Path)
    requires DecodeRecord(on, t, p).Ok?
    ensures p in t
  {
  }

  lemma LeafReads(op: Op, log: Log, t: Tree, id: Uuid, i: nat)
    requires OnLeaf(op) && 3 < i < |log| && SharedView(op, log, t) && Resolve(log[2].tree, op.slug) == Ok(id)
    requires MemoryPath(op.slug, id) in t
    ensures Resolve(log[i].tree, op.slug) == Ok(id)
    ensures DecodeRecord(op.on, log[i].tree, MemoryPath(op.slug, id)) == DecodeRecord(op.on, t, MemoryPath(op.slug, id))
    ensures ReadRefs(log[i].tree, MemoryPath(op.slug, id)) == ReadRefs(t, MemoryPath(op.slug, id))
  {
    hide Resolve, UuidNames, MemoryPath;
    assert At(log[i].tree, LeafPath(op, log)) == At(t, LeafPath(op, log)) && Shrunk(op, log, log[i].tree);
    ResolveStill(log[2].tree, log[i].tree, op.slug);
  }

  ghost function LeafEdits(op: Op, t: Tree): Result<Edits, TrackerError>
    requires OnLeaf(op)
  {
    if op.Update? then UpdateEdits(t, op.on, op.slug, op.change) else DeleteEdits(t, op.on, op.slug)
  }

  /** A read that fails on a tree of the view makes the whole operation fail on it, in the same way. */
  lemma LeafReadFails(op: Op, log: Log, t: Tree, id: Uuid, i: nat)
    requires OnLeaf(op) && 3 < i < |log| && SharedView(op, log, t) && Resolve(log[2].tree, op.slug) == Ok(id)
    requires ValidMemorySlug(op.slug) && DecodeRecord(op.on, log[i].tree, MemoryPath(op.slug, id)).Err?
    ensures LeafEdits(op, log[i].tree) == Err(DecodeRecord(op.on, log[i].tree, MemoryPath(op.slug, id)).error)
  {
    hide Rebuild, Resolve, ValidMemorySlug, UuidNames, MemoryPath;
    assert Shrunk(op, log, log[i].tree);
    if MemoryPath(op.slug, id) in log[i].tree {
      ResolveStill(log[2].tree, log[i].tree, op.slug);
    } else {
      ResolveAgain(log[2].tree, log[i].tree, op.slug);
    }
  }

  lemma DeleteFails(op: Op, log: Log, t: Tree, e: TrackerError)
    requires op.Delete? && WellLogged(op, log) && 2 < |log| <= 7 && SharedView(op, log, t)
    requires Act(op, log) == Finish(Some(e))
    ensures LeafEdits(op, log[|log| - 1].tree) == Err(if ValidMemorySlug(op.slug) then e else InvalidSlug)
  {
    hide WellLogged, Resolve, MemoryPath, ValidMemorySlug, UuidNames, DecodeRecord;
    if |log| > 5 {
      DeleteFailsLate(op, log, t, e);
    } else if |log| > 4 {
      assert log[4..][0] == log[4];
      assert Shrunk(op, log, log[4].tree);
      ResolveAgain(log[2].tree, log[4].tree, op.slug);
    }
  }

  /** A delete that reads its file has a valid slug and has found the file twice. */
  lemma DeleteReads(op: Op, log: Log)
    requires op.Delete? && WellLogged(op, log) && |log| > 5
    ensures Resolve(log[2].tree, op.slug).Ok? && ValidMemorySlug(op.slug) && Resolve(log[4].tree, op.slug).Ok?
    ensures Act(op, log) == DeleteAct(op.on, op.slug, log[4..])
  {
    Answered(op, log, 5);
    hide WellLogged, Resolve, ValidMemorySlug, DecodeRecord;
    assert log[..5][2] == log[2] && log[..5][4..] == [log[4]];
  }

  lemma DeleteFailsLate(op: Op, log: Log, t: Tree, e: TrackerError)
    requires op.Delete? && WellLogged(op, log) && 5 < |log| <= 7 && SharedView(op, log, t)
    requires Act(op, log) == Finish(Some(e))
    ensures LeafEdits(op, log[|log| - 1].tree) == Err(if ValidMemorySlug(op.slug) then e else InvalidSlug)
  {
    hide WellLogged, Act, Resolve, MemoryPath, ValidMemorySlug, UuidNames, DecodeRecord;
    DeleteReads(op, log);
    var id, seen, last := Resolve(log[2].tree, op.slug).value, log[4..], |log| - 1;
    assert seen[0] == log[4] && seen[1] == log[5] && seen[last - 4] == log[last];
    assert Shrunk(op, log, log[4].tree);
    ResolveAgain(log[2].tree, log[4].tree, op.slug);
    assert At(log[5].tree, LeafPath(op, log)) == At(log[last].tree, LeafPath(op, log));
    SameFileReads(op.on, log[5].tree, log[last].tree, MemoryPath(op.slug, id));
    if DecodeRecord(op.on, log[last].tree, MemoryPath(op.slug, id)).Err? {
      LeafReadFails(op, log, t, id, last);
    } else {
      DecodedIsThere(op.on, log[last].tree, MemoryPath(op.slug, id));
      LeafReads(op, log, log[last].tree, id, last);
    }
  }

  lemma UpdateFails(op: Op, log: Log, t: Tree, e: TrackerError)
    requires op.Update? && WellLogged(op, log) && 2 < |log| <= 8 && SharedView(op, log, t)
    requires Act(op, log) == Finish(Some(e))
    ensures LeafEdits(op, log[|log| - 1].tree) == Err(e)
  {
    hide Resolve, MemoryPath, ValidMemorySlug, UuidNames, DecodeRecord, ReadRefs, Rebuild;
    StartedUpdate(op, log);
    if |log| > 4 {
      var id, seen := Resolve(log[2].tree, op.slug).value, log[4..];
      var path := MemoryPath(op.slug, id);
      assert forall i :: 0 <= i < |seen| ==> seen[i] == log[i + 4];
      assert Shrunk(op, log, log[4].tree);
      ResolveAgain(log[2].tree, log[4].tree, op.slug);
      if |log| > 5 {
        assert Shrunk(op, log, log[5].tree);
        ResolveAgain(log[2].tree, log[5].tree, op.slug);
      }
      if |log| >= 7 && DecodeRecord(op.on, log[6].tree, path).Err? {
        LeafReadFails(op, log, t, id, 6);
      } else if |log| == 8 {
        DecodedIsThere(op.on, log[6].tree, path);
        assert At(log[6].tree, path) == At(log[7].tree, path);
        SameFileReads(op.on, log[6].tree, log[7].tree, path);
        assert Shrunk(op, log, log[7].tree);
        ResolveStill(log[2].tree, log[7].tree, op.slug);
      }
    }
  }

  lemma SameFileReads(on: Surface, t: Tree, u: Tree, p: Path)
    requires At(t, p) == At(u, p)
    ensures DecodeRecord(on, t, p) == DecodeRecord(on, u, p) && (p in t <==> p in u)
  {
  }

  lemma StartedUpdate(op: Op, log: Log)
    requires op.Update? && WellLogged(op, log) && |log| > 0
    ensures !(op.on == Issues && op.change.(milestone := None) == NO_CHANGE)
  {
    assert Answers(Act(op, log[..0]), log[0]);
  }

  // ---- Finishing without an error ----

  lemma UpdateNotDone(on: Surface, slug: string, change: UpdateSpec, seen: Log)
    requires |seen| <= 4
    ensures UpdateUnlocked(on, slug, change, seen) != Finish(None)
    ensures |seen| == 4 ==> !UpdateUnlocked(on, slug, change, seen).Look?
  {
    hide Rebuild, Resolve, DecodeRecord, ReadRefs, ValidMemorySlug;
  }

  lemma NumberedNotDone(on: Surface, spec: AddSpec, id: Uuid, target: Option<Uuid>, seen: Log, k: nat)
    requires k == (if spec.number.None? then 3 else 1) && |seen| <= k
    ensures AddNumbered(on, spec, id, target, seen) != Finish(None)
    ensures |seen| == k ==> !AddNumbered(on, spec, id, target, seen).Look?
  {
    hide NextTicket, ReadFile, NewMemory;
  }

  lemma AddNotDone(op: Op, log: Log)
    requires op.Add? && |log| <= FirstWrite(op.spec)
    ensures Act(op, log) != Finish(None)
    ensures |log| == FirstWrite(op.spec) ==> Act(op, log).Commit? || Act(op, log).Finish?
  {
    hide AddNumbered, Resolve, DecodeRecord, ValidMemorySlug, SlugOf, Supersedable, BlockOf;
    if |log| >= 2 {
      var seen := log[2..];
      var k := if op.spec.number.None? then 3 else 1;
      if op.spec.supersedes.None? {
        NumberedNotDone(op.on, op.spec, op.id, None, seen, k);
        AddNeverLocks(op.on, op.spec, op.id, None, seen);
      } else if |seen| >= 3 && Resolve(seen[2].tree, op.spec.supersedes.value).Ok? {
        var target := Some(Resolve(seen[2].tree, op.spec.supersedes.value).value);
        NumberedNotDone(op.on, op.spec, op.id, target, seen[3..], k);
        AddNeverLocks(op.on, op.spec, op.id, target, seen[3..]);
      }
    }
  }

  lemma Answered(op: Op, log: Log, w: nat)
    requires WellLogged(op, log) && w < |log|
    ensures Answers(Act(op, log[..w]), log[w])
  {
  }

  /** A create that is done without an error has committed its file, and a superseding one the back-link. */
  lemma AddDone(op: Op, log: Log)
    requires op.Add? && WellLogged(op, log) && Act(op, log) == Finish(None)
    ensures |log| > FirstWrite(op.spec) && log[FirstWrite(op.spec)].Wrote?
    ensures op.spec.supersedes.Some? ==> |log| > SecondWrite(op.spec) && log[SecondWrite(op.spec)].Wrote?
  {
    hide Act;
    var w := FirstWrite(op.spec);
    if |log| <= w { AddNotDone(op, log); }
    AddNotDone(op, log[..w]);
    Answered(op, log, w);
    AddContinues(op, log, w);
    if op.spec.supersedes.Some? {
      var query, link := op.spec.supersedes.value, BackLink(op.id, log[w].commit);
      if |log| <= w + 5 { UpdateNotDone(op.on, query, link, log[w + 1..]); }
      var front := log[..w + 5];
      assert front[..w] == log[..w] && front[w] == log[w];
      AddContinues(op, front, w);
      UpdateNotDone(op.on, query, link, front[w + 1..]);
      UpdateShape(op.on, query, link, front[w + 1..]);
      Answered(op, log, w + 5);
    }
  }

  /** Any other call: what it commits is its last event, and past it nothing is left to do. */
  lemma OthersDone(op: Op, log: Log)
    requires !op.Add? && WellLogged(op, log) && Act(op, log) == Finish(None)
    ensures OnLeaf(op) ==> |log| > CommitAt(op) && log[CommitAt(op)].Wrote?
    ensures op.Rename? && op.oldSlug != op.newSlug ==> |log| > 4 && log[4].Wrote?
  {
    hide Resolve, Rebuild, DecodeRecord, ReadRefs, ValidMemorySlug, PlanMoves, Listing, UuidNames;
    if OnLeaf(op) {
      if |log| > CommitAt(op) {
        Answered(op, log, CommitAt(op));
        assert log[..CommitAt(op)][4..] == log[4..CommitAt(op)];
        LeafNotDone(op, log[..CommitAt(op)]);
      } else {
        LeafNotDone(op, log);
      }
    } else if op.Rename? && op.oldSlug != op.newSlug && |log| > 4 {
      Answered(op, log, 4);
    }
  }

  function CommitAt(op: Op): nat {
    if op.Update? then 8 else 7
  }

  lemma LeafNotDone(op: Op, log: Log)
    requires OnLeaf(op) && |log| <= CommitAt(op)
    ensures Act(op, log) != Finish(None)
    ensures |log| == CommitAt(op) ==> Act(op, log).Commit? || Act(op, log).Finish?
  {
    hide Resolve, DecodeRecord, ReadRefs, ValidMemorySlug, UpdateUnlocked;
    if op.Update? && |log| >= 4 {
      UpdateNotDone(op.on, op.slug, op.change, log[4..]);
      UpdateShape(op.on, op.slug, op.change, log[4..]);
    }
  }

  // ---- What a create's log says, in every state of a run ----

  /** The second commit is the back-link, computed on the tree the first commit left. */
  ghost predicate SecondWritten(op: Op, log: Log)
    requires op.Add? && op.spec.supersedes.Some?
  {
    var w := FirstWrite(op.spec);
    |log| > w + 5 && log[w].Wrote? && log[w + 5].Wrote? &&
    var edits := UpdateEdits(log[w].tree, op.on, op.spec.supersedes.value, BackLink(op.id, log[w].commit));
    edits.Ok? && log[w + 5].tree == Apply(log[w].tree, edits.value)
  }

  ghost predicate Recorded(op: Op, log: Log) {
    && WellLogged(op, log)
    && (op.Add? && |log| > FirstWrite(op.spec) ==> FirstWritten(op, log))
    && (op.Add? && op.spec.supersedes.Some? && |log| > SecondWrite(op.spec) ==> SecondWritten(op, log))
  }

  lemma FirstWrittenLater(op: Op, log: Log, e: Event)
    requires op.Add? && FirstWritten(op, log)
    ensures FirstWritten(op, log + [e])
  {
    hide AddEdits, Apply;
    assert forall i :: 0 <= i < |log| ==> (log + [e])[i] == log[i];
  }

  lemma SecondWrittenLater(op: Op, log: Log, e: Event)
    requires op.Add? && op.spec.supersedes.Some? && SecondWritten(op, log)
    ensures SecondWritten(op, log + [e])
  {
    hide UpdateEdits, Apply;
    assert forall i :: 0 <= i < |log| ==> (log + [e])[i] == log[i];
  }

  /** The event answers the program's next action on the tree `t`. */
  ghost predicate Happens(op: Op, log: Log, e: Event, t: Tree) {
    Answers(Act(op, log), e) && (if Act(op, log).Commit? then e.tree == Apply(t, Act(op, log).edits) else e.tree == t)
  }

  lemma CommitRecorded(op: Op, log: Log, e: Event, t: Tree)
    requires op.Add? && View(op, log, t) && Happens(op, log, e, t) && Act(op, log).Commit?
    ensures |log| == FirstWrite(op.spec) ==> FirstWritten(op, log + [e])
    ensures |log| == SecondWrite(op.spec) && op.spec.supersedes.Some? ==> SecondWritten(op, log + [e])
  {
    hide Act, Apply, AddEdits, UpdateEdits, AddAct;
    var edits := Act(op, log).edits;
    AddCommitsAt(op, log);
    assert forall i :: 0 <= i < |log| ==> (log + [e])[i] == log[i];
    if |log| == FirstWrite(op.spec) {
      AddFirstCommit(op, log, t, edits);
    } else {
      AddSecondCommit(op, log, t, edits);
    }
  }

  lemma EventRecorded(op: Op, log: Log, e: Event, t: Tree)
    requires Recorded(op, log) && View(op, log, t) && Happens(op, log, e, t)
    ensures Recorded(op, log + [e])
  {
    hide Act, View, FirstWritten, SecondWritten;
    WellLoggedSnoc(op, log, e);
    if op.Add? {
      var w := FirstWrite(op.spec);
      if |log| > w { FirstWrittenLater(op, log, e); }
      if |log| > w + 5 && op.spec.supersedes.Some? { SecondWrittenLater(op, log, e); }
      if |log| == w { AddNotDone(op, log); }
      if |log| == w + 5 && op.spec.supersedes.Some? { SecondNeverReads(op, log); }
      if Act(op, log).Commit? { CommitRecorded(op, log, e, t); }
    }
  }

  /** Where a superseding create may commit the back-link it commits or fails. */
  lemma SecondNeverReads(op: Op, log: Log)
    requires op.Add? && op.spec.supersedes.Some? && WellLogged(op, log) && |log| == SecondWrite(op.spec)
    ensures Act(op, log).Commit? || Act(op, log).Finish?
  {
    hide Act;
    var w := FirstWrite(op.spec);
    AddNotDone(op, log[..w]);
    Answered(op, log, w);
    AddContinues(op, log, w);
    UpdateNotDone(op.on, op.spec.supersedes.value, BackLink(op.id, log[w].commit), log[w + 1..]);
    UpdateShape(op.on, op.spec.supersedes.value, BackLink(op.id, log[w].commit), log[w + 1..]);
  }

  ghost predicate AllRecorded(s: Sys) {
    forall t: TaskId :: t < |s.tasks| ==> Recorded(s.tasks[t].op, s.tasks[t].log)
  }

  /** A step leaves a call's operation and log, or adds the event that answers its next action. */
  ghost predicate Follows(s: Sys, s': Sys, t: TaskId)
    requires t < |s.tasks|
  {
    && |s'.tasks| == |s.tasks| && s'.tasks[t].op == s.tasks[t].op
    && (s'.tasks[t].log == s.tasks[t].log ||
        (Running(s, t) && exists e ::
           s'.tasks[t].log == s.tasks[t].log + [e] &&
           Happens(s.tasks[t].op, s.tasks[t].log, e, TreeOf(s, s.tasks[t].op.group))))
  }

  lemma GrantFollows(s: Sys, p: Pending, t: TaskId)
    requires System.Inv(s) && CanGrant(s, p) && t < |s.tasks|
    ensures Follows(s, GrantNext(s, p), t)
  {
    hide Act, Grantable, View, WellLogged, LockTables.Inv, Grant;
    assert Matched(s, p.want.task);
    var e := Locked(Request(p.want.scope, p.want.mode), TreeOf(s, s.tasks[p.want.task].op.group));
    if t == p.want.task {
      assert Happens(s.tasks[t].op, s.tasks[t].log, e, TreeOf(s, s.tasks[t].op.group));
    }
  }

  lemma LookFollows(s: Sys, u: TaskId, t: TaskId)
    requires CanLook(s, u) && t < |s.tasks|
    ensures Follows(s, LookNext(s, u), t)
  {
    hide Act;
    if t == u {
      assert Happens(s.tasks[t].op, s.tasks[t].log, Saw(TreeOf(s, s.tasks[t].op.group)),
        TreeOf(s, s.tasks[t].op.group));
    }
  }

  lemma CommitFollows(s: Sys, u: TaskId, c: string, t: TaskId)
    requires CanCommit(s, u) && t < |s.tasks|
    ensures Follows(s, CommitNext(s, u, c), t)
  {
    hide Act, Apply, IsBirth;
    if t == u {
      var e := Wrote(Apply(TreeOf(s, s.tasks[t].op.group), Next(s, t).edits), c);
      assert Happens(s.tasks[t].op, s.tasks[t].log, e, TreeOf(s, s.tasks[t].op.group));
    }
  }

  lemma StepFollows(s: Sys, s': Sys, t: TaskId)
    requires System.Inv(s) && System.Step(s, s') && t < |s.tasks|
    ensures Follows(s, s', t)
  {
    hide System.Inv, Act, Ask, Grant, GiveUp, Release, CanCommit, CanGrant, CommitNext, LookNext, GrantNext,
      Happens;
    if p :| CanGrant(s, p) && s' == GrantNext(s, p) {
      GrantFollows(s, p, t);
    } else if u: TaskId :| CanLook(s, u) && s' == LookNext(s, u) {
      LookFollows(s, u, t);
    } else if u: TaskId, c :| CanCommit(s, u) && s' == CommitNext(s, u, c) {
      CommitFollows(s, u, c, t);
    }
  }

  lemma StepRecorded(s: Sys, s': Sys)
    requires System.Inv(s) && System.Step(s, s') && AllRecorded(s)
    ensures AllRecorded(s')
  {
    hide System.Step, System.Inv, Recorded, Happens, View;
    forall t: TaskId | t < |s'.tasks| ensures Recorded(s'.tasks[t].op, s'.tasks[t].log) {
      SameTasks(s, s');
      StepFollows(s, s', t);
      if s'.tasks[t].log != s.tasks[t].log {
        var e :| s'.tasks[t].log == s.tasks[t].log + [e] &&
          Happens(s.tasks[t].op, s.tasks[t].log, e, TreeOf(s, s.tasks[t].op.group));
        ViewOf(s, t);
        EventRecorded(s.tasks[t].op, s.tasks[t].log, e, TreeOf(s, s.tasks[t].op.group));
      }
    }
  }

  lemma SameTasks(s: Sys, s': Sys)
    requires System.Step(s, s')
    ensures |s'.tasks| == |s.tasks|
  {
    hide Act, Ask, Grant, GiveUp, Release, Apply, IsBirth;
  }

  lemma ViewOf(s: Sys, t: TaskId)
    requires System.Inv(s) && Running(s, t)
    ensures View(s.tasks[t].op, s.tasks[t].log, TreeOf(s, s.tasks[t].op.group)) &&
      WellLogged(s.tasks[t].op, s.tasks[t].log)
  {
    hide View, WellLogged, Matched, LockTables.Inv;
  }

  lemma {:induction false} RunRecorded(run: seq<Sys>, n: nat)
    requires System.Run(run) && n < |run|
    ensures AllRecorded(run[n])
    decreases n
  {
    hide System.Step, System.Inv;
    if n > 0 {
      RunRecorded(run, n - 1);
      SystemRunKeepsInv(run, n - 1);
      StepRecorded(run[n - 1], run[n]);
    }
  }

  // ---- Creates over whole runs ----

  lemma NamesStay(t: Tree, t': Tree, slug: string, id: Uuid, path: Path)
    requires Names(t, slug, id) && SameBut(t, t', path) && path in t && path in t'
    ensures Names(t', slug, id)
  {
    var n :| UuidNames(t, slug) == {n} && IsUuidName(n) && IdOf(n) == id;
    assert UuidNames(t', slug) == UuidNames(t, slug) by {
      forall m
        ensures m in UuidNames(t', slug) <==> m in UuidNames(t, slug)
      {
        assert Path(slug, m) in t <==> Path(slug, m) in t';
        if m in UuidNames(t, slug) { assert Path(slug, m).name in UuidNames(t', slug); }
        if m in UuidNames(t', slug) { assert Path(slug, m).name in UuidNames(t, slug); }
      }
    }
  }

  /**
    In every run a superseding create that finishes without an error has committed twice; right after its last
    commit the superseded slug names one file, and that file is superseded and links to the new id, pinned to
    the first commit.
  */
  lemma SupersedingCreateLinks(run: seq<Sys>, n: nat, t: TaskId, query: string)
    returns (first: nat, second: nat, path: Path, m: Memory, block: Block)
    requires System.Run(run) && n < |run| && t < |run[n].tasks| && run[n].tasks[t].op.Add?
    requires run[n].tasks[t].op.spec.supersedes == Some(query) && Next(run[n], t) == Finish(None)
    ensures var (op, log) := (run[n].tasks[t].op, run[n].tasks[t].log);
      && first < second < |log| && log[first].Wrote? && log[second].Wrote?
      && Path(SlugOf(op.spec), Canonical(op.id)) in log[first].tree
      && path.slug == query && path.name.Canonical? && Names(log[second].tree, query, path.name.id)
      && Reads(op.on, log[second].tree, path, m, block)
      && block.status == Superseded && block.supersededBy == Some(Ref(op.id, log[first].commit))
  {
    var op, log := run[n].tasks[t].op, run[n].tasks[t].log;
    first, second := FirstWrite(op.spec), SecondWrite(op.spec);
    hide *;
    RunRecorded(run, n);
    RecordOf(run[n], t);
    AddDone(op, log);
    FirstFile(op, log);
    path, m, block := LinkedFile(op, log, query);
  }

  lemma RecordOf(s: Sys, t: TaskId)
    requires AllRecorded(s) && t < |s.tasks|
    ensures Recorded(s.tasks[t].op, s.tasks[t].log) && WellLogged(s.tasks[t].op, s.tasks[t].log)
    ensures Next(s, t) == Act(s.tasks[t].op, s.tasks[t].log)
  {
    hide WellLogged, FirstWritten, SecondWritten, Act;
  }

  lemma FirstFile(op: Op, log: Log)
    requires op.Add? && Recorded(op, log) && |log| > FirstWrite(op.spec)
    ensures Path(SlugOf(op.spec), Canonical(op.id)) in log[FirstWrite(op.spec)].tree
  {
    hide WellLogged, SecondWritten, AddEdits, Apply;
    var edits := AddEdits(log[1].tree, op.on, op.spec, op.id).value;
    var path, m, block, over := CreateWrites(log[1].tree, op.on, op.spec, op.id, edits);
  }

  lemma LinkedFile(op: Op, log: Log, query: string) returns (path: Path, m: Memory, block: Block)
    requires op.Add? && op.spec.supersedes == Some(query) && Recorded(op, log) && |log| > SecondWrite(op.spec)
    ensures FirstWrite(op.spec) + 5 == SecondWrite(op.spec) < |log| && log[FirstWrite(op.spec)].Wrote?
    ensures var after := log[SecondWrite(op.spec)].tree;
      && path.slug == query && path.name.Canonical? && Names(after, query, path.name.id)
      && Reads(op.on, after, path, m, block)
      && block.status == Superseded && block.supersededBy == Some(Ref(op.id, log[FirstWrite(op.spec)].commit))
  {
    hide WellLogged, FirstWritten, UpdateEdits, Apply, Names, SameBut, FirstWrite;
    assert SecondWritten(op, log);
    var w := FirstWrite(op.spec);
    var t, link := log[w].tree, BackLink(op.id, log[w].commit);
    var edits := UpdateEdits(t, op.on, query, link).value;
    var before, old_;
    path, before, old_, m, block := UpdateWrites(t, op.on, query, link, edits);
    NamesStay(t, Apply(t, edits), query, path.name.id, path);
  }

  // ---- Every call over whole runs ----

  /** The commits a call owes once it is done. */
  ghost predicate Committed(op: Op, log: Log) {
    match op
    case Add(_, _, spec, _) =>
      && |log| > FirstWrite(spec) && log[FirstWrite(spec)].Wrote?
      && (spec.supersedes.Some? ==> |log| > SecondWrite(spec) && log[SecondWrite(spec)].Wrote?)
    case Update(_, _, _, _) => |log| > 8 && log[8].Wrote?
    case Delete(_, _, _) => |log| > 7 && log[7].Wrote?
    case Rename(_, _, old_, new_) => old_ == new_ || (|log| > 4 && log[4].Wrote?)
    case CreateGroup(_) => true
  }

  /** In every run a call that finishes without an error has committed all it stands for. */
  lemma DoneMeansCommitted(run: seq<Sys>, n: nat, t: TaskId)
    requires System.Run(run) && n < |run| && t < |run[n].tasks| && Next(run[n], t) == Finish(None)
    ensures Committed(run[n].tasks[t].op, run[n].tasks[t].log)
  {
    hide *;
    RunRecorded(run, n);
    RecordOf(run[n], t);
    DoneLog(run[n].tasks[t].op, run[n].tasks[t].log);
  }

  lemma DoneLog(op: Op, log: Log)
    requires WellLogged(op, log) && Act(op, log) == Finish(None)
    ensures Committed(op, log)
  {
    hide WellLogged, Act;
    if op.Add? { AddDone(op, log); } else { OthersDone(op, log); }
  }

  /** What the call stands for next, on one tree: `Sequential`, with the slug's own error first for a delete. */
  ghost function Failure(op: Op, log: Log, e: TrackerError): TrackerError {
    if op.Delete? && !ValidMemorySlug(op.slug) then InvalidSlug else e
  }

  lemma AddFails(op: Op, log: Log, t: Tree, e: TrackerError)
    requires op.Add? && WellLogged(op, log) && |log| >= 2 && View(op, log, t) && Act(op, log) == Finish(Some(e))
    ensures Sequential(op, log, log[|log| - 1].tree) == Err(e)
  {
    hide Act, AddEdits, UpdateEdits, UpdateUnlocked;
    var w := FirstWrite(op.spec);
    if |log| <= w {
      AddActs(op, log, t);
    } else {
      AddNotDone(op, log[..w]);
      Answered(op, log, w);
      AddContinues(op, log, w);
      if |log| <= w + 5 {
        BackLinkActs(op, log, w, t);
      } else {
        Answered(op, log, w + 5);
        LinkIsLast(op, log, w);
      }
    }
  }

  /** Past its last commit a create is done. */
  lemma LinkIsLast(op: Op, log: Log, w: nat)
    requires op.Add? && op.spec.supersedes.Some? && WellLogged(op, log) && w == FirstWrite(op.spec) && |log| > w + 5
    requires Act(op, log[..w]).Commit? && log[w].Wrote?
    ensures Act(op, log) == Finish(None)
  {
    hide Act, WellLogged;
    var front := log[..w + 5];
    var query, link := op.spec.supersedes.value, BackLink(op.id, log[w].commit);
    assert front[..w] == log[..w] && front[w] == log[w];
    AddContinues(op, log, w);
    AddContinues(op, front, w);
    Answered(op, log, w + 5);
    UpdateShape(op.on, query, link, front[w + 1..]);
    UpdateNotDone(op.on, query, link, front[w + 1..]);
    UpdateIsDone(op.on, query, link, log[w + 1..]);
    assert log[w + 1..][..4] == front[w + 1..];
  }

  lemma UpdateIsDone(on: Surface, slug: string, change: UpdateSpec, seen: Log)
    requires |seen| > 4 && UpdateUnlocked(on, slug, change, seen[..4]).Commit?
    ensures UpdateUnlocked(on, slug, change, seen) == Finish(None)
  {
    hide Rebuild, Resolve, DecodeRecord, ReadRefs, ValidMemorySlug;
    assert forall i :: 0 <= i < 4 ==> seen[..4][i] == seen[i];
  }

  lemma LeafIsLast(op: Op, log: Log)
    requires OnLeaf(op) && WellLogged(op, log) && |log| > CommitAt(op)
    ensures Act(op, log) == Finish(None)
  {
    hide WellLogged, Act;
    var w := CommitAt(op);
    Answered(op, log, w);
    LeafNotDone(op, log[..w]);
    assert log[..w][2] == log[2] && log[..w][4..] == log[4..][..w - 4];
    if op.Update? { UpdateIsLast(op, log); } else { DeleteIsLast(op, log); }
  }

  lemma UpdateIsLast(op: Op, log: Log)
    requires op.Update? && WellLogged(op, log) && |log| > 8 && Act(op, log[..8]).Commit?
    requires log[..8][2] == log[2] && log[..8][4..] == log[4..][..4]
    ensures Act(op, log) == Finish(None)
  {
    StartedUpdate(op, log);
    hide WellLogged, UpdateUnlocked, Resolve;
    UpdateIsDone(op.on, op.slug, op.change, log[4..]);
  }

  lemma DeleteIsLast(op: Op, log: Log)
    requires op.Delete? && |log| > 7 && Act(op, log[..7]).Commit?
    requires log[..7][2] == log[2] && log[..7][4..] == log[4..][..3]
    ensures Act(op, log) == Finish(None)
  {
    hide Resolve, DecodeRecord, ValidMemorySlug;
    assert forall i :: 0 <= i < 3 ==> log[4..][..3][i] == log[4..][i];
  }

  lemma RenameFails(op: Op, log: Log, t: Tree, e: TrackerError)
    requires op.Rename? && WellLogged(op, log) && |log| >= 2 && View(op, log, t) && Act(op, log) == Finish(Some(e))
    ensures Sequential(op, log, log[|log| - 1].tree) == Err(e)
  {
    hide PlanMoves, Listing, ValidMemorySlug, UuidNames;
    if |log| > 4 { Answered(op, log, 4); }
    if |log| <= 4 && op.oldSlug != op.newSlug { RenameActs(op, log, t); }
  }

  lemma LeafFails(op: Op, log: Log, t: Tree, e: TrackerError)
    requires OnLeaf(op) && WellLogged(op, log) && |log| >= 2 && View(op, log, t) && Act(op, log) == Finish(Some(e))
    ensures Sequential(op, log, log[|log| - 1].tree) == Err(Failure(op, log, e))
  {
    hide WellLogged, SharedView, UpdateUnlocked, DeleteAct, Resolve, UpdateEdits, DeleteEdits, ValidMemorySlug;
    if |log| > CommitAt(op) {
      LeafIsLast(op, log);
    } else if op.Update? {
      StartedUpdate(op, log);
      UpdateFails(op, log, t, e);
    } else {
      DeleteFails(op, log, t, e);
    }
  }

  /**
    In every run a call past its chain that reports an error stands for an operation that fails on the tree it
    read last, with that error: no call gives up where its operation would have succeeded.
  */
  lemma EveryErrorIsSequential(run: seq<Sys>, n: nat, t: TaskId, e: TrackerError)
    requires System.Run(run) && n < |run| && Running(run[n], t) && |run[n].tasks[t].log| >= 2
    requires Next(run[n], t) == Finish(Some(e))
    ensures var (op, log) := (run[n].tasks[t].op, run[n].tasks[t].log);
      Sequential(op, log, log[|log| - 1].tree) == Err(Failure(op, log, e))
  {
    hide *;
    SystemRunKeepsInv(run, n);
    NextIs(run[n], t);
    ViewOf(run[n], t);
    ErrorIsSequential(run[n].tasks[t].op, run[n].tasks[t].log, TreeOf(run[n], run[n].tasks[t].op.group), e);
  }

  lemma NextIs(s: Sys, t: TaskId)
    requires Running(s, t)
    ensures t < |s.tasks| && Next(s, t) == Act(s.tasks[t].op, s.tasks[t].log)
  {
    hide Act;
  }

  lemma ErrorIsSequential(op: Op, log: Log, t: Tree, e: TrackerError)
    requires WellLogged(op, log) && |log| >= 2 && View(op, log, t) && Act(op, log) == Finish(Some(e))
    ensures Sequential(op, log, log[|log| - 1].tree) == Err(Failure(op, log, e))
  {
    hide View, WellLogged, Sequential, Act;
    match op {
      case Add(_, _, _, _) => AddFails(op, log, t, e);
      case Rename(_, _, _, _) => RenameFails(op, log, t, e);
      case CreateGroup(_) => GroupsNeverFail(op, log);
      case Update(_, _, _, _) => LeafFails(op, log, t, e);
      case Delete(_, _, _) => LeafFails(op, log, t, e);
    }
  }

  lemma GroupsNeverFail(op: Op, log: Log)
    requires op.CreateGroup? && |log| >= 1
    ensures Act(op, log) == Finish(None)
  {
  }

  // ---- When the back-link is missing ----

  /**
    The second commit of a superseding create succeeds exactly when the new memory does not stand under the
    superseded slug, which then would name two files, and the old file is valid UTF-8.
  */
  lemma BackLinkSucceedsIff(t: Tree, on: Surface, spec: AddSpec, id: Uuid, edits: Edits, query: string, target: Uuid,
          commit: string)
    requires AddEdits(t, on, spec, id) == Ok(edits) && spec.supersedes == Some(query)
    requires Supersedes(t, on, query, target)
    ensures UpdateEdits(Apply(t, edits), on, query, BackLink(id, commit)).Ok? <==>
      SlugOf(spec) != query && Strict(t[MemoryPath(query, target)]).Some?
  {
    hide Apply, AddEdits, UpdateEdits, Created, Supersedes, NextTicket, Names, ValidMemorySlug;
    var path, m, block, over := CreateWrites(t, on, spec, id, edits);
    var t', link := Apply(t, edits), BackLink(id, commit);
    SupersededFile(t, on, query, target);
    UpdateSucceedsIff(t', on, query, link);
    NamesAfter(t, t', query, path);
    NamesWith(t, t', query, target, path);
    var old_ := MemoryPath(query, target);
    if SlugOf(spec) != query && Strict(t[old_]).Some? {
      assert Names(t', query, target) && Reads(on, t', old_, Strict(t[old_]).value,
        BlockOf(on, Strict(t[old_]).value).value);
    }
  }

  lemma NamesAfter(t: Tree, t': Tree, slug: string, path: Path)
    requires SameBut(t, t', path) && path !in t && path in t' && IsUuidName(path.name)
    ensures UuidNames(t', slug) == UuidNames(t, slug) + (if path.slug == slug then {path.name} else {})
    ensures path.slug == slug ==> path.name !in UuidNames(t, slug)
  {
    forall n
      ensures n in UuidNames(t', slug) <==> n in UuidNames(t, slug) || (path.slug == slug && n == path.name)
    {
      if Path(slug, n) in t && IsUuidName(n) { assert Path(slug, n).name in UuidNames(t, slug); }
      if Path(slug, n) in t' && IsUuidName(n) { assert Path(slug, n).name in UuidNames(t', slug); }
    }
  }

  lemma NamesWith(t: Tree, t': Tree, slug: string, id: Uuid, path: Path)
    requires Names(t, slug, id) && (path.slug == slug ==> path.name !in UuidNames(t, slug))
    requires UuidNames(t', slug) == UuidNames(t, slug) + (if path.slug == slug then {path.name} else {})
    ensures forall x: Uuid :: Names(t', slug, x) <==> path.slug != slug && x == id
  {
    hide UuidNames;
    var n :| UuidNames(t, slug) == {n} && IsUuidName(n) && IdOf(n) == id;
    assert n in UuidNames(t', slug);
    if path.slug == slug {
      assert path.name != n && path.name in UuidNames(t', slug);
    }
  }

  lemma SupersededFile(t: Tree, on: Surface, query: string, target: Uuid)
    requires Supersedes(t, on, query, target)
    ensures ValidMemorySlug(query) && Names(t, query, target) && DecodesOn(on, t, MemoryPath(query, target))
  {
  }
}
