/** Every step keeps the invariant, so every commit is the operation applied to the tree it lands on. */
module SystemInvariant {
  import opened Basics
  import opened Memories
  import opened Scopes
  import opened LockTables
  import opened TrackerOps
  import opened Sessions
  import opened SessionCommits
  import opened System

  // ---- What locks say about two running tasks ----

  lemma OwnsGroupLock(s: Sys, t: TaskId)
    requires System.Inv(s) && Running(s, t) && |s.tasks[t].log| > 1
    ensures !s.tasks[t].op.CreateGroup? && Owns(s, t, GroupLock(s.tasks[t].op))
  {
    ChainTaken(s.tasks[t].op, s.tasks[t].log);
  }

  lemma OwnsLeafLock(s: Sys, t: TaskId)
    requires System.Inv(s) && Running(s, t) && OnLeaf(s.tasks[t].op) && |s.tasks[t].log| > 3
    ensures var log := s.tasks[t].log; Resolve(log[2].tree, s.tasks[t].op.slug).Ok?
    ensures Owns(s, t, Request(LockScope.Memory(Resolve(s.tasks[t].log[2].tree, s.tasks[t].op.slug).value), Exclusive))
  {
    ChainTaken(s.tasks[t].op, s.tasks[t].log);
  }

  /** Two tasks own one scope only if both share it. */
  lemma SharedOwners(s: Sys, t: TaskId, u: TaskId, a: Request, b: Request)
    requires LockTables.Inv(s.locks) && t != u && Owns(s, t, a) && Owns(s, u, b) && a.scope == b.scope
    ensures a.mode == Shared && b.mode == Shared
  {
  }

  /** Calls past the lock of one group at the same time are updates and deletes. */
  lemma TogetherOnLeaf(s: Sys, t: TaskId, u: TaskId)
    requires System.Inv(s) && Running(s, t) && Running(s, u) && t != u
    requires s.tasks[t].op.group == s.tasks[u].op.group && |s.tasks[t].log| > 1 && |s.tasks[u].log| > 1
    ensures OnLeaf(s.tasks[t].op) && OnLeaf(s.tasks[u].op)
  {
    OwnsGroupLock(s, t);
    OwnsGroupLock(s, u);
    SharedOwners(s, t, u, GroupLock(s.tasks[t].op), GroupLock(s.tasks[u].op));
  }

  lemma LeavesApart(s: Sys, t: TaskId, u: TaskId)
    requires System.Inv(s) && Running(s, t) && Running(s, u) && t != u
    requires OnLeaf(s.tasks[t].op) && OnLeaf(s.tasks[u].op) && |s.tasks[t].log| > 3 && |s.tasks[u].log| > 3
    ensures Resolve(s.tasks[t].log[2].tree, s.tasks[t].op.slug).Ok?
    ensures Resolve(s.tasks[u].log[2].tree, s.tasks[u].op.slug).Ok?
    ensures LeafPath(s.tasks[t].op, s.tasks[t].log) != LeafPath(s.tasks[u].op, s.tasks[u].log)
  {
    OwnsLeafLock(s, t);
    OwnsLeafLock(s, u);
    var a := Request(LockScope.Memory(Resolve(s.tasks[t].log[2].tree, s.tasks[t].op.slug).value), Exclusive);
    var b := Request(LockScope.Memory(Resolve(s.tasks[u].log[2].tree, s.tasks[u].op.slug).value), Exclusive);
    if a == b { SharedOwners(s, t, u, a, b); }
  }

  // ---- Commits are the sequential operations ----

  /** The edits the operation stands for, on one tree, at the point its log has reached. */
  ghost function Sequential(op: Op, log: Log, t: Tree): Result<Edits, TrackerError> {
    match op
    case Add(_, on, spec, id) =>
      if |log| <= FirstWrite(spec) then AddEdits(t, on, spec, id)
      else if spec.supersedes.Some? && log[FirstWrite(spec)].Wrote?
      then UpdateEdits(t, on, spec.supersedes.value, BackLink(id, log[FirstWrite(spec)].commit))
      else Err(NoChanges)
    case Update(_, on, slug, change) => UpdateEdits(t, on, slug, change)
    case Delete(_, on, slug) => DeleteEdits(t, on, slug)
    case Rename(_, on, old_, new_) => RenameEdits(t, on, old_, new_)
    case CreateGroup(_) => Err(NoChanges)
  }

  /**
    No lost update: whatever a task commits, in any interleaving, is exactly its operation computed on
    the tree the commit replaces, although it was read piecemeal and earlier.
  */
  lemma CommitIsSequential(s: Sys, t: TaskId)
    requires System.Inv(s) && CanCommit(s, t)
    ensures Sequential(s.tasks[t].op, s.tasks[t].log, TreeOf(s, s.tasks[t].op.group)) == Ok(Next(s, t).edits)
  {
    var op, log := s.tasks[t].op, s.tasks[t].log;
    var now, edits := TreeOf(s, op.group), Next(s, t).edits;
    match op
    case Add(_, _, _, _) =>
      AddCommitsAt(op, log);
      if |log| == FirstWrite(op.spec) {
        AddFirstCommit(op, log, now, edits);
      } else {
        AddSecondCommit(op, log, now, edits);
      }
    case Rename(_, _, _, _) => RenameCommitsAt(op, log); RenameCommit(op, log, now, edits);
    case Update(_, _, _, _) => LeafCommitsAt(op, log); UpdateCommit(op, log, now, edits);
    case Delete(_, _, _) => LeafCommitsAt(op, log); DeleteCommit(op, log, now, edits);
    case CreateGroup(_) =>
  }

  lemma RenameCommitsAt(op: Op, log: Log)
    requires op.Rename? && Act(op, log).Commit?
    ensures |log| == 4
  {
  }

  /** An update or delete touches one existing file, the one it has locked. */
  lemma LeafCommitTouches(s: Sys, t: TaskId)
    requires System.Inv(s) && CanCommit(s, t) && OnLeaf(s.tasks[t].op)
    ensures |s.tasks[t].log| > 3 && Resolve(s.tasks[t].log[2].tree, s.tasks[t].op.slug).Ok?
    ensures var before, leaf := TreeOf(s, s.tasks[t].op.group), LeafPath(s.tasks[t].op, s.tasks[t].log);
      var after := Apply(before, Next(s, t).edits);
      && (forall slug :: UuidNames(after, slug) <= UuidNames(before, slug))
      && (forall q :: q != leaf ==> At(after, q) == At(before, q))
  {
    var op, log := s.tasks[t].op, s.tasks[t].log;
    var before, edits := TreeOf(s, op.group), Next(s, t).edits;
    LeafCommitsAt(op, log);
    OwnsLeafLock(s, t);
    if op.Update? { UpdateCommit(op, log, before, edits); } else { DeleteCommit(op, log, before, edits); }
    OneEdit(before, edits[0].0, edits[0].1);
  }

  lemma OneEdit(t: Tree, p: Path, b: Option<Blob>)
    requires p in t
    ensures var after := Apply(t, [(p, b)]);
      && (forall slug :: UuidNames(after, slug) <= UuidNames(t, slug))
      && (forall q :: q != p ==> At(after, q) == At(t, q))
  {
    assert Apply(t, [(p, b)]) == Apply(ApplyOne(t, (p, b)), []);
    assert forall q :: q in ApplyOne(t, (p, b)) ==> q in t;
  }

  // ---- Views survive the commits of others ----

  lemma SharedViewKept(op: Op, log: Log, before: Tree, after: Tree)
    requires OnLeaf(op) && SharedView(op, log, before)
    requires UuidNames(after, op.slug) <= UuidNames(before, op.slug)
    requires |log| > 3 ==> At(after, LeafPath(op, log)) == At(before, LeafPath(op, log))
    ensures SharedView(op, log, after)
  {
  }

  lemma OthersKeepView(s: Sys, t: TaskId, u: TaskId)
    requires System.Inv(s) && CanCommit(s, t) && Running(s, u) && t != u && s.tasks[t].op.group == s.tasks[u].op.group
    ensures View(s.tasks[u].op, s.tasks[u].log, Apply(TreeOf(s, s.tasks[t].op.group), Next(s, t).edits))
  {
    if |s.tasks[u].log| > 1 {
      CommitsPastChain(s.tasks[t].op, s.tasks[t].log);
      TogetherOnLeaf(s, t, u);
      LeafCommitTouches(s, t);
      if |s.tasks[u].log| > 3 { LeavesApart(s, t, u); }
      var op, log := s.tasks[u].op, s.tasks[u].log;
      if SharedView(op, log, TreeOf(s, op.group)) {
        SharedViewKept(op, log, TreeOf(s, op.group), Apply(TreeOf(s, op.group), Next(s, t).edits));
      }
    }
  }

  lemma CommitsPastChain(op: Op, log: Log)
    requires Act(op, log).Commit?
    ensures |log| > 1
  {
  }

  // ---- A task's own view follows its log ----

  lemma AddNeverLooksAtWrite(op: Op, log: Log)
    requires op.Add? && |log| == FirstWrite(op.spec)
    ensures !Act(op, log).Look? && !Act(op, log).Acquire?
  {
  }

  /** An event that saw the current tree and was no commit. */
  lemma ViewFollowsReads(op: Op, log: Log, e: Event, t: Tree)
    requires WellLogged(op, log + [e]) && View(op, log, t) && e.tree == t && !e.Wrote?
    ensures View(op, log + [e], t)
  {
    var log' := log + [e];
    assert log'[..|log|] == log;
    assert Answers(Act(op, log), e);
    if op.Add? {
      if |log| == FirstWrite(op.spec) { AddNeverLooksAtWrite(op, log); }
      if FirstWrite(op.spec) < |log| && FirstWritten(op, log) { assert FirstWritten(op, log'); }
    } else if OnLeaf(op) && SharedView(op, log, t) {
      SharedViewFollowsReads(op, log, e, t);
    }
  }

  lemma SharedViewFollowsReads(op: Op, log: Log, e: Event, t: Tree)
    requires OnLeaf(op) && WellLogged(op, log + [e]) && SharedView(op, log, t) && e.tree == t
    ensures SharedView(op, log + [e], t)
  {
    ChainTaken(op, log + [e]);
  }

  lemma ViewFollowsCommit(op: Op, log: Log, edits: Edits, commit: string, t: Tree)
    requires View(op, log, t) && Act(op, log) == Commit(edits)
    ensures View(op, log + [Wrote(Apply(t, edits), commit)], Apply(t, edits))
  {
    hide Act, Apply, AddEdits, Resolve;
    var log' := log + [Wrote(Apply(t, edits), commit)];
    if op.Add? {
      AddCommitsAt(op, log);
      if |log| == FirstWrite(op.spec) {
        AddFirstCommit(op, log, t, edits);
        assert FirstWritten(op, log');
      }
    } else if OnLeaf(op) {
      LeafCommitsAt(op, log);
    } else if op.Rename? {
      RenameCommitsAt(op, log);
    }
  }

  // ---- Tasks a step does not concern ----

  ghost predicate SameLocks(s: Sys, s': Sys, u: TaskId) {
    && (forall h: Hold :: h.task == u ==> (h in s.locks.holds <==> h in s'.locks.holds))
    && (forall p: Pending :: p.want.task == u ==> (p in s.locks.waits <==> p in s'.locks.waits))
  }

  lemma BystanderKeepsInv(s: Sys, s': Sys, u: TaskId)
    requires u < |s.tasks| == |s'.tasks| && s'.tasks[u] == s.tasks[u] && SameLocks(s, s', u) && TaskInv(s, u)
    requires View(s.tasks[u].op, s.tasks[u].log, TreeOf(s', s.tasks[u].op.group))
    ensures TaskInv(s', u)
  {
    var log := s.tasks[u].log;
    forall i | 0 <= i < |log| && log[i].Locked? ensures Owns(s', u, log[i].request) {
      assert Owns(s, u, log[i].request);
    }
  }

  // ---- Each step ----

  lemma NextIsBelow(s: Sys, t: TaskId)
    requires System.Inv(s) && CanAsk(s, t)
    ensures Below(s.locks, t, Next(s, t).request.scope)
  {
    var op, log := s.tasks[t].op, s.tasks[t].log;
    forall h | h in s.locks.holds && h.task == t ensures Rank(h.scope) < Rank(Next(s, t).request.scope) {
      assert Logged(log, h.scope, h.mode);
      var i :| 0 <= i < |log| && log[i].Locked? && log[i].request == Request(h.scope, h.mode);
      RequestsDescend(op, log, i);
    }
  }

  lemma AskKeepsInv(s: Sys, t: TaskId)
    requires System.Inv(s) && CanAsk(s, t)
    ensures System.Inv(AskNext(s, t))
  {
    hide Act, View, WellLogged, LockTables.Inv;
    var s' := AskNext(s, t);
    NextIsBelow(s, t);
    LockTables.AskKeepsInv(s.locks, t, Next(s, t).request);
    forall u: TaskId | Running(s', u) ensures TaskInv(s', u) {
      if u != t { BystanderKeepsInv(s, s', u); } else { AskerKeepsMatch(s, t); }
    }
  }

  lemma AskerKeepsMatch(s: Sys, t: TaskId)
    requires System.Inv(s) && CanAsk(s, t)
    ensures Matched(AskNext(s, t), t)
  {
    var s' := AskNext(s, t);
    var log := s.tasks[t].log;
    forall i | 0 <= i < |log| && log[i].Locked? ensures Owns(s', t, log[i].request) {
      assert Owns(s, t, log[i].request);
    }
  }

  lemma GrantKeepsInv(s: Sys, p: Pending)
    requires System.Inv(s) && CanGrant(s, p)
    ensures System.Inv(GrantNext(s, p))
  {
    hide Act, View, WellLogged, LockTables.Inv;
    var s' := GrantNext(s, p);
    LockTables.GrantKeepsInv(s.locks, p);
    forall u: TaskId | Running(s', u) ensures TaskInv(s', u) {
      if u != p.want.task { BystanderKeepsInv(s, s', u); } else { GranteeKeepsInv(s, p); }
    }
  }

  lemma WaitsOnce(s: LockTable, p: Pending)
    requires LockTables.Inv(s) && p in s.waits
    ensures forall q :: q in s.waits && q.want.task == p.want.task ==> q == p
  {
  }

  lemma GranteeKeepsInv(s: Sys, p: Pending)
    requires System.Inv(s) && CanGrant(s, p)
    ensures TaskInv(GrantNext(s, p), p.want.task)
  {
    hide Act, View, WellLogged, LockTables.Inv;
    var s', t := GrantNext(s, p), p.want.task;
    var op, log := s.tasks[t].op, s.tasks[t].log;
    var e := Locked(Request(p.want.scope, p.want.mode), TreeOf(s, op.group));
    var log' := log + [e];
    assert Next(s, t) == Acquire(e.request);
    WaitsOnce(s.locks, p);
    WellLoggedSnoc(op, log, e);
    ViewFollowsReads(op, log, e, TreeOf(s, op.group));
    forall i | 0 <= i < |log'| && log'[i].Locked? ensures Owns(s', t, log'[i].request) {
      if i < |log| { assert Owns(s, t, log[i].request); } else { assert p.want in s'.locks.holds; }
    }
    forall h | h in s'.locks.holds && h.task == t ensures Logged(log', h.scope, h.mode) {
      if h == p.want { assert log'[|log|].request == e.request; } else { LoggedLater(log, e, h.scope, h.mode); }
    }
  }

  lemma LoggedLater(log: Log, e: Event, scope: LockScope, mode: LockMode)
    requires Logged(log, scope, mode)
    ensures Logged(log + [e], scope, mode)
  {
    var i :| 0 <= i < |log| && log[i].Locked? && log[i].request == Request(scope, mode);
    assert (log + [e])[i] == log[i];
  }

  /** Reads and commits leave the locks and the task's match with them alone. */
  lemma EventKeepsMatch(s: Sys, s': Sys, t: TaskId, e: Event)
    requires t < |s.tasks| == |s'.tasks| && Matched(s, t) && s'.locks == s.locks
    requires s'.tasks[t].op == s.tasks[t].op && s'.tasks[t].log == s.tasks[t].log + [e] && !e.Locked?
    requires !Next(s, t).Acquire?
    ensures Matched(s', t)
  {
    var log, log' := s.tasks[t].log, s'.tasks[t].log;
    forall i | 0 <= i < |log'| && log'[i].Locked? ensures Owns(s', t, log'[i].request) {
      assert Owns(s, t, log[i].request);
    }
    forall h | h in s'.locks.holds && h.task == t ensures Logged(log', h.scope, h.mode) {
      LoggedLater(log, e, h.scope, h.mode);
    }
  }

  lemma LookKeepsInv(s: Sys, t: TaskId)
    requires System.Inv(s) && CanLook(s, t)
    ensures System.Inv(LookNext(s, t))
  {
    var s' := LookNext(s, t);
    var op, log := s.tasks[t].op, s.tasks[t].log;
    var e := Saw(TreeOf(s, op.group));
    forall u: TaskId | Running(s', u) ensures TaskInv(s', u) {
      if u != t {
        BystanderKeepsInv(s, s', u);
      } else {
        WellLoggedSnoc(op, log, e);
        ViewFollowsReads(op, log, e, TreeOf(s, op.group));
        EventKeepsMatch(s, s', t, e);
      }
    }
  }

  lemma CommitKeepsOthers(s: Sys, t: TaskId, c: string, u: TaskId)
    requires System.Inv(s) && CanCommit(s, t) && Running(s, u) && u != t
    ensures Running(CommitNext(s, t, c), u) && TaskInv(CommitNext(s, t, c), u)
  {
    hide Act, Apply, View, LockTables.Inv, WellLogged, Matched;
    var s' := CommitNext(s, t, c);
    var op, group := s.tasks[u].op, s.tasks[t].op.group;
    assert TaskInv(s, u);
    if op.group == group {
      OthersKeepView(s, t, u);
      assert TreeOf(s', group) == Apply(TreeOf(s, group), Next(s, t).edits);
    } else {
      assert TreeOf(s', op.group) == TreeOf(s, op.group);
    }
    BystanderKeepsInv(s, s', u);
  }

  lemma CommitKeepsOwn(s: Sys, t: TaskId, c: string)
    requires System.Inv(s) && CanCommit(s, t)
    ensures TaskInv(CommitNext(s, t, c), t)
  {
    hide Act, Apply, View, LockTables.Inv, WellLogged, Matched;
    var s' := CommitNext(s, t, c);
    var op, log, before := s.tasks[t].op, s.tasks[t].log, TreeOf(s, s.tasks[t].op.group);
    var e := Wrote(Apply(before, Next(s, t).edits), c);
    assert TaskInv(s, t) && Answers(Next(s, t), e) && TreeOf(s', op.group) == e.tree;
    WellLoggedSnoc(op, log, e);
    ViewFollowsCommit(op, log, Next(s, t).edits, c, before);
    EventKeepsMatch(s, s', t, e);
  }

  lemma CommitKeepsInv(s: Sys, t: TaskId, c: string)
    requires System.Inv(s) && CanCommit(s, t)
    ensures System.Inv(CommitNext(s, t, c))
  {
    hide Act, Apply, TaskInv, LockTables.Inv;
    var s' := CommitNext(s, t, c);
    forall u: TaskId | Running(s', u) ensures TaskInv(s', u) {
      if u != t { CommitKeepsOthers(s, t, c, u); } else { CommitKeepsOwn(s, t, c); }
    }
  }

  lemma WindDownKeepsInv(s: Sys, s': Sys)
    requires System.Inv(s) && s'.tasks == s.tasks && s'.trees == s.trees
    requires (exists p :: CanGiveUp(s, p) && s'.locks == GiveUp(s.locks, p)) ||
             (exists h :: CanRelease(s, h) && s'.locks == Release(s.locks, h))
    ensures System.Inv(s')
  {
    hide Act, View, WellLogged, LockTables.Inv;
    assert LockTables.Step(s.locks, s'.locks);
    StepKeepsInv(s.locks, s'.locks);
    forall u: TaskId | Running(s', u) ensures TaskInv(s', u) {
      BystanderKeepsInv(s, s', u);
    }
  }

  lemma StopKeepsInv(s: Sys, t: TaskId)
    requires System.Inv(s) && Running(s, t)
    ensures System.Inv(Stop(s, t))
  {
    forall u: TaskId | Running(Stop(s, t), u) ensures TaskInv(Stop(s, t), u) {
      BystanderKeepsInv(s, Stop(s, t), u);
    }
  }

  lemma SystemStepKeepsInv(s: Sys, s': Sys)
    requires System.Inv(s) && System.Step(s, s')
    ensures System.Inv(s')
  {
    hide System.Inv, Act, Apply;
    if t :| CanAsk(s, t) && s' == AskNext(s, t) {
      AskKeepsInv(s, t);
    } else if p :| CanGrant(s, p) && s' == GrantNext(s, p) {
      GrantKeepsInv(s, p);
    } else if t :| CanLook(s, t) && s' == LookNext(s, t) {
      LookKeepsInv(s, t);
    } else if t, c :| CanCommit(s, t) && s' == CommitNext(s, t, c) {
      CommitKeepsInv(s, t, c);
    } else if t :| Running(s, t) && s' == Stop(s, t) {
      StopKeepsInv(s, t);
    } else {
      WindDownKeepsInv(s, s');
    }
  }

  lemma {:induction false} SystemRunKeepsInv(run: seq<Sys>, n: nat)
    requires System.Run(run) && n < |run|
    ensures System.Inv(run[n])
    decreases n
  {
    if n == 0 {
      assert System.Inv(run[0]);
    } else {
      SystemRunKeepsInv(run, n - 1);
      SystemStepKeepsInv(run[n - 1], run[n]);
    }
  }

  /** No lost update, over whole runs. */
  lemma EveryCommitIsSequential(run: seq<Sys>, n: nat, t: TaskId)
    requires System.Run(run) && n < |run| && CanCommit(run[n], t)
    ensures Sequential(run[n].tasks[t].op, run[n].tasks[t].log, TreeOf(run[n], run[n].tasks[t].op.group)) ==
      Ok(Next(run[n], t).edits)
  {
    SystemRunKeepsInv(run, n);
    CommitIsSequential(run[n], t);
  }

  /** While a create or rename is past its group lock, nobody else holds that lock in any mode. */
  lemma WriterIsAlone(run: seq<Sys>, n: nat, t: TaskId, h: Hold)
    requires System.Run(run) && n < |run| && Running(run[n], t) && |run[n].tasks[t].log| > 1
    requires run[n].tasks[t].op.Add? || run[n].tasks[t].op.Rename?
    requires h in run[n].locks.holds && h.scope == Group(run[n].tasks[t].op.group)
    ensures h.task == t && h.mode == Exclusive
  {
    SystemRunKeepsInv(run, n);
    OwnsGroupLock(run[n], t);
  }
}
