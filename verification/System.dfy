/**
  Any number of tracker calls running at once: a lock table, one log per call, one tree per group.

  A step asks for the next lock, is granted one, reads a head, commits, stops, gives up a wait or drops
  one guard. A call may stop at any point, by finishing, by an error or by being cancelled; whatever it
  committed stays committed and its guards are dropped afterwards, one at a time and in any order.
*/
module System {
  import opened Basics
  import opened Memories
  import opened Scopes
  import opened LockTables
  import opened TrackerOps
  import opened Sessions
  import opened SessionCommits

  datatype Task = Task(op: Op, log: Log, done: bool)

  /** `births` orders the memories of each group by creation; it is bookkeeping no program reads. */
  datatype Sys = Sys(
    locks: LockTable,
    tasks: seq<Task>,
    trees: map<Uuid, Tree>,
    births: map<Uuid, map<Uuid, nat>>,
    clock: nat)

  function TreeOf(s: Sys, group: Uuid): Tree {
    if group in s.trees then s.trees[group] else map[]
  }

  function BirthsOf(s: Sys, group: Uuid): map<Uuid, nat> {
    if group in s.births then s.births[group] else map[]
  }

  predicate Running(s: Sys, t: TaskId) {
    t < |s.tasks| && !s.tasks[t].done
  }

  ghost function Next(s: Sys, t: TaskId): Action
    requires t < |s.tasks|
  {
    Act(s.tasks[t].op, s.tasks[t].log)
  }

  // ---- Steps ----

  function Happen(s: Sys, t: TaskId, e: Event): Sys
    requires t < |s.tasks|
  {
    s.(tasks := s.tasks[t := s.tasks[t].(log := s.tasks[t].log + [e])])
  }

  ghost predicate CanAsk(s: Sys, t: TaskId) {
    Running(s, t) && Next(s, t).Acquire? && Idle(s.locks, t)
  }

  ghost function AskNext(s: Sys, t: TaskId): Sys
    requires CanAsk(s, t)
  {
    s.(locks := Ask(s.locks, t, Next(s, t).request))
  }

  predicate CanGrant(s: Sys, p: Pending) {
    p in s.locks.waits && Running(s, p.want.task) && Grantable(s.locks, p.want)
  }

  function GrantNext(s: Sys, p: Pending): Sys
    requires CanGrant(s, p)
  {
    Happen(s.(locks := Grant(s.locks, p)), p.want.task,
           Locked(Request(p.want.scope, p.want.mode), TreeOf(s, s.tasks[p.want.task].op.group)))
  }

  ghost predicate CanLook(s: Sys, t: TaskId) {
    Running(s, t) && Next(s, t).Look?
  }

  function LookNext(s: Sys, t: TaskId): Sys
    requires t < |s.tasks|
  {
    Happen(s, t, Saw(TreeOf(s, s.tasks[t].op.group)))
  }

  ghost predicate CanCommit(s: Sys, t: TaskId) {
    Running(s, t) && Next(s, t).Commit?
  }

  predicate IsBirth(task: Task) {
    task.op.Add? && |task.log| == FirstWrite(task.op.spec)
  }

  /** One atomic commit to the head of the task's group; a create's first commit dates the new memory. */
  ghost function CommitNext(s: Sys, t: TaskId, commit: string): Sys
    requires CanCommit(s, t)
  {
    var task := s.tasks[t];
    var g := task.op.group;
    var after := Apply(TreeOf(s, g), Next(s, t).edits);
    var next := Happen(s, t, Wrote(after, commit)).(trees := s.trees[g := after]);
    if IsBirth(task) then next.(births := s.births[g := BirthsOf(s, g)[task.op.id := s.clock]], clock := s.clock + 1)
    else next
  }

  function Stop(s: Sys, t: TaskId): Sys
    requires Running(s, t)
  {
    s.(tasks := s.tasks[t := s.tasks[t].(done := true)])
  }

  predicate CanGiveUp(s: Sys, p: Pending) {
    p in s.locks.waits && !Running(s, p.want.task)
  }

  predicate CanRelease(s: Sys, h: Hold) {
    h in s.locks.holds && !Running(s, h.task)
  }

  /** A step of a call that goes on or winds down; stopping early is not among them. */
  ghost predicate Advance(s: Sys, s': Sys) {
    || (exists t :: CanAsk(s, t) && s' == AskNext(s, t))
    || (exists p :: CanGrant(s, p) && s' == GrantNext(s, p))
    || (exists t :: CanLook(s, t) && s' == LookNext(s, t))
    || (exists t, c :: CanCommit(s, t) && s' == CommitNext(s, t, c))
    || (exists t :: Running(s, t) && Next(s, t).Finish? && s' == Stop(s, t))
    || (exists p :: CanGiveUp(s, p) && s' == s.(locks := GiveUp(s.locks, p)))
    || (exists h :: CanRelease(s, h) && s' == s.(locks := Release(s.locks, h)))
  }

  ghost predicate Step(s: Sys, s': Sys) {
    Advance(s, s') || exists t :: Running(s, t) && s' == Stop(s, t)
  }

  ghost predicate Start(s: Sys) {
    LockTables.Init(s.locks) && forall t :: 0 <= t < |s.tasks| ==> s.tasks[t].log == [] && !s.tasks[t].done
  }

  ghost predicate Run(run: seq<Sys>) {
    |run| > 0 && Start(run[0]) && forall i :: 0 <= i < |run| - 1 ==> Step(run[i], run[i + 1])
  }

  // ---- The invariant ----

  ghost predicate Owns(s: Sys, t: TaskId, r: Request) {
    exists h :: h in s.locks.holds && h.task == t && h.scope == r.scope && h.mode == r.mode
  }

  predicate Logged(log: Log, scope: LockScope, mode: LockMode) {
    exists i :: 0 <= i < |log| && log[i].Locked? && log[i].request == Request(scope, mode)
  }

  /** A running task holds exactly what its log says it was granted, and awaits only its next lock. */
  ghost predicate Matched(s: Sys, t: TaskId)
    requires t < |s.tasks|
  {
    var log := s.tasks[t].log;
    && (forall i :: 0 <= i < |log| && log[i].Locked? ==> Owns(s, t, log[i].request))
    && (forall h :: h in s.locks.holds && h.task == t ==> Logged(log, h.scope, h.mode))
    && (forall p ::
      p in s.locks.waits && p.want.task == t ==> Next(s, t) == Acquire(Request(p.want.scope, p.want.mode)))
  }

  ghost predicate FirstWritten(op: Op, log: Log)
    requires op.Add?
  {
    var w := FirstWrite(op.spec);
    |log| > w && Steady(log, 1, w, log[1].tree) &&
    var edits := AddEdits(log[1].tree, op.on, op.spec, op.id);
    edits.Ok? && log[w].Wrote? && log[w].tree == Apply(log[1].tree, edits.value)
  }

  /**
    What a running task knows of its group's current tree `t`. Under the exclusive group lock nothing
    has changed since the grant or its own last commit; under the shared one, see SharedView.
  */
  ghost predicate View(op: Op, log: Log, t: Tree) {
    match op
    case Add(_, _, spec, _) =>
      && (1 < |log| <= FirstWrite(spec) ==> Steady(log, 1, |log|, t))
      && (FirstWrite(spec) < |log| <= SecondWrite(spec) ==>
        Steady(log, FirstWrite(spec), |log|, t) && FirstWritten(op, log))
    case Rename(_, _, _, _) => 1 < |log| <= 4 ==> Steady(log, 1, |log|, t)
    case Update(_, _, _, _) => |log| <= 8 ==> SharedView(op, log, t)
    case Delete(_, _, _) => |log| <= 7 ==> SharedView(op, log, t)
    case CreateGroup(_) => true
  }

  ghost predicate Staffed(s: Sys) {
    && (forall h :: h in s.locks.holds ==> h.task < |s.tasks|)
    && (forall p :: p in s.locks.waits ==> p.want.task < |s.tasks|)
  }

  ghost predicate TaskInv(s: Sys, t: TaskId)
    requires t < |s.tasks|
  {
    WellLogged(s.tasks[t].op, s.tasks[t].log) && Matched(s, t) &&
    View(s.tasks[t].op, s.tasks[t].log, TreeOf(s, s.tasks[t].op.group))
  }

  ghost predicate Inv(s: Sys) {
    && LockTables.Inv(s.locks)
    && Staffed(s)
    && forall t :: Running(s, t) ==> TaskInv(s, t)
  }
}
