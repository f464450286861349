/**
  What overlapping commits would do to the combined system.

  Two updates or deletes of one group hold its lock together. The combined system lets their commits land
  one after the other; here both are built on the tree they find and the second lands last.
*/
module SystemOverlap {
  import opened Basics
  import opened Memories
  import opened Conventions
  import opened Registry
  import opened Scopes
  import opened LockTables
  import opened TrackerOps
  import opened Sessions
  import opened SessionCommits
  import opened System
  import opened SystemInvariant
  import SystemSafety
  import opened CommitWindow

  // ---- The second commit loses the first ----

  lemma OnePathTouched(op: Op, log: Log, t: Tree, edits: Edits)
    requires OnLeaf(op) && |log| > 3 && SharedView(op, log, t) && Act(op, log) == Commit(edits)
    ensures forall p :: Touched(edits, p) <==> p == LeafPath(op, log)
  {
    hide Act, UpdateEdits, DeleteEdits, Resolve, Shrunk, At;
    if op.Update? { UpdateCommit(op, log, t, edits); } else { DeleteCommit(op, log, t, edits); }
    assert edits[0].0 == LeafPath(op, log);
  }

  lemma PastChain(s: Sys, t: TaskId)
    requires System.Inv(s) && CanCommit(s, t) && OnLeaf(s.tasks[t].op)
    ensures |s.tasks[t].log| > 3 && SharedView(s.tasks[t].op, s.tasks[t].log, TreeOf(s, s.tasks[t].op.group))
  {
    hide Act, LockTables.Inv, SharedView, WellLogged, Matched;
    LeafCommitsAt(s.tasks[t].op, s.tasks[t].log);
    assert TaskInv(s, t);
  }

  /**
    Of two calls of one group that are both about to commit, building both commits on the same tree gives
    what one after the other gives exactly when the first one changes nothing: otherwise its change is lost.
  */
  lemma OverlapLosesTheFirst(s: Sys, t: TaskId, u: TaskId)
    requires System.Inv(s) && CanCommit(s, t) && CanCommit(s, u) && t != u && s.tasks[t].op.group == s.tasks[u].op.group
    ensures var now, first, second := TreeOf(s, s.tasks[t].op.group), Next(s, t).edits, Next(s, u).edits;
      Apply(now, second) == Apply(Apply(now, first), second) <==> Apply(now, first) == now
  {
    hide Act, Apply, System.Inv, Touched, SharedView;
    var now, first, second := TreeOf(s, s.tasks[t].op.group), Next(s, t).edits, Next(s, u).edits;
    CommitsPastChain(s.tasks[t].op, s.tasks[t].log);
    CommitsPastChain(s.tasks[u].op, s.tasks[u].log);
    TogetherOnLeaf(s, t, u);
    PastChain(s, t);
    PastChain(s, u);
    LeafCommitTouches(s, t);
    LeavesApart(s, t, u);
    OnePathTouched(s.tasks[u].op, s.tasks[u].log, now, second);
    OverlapLosesExactly(now, first, second);
    SameTree(Apply(now, first), now);
  }

  // ---- Two such calls come to this point together ----

  /** Length of the log when an update or delete commits. */
  function CommitAt(op: Op): nat {
    if op.Update? then 8 else 7
  }

  function EventAt(op: Op, t: Tree, id: Uuid, k: nat): Event {
    if k == 0 then Locked(FirstLock(op), t)
    else if k == 1 then Locked(GroupLock(op), t)
    else if k == 3 then Locked(Request(LockScope.Memory(id), Exclusive), t)
    else Saw(t)
  }

  /** The first `k` events of an update or delete of memory `id` while nobody commits. */
  function LeafLog(op: Op, t: Tree, id: Uuid, k: nat): (log: Log)
    ensures |log| == k && forall i :: 0 <= i < k ==> log[i] == EventAt(op, t, id, i)
  {
    if k == 0 then [] else LeafLog(op, t, id, k - 1) + [EventAt(op, t, id, k - 1)]
  }

  /** An update or delete that succeeds on `t`. */
  ghost predicate Succeeds(op: Op, t: Tree, id: Uuid, edits: Edits) {
    && OnLeaf(op) && Act(op, []).Acquire? && Resolve(t, op.slug) == Ok(id)
    && Ok(edits) == if op.Update? then UpdateEdits(t, op.on, op.slug, op.change) else DeleteEdits(t, op.on, op.slug)
  }

  function ActionFor(e: Event): Action {
    if e.Locked? then Acquire(e.request) else Look
  }

  /** Its events answer its actions, and then it commits. */
  lemma Scripted(op: Op, t: Tree, id: Uuid, edits: Edits, k: nat)
    requires Succeeds(op, t, id, edits) && k <= CommitAt(op)
    ensures if k == CommitAt(op) then Act(op, LeafLog(op, t, id, k)) == Commit(edits)
            else Act(op, LeafLog(op, t, id, k)) == ActionFor(EventAt(op, t, id, k))
  {
    hide Resolve, DecodeRecord, ReadRefs, Rebuild, MemoryPath, ValidMemorySlug, LeafLog;
    var log := LeafLog(op, t, id, k);
    assert k > 4 ==> log[4..][0] == Saw(t);
    assert k > 5 ==> log[4..][1] == Saw(t);
    assert k > 6 ==> log[4..][2] == Saw(t);
    assert k > 7 ==> log[4..][3] == Saw(t);
  }

  /** What the two calls do, and how far each has come. */
  datatype Pair = Pair(group: Uuid, tree: Tree, ops: seq<Op>, ids: seq<Uuid>, edits: seq<Edits>)

  ghost predicate Good(w: Pair) {
    && |w.ops| == |w.ids| == |w.edits| == 2 && w.ids[0] != w.ids[1]
    && forall i :: 0 <= i < 2 ==> w.ops[i].group == w.group && Succeeds(w.ops[i], w.tree, w.ids[i], w.edits[i])
  }

  ghost predicate Reached(w: Pair, s: Sys, k: seq<nat>)
    requires Good(w)
  {
    && |k| == 2 == |s.tasks| && TreeOf(s, w.group) == w.tree && s.locks.waits == {}
    && forall i ::
      0 <= i < 2 ==>
        k[i] <= CommitAt(w.ops[i]) && s.tasks[i] == Task(w.ops[i], LeafLog(w.ops[i], w.tree, w.ids[i], k[i]), false)
  }

  lemma OneMore(run: seq<Sys>, s: Sys)
    requires System.Run(run) && System.Step(run[|run| - 1], s)
    ensures System.Run(run + [s])
  {
    hide System.Step, Start;
    var more := run + [s];
    forall i | 0 <= i < |more| - 1 ensures System.Step(more[i], more[i + 1]) {
      if i < |run| - 1 { assert System.Step(run[i], run[i + 1]); }
    }
  }

  lemma NextLog(w: Pair, i: nat, k: nat)
    requires Good(w) && i < 2
    ensures LeafLog(w.ops[i], w.tree, w.ids[i], k + 1) ==
      LeafLog(w.ops[i], w.tree, w.ids[i], k) + [EventAt(w.ops[i], w.tree, w.ids[i], k)]
  {
  }

  lemma LookOn(s: Sys, w: Pair, k: seq<nat>, i: nat)
    requires Good(w) && Reached(w, s, k) && i < 2 && k[i] < CommitAt(w.ops[i])
    requires EventAt(w.ops[i], w.tree, w.ids[i], k[i]) == Saw(w.tree)
    ensures System.Step(s, LookNext(s, i)) && Reached(w, LookNext(s, i), k[i := k[i] + 1])
  {
    hide Act, Succeeds, LeafLog, EventAt;
    BothOnLeaf(w);
    Scripted(w.ops[i], w.tree, w.ids[i], w.edits[i], k[i]);
    assert CanLook(s, i);
    NextLog(w, i, k[i]);
  }

  lemma ReadOn(run: seq<Sys>, w: Pair, k: seq<nat>, i: nat) returns (more: seq<Sys>)
    requires System.Run(run) && Good(w) && Reached(w, run[|run| - 1], k) && i < 2 && k[i] < CommitAt(w.ops[i])
    requires EventAt(w.ops[i], w.tree, w.ids[i], k[i]) == Saw(w.tree)
    ensures System.Run(more) && Reached(w, more[|more| - 1], k[i := k[i] + 1])
  {
    var s := run[|run| - 1];
    hide *;
    assert |run| > 0 by { RunIsLong(run); }
    LookOn(s, w, k, i);
    OneMore(run, LookNext(s, i));
    more := run + [LookNext(s, i)];
  }

  lemma RunIsLong(run: seq<Sys>)
    requires System.Run(run)
    ensures |run| > 0
  {
  }

  /** The other call holds nothing that stands in the way. */
  lemma CanBeGranted(s: Sys, w: Pair, k: seq<nat>, i: nat, p: Pending)
    requires System.Inv(s) && Good(w) && i < 2 && |k| == 2 == |s.tasks| && p in s.locks.waits && p.want.task == i
    requires forall j :: 0 <= j < 2 ==> s.tasks[j] == Task(w.ops[j], LeafLog(w.ops[j], w.tree, w.ids[j], k[j]), false)
    requires EventAt(w.ops[i], w.tree, w.ids[i], k[i]) == Locked(Request(p.want.scope, p.want.mode), w.tree)
    ensures Grantable(s.locks, p.want)
  {
    hide Act, View, WellLogged, LeafLog, Succeeds;
    assert OnLeaf(w.ops[0]) && OnLeaf(w.ops[1]) by { BothOnLeaf(w); }
    forall h | h in s.locks.holds && h.handle == p.want.handle ensures h.mode == Shared && p.want.mode == Shared {
      HoldsOnlyScript(s, w, k, h);
    }
  }

  lemma BothOnLeaf(w: Pair)
    requires Good(w)
    ensures OnLeaf(w.ops[0]) && OnLeaf(w.ops[1]) && w.ops[0].group == w.group == w.ops[1].group
  {
    hide Act, Resolve, UpdateEdits, DeleteEdits;
  }

  /** Each call holds only what its events gave it. */
  lemma HoldsOnlyScript(s: Sys, w: Pair, k: seq<nat>, h: Hold)
    requires System.Inv(s) && Good(w) && |k| == 2 == |s.tasks| && h in s.locks.holds
    requires forall j :: 0 <= j < 2 ==> s.tasks[j] == Task(w.ops[j], LeafLog(w.ops[j], w.tree, w.ids[j], k[j]), false)
    ensures h.task < 2
    ensures h.scope == Process || h.scope == Group(w.group) ==> h.mode == Shared
    ensures h.scope.Process? || h.scope == Group(w.group) || h.scope == LockScope.Memory(w.ids[h.task])
  {
    hide Act, View, WellLogged, LockTables.Inv, LeafLog, Succeeds;
    BothOnLeaf(w);
    var u := h.task;
    assert TaskInv(s, u);
    assert Logged(s.tasks[u].log, h.scope, h.mode);
    var e :| 0 <= e < |s.tasks[u].log| && s.tasks[u].log[e].Locked? &&
    s.tasks[u].log[e].request == Request(h.scope, h.mode);
    assert s.tasks[u].log[e] == EventAt(w.ops[u], w.tree, w.ids[u], e);
  }

  /** The pending request of the call that asks. */
  function Asked(s: Sys, i: TaskId, r: Request): LockTables.Pending {
    LockTables.Pending.Pending(Hold(i, r.scope, r.mode, AskLookup(s.locks, r.scope).handle), s.locks.clock)
  }

  lemma AskOn(s: Sys, w: Pair, k: seq<nat>, i: nat, r: Request)
    requires Good(w) && Reached(w, s, k) && i < 2 && k[i] < CommitAt(w.ops[i])
    requires EventAt(w.ops[i], w.tree, w.ids[i], k[i]) == Locked(r, w.tree)
    ensures CanAsk(s, i) && System.Step(s, AskNext(s, i))
    ensures var next := AskNext(s, i);
      next.tasks == s.tasks && next.trees == s.trees && next.locks.waits == {Asked(s, i, r)}
  {
    hide Act, Succeeds, LeafLog, AskLookup;
    Scripted(w.ops[i], w.tree, w.ids[i], w.edits[i], k[i]);
    assert CanAsk(s, i);
  }

  lemma GrantOn(s: Sys, w: Pair, k: seq<nat>, i: nat, p: LockTables.Pending)
    requires Good(w) && |k| == 2 && i < 2 && k[i] < CommitAt(w.ops[i]) && s.locks.waits == {p} && p.want.task == i
    requires |s.tasks| == 2 && TreeOf(s, w.group) == w.tree
    requires forall j ::
      0 <= j < 2 ==>
        k[j] <= CommitAt(w.ops[j]) && s.tasks[j] == Task(w.ops[j], LeafLog(w.ops[j], w.tree, w.ids[j], k[j]), false)
    requires EventAt(w.ops[i], w.tree, w.ids[i], k[i]) == Locked(Request(p.want.scope, p.want.mode), w.tree)
    requires Grantable(s.locks, p.want)
    ensures CanGrant(s, p) && System.Step(s, GrantNext(s, p)) && Reached(w, GrantNext(s, p), k[i := k[i] + 1])
  {
    hide Act, Succeeds, LeafLog, Grantable, EventAt;
    BothOnLeaf(w);
    assert CanGrant(s, p);
    NextLog(w, i, k[i]);
    assert GrantNext(s, p).locks.waits == {};
  }

  lemma LockOn(run: seq<Sys>, w: Pair, k: seq<nat>, i: nat) returns (more: seq<Sys>)
    requires System.Run(run) && Good(w) && Reached(w, run[|run| - 1], k) && i < 2 && k[i] < CommitAt(w.ops[i])
    requires EventAt(w.ops[i], w.tree, w.ids[i], k[i]).Locked?
    ensures System.Run(more) && Reached(w, more[|more| - 1], k[i := k[i] + 1])
  {
    var s := run[|run| - 1];
    var r := EventAt(w.ops[i], w.tree, w.ids[i], k[i]).request;
    var p := Asked(s, i, r);
    hide Act, Succeeds, System.Run, LeafLog, System.Inv, Grantable, System.Step, AskNext, GrantNext, CanAsk, CanGrant,
      EventAt;
    EventIs(w, i, k[i], r);
    AskOn(s, w, k, i, r);
    var asked := AskNext(s, i);
    OneMore(run, asked);
    SystemRunKeepsInv(run + [asked], |run|);
    CanBeGranted(asked, w, k, i, p);
    GrantOn(asked, w, k, i, p);
    OneMore(run + [asked], GrantNext(asked, p));
    more := run + [asked] + [GrantNext(asked, p)];
  }

  lemma EventIs(w: Pair, i: nat, k: nat, r: Request)
    requires Good(w) && i < 2 && EventAt(w.ops[i], w.tree, w.ids[i], k).Locked?
    requires r == EventAt(w.ops[i], w.tree, w.ids[i], k).request
    ensures EventAt(w.ops[i], w.tree, w.ids[i], k) == Locked(r, w.tree)
  {
  }

  /** Both calls run up to their commits, one event at a time. */
  lemma {:induction false} RunOn(run: seq<Sys>, w: Pair, k: seq<nat>) returns (more: seq<Sys>)
    requires System.Run(run) && Good(w) && Reached(w, run[|run| - 1], k)
    ensures System.Run(more) && Reached(w, more[|more| - 1], [CommitAt(w.ops[0]), CommitAt(w.ops[1])])
    decreases CommitAt(w.ops[0]) + CommitAt(w.ops[1]) - k[0] - k[1]
  {
    hide *;
    RunIsLong(run);
    Bounds(w, run[|run| - 1], k);
    var i := if k[0] < CommitAt(w.ops[0]) then 0 else 1;
    if k[i] < CommitAt(w.ops[i]) {
      EventKinds(w.ops[i], w.tree, w.ids[i], k[i]);
      var next;
      if EventAt(w.ops[i], w.tree, w.ids[i], k[i]).Locked? {
        next := LockOn(run, w, k, i);
      } else {
        next := ReadOn(run, w, k, i);
      }
      more := RunOn(next, w, k[i := k[i] + 1]);
    } else {
      assert k == [CommitAt(w.ops[0]), CommitAt(w.ops[1])];
      more := run;
    }
  }

  lemma Bounds(w: Pair, s: Sys, k: seq<nat>)
    requires Good(w) && Reached(w, s, k)
    ensures |k| == 2 == |w.ops| == |w.ids| && k[0] <= CommitAt(w.ops[0]) && k[1] <= CommitAt(w.ops[1])
  {
  }

  lemma EventKinds(op: Op, t: Tree, id: Uuid, k: nat)
    ensures EventAt(op, t, id, k).Locked? || EventAt(op, t, id, k) == Saw(t)
  {
  }

  lemma NoEvents(w: Pair)
    requires Good(w)
    ensures LeafLog(w.ops[0], w.tree, w.ids[0], 0) == [] && LeafLog(w.ops[1], w.tree, w.ids[1], 0) == []
  {
  }

  /**
    Whatever two updates or deletes of different memories each succeed on a tree, some run brings both to
    their commits on that tree; if the first changes it and the second lands on the old tree, the change is lost.
  */
  lemma OverlapIsReachable(w: Pair, policy: PrunePolicy) returns (run: seq<Sys>)
    requires Good(w)
    ensures System.Run(run)
    ensures var s := run[|run| - 1];
      && CanCommit(s, 0) && CanCommit(s, 1) && Next(s, 0).edits == w.edits[0] && Next(s, 1).edits == w.edits[1]
      && TreeOf(s, w.group) == w.tree && s.tasks[0].op == w.ops[0] && s.tasks[1].op == w.ops[1]
    ensures Apply(w.tree, w.edits[0]) != w.tree ==>
      Apply(w.tree, w.edits[1]) != Apply(Apply(w.tree, w.edits[0]), w.edits[1])
  {
    assert |w.ops| == 2 == |w.ids| == |w.edits|;
    hide *;
    var start := Sys(LockTable(policy, map[], 0, {}, {}, 0), [Task(w.ops[0], [], false), Task(w.ops[1], [], false)],
      map[w.group := w.tree], map[], 0);
    BothOnLeaf(w);
    NoEvents(w);
    Begins(w, start);
    run := RunOn([start], w, [0, 0]);
    RunIsLong(run);
    var s := run[|run| - 1];
    AtTheirCommits(w, s);
    SystemRunKeepsInv(run, |run| - 1);
    OverlapLosesTheFirst(s, 0, 1);
  }

  lemma Begins(w: Pair, start: Sys)
    requires Good(w) && start.tasks == [Task(w.ops[0], [], false), Task(w.ops[1], [], false)]
    requires start.trees == map[w.group := w.tree]
    requires start.locks.entries == map[] && start.locks.next == 0 && start.locks.holds == {} && start.locks.waits == {}
    ensures System.Run([start]) && Reached(w, start, [0, 0])
  {
    hide LeafLog, Succeeds, Act;
    NoEvents(w);
  }

  lemma AtTheirCommits(w: Pair, s: Sys)
    requires Good(w) && Reached(w, s, [CommitAt(w.ops[0]), CommitAt(w.ops[1])])
    ensures CanCommit(s, 0) && CanCommit(s, 1) && Next(s, 0).edits == w.edits[0] && Next(s, 1).edits == w.edits[1]
    ensures TreeOf(s, w.group) == w.tree && s.tasks[0].op == w.ops[0] && s.tasks[1].op == w.ops[1]
  {
    hide LeafLog, Succeeds, Act, EventAt;
    Scripted(w.ops[0], w.tree, w.ids[0], w.edits[0], CommitAt(w.ops[0]));
    Scripted(w.ops[1], w.tree, w.ids[1], w.edits[1], CommitAt(w.ops[1]));
  }

  // ---- What the window leaves alone ----

  /** Whoever commits beside a running writer commits to another group. */
  lemma CommitBesideWriter(s: Sys, u: TaskId, c: string, t: TaskId)
    requires System.Inv(s) && CanCommit(s, u) && Running(s, t) && |s.tasks[t].log| > 1
    requires s.tasks[t].op.Add? || s.tasks[t].op.Rename?
    requires t < |CommitNext(s, u, c).tasks| && CommitNext(s, u, c).tasks[t] == s.tasks[t]
    ensures TreeOf(CommitNext(s, u, c), s.tasks[t].op.group) == TreeOf(s, s.tasks[t].op.group)
  {
    hide System.Inv, Next, CommitNext;
    CommitShows(s, u, c);
    CommitsPastChain(s.tasks[u].op, s.tasks[u].log);
    if s.tasks[u].op.group == s.tasks[t].op.group { TogetherOnLeaf(s, t, u); }
  }

  lemma CommitShows(s: Sys, u: TaskId, c: string)
    requires CanCommit(s, u)
    ensures u < |s.tasks| == |CommitNext(s, u, c).tasks| && CommitNext(s, u, c).tasks[u] != s.tasks[u] && Running(s, u)
    ensures Act(s.tasks[u].op, s.tasks[u].log).Commit?
    ensures forall g :: g != s.tasks[u].op.group ==> TreeOf(CommitNext(s, u, c), g) == TreeOf(s, g)
  {
    hide Act, Apply, IsBirth;
    assert |CommitNext(s, u, c).tasks[u].log| == |s.tasks[u].log| + 1;
  }

  /**
    So a commit of a create or rename may read its parent and land in two steps: whatever happens in between,
    the tree it lands on is the one it read.
  */
  lemma {:induction false} WriterLandsOnItsParent(run: seq<Sys>, i: nat, j: nat, t: TaskId)
    requires System.Run(run) && i <= j < |run| && Running(run[i], t) && |run[i].tasks[t].log| > 1
    requires run[i].tasks[t].op.Add? || run[i].tasks[t].op.Rename?
    requires forall k :: i <= k <= j ==> t < |run[k].tasks| && run[k].tasks[t] == run[i].tasks[t]
    ensures TreeOf(run[j], run[i].tasks[t].op.group) == TreeOf(run[i], run[i].tasks[t].op.group)
    decreases j
  {
    hide System.Step, System.Inv, Start, CanCommit, CommitNext;
    if i < j {
      WriterLandsOnItsParent(run, i, j - 1, t);
      SystemRunKeepsInv(run, j - 1);
      var s, s' := run[j - 1], run[j];
      assert s.tasks[t] == run[i].tasks[t] && s'.tasks[t] == run[i].tasks[t];
      SystemSafety.OnlyCommitsStore(s, s');
      if u: TaskId, c :| CanCommit(s, u) && s' == CommitNext(s, u, c) { CommitBesideWriter(s, u, c, t); }
    }
  }
}
