/** The ticket numbers readers see, over whole runs of the combined system. */
module SystemTickets {
  import opened Memories
  import opened LockTables
  import opened TrackerOps
  import opened Tickets
  import opened ShownTickets
  import opened Sessions
  import opened SessionCommits
  import opened System
  import opened SystemInvariant
  import opened SystemSafety

  /** Every create about to commit has a number nobody shows, unless the counter looked at its file. */
  ghost predicate BirthsAreFree(s: Sys) {
    forall t: TaskId ::
      CanCommit(s, t) && IsBirth(s.tasks[t]) ==> BirthIsFree(TreeOf(s, s.tasks[t].op.group), s.tasks[t].op.spec)
  }

  ghost predicate AllShownDistinct(s: Sys) {
    forall g :: ShownDistinct(TreeOf(s, g))
  }

  /** A commit keeps the numbers shown in its group distinct exactly when it is no create of a number already shown. */
  lemma CommitKeepsShownIff(s: Sys, t: TaskId)
    requires System.Inv(s) && CanCommit(s, t) && ShownDistinct(TreeOf(s, s.tasks[t].op.group))
    ensures var task := s.tasks[t]; var before := TreeOf(s, task.op.group);
      ShownDistinct(Apply(before, Next(s, t).edits)) <==> (IsBirth(task) ==> BirthIsFree(before, task.op.spec))
  {
    hide System.Inv, ShownDistinct, BirthIsFree, Apply, Act;
    var op, log := s.tasks[t].op, s.tasks[t].log;
    var before, edits := TreeOf(s, op.group), Next(s, t).edits;
    CommitIsSequential(s, t);
    match op
    case Add(_, on, spec, id) =>
      AddCommitsAt(op, log);
      if IsBirth(s.tasks[t]) { AddKeepsShownIff(before, on, spec, id, edits); }
      else { UpdateKeepsShown(before, on, spec.supersedes.value, BackLink(id, log[FirstWrite(spec)].commit), edits); }
    case Update(_, on, slug, change) => UpdateKeepsShown(before, on, slug, change, edits);
    case Delete(_, on, slug) => DeleteKeepsShown(before, on, slug, edits);
    case Rename(_, on, old_, new_) => RenameKeepsShown(before, on, old_, new_, edits);
    case CreateGroup(_) =>
  }

  lemma CommitKeepsGarbledFree(s: Sys, t: TaskId)
    requires System.Inv(s) && CanCommit(s, t) && GarbledFree(TreeOf(s, s.tasks[t].op.group))
    ensures GarbledFree(Apply(TreeOf(s, s.tasks[t].op.group), Next(s, t).edits))
  {
    hide System.Inv, GarbledFree, Apply, Act;
    var op, log := s.tasks[t].op, s.tasks[t].log;
    var before, edits := TreeOf(s, op.group), Next(s, t).edits;
    CommitIsSequential(s, t);
    match op
    case Add(_, on, spec, id) =>
      AddCommitsAt(op, log);
      if IsBirth(s.tasks[t]) { AddKeepsGarbledFree(before, on, spec, id, edits); }
      else {
        UpdateKeepsGarbledFree(before, on, spec.supersedes.value, BackLink(id, log[FirstWrite(spec)].commit), edits);
      }
    case Update(_, on, slug, change) => UpdateKeepsGarbledFree(before, on, slug, change, edits);
    case Delete(_, on, slug) => DeleteKeepsGarbledFree(before, on, slug, edits);
    case Rename(_, on, old_, new_) => RenameKeepsGarbledFree(before, on, old_, new_, edits);
    case CreateGroup(_) =>
  }

  lemma CommitKeepsShown(s: Sys, t: TaskId, c: string)
    requires System.Inv(s) && CanCommit(s, t) && BirthsAreFree(s) && AllShownDistinct(s)
    ensures AllShownDistinct(CommitNext(s, t, c))
  {
    hide Act, Apply, ShownDistinct, System.Inv, BirthIsFree, FirstWrite, CommitNext;
    CommitKeepsShownIff(s, t);
    forall g ensures ShownDistinct(TreeOf(CommitNext(s, t, c), g)) { TreeAfterCommit(s, t, c, g); }
  }

  lemma StepKeepsShown(s: Sys, s': Sys)
    requires System.Inv(s) && System.Step(s, s') && BirthsAreFree(s) && AllShownDistinct(s)
    ensures AllShownDistinct(s')
  {
    hide Act, Apply, ShownDistinct, System.Inv, System.Step, BirthsAreFree, CommitNext;
    OnlyCommitsStore(s, s');
    if SameStore(s, s') {
      assert forall g :: TreeOf(s', g) == TreeOf(s, g);
    } else {
      var t: TaskId, c :| CanCommit(s, t) && s' == CommitNext(s, t, c);
      CommitKeepsShown(s, t, c);
    }
  }

  /** In every run whose creates commit numbers nobody shows, the numbers shown stay distinct. */
  lemma {:induction false} ShownStayDistinct(run: seq<Sys>, n: nat)
    requires System.Run(run) && n < |run| && AllShownDistinct(run[0])
    requires forall i :: 0 <= i < n ==> BirthsAreFree(run[i])
    ensures AllShownDistinct(run[n])
    decreases n
  {
    hide System.Step, System.Inv, BirthsAreFree, AllShownDistinct;
    if n > 0 {
      ShownStayDistinct(run, n - 1);
      SystemRunKeepsInv(run, n - 1);
      StepKeepsShown(run[n - 1], run[n]);
    }
  }

  // ---- Groups whose numbered files are all valid UTF-8 ----

  ghost predicate AllGarbledFree(s: Sys) {
    forall g :: GarbledFree(TreeOf(s, g))
  }

  lemma CommitKeepsAllGarbledFree(s: Sys, t: TaskId, c: string)
    requires System.Inv(s) && CanCommit(s, t) && AllGarbledFree(s)
    ensures AllGarbledFree(CommitNext(s, t, c))
  {
    hide Act, Apply, GarbledFree, System.Inv, CommitNext;
    CommitKeepsGarbledFree(s, t);
    forall g ensures GarbledFree(TreeOf(CommitNext(s, t, c), g)) { TreeAfterCommit(s, t, c, g); }
  }

  /** No call ever writes a numbered file that is not valid UTF-8. */
  lemma {:induction false} GarbledFreeStays(run: seq<Sys>, n: nat)
    requires System.Run(run) && n < |run| && AllGarbledFree(run[0])
    ensures AllGarbledFree(run[n])
    decreases n
  {
    hide System.Step, System.Inv, GarbledFree, CanCommit, CommitNext;
    if n > 0 {
      GarbledFreeStays(run, n - 1);
      SystemRunKeepsInv(run, n - 1);
      var s, s' := run[n - 1], run[n];
      OnlyCommitsStore(s, s');
      if SameStore(s, s') {
        assert forall g :: TreeOf(s', g) == TreeOf(s, g);
      } else {
        var t: TaskId, c :| CanCommit(s, t) && s' == CommitNext(s, t, c);
        CommitKeepsAllGarbledFree(s, t, c);
      }
    }
  }

  /**
    So where every numbered file was valid UTF-8 at the start, what the counter keeps distinct is what
    readers see: no two memories of a group ever show one number.
  */
  lemma MintedTicketsStayShownDistinct(run: seq<Sys>, n: nat)
    requires System.Run(run) && n < |run| && AllGarbledFree(run[0]) && AllTicketsDistinct(run[0])
    requires forall t: TaskId :: t < |run[0].tasks| && run[0].tasks[t].op.Add? ==> run[0].tasks[t].op.spec.number.None?
    ensures AllShownDistinct(run[n])
  {
    hide System.Step, System.Run, GarbledFree, TicketsDistinct, ShownDistinct;
    MintedTicketsStayDistinct(run, n);
    GarbledFreeStays(run, n);
    forall g ensures ShownDistinct(TreeOf(run[n], g)) { GarbledFreeReads(TreeOf(run[n], g)); }
  }
}
