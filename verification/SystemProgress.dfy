/** Deadlock freedom and termination of the combined system. */
module SystemProgress {
  import opened LockTables
  import opened Sessions
  import opened SessionCommits
  import opened System
  import opened SystemInvariant

  /** Some call is still running, waiting or holding a guard. */
  ghost predicate Unfinished(s: Sys) {
    (exists t: TaskId :: Running(s, t)) || s.locks.holds != {} || s.locks.waits != {}
  }

  ghost predicate Parked(s: Sys, t: TaskId) {
    exists p :: p in s.locks.waits && p.want.task == t
  }

  /** No one waiting on the same lock object came earlier. */
  ghost predicate InTurn(s: Sys, p: Pending) {
    forall q :: q in s.locks.waits && q.want.handle == p.want.handle ==> p.ticket <= q.ticket
  }

  /** A step that goes on, where a lock is granted to its earliest waiter only. */
  ghost predicate AdvanceInTurn(s: Sys, s': Sys) {
    || (exists t :: CanAsk(s, t) && s' == AskNext(s, t))
    || (exists p :: CanGrant(s, p) && InTurn(s, p) && s' == GrantNext(s, p))
    || (exists t :: CanLook(s, t) && s' == LookNext(s, t))
    || (exists t, c :: CanCommit(s, t) && s' == CommitNext(s, t, c))
    || (exists t :: Running(s, t) && Next(s, t).Finish? && s' == Stop(s, t))
    || (exists p :: CanGiveUp(s, p) && s' == s.(locks := GiveUp(s.locks, p)))
    || (exists h :: CanRelease(s, h) && s' == s.(locks := Release(s.locks, h)))
  }

  /** A running task that is not parked has a step of its own. */
  lemma UnparkedTaskAdvances(s: Sys, t: TaskId) returns (s': Sys)
    requires Running(s, t) && !Parked(s, t)
    ensures AdvanceInTurn(s, s')
  {
    match Next(s, t)
    case Acquire(_) => assert CanAsk(s, t); s' := AskNext(s, t);
    case Look => assert CanLook(s, t); s' := LookNext(s, t);
    case Commit(_) => assert CanCommit(s, t); s' := CommitNext(s, t, "");
    case Finish(_) => s' := Stop(s, t);
  }

  lemma LeftoversAreDropped(s: Sys) returns (s': Sys)
    requires (exists h :: CanRelease(s, h)) || exists p :: CanGiveUp(s, p)
    ensures AdvanceInTurn(s, s')
  {
    if h :| CanRelease(s, h) {
      s' := s.(locks := Release(s.locks, h));
    } else {
      var p :| CanGiveUp(s, p);
      s' := s.(locks := GiveUp(s.locks, p));
    }
  }

  /**
    Deadlock freedom: in every reachable state with an unfinished call some call can go on without anyone
    being cancelled, and where a lock has to be granted its earliest waiter can have it. So the calls
    cannot be stuck whether the locks favour anyone or serve first come, first served.
  */
  lemma NeverStuck(run: seq<Sys>, n: nat) returns (s': Sys)
    requires System.Run(run) && n < |run| && Unfinished(run[n])
    ensures AdvanceInTurn(run[n], s') && Advance(run[n], s')
  {
    s' := StuckNowhere(run, n);
  }

  lemma StuckNowhere(run: seq<Sys>, n: nat) returns (s': Sys)
    requires System.Run(run) && n < |run| && Unfinished(run[n])
    ensures AdvanceInTurn(run[n], s')
  {
    var s := run[n];
    SystemRunKeepsInv(run, n);
    if t: TaskId :| Running(s, t) && !Parked(s, t) {
      s' := UnparkedTaskAdvances(s, t);
    } else if (exists h :: CanRelease(s, h)) || exists p :: CanGiveUp(s, p) {
      s' := LeftoversAreDropped(s);
    } else {
      forall h | h in s.locks.holds ensures exists p :: p in s.locks.waits && p.want.task == h.task {
        assert !CanRelease(s, h) && Parked(s, h.task);
      }
      var p := ParkedTasksAreNeverStuck(s.locks);
      assert !CanGiveUp(s, p);
      s' := GrantNext(s, p);
    }
  }

  // ---- A count of remaining steps ----

  ghost function Weight(s: Sys, t: TaskId): nat
    requires t < |s.tasks|
  {
    if !Running(s, t) || |s.tasks[t].log| > MAX_EVENTS then 0
    else 3 * (MAX_EVENTS - |s.tasks[t].log|) + (if Parked(s, t) then 1 else 3)
  }

  ghost function Total(s: Sys, n: nat): nat
    requires n <= |s.tasks|
  {
    if n == 0 then 0 else Total(s, n - 1) + Weight(s, n - 1)
  }

  /** Guards held, waits parked, and what the running tasks may still do. */
  ghost function Remaining(s: Sys): nat {
    |s.locks.holds| + |s.locks.waits| + Total(s, |s.tasks|)
  }

  lemma {:induction false} OneWeightChanges(s: Sys, s': Sys, t: TaskId, n: nat)
    requires t < |s.tasks| == |s'.tasks| && n <= |s.tasks|
    requires forall u: TaskId :: u < |s.tasks| && u != t ==> Weight(s', u) == Weight(s, u)
    ensures Total(s', n) - Total(s, n) == if t < n then Weight(s', t) - Weight(s, t) else 0
  {
    if n > 0 { OneWeightChanges(s, s', t, n - 1); }
  }

  lemma LogsAreShort(op: Op, log: Log)
    requires WellLogged(op, log)
    ensures |log| <= MAX_EVENTS
  {
    if |log| > MAX_EVENTS {
      ProgramsAreShort(op, log[..MAX_EVENTS]);
    }
  }

  lemma SameParking(s: Sys, s': Sys, u: TaskId)
    requires SameLocks(s, s', u)
    ensures Parked(s, u) == Parked(s', u)
  {
    if p :| p in s.locks.waits && p.want.task == u { assert p in s'.locks.waits; }
    if p :| p in s'.locks.waits && p.want.task == u { assert p in s.locks.waits; }
  }

  /** Tasks other than `t` neither parked nor left a lock, logged nothing and did not stop. */
  lemma BystandersKeepWeight(s: Sys, s': Sys, t: TaskId)
    requires t < |s.tasks| == |s'.tasks|
    requires forall u: TaskId :: u < |s.tasks| && u != t ==> s'.tasks[u] == s.tasks[u] && SameLocks(s, s', u)
    ensures Total(s', |s.tasks|) - Total(s, |s.tasks|) == Weight(s', t) - Weight(s, t)
  {
    forall u: TaskId | u < |s.tasks| && u != t ensures Weight(s', u) == Weight(s, u) {
      SameParking(s, s', u);
    }
    OneWeightChanges(s, s', t, |s.tasks|);
  }

  lemma AskShortens(s: Sys, t: TaskId)
    requires System.Inv(s) && CanAsk(s, t)
    ensures Remaining(AskNext(s, t)) < Remaining(s)
  {
    hide Act, View, LockTables.Inv, Grantable;
    var s' := AskNext(s, t);
    LogsAreShort(s.tasks[t].op, s.tasks[t].log);
    BystandersKeepWeight(s, s', t);
    var r := Next(s, t).request;
    var parked := Pending(Hold(t, r.scope, r.mode, AskLookup(s.locks, r.scope).handle), s.locks.clock);
    assert s'.locks.waits == s.locks.waits + {parked} && parked in s'.locks.waits;
    assert parked !in s.locks.waits;
    assert Parked(s', t) && !Parked(s, t);
  }

  lemma GrantShortens(s: Sys, p: Pending)
    requires System.Inv(s) && CanGrant(s, p)
    ensures Remaining(GrantNext(s, p)) < Remaining(s)
  {
    hide Act, View, LockTables.Inv, Grantable;
    var s', t := GrantNext(s, p), p.want.task;
    GranteeKeepsInv(s, p);
    LogsAreShort(s'.tasks[t].op, s'.tasks[t].log);
    BystandersKeepWeight(s, s', t);
    assert Weight(s', t) <= Weight(s, t) - 1 by { assert Parked(s, t); }
  }

  lemma EventShortens(s: Sys, s': Sys, t: TaskId)
    requires System.Inv(s) && System.Inv(s') && Running(s, t) && |s'.tasks| == |s.tasks| && s'.locks == s.locks
    requires Running(s', t) && |s'.tasks[t].log| == |s.tasks[t].log| + 1
    requires forall u: TaskId :: u < |s.tasks| && u != t ==> s'.tasks[u] == s.tasks[u]
    ensures Remaining(s') < Remaining(s)
  {
    LogsAreShort(s'.tasks[t].op, s'.tasks[t].log);
    BystandersKeepWeight(s, s', t);
    assert Parked(s, t) == Parked(s', t);
  }

  lemma StopShortens(s: Sys, t: TaskId)
    requires System.Inv(s) && Running(s, t)
    ensures Remaining(Stop(s, t)) < Remaining(s)
  {
    LogsAreShort(s.tasks[t].op, s.tasks[t].log);
    BystandersKeepWeight(s, Stop(s, t), t);
  }

  lemma GiveUpShortens(s: Sys, p: Pending)
    requires System.Inv(s) && CanGiveUp(s, p)
    ensures Remaining(s.(locks := GiveUp(s.locks, p))) < Remaining(s)
  {
    hide Act, View, LockTables.Inv, Grantable;
    var s' := s.(locks := GiveUp(s.locks, p));
    assert s.locks.waits == s'.locks.waits + {p};
    BystandersKeepWeight(s, s', p.want.task);
  }

  lemma ReleaseShortens(s: Sys, h: Hold)
    requires System.Inv(s) && CanRelease(s, h)
    ensures Remaining(s.(locks := Release(s.locks, h))) < Remaining(s)
  {
    hide Act, View, LockTables.Inv, Grantable;
    var s' := s.(locks := Release(s.locks, h));
    assert s.locks.holds == s'.locks.holds + {h};
    BystandersKeepWeight(s, s', h.task);
  }

  lemma LookShortens(s: Sys, t: TaskId)
    requires System.Inv(s) && CanLook(s, t)
    ensures Remaining(LookNext(s, t)) < Remaining(s)
  {
    LookKeepsInv(s, t);
    EventShortens(s, LookNext(s, t), t);
  }

  lemma CommitShortens(s: Sys, t: TaskId, c: string)
    requires System.Inv(s) && CanCommit(s, t)
    ensures Remaining(CommitNext(s, t, c)) < Remaining(s)
  {
    CommitKeepsInv(s, t, c);
    EventShortens(s, CommitNext(s, t, c), t);
  }

  /** Every step, of whatever task, uses up one unit of a finite supply: no run goes on for ever. */
  lemma EveryStepShortens(s: Sys, s': Sys)
    requires System.Inv(s) && System.Step(s, s')
    ensures Remaining(s') < Remaining(s)
  {
    hide System.Inv, Act, Remaining;
    if t :| CanAsk(s, t) && s' == AskNext(s, t) {
      AskShortens(s, t);
    } else if p :| CanGrant(s, p) && s' == GrantNext(s, p) {
      GrantShortens(s, p);
    } else if t :| CanLook(s, t) && s' == LookNext(s, t) {
      LookShortens(s, t);
    } else if t, c :| CanCommit(s, t) && s' == CommitNext(s, t, c) {
      CommitShortens(s, t, c);
    } else if t :| Running(s, t) && s' == Stop(s, t) {
      StopShortens(s, t);
    } else if p :| CanGiveUp(s, p) && s' == s.(locks := GiveUp(s.locks, p)) {
      GiveUpShortens(s, p);
    } else {
      var h :| CanRelease(s, h) && s' == s.(locks := Release(s.locks, h));
      ReleaseShortens(s, h);
    }
  }

  /** A run is no longer than the supply it starts with, 45 for each call. */
  lemma {:induction false} RunsAreBounded(run: seq<Sys>, n: nat)
    requires System.Run(run) && n < |run|
    ensures Remaining(run[n]) + n <= 45 * |run[0].tasks|
    decreases n
  {
    if n == 0 {
      StartingSupply(run[0], |run[0].tasks|);
    } else {
      RunsAreBounded(run, n - 1);
      SystemRunKeepsInv(run, n - 1);
      EveryStepShortens(run[n - 1], run[n]);
    }
  }

  lemma {:induction false} StartingSupply(s: Sys, n: nat)
    requires Start(s) && n <= |s.tasks|
    ensures Total(s, n) <= 45 * n
  {
    if n > 0 { StartingSupply(s, n - 1); }
  }
}
