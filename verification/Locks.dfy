/**
  The scope hierarchy and the chains of the lock registry.

  A scope is a node of Process > Group > Memory. An operation names the scopes it needs as a chain,
  outermost first; the rank of a scope is its depth in the hierarchy.
*/
module Scopes {
  import opened Basics

  datatype LockScope = Process | Group(group: Uuid) | Memory(memory: Uuid)

  datatype LockMode = Shared | Exclusive

  datatype Request = Request(scope: LockScope, mode: LockMode)

  function Rank(scope: LockScope): nat {
    match scope
    case Process => 0
    case Group(_) => 1
    case Memory(_) => 2
  }

  function MemoryChain(group: Uuid, memory: Uuid, leaf: LockMode): seq<Request> {
    [Request(Process, Shared), Request(Group(group), Shared), Request(Memory(memory), leaf)]
  }

  function ExclusiveGroupChain(group: Uuid): seq<Request> {
    [Request(Process, Shared), Request(Group(group), Exclusive)]
  }

  function CreateChain(group: Uuid): seq<Request> {
    ExclusiveGroupChain(group)
  }

  function CoarsenGroupChain(group: Uuid): seq<Request> {
    ExclusiveGroupChain(group)
  }

  function CoarsenProcessChain(): seq<Request> {
    [Request(Process, Exclusive)]
  }
}

/**
  The keyed registry that hands out one lock object per scope and drops entries nobody else holds.

  A handle stands for one `Arc<RwLock<()>>`; two handles are equal when they are the same allocation.
  The strong count of a handle exceeds one exactly when a task holds or awaits it, so the set of
  handles in use by tasks is what a sweep consults.
*/
module Registry {
  import opened Scopes

  type Handle = nat

  datatype PrunePolicy = Always | Threshold(limit: nat)

  datatype Lookup = Lookup(entries: map<LockScope, Handle>, next: Handle, handle: Handle)

  predicate ShouldPrune(policy: PrunePolicy, entries: map<LockScope, Handle>) {
    match policy
    case Always => true
    case Threshold(limit) => |entries| >= limit
  }

  function Sweep(policy: PrunePolicy, entries: map<LockScope, Handle>, inUse: set<Handle>): map<LockScope, Handle> {
    if ShouldPrune(policy, entries) then map k | k in entries && entries[k] in inUse :: entries[k] else entries
  }

  /** Sweep first, then find or install: the key itself may be swept and reinstalled. */
  function GetOrInstall(policy: PrunePolicy, entries: map<LockScope, Handle>, next: Handle,
                        inUse: set<Handle>, key: LockScope): Lookup
  {
    var swept := Sweep(policy, entries, inUse);
    if key in swept then Lookup(swept, next, swept[key]) else Lookup(swept[key := next], next + 1, next)
  }

  /** Every lock object is named for one key only and was handed out before. */
  ghost predicate Distinct(entries: map<LockScope, Handle>, next: Handle) {
    && (forall k :: k in entries ==> entries[k] < next)
    && (forall j, k :: j in entries && k in entries && entries[j] == entries[k] ==> j == k)
  }

  /**
    What a caller of a lookup relies on: the key names the lock object returned; whatever is in use keeps
    its name, no other key is added or renamed, and the object is new only if the key had none or an idle one.
  */
  ghost predicate NamedFor(entries: map<LockScope, Handle>, next: Handle, inUse: set<Handle>, key: LockScope,
          found: Lookup) {
    && key in found.entries && found.entries[key] == found.handle
    && (forall k :: k in entries && entries[k] in inUse ==> k in found.entries && found.entries[k] == entries[k])
    && (forall k :: k in found.entries && k != key ==> k in entries && found.entries[k] == entries[k])
    && (if found.handle == next then found.next == next + 1 && (key in entries ==> entries[key] !in inUse)
        else found.next == next && key in entries && entries[key] == found.handle)
  }

  lemma NamesOneObject(policy: PrunePolicy, entries: map<LockScope, Handle>, next: Handle, inUse: set<Handle>,
          key: LockScope)
    requires Distinct(entries, next)
    ensures var found := GetOrInstall(policy, entries, next, inUse, key);
      Distinct(found.entries, found.next) && NamedFor(entries, next, inUse, key, found)
  {
    hide Sweep, Distinct, NamedFor;
    var swept := Sweep(policy, entries, inUse);
    SweepKeeps(policy, entries, inUse);
    StillDistinct(entries, inUse, swept, next, key);
    if key in swept { OldName(entries, next, inUse, key, swept); } else { NewName(entries, next, inUse, key, swept); }
  }

  ghost predicate KeepsUsed(entries: map<LockScope, Handle>, inUse: set<Handle>, swept: map<LockScope, Handle>) {
    && (forall k :: k in swept ==> k in entries && swept[k] == entries[k])
    && (forall k :: k in entries && entries[k] in inUse ==> k in swept)
  }

  lemma OldName(entries: map<LockScope, Handle>, next: Handle, inUse: set<Handle>, key: LockScope,
          swept: map<LockScope, Handle>)
    requires Distinct(entries, next) && KeepsUsed(entries, inUse, swept) && key in swept
    ensures NamedFor(entries, next, inUse, key, Lookup(swept, next, swept[key]))
  {
    assert swept[key] < next;
  }

  lemma NewName(entries: map<LockScope, Handle>, next: Handle, inUse: set<Handle>, key: LockScope,
          swept: map<LockScope, Handle>)
    requires KeepsUsed(entries, inUse, swept) && key !in swept
    ensures NamedFor(entries, next, inUse, key, Lookup(swept[key := next], next + 1, next))
  {
  }

  lemma SweepKeeps(policy: PrunePolicy, entries: map<LockScope, Handle>, inUse: set<Handle>)
    ensures KeepsUsed(entries, inUse, Sweep(policy, entries, inUse))
  {
    hide ShouldPrune;
  }

  lemma StillDistinct(entries: map<LockScope, Handle>, inUse: set<Handle>, swept: map<LockScope, Handle>,
          next: Handle, key: LockScope)
    requires Distinct(entries, next) && KeepsUsed(entries, inUse, swept)
    ensures Distinct(swept, next) && Distinct(swept[key := next], next + 1)
  {
  }

  lemma SweptIs(policy: PrunePolicy, before: map<LockScope, Handle>, inUse: set<Handle>, swept: map<LockScope, Handle>)
    requires swept ==
      if policy.Always? || |before| >= policy.limit then map k | k in before && before[k] in inUse :: before[k]
      else before
    ensures swept == Sweep(policy, before, inUse)
  {
  }

  lemma FoundIs(policy: PrunePolicy, before: map<LockScope, Handle>, next: Handle, inUse: set<Handle>, key: LockScope,
          swept: map<LockScope, Handle>)
    requires swept == Sweep(policy, before, inUse)
    ensures GetOrInstall(policy, before, next, inUse, key)
         == if key in swept then Lookup(swept, next, swept[key]) else Lookup(swept[key := next], next + 1, next)
  {
    hide Sweep;
  }

  class KeyedLockRegistry {
    const policy: PrunePolicy
    var entries: map<LockScope, Handle>
    var next: Handle

    constructor (policy: PrunePolicy)
      ensures Valid() && this.policy == policy && entries == map[] && next == 0
    {
      this.policy := policy;
      entries := map[];
      next := 0;
    }

    ghost predicate Valid()
      reads this
    {
      Distinct(entries, next)
    }

    lemma ValidIs()
      ensures Valid() <==> Distinct(entries, next)
    {
    }

    method Obtain(key: LockScope, inUse: set<Handle>) returns (handle: Handle)
      requires Valid()
      modifies this
      ensures Valid() && NamedFor(old(entries), old(next), inUse, key, Lookup(entries, next, handle))
      ensures Lookup(entries, next, handle) == GetOrInstall(policy, old(entries), old(next), inUse, key)
    {
      NamesOneObject(policy, entries, next, inUse, key);
      hide *;
      var before, kept := entries, entries;
      if policy.Always? || |before| >= policy.limit {
        kept := map k | k in before && before[k] in inUse :: before[k];
      }
      SweptIs(policy, before, inUse, kept);
      FoundIs(policy, before, next, inUse, key, kept);
      entries := kept;
      if key !in kept {
        entries := kept[key := next];
        next := next + 1;
      }
      handle := entries[key];
      ValidIs();
    }
  }
}

/**
  The lock table: which task holds and which task awaits which scope, through which handle.

  A task asks for a scope (registry lookup), is later granted it, may give up waiting, and releases
  what it holds one guard at a time in any order. A grant is possible when the reader/writer rule of
  that one handle allows it; nothing about fairness is assumed.
*/
module LockTables {
  import opened Scopes
  import opened Registry

  type TaskId = nat

  datatype Hold = Hold(task: TaskId, scope: LockScope, mode: LockMode, handle: Handle)

  /** A task parked on a lock; `ticket` is its arrival order. */
  datatype Pending = Pending(want: Hold, ticket: nat)

  datatype LockTable = LockTable(
    policy: PrunePolicy,
    entries: map<LockScope, Handle>,
    next: Handle,
    holds: set<Hold>,
    waits: set<Pending>,
    clock: nat)

  function InUse(s: LockTable): set<Handle> {
    (set h | h in s.holds :: h.handle) + (set p | p in s.waits :: p.want.handle)
  }

  predicate Init(s: LockTable) {
    s.entries == map[] && s.holds == {} && s.waits == {} && s.next == 0
  }

  ghost predicate Idle(s: LockTable, t: TaskId) {
    forall p :: p in s.waits ==> p.want.task != t
  }

  /** Every scope the task already holds lies strictly above `scope` in the hierarchy. */
  ghost predicate Below(s: LockTable, t: TaskId, scope: LockScope) {
    forall h :: h in s.holds && h.task == t ==> Rank(h.scope) < Rank(scope)
  }

  predicate Grantable(s: LockTable, want: Hold) {
    match want.mode
    case Shared => forall h :: h in s.holds && h.handle == want.handle ==> h.mode == Shared
    case Exclusive => forall h :: h in s.holds ==> h.handle != want.handle
  }

  function AskLookup(s: LockTable, scope: LockScope): Lookup {
    GetOrInstall(s.policy, s.entries, s.next, InUse(s), scope)
  }

  function Ask(s: LockTable, t: TaskId, r: Request): LockTable {
    var found := AskLookup(s, r.scope);
    s.(entries := found.entries, next := found.next,
       waits := s.waits + {Pending(Hold(t, r.scope, r.mode, found.handle), s.clock)},
       clock := s.clock + 1)
  }

  function Grant(s: LockTable, p: Pending): LockTable {
    s.(holds := s.holds + {p.want}, waits := s.waits - {p})
  }

  function GiveUp(s: LockTable, p: Pending): LockTable {
    s.(waits := s.waits - {p})
  }

  function Release(s: LockTable, h: Hold): LockTable {
    s.(holds := s.holds - {h})
  }

  ghost predicate Step(s: LockTable, s': LockTable) {
    || (exists t, r: Request :: Idle(s, t) && Below(s, t, r.scope) && s' == Ask(s, t, r))
    || (exists p :: p in s.waits && Grantable(s, p.want) && s' == Grant(s, p))
    || (exists p :: p in s.waits && s' == GiveUp(s, p))
    || (exists h :: h in s.holds && s' == Release(s, h))
  }

  /** Whatever a task holds or awaits is the lock object the registry currently names for that scope. */
  ghost predicate Registered(s: LockTable) {
    && (forall h :: h in s.holds ==> h.scope in s.entries && s.entries[h.scope] == h.handle)
    && (forall p :: p in s.waits ==> p.want.scope in s.entries && s.entries[p.want.scope] == p.want.handle)
  }

  ghost predicate OneLockPerScope(s: LockTable) {
    Distinct(s.entries, s.next)
  }

  ghost predicate ReaderWriter(s: LockTable) {
    forall g, h ::
      g in s.holds && h in s.holds && g.handle == h.handle && g != h ==> g.mode == Shared && h.mode == Shared
  }

  ghost predicate Disciplined(s: LockTable) {
    && (forall p, q :: p in s.waits && q in s.waits && p.want.task == q.want.task ==> p == q)
    && (forall p, h :: p in s.waits && h in s.holds && p.want.task == h.task ==> Rank(h.scope) < Rank(p.want.scope))
    && (forall g, h :: g in s.holds && h in s.holds && g.task == h.task && Rank(g.scope) == Rank(h.scope) ==> g == h)
    && (forall p, q :: p in s.waits && q in s.waits && p.ticket == q.ticket ==> p == q)
    && (forall p :: p in s.waits ==> p.ticket < s.clock)
  }

  ghost predicate Inv(s: LockTable) {
    Registered(s) && OneLockPerScope(s) && ReaderWriter(s) && Disciplined(s)
  }

  // ---- What one lookup does to the registry ----

  /** A sweep keeps every entry in use, so no held or awaited scope is ever renamed to another lock. */
  lemma SweepKeepsUsedEntries(s: LockTable)
    requires Registered(s)
    ensures var swept := Sweep(s.policy, s.entries, InUse(s));
      && (forall a :: a in swept ==> a in s.entries && swept[a] == s.entries[a])
      && (forall h :: h in s.holds ==> h.scope in swept)
      && (forall p :: p in s.waits ==> p.want.scope in swept)
  {
    forall h | h in s.holds ensures h.handle in InUse(s) {}
    forall p | p in s.waits ensures p.want.handle in InUse(s) {}
  }

  lemma AskKeepsRegistered(s: LockTable, t: TaskId, r: Request)
    requires Registered(s)
    ensures Registered(Ask(s, t, r))
  {
    SweepKeepsUsedEntries(s);
  }

  lemma AskKeepsDisciplined(s: LockTable, t: TaskId, r: Request)
    requires Disciplined(s) && Idle(s, t) && Below(s, t, r.scope)
    ensures Disciplined(Ask(s, t, r))
  {
    var found := AskLookup(s, r.scope);
    var parked := Pending(Hold(t, r.scope, r.mode, found.handle), s.clock);
    assert forall p :: p in Ask(s, t, r).waits ==> p in s.waits || p == parked;
  }

  lemma AskKeepsInv(s: LockTable, t: TaskId, r: Request)
    requires Inv(s) && Idle(s, t) && Below(s, t, r.scope)
    ensures Inv(Ask(s, t, r))
  {
    AskKeepsRegistered(s, t, r);
    AskKeepsDisciplined(s, t, r);
  }

  lemma GrantKeepsInv(s: LockTable, p: Pending)
    requires Inv(s) && p in s.waits && Grantable(s, p.want)
    ensures Inv(Grant(s, p))
  {
    hide Registered, OneLockPerScope, ReaderWriter, Disciplined;
    GrantKeepsTable(s, p);
    GrantKeepsReaderWriter(s, p);
    GrantKeepsDisciplined(s, p);
  }

  lemma GrantKeepsTable(s: LockTable, p: Pending)
    requires Registered(s) && OneLockPerScope(s) && p in s.waits
    ensures Registered(Grant(s, p)) && OneLockPerScope(Grant(s, p))
  {
  }

  lemma GrantKeepsReaderWriter(s: LockTable, p: Pending)
    requires ReaderWriter(s) && Grantable(s, p.want)
    ensures ReaderWriter(Grant(s, p))
  {
  }

  lemma GrantKeepsDisciplined(s: LockTable, p: Pending)
    requires Disciplined(s) && p in s.waits
    ensures Disciplined(Grant(s, p))
  {
  }

  lemma GiveUpKeepsInv(s: LockTable, p: Pending)
    requires Inv(s)
    ensures Inv(GiveUp(s, p))
  {
  }

  lemma ReleaseKeepsInv(s: LockTable, h: Hold)
    requires Inv(s)
    ensures Inv(Release(s, h))
  {
  }

  lemma StepKeepsInv(s: LockTable, s': LockTable)
    requires Inv(s) && Step(s, s')
    ensures Inv(s')
  {
    hide Inv, Ask, Grantable;
    if t: TaskId, r: Request :| Idle(s, t) && Below(s, t, r.scope) && s' == Ask(s, t, r) {
      AskKeepsInv(s, t, r);
    } else if p :| p in s.waits && Grantable(s, p.want) && s' == Grant(s, p) {
      GrantKeepsInv(s, p);
    } else if p :| p in s.waits && s' == GiveUp(s, p) {
      GiveUpKeepsInv(s, p);
    } else {
      var h :| h in s.holds && s' == Release(s, h);
      ReleaseKeepsInv(s, h);
    }
  }

  ghost predicate Run(run: seq<LockTable>) {
    && |run| > 0 && Init(run[0])
    && forall i :: 0 <= i < |run| - 1 ==> Step(run[i], run[i + 1])
  }

  lemma {:induction false} RunKeepsInv(run: seq<LockTable>, n: nat)
    requires Run(run) && n < |run|
    ensures Inv(run[n])
    decreases n
  {
    if n > 0 {
      RunKeepsInv(run, n - 1);
      StepKeepsInv(run[n - 1], run[n]);
    }
  }

  /**
    Hierarchical exclusion survives pruning: at every point of every run, however often idle entries
    were dropped and recreated, an exclusive holder of a scope is its only holder.
  */
  lemma ExclusionSurvivesPruning(run: seq<LockTable>, n: nat, g: Hold, h: Hold)
    requires Run(run) && n < |run|
    requires g in run[n].holds && h in run[n].holds && g.scope == h.scope && g != h
    ensures g.mode == Shared && h.mode == Shared
  {
    RunKeepsInv(run, n);
  }

  // ---- Deadlock freedom ----

  /** Every task that holds something is parked: nobody can run on its own. */
  ghost predicate AllParked(s: LockTable) {
    forall h :: h in s.holds ==> exists p :: p in s.waits && p.want.task == h.task
  }

  lemma {:induction false} DeepestWait(waits: set<Pending>) returns (p: Pending)
    requires waits != {}
    ensures p in waits
    ensures forall q :: q in waits ==> Rank(q.want.scope) <= Rank(p.want.scope)
  {
    var x :| x in waits;
    var rest := waits - {x};
    p := x;
    if rest != {} {
      var deepest := DeepestWait(rest);
      if Rank(x.want.scope) < Rank(deepest.want.scope) { p := deepest; }
    }
    assert forall q :: q in waits ==> q == x || q in rest;
  }

  lemma {:induction false} EarliestWait(waits: set<Pending>, handle: Handle) returns (p: Pending)
    requires exists q :: q in waits && q.want.handle == handle
    ensures p in waits && p.want.handle == handle
    ensures forall q :: q in waits && q.want.handle == handle ==> p.ticket <= q.ticket
  {
    var x :| x in waits && x.want.handle == handle;
    var rest := waits - {x};
    if exists q :: q in rest && q.want.handle == handle {
      p := EarliestWait(rest, handle);
      if x.ticket < p.ticket { p := x; }
    } else {
      p := x;
    }
    assert forall q :: q in waits ==> q == x || q in rest;
  }

  /**
    When every holder is itself parked, some parked task can be granted its lock at once, and it is
    the earliest arrival on that lock. So neither an unfair nor a first-come-first-served lock can be
    stuck: the deepest scope anyone waits for has no holder left.
  */
  lemma ParkedTasksAreNeverStuck(s: LockTable) returns (p: Pending)
    requires Inv(s) && s.waits != {} && AllParked(s)
    ensures p in s.waits && Grantable(s, p.want)
    ensures forall q :: q in s.waits && q.want.handle == p.want.handle ==> p.ticket <= q.ticket
  {
    var deepest := DeepestWait(s.waits);
    p := EarliestWait(s.waits, deepest.want.handle);
    assert forall h :: h in s.holds ==> h.handle != p.want.handle;
  }
}
