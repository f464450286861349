/** Renaming a slug: what the planned commit does to the tree. */
module Rename {
  import opened Basics
  import opened Memories
  import opened Conventions
  import opened TrackerOps
  import opened Tickets

  function Ids(names: seq<Name>): set<Uuid>
    requires forall n :: n in names ==> IsUuidName(n)
  {
    set n | n in names :: IdOf(n)
  }

  /** `p` is the canonical file of one of `ids` under `slug`. */
  predicate FileOf(p: Path, slug: string, ids: set<Uuid>) {
    p.slug == slug && p.name.Canonical? && p.name.id in ids
  }

  /** `base` after the files of `ids`, as `t` has them under `old_`, have been moved to `new_`. */
  ghost function Moved(base: Tree, t: Tree, ids: set<Uuid>, old_: string, new_: string): (r: Tree)
    requires old_ != new_
    requires forall id :: id in ids ==> MemoryPath(old_, id) in t
  {
    map p | p in base.Keys + (set id | id in ids :: MemoryPath(new_, id)) && !FileOf(p, old_, ids)
      :: if FileOf(p, new_, ids) then t[MemoryPath(old_, p.name.id)] else base[p]
  }

  lemma PlannedFiles(t: Tree, on: Surface, names: seq<Name>, old_: string, new_: string)
    requires forall n :: n in names ==> IsUuidName(n)
    requires PlanMoves(t, on, names, old_, new_).Ok?
    ensures forall id :: id in Ids(names) ==> MemoryPath(old_, id) in t && !t[MemoryPath(old_, id)].Unreadable?
    ensures forall id ::
      id in Ids(names) ==>
        Lossy(t[MemoryPath(old_, id)]).Some? && BlockOf(on, Lossy(t[MemoryPath(old_, id)]).value).Some?
  {
    if names != [] {
      PlannedFiles(t, on, names[1..], old_, new_);
      assert forall n :: n in names ==> n == names[0] || n in names[1..];
    }
  }

  lemma {:induction false} PlanMoveByMove(base: Tree, t: Tree, on: Surface, names: seq<Name>, old_: string,
          new_: string)
    requires old_ != new_
    requires forall n :: n in names ==> IsUuidName(n)
    requires PlanMoves(t, on, names, old_, new_).Ok?
    ensures forall id :: id in Ids(names) ==> MemoryPath(old_, id) in t
    ensures Apply(base, PlanMoves(t, on, names, old_, new_).value) == Moved(base, t, Ids(names), old_, new_)
    decreases |names|
  {
    PlannedFiles(t, on, names, old_, new_);
    if names == [] {
      assert Moved(base, t, {}, old_, new_) == base;
    } else {
      var id := IdOf(names[0]);
      var moves := PlanMoves(t, on, names, old_, new_).value;
      var rest := PlanMoves(t, on, names[1..], old_, new_).value;
      var one := ApplyOne(ApplyOne(base, moves[0]), moves[1]);
      assert moves[1..][1..] == rest;
      assert Apply(base, moves) == Apply(one, rest);
      PlanMoveByMove(one, t, on, names[1..], old_, new_);
      assert Ids(names) == {id} + Ids(names[1..]);
      MovedOneMore(base, one, t, id, Ids(names[1..]), old_, new_);
    }
  }

  lemma MovedOneMore(base: Tree, one: Tree, t: Tree, id: Uuid, ids: set<Uuid>, old_: string, new_: string)
    requires old_ != new_
    requires MemoryPath(old_, id) in t && forall i :: i in ids ==> MemoryPath(old_, i) in t
    requires one == base[MemoryPath(new_, id) := t[MemoryPath(old_, id)]] - {MemoryPath(old_, id)}
    ensures Moved(one, t, ids, old_, new_) == Moved(base, t, {id} + ids, old_, new_)
  {
    var a, b := Moved(one, t, ids, old_, new_), Moved(base, t, {id} + ids, old_, new_);
    forall p ensures p in a <==> p in b {
      if p in b && p !in base { assert FileOf(p, new_, {id} + ids); }
    }
  }

  /** Each file name id occurs once in the group. */
  ghost predicate IdsUnique(t: Tree) {
    forall p, q ::
      p in t && q in t && IsUuidName(p.name) && IsUuidName(q.name) && IdOf(p.name) == IdOf(q.name) ==> p == q
  }

  ghost function AllIds(t: Tree): set<Uuid> {
    set p | p in t && IsUuidName(p.name) :: IdOf(p.name)
  }

  lemma RenamedTree(t: Tree, on: Surface, old_: string, new_: string, edits: Edits)
    requires old_ != new_ && RenameEdits(t, on, old_, new_) == Ok(edits)
    ensures var ids := Ids(Listing(UuidNames(t, old_)));
      && (forall id :: id in ids ==> MemoryPath(old_, id) in t && !t[MemoryPath(old_, id)].Unreadable?)
      && Apply(t, edits) == Moved(t, t, ids, old_, new_)
  {
    PlannedFiles(t, on, Listing(UuidNames(t, old_)), old_, new_);
    PlanMoveByMove(t, t, on, Listing(UuidNames(t, old_)), old_, new_);
  }

  /**
    With ids unique, the files moved are exactly the UUID-named ones, all canonical, none landing on an existing
    file.
  */
  lemma MovedFilesAreTheNames(t: Tree, on: Surface, old_: string, new_: string, edits: Edits)
    requires old_ != new_ && IdsUnique(t) && RenameEdits(t, on, old_, new_) == Ok(edits)
    ensures var names, ids := UuidNames(t, old_), Ids(Listing(UuidNames(t, old_)));
      && (forall n :: n in names ==> n.Canonical? && n.id in ids)
      && (forall id :: id in ids ==> Canonical(id) in names && MemoryPath(old_, id) in t && MemoryPath(new_, id) !in t)
  {
    RenamedTree(t, on, old_, new_, edits);
    var names := UuidNames(t, old_);
    var ids := Ids(Listing(names));
    forall n | n in names ensures n.Canonical? && n.id in ids {
      assert n in Listing(names);
      assert Path(old_, n) in t && MemoryPath(old_, IdOf(n)) in t;
    }
    forall id | id in ids ensures Canonical(id) in names && MemoryPath(new_, id) !in t {
      var n :| n in Listing(names) && IdOf(n) == id;
    }
  }

  /** `ids` are exactly the UUID-named files of the old slug, canonically named, and none exists under the new slug. */
  ghost predicate MovesAll(t: Tree, ids: set<Uuid>, old_: string, new_: string) {
    && old_ != new_
    && (forall n :: n in UuidNames(t, old_) ==> n.Canonical? && n.id in ids)
    && (forall id :: id in ids ==> MemoryPath(old_, id) in t && MemoryPath(new_, id) !in t)
  }

  lemma MovedLeavesNothing(t: Tree, ids: set<Uuid>, old_: string, new_: string)
    requires MovesAll(t, ids, old_, new_)
    ensures UuidNames(Moved(t, t, ids, old_, new_), old_) == {}
  {
    forall p | p in t && p.slug == old_ && IsUuidName(p.name) ensures FileOf(p, old_, ids) {
      assert p.name in UuidNames(t, old_);
    }
  }

  /**
    With ids unique in the group, a rename moves exactly the UUID-named files of the old slug, each to
    the new slug with its bytes unchanged and onto a path that held nothing; every other path is as
    before and nothing UUID-named is left under the old slug.
  */
  lemma RenameConserves(t: Tree, on: Surface, old_: string, new_: string, edits: Edits)
    requires old_ != new_ && IdsUnique(t) && RenameEdits(t, on, old_, new_) == Ok(edits)
    ensures var t' := Apply(t, edits);
      && (forall n ::
        n in UuidNames(t, old_) ==>
          Path(new_, n) !in t && Path(new_, n) in t' && t'[Path(new_, n)] == t[Path(old_, n)])
      && (forall p :: p !in t && p in t' ==> p.slug == new_ && p.name in UuidNames(t, old_))
      && (forall p :: p in t && !(p.slug == old_ && IsUuidName(p.name)) ==> p in t' && t'[p] == t[p])
      && UuidNames(t', old_) == {}
  {
    var ids := Ids(Listing(UuidNames(t, old_)));
    assert MovesAll(t, ids, old_, new_) by { MovedFilesAreTheNames(t, on, old_, new_, edits); }
    assert Apply(t, edits) == Moved(t, t, ids, old_, new_) by { RenamedTree(t, on, old_, new_, edits); }
    MovedLeavesNothing(t, ids, old_, new_);
  }

  /** Where a file of the renamed tree came from. */
  function Origin(t: Tree, p: Path, old_: string): Path {
    if p !in t && p.name.Canonical? then MemoryPath(old_, p.name.id) else p
  }

  lemma MovedKeepsIds(t: Tree, ids: set<Uuid>, old_: string, new_: string)
    requires MovesAll(t, ids, old_, new_) && IdsUnique(t)
    ensures var t' := Moved(t, t, ids, old_, new_); IdsUnique(t') && AllIds(t') == AllIds(t)
  {
    var t' := Moved(t, t, ids, old_, new_);
    forall p | p in t' && IsUuidName(p.name)
      ensures Origin(t, p, old_) in t && IdOf(Origin(t, p, old_).name) == IdOf(p.name)
    {
      if p !in t { assert FileOf(p, new_, ids); }
    }
    forall p, q | p in t' && q in t' && IsUuidName(p.name) && IsUuidName(q.name) && IdOf(p.name) == IdOf(q.name)
      ensures p == q
    {
      assert Origin(t, p, old_) == Origin(t, q, old_);
    }
    forall id | id in AllIds(t) ensures id in AllIds(t') {
      var p :| p in t && IsUuidName(p.name) && IdOf(p.name) == id;
      if p !in t' { assert MemoryPath(new_, id) in t'; }
    }
    forall id | id in AllIds(t') ensures id in AllIds(t) {
      var p :| p in t' && IsUuidName(p.name) && IdOf(p.name) == id;
      assert Origin(t, p, old_) in t;
    }
  }

  /** Every id of the group still names exactly one file after the rename, and no id appears or disappears. */
  lemma RenameKeepsIds(t: Tree, on: Surface, old_: string, new_: string, edits: Edits)
    requires old_ != new_ && IdsUnique(t) && RenameEdits(t, on, old_, new_) == Ok(edits)
    ensures IdsUnique(Apply(t, edits)) && AllIds(Apply(t, edits)) == AllIds(t)
  {
    var ids := Ids(Listing(UuidNames(t, old_)));
    assert MovesAll(t, ids, old_, new_) by { MovedFilesAreTheNames(t, on, old_, new_, edits); }
    assert Apply(t, edits) == Moved(t, t, ids, old_, new_) by { RenamedTree(t, on, old_, new_, edits); }
    MovedKeepsIds(t, ids, old_, new_);
  }

  lemma {:induction false} PlannedPaths(t: Tree, on: Surface, names: seq<Name>, old_: string, new_: string, i: nat)
    requires forall n :: n in names ==> IsUuidName(n)
    requires PlanMoves(t, on, names, old_, new_).Ok? && i < |PlanMoves(t, on, names, old_, new_).value|
    ensures var e := PlanMoves(t, on, names, old_, new_).value[i];
      if e.1.Some? then e.0.slug == new_ else e.0.slug == old_
  {
    if i >= 2 { PlannedPaths(t, on, names[1..], old_, new_, i - 2); }
  }

  /** No path of the planned commit is both written and deleted, so the order of its edits is immaterial. */
  lemma RenameWritesAndDeletesApart(t: Tree, on: Surface, old_: string, new_: string, edits: Edits, i: nat, j: nat)
    requires old_ != new_ && RenameEdits(t, on, old_, new_) == Ok(edits)
    requires i < |edits| && j < |edits| && edits[i].1.Some? && edits[j].1.None?
    ensures edits[i].0 != edits[j].0
  {
    PlannedPaths(t, on, Listing(UuidNames(t, old_)), old_, new_, i);
    PlannedPaths(t, on, Listing(UuidNames(t, old_)), old_, new_, j);
  }

  lemma RenameSlugs(t: Tree, on: Surface, old_: string, new_: string, edits: Edits)
    requires RenameEdits(t, on, old_, new_) == Ok(edits)
    ensures old_ != "" && new_ != ""
  {
  }

  lemma RenameKeepsTickets(t: Tree, on: Surface, old_: string, new_: string, edits: Edits)
    requires TicketsDistinct(t) && RenameEdits(t, on, old_, new_) == Ok(edits)
    ensures TicketsDistinct(Apply(t, edits))
  {
    if old_ != new_ {
      hide RenameEdits, Apply, Listing, TicketsDistinct, UuidNames, Ids, Moved;
      RenamedTree(t, on, old_, new_, edits);
      RenameSlugs(t, on, old_, new_, edits);
      MovedKeepsTickets(t, Ids(Listing(UuidNames(t, old_))), old_, new_);
    }
  }

  lemma MovedKeepsTickets(t: Tree, ids: set<Uuid>, old_: string, new_: string)
    requires TicketsDistinct(t) && old_ != new_ && old_ != "" && forall id :: id in ids ==> MemoryPath(old_, id) in t
    ensures TicketsDistinct(Moved(t, t, ids, old_, new_))
  {
    hide TicketsDistinct, Numbers;
    var t' := Moved(t, t, ids, old_, new_);
    ImageKeepsTickets(t, t', map p | p in t' :: if FileOf(p, new_, ids) then MemoryPath(old_, p.name.id) else p);
  }

  /** A file the surface does not own, or one that cannot be read or parsed, rejects the whole rename. */
  lemma {:induction false} ForeignFileRejectsPlan(t: Tree, on: Surface, names: seq<Name>, old_: string, new_: string,
          n: Name)
    requires forall m :: m in names ==> IsUuidName(m)
    requires n in names
    requires DecodeRecord(on, t, MemoryPath(old_, IdOf(n))).Err?
    ensures PlanMoves(t, on, names, old_, new_).Err?
  {
    if n in names[1..] { ForeignFileRejectsPlan(t, on, names[1..], old_, new_, n); }
  }

  /**
    The planner: walk the directory listing, skip what is not UUID-named, read and check each file, stage a move.
  */
  method PlanSlugRename(t: Tree, on: Surface, entries: seq<Name>, old_: string, new_: string)
    returns (plan: Result<Edits, TrackerError>)
    ensures plan == PlanOf(t, on, entries, old_, new_)
  {
    if entries == [] {
      return Err(NotFound);
    }
    hide UuidOnly, PlanMoves, Prepend;
    ghost var whole := PlanMoves(t, on, UuidOnly(entries), old_, new_);
    var moves: Edits := [];
    var moved := 0;
    var i := 0;
    PlanStarts(t, on, entries, old_, new_);
    while i < |entries|
      invariant 0 <= i <= |entries|
      invariant moved == 0 <==> UuidOnly(entries[..i]) == []
      invariant Prepend(moves, PlanMoves(t, on, UuidOnly(entries[i..]), old_, new_)) == whole
    {
      var name := entries[i];
      NextEntry(entries, i);
      ghost var rest := UuidOnly(entries[i + 1..]);
      i := i + 1;
      if IsUuidName(name) {
        var id := IdOf(name);
        var read := ReadFile(t, MemoryPath(old_, id));
        if read.Err? {
          RejectedMove(t, on, name, rest, old_, new_);
          return Err(GitFailure);
        }
        var file := Lossy(read.value);
        if file.None? {
          RejectedMove(t, on, name, rest, old_, new_);
          return Err(ParseFailure);
        }
        if BlockOf(on, file.value).None? {
          RejectedMove(t, on, name, rest, old_, new_);
          return Err(NotOnSurface);
        }
        NextMove(t, on, moves, name, rest, old_, new_);
        moves := moves + [(MemoryPath(new_, id), Some(read.value)), (MemoryPath(old_, id), None)];
        moved := moved + 1;
      }
    }
    PlanEnds(t, on, entries, moves, old_, new_);
    if moved == 0 {
      return Err(NotFound);
    }
    return Ok(moves);
  }

  lemma PlanStarts(t: Tree, on: Surface, entries: seq<Name>, old_: string, new_: string)
    ensures UuidOnly(entries[..0]) == [] && UuidOnly(entries[0..]) == UuidOnly(entries)
    ensures Prepend([], PlanMoves(t, on, UuidOnly(entries), old_, new_)) ==
      PlanMoves(t, on, UuidOnly(entries), old_, new_)
  {
    assert entries[0..] == entries;
    PrependNothing(PlanMoves(t, on, UuidOnly(entries), old_, new_));
  }

  lemma PlanEnds(t: Tree, on: Surface, entries: seq<Name>, moves: Edits, old_: string, new_: string)
    ensures UuidOnly(entries[..|entries|]) == UuidOnly(entries)
    ensures Prepend(moves, PlanMoves(t, on, UuidOnly(entries[|entries|..]), old_, new_)) == Ok(moves)
  {
    assert entries[..|entries|] == entries && entries[|entries|..] == [] && moves + [] == moves;
  }

  /** How the planner answers the first bad file. */
  lemma RejectedMove(t: Tree, on: Surface, n: Name, rest: seq<Name>, old_: string, new_: string)
    requires IsUuidName(n) && (forall m :: m in rest ==> IsUuidName(m))
    requires DecodeRecord(on, t, MemoryPath(old_, IdOf(n))).Err?
    ensures PlanMoves(t, on, [n] + rest, old_, new_)
         == Err(if ReadFile(t, MemoryPath(old_, IdOf(n))).Err? then GitFailure
                else DecodeRecord(on, t, MemoryPath(old_, IdOf(n))).error)
  {
  }

  function UuidOnly(names: seq<Name>): (r: seq<Name>)
    ensures forall n :: n in r <==> n in names && IsUuidName(n)
  {
    if names == [] then [] else (if IsUuidName(names[0]) then [names[0]] else []) + UuidOnly(names[1..])
  }

  lemma {:induction false} UuidOnlySnoc(names: seq<Name>, n: Name)
    ensures UuidOnly(names + [n]) == UuidOnly(names) + (if IsUuidName(n) then [n] else [])
  {
    if names == [] {
      assert names + [n] == [n];
    } else {
      assert (names + [n])[1..] == names[1..] + [n];
      UuidOnlySnoc(names[1..], n);
    }
  }

  lemma NextEntry(names: seq<Name>, i: nat)
    requires i < |names|
    ensures UuidOnly(names[..i + 1]) == [] <==> UuidOnly(names[..i]) == [] && !IsUuidName(names[i])
    ensures IsUuidName(names[i]) ==> UuidOnly(names[i..]) == [names[i]] + UuidOnly(names[i + 1..])
    ensures !IsUuidName(names[i]) ==> UuidOnly(names[i..]) == UuidOnly(names[i + 1..])
  {
    assert names[..i + 1] == names[..i] + [names[i]];
    UuidOnlySnoc(names[..i], names[i]);
    assert names[i..][1..] == names[i + 1..];
  }

  function Prepend(moves: Edits, rest: Result<Edits, TrackerError>): Result<Edits, TrackerError> {
    match rest
    case Err(e) => Err(e)
    case Ok(more) => Ok(moves + more)
  }

  lemma PrependNothing(rest: Result<Edits, TrackerError>)
    ensures Prepend([], rest) == rest
  {
    if rest.Ok? { assert [] + rest.value == rest.value; }
  }

  lemma NextMove(t: Tree, on: Surface, moves: Edits, n: Name, rest: seq<Name>, old_: string, new_: string)
    requires IsUuidName(n) && (forall m :: m in rest ==> IsUuidName(m))
    requires DecodeRecord(on, t, MemoryPath(old_, IdOf(n))).Ok?
    ensures var two := [(MemoryPath(new_, IdOf(n)), Some(t[MemoryPath(old_, IdOf(n))])),
      (MemoryPath(old_, IdOf(n)), None)];
      Prepend(moves, PlanMoves(t, on, [n] + rest, old_, new_)) ==
        Prepend(moves + two, PlanMoves(t, on, rest, old_, new_))
  {
    assert ([n] + rest)[1..] == rest;
    var more := PlanMoves(t, on, rest, old_, new_);
    if more.Ok? {
      var two: Edits := [(MemoryPath(new_, IdOf(n)), Some(t[MemoryPath(old_, IdOf(n))])),
        (MemoryPath(old_, IdOf(n)), None)];
      assert moves + (two + more.value) == moves + two + more.value;
    }
  }

  function PlanOf(t: Tree, on: Surface, entries: seq<Name>, old_: string, new_: string): Result<Edits, TrackerError> {
    if UuidOnly(entries) == [] then Err(NotFound) else PlanMoves(t, on, UuidOnly(entries), old_, new_)
  }

  // ---- The planner on a real listing ----

  /** A plan exists exactly when every listed file decodes for the surface. */
  lemma {:induction false} PlannedIff(t: Tree, on: Surface, names: seq<Name>, old_: string, new_: string)
    requires forall n :: n in names ==> IsUuidName(n)
    ensures PlanMoves(t, on, names, old_, new_).Ok?
      <==> forall n :: n in names ==> DecodeRecord(on, t, MemoryPath(old_, IdOf(n))).Ok?
  {
    hide MemoryPath;
    if names != [] {
      PlannedIff(t, on, names[1..], old_, new_);
      assert forall n :: n in names <==> n == names[0] || n in names[1..];
    }
  }

  /**
    The order of the directory listing does not matter: on any listing of the old slug's files the planner
    succeeds exactly when the rename does, and its commit leaves the same tree.
  */
  lemma ListingOrderIsImmaterial(t: Tree, on: Surface, entries: seq<Name>, old_: string, new_: string)
    requires ValidMemorySlug(old_) && ValidMemorySlug(new_) && old_ != new_
    requires forall n :: IsUuidName(n) ==> (n in entries <==> n in UuidNames(t, old_))
    ensures PlanOf(t, on, entries, old_, new_).Ok? <==> RenameEdits(t, on, old_, new_).Ok?
    ensures RenameEdits(t, on, old_, new_).Ok? ==>
      Apply(t, PlanOf(t, on, entries, old_, new_).value) == Apply(t, RenameEdits(t, on, old_, new_).value)
  {
    hide PlanMoves, UuidOnly, Apply, Moved, DecodeRecord, ValidMemorySlug;
    var names, order := UuidOnly(entries), Listing(UuidNames(t, old_));
    assert forall n :: n in names <==> n in order;
    PlannedIff(t, on, names, old_, new_);
    PlannedIff(t, on, order, old_, new_);
    assert names == [] <==> UuidNames(t, old_) == {} by { SameEmptiness(names, UuidNames(t, old_)); }
    if RenameEdits(t, on, old_, new_).Ok? {
      assert Ids(names) == Ids(order);
      PlanMoveByMove(t, t, on, names, old_, new_);
      PlanMoveByMove(t, t, on, order, old_, new_);
    }
  }

  lemma SameEmptiness(names: seq<Name>, all: set<Name>)
    requires forall n :: n in names <==> n in all
    ensures names == [] <==> all == {}
  {
    if names != [] { assert names[0] in all; }
  }
}
