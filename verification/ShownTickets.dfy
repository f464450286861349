/**
  Ticket numbers as readers see them.

  The counter parses valid UTF-8 only. Listings and record reads replace invalid sequences first, so they
  can show a number the counter never looked at.
*/
module ShownTickets {
  import opened Basics
  import opened Memories
  import opened TrackerOps
  import opened Tickets
  import opened Rename

  /** The numbers a record read shows for a file. */
  function Shown(b: Blob): set<nat> {
    match Lossy(b)
    case None => {}
    case Some(m) => NumberOf(m.feature) + NumberOf(m.issue)
  }

  /** Content that is not valid UTF-8. */
  predicate Garbled(b: Blob) {
    b.Stored? && !b.utf8
  }

  lemma ShownIs(b: Blob)
    ensures Numbers(b) == if Garbled(b) then {} else Shown(b)
  {
  }

  ghost predicate ShownInUse(t: Tree, n: nat) {
    exists p :: p in t && Live(p) && n in Shown(t[p])
  }

  /** A file that is not valid UTF-8 shows the number. */
  ghost predicate GarbledShows(t: Tree, n: nat) {
    exists p :: p in t && Live(p) && Garbled(t[p]) && n in Shown(t[p])
  }

  ghost predicate ShownDistinct(t: Tree) {
    forall p, q :: p in t && q in t && p != q && Live(p) && Live(q) ==> Shown(t[p]) !! Shown(t[q])
  }

  /**
    A minted number is new to every reader, and larger than all numbers shown, exactly when no file that
    is not valid UTF-8 shows it, or shows one that large.
  */
  lemma MintedIsNewToReadersIff(t: Tree, n: U32)
    requires NextTicket(t, t) == Ok(n)
    ensures ShownInUse(t, n) <==> GarbledShows(t, n)
    ensures (forall p, m :: p in t && Live(p) && m in Shown(t[p]) ==> m < n)
       <==> (forall p, m :: p in t && Live(p) && Garbled(t[p]) && m in Shown(t[p]) ==> m < n)
  {
    hide NextTicket, Live;
    MintedNumberIsNew(t, n);
    forall p | p in t ensures Numbers(t[p]) == if Garbled(t[p]) then {} else Shown(t[p]) { ShownIs(t[p]); }
  }

  /** A feature in a file that is not valid UTF-8 is read and shown with its number 1, and 1 is minted again. */
  lemma CounterMissesGarbled(p: Path, raw: nat, m: Memory, t: Tree)
    requires m.feature.Some? && m.feature.value.number == Some(1) && m.issue.None? && Live(p)
    requires t == map[p := Stored(raw, false, Some(m))]
    ensures DecodeRecord(Features, t, p) == Ok(m) && 1 in Shown(t[p]) && NextTicket(t, t) == Ok(1)
  {
    assert CountedNumbers(t, t) == {};
  }

  /** If every memory of `t'` shows what a memory of `t` of its own showed, distinctness carries over. */
  lemma ImageKeepsShown(t: Tree, t': Tree, from: map<Path, Path>)
    requires ShownDistinct(t)
    requires forall p ::
      p in t' && Live(p) ==> p in from && from[p] in t && Live(from[p]) && Shown(t'[p]) <= Shown(t[from[p]])
    requires forall p, q :: p in t' && q in t' && Live(p) && Live(q) && p != q ==> from[p] != from[q]
    ensures ShownDistinct(t')
  {
    forall p, q | p in t' && q in t' && p != q && Live(p) && Live(q) ensures Shown(t'[p]) !! Shown(t'[q]) {
      assert Shown(t[from[p]]) !! Shown(t[from[q]]);
    }
  }

  /**
    The number of a create is nobody's: a pinned one is not shown, a minted one is not shown by a file the
    counter skips.
  */
  ghost predicate BirthIsFree(t: Tree, spec: AddSpec) {
    if spec.number.Some? then !ShownInUse(t, spec.number.value)
    else NextTicket(t, t).Ok? ==> !GarbledShows(t, NextTicket(t, t).value)
  }

  lemma AddKeepsShownIff(t: Tree, on: Surface, spec: AddSpec, id: Uuid, edits: Edits)
    requires ShownDistinct(t) && AddEdits(t, on, spec, id) == Ok(edits)
    ensures ShownDistinct(Apply(t, edits)) <==> BirthIsFree(t, spec)
  {
    hide AddEdits, NextTicket, NewMemory, Apply, Live;
    var n, over := AddedMemory(t, on, spec, id, edits);
    var path, added := MemoryPath(SlugOf(spec), id), Rendered(NewMemory(on, spec, id, n, over));
    if spec.number.None? { MintedIsNewToReadersIff(t, n); }
    ShownIs(added);
  }

  lemma UpdateKeepsShown(t: Tree, on: Surface, slug: string, spec: UpdateSpec, edits: Edits)
    requires ShownDistinct(t) && UpdateEdits(t, on, slug, spec) == Ok(edits)
    ensures ShownDistinct(Apply(t, edits))
  {
    hide UpdateEdits, Apply, Rebuild, Live;
    var id, m := UpdatedMemory(t, on, slug, spec, edits);
    ShownIs(Rendered(m));
    ShownIs(t[MemoryPath(slug, id)]);
    hide Shown, Numbers;
    ImageKeepsShown(t, Apply(t, edits), map p | p in t :: p);
  }

  lemma DeleteKeepsShown(t: Tree, on: Surface, slug: string, edits: Edits)
    requires ShownDistinct(t) && DeleteEdits(t, on, slug) == Ok(edits)
    ensures ShownDistinct(Apply(t, edits))
  {
    hide DeleteEdits, Apply, Shown, Live;
    var id := DeletedMemory(t, on, slug, edits);
    ImageKeepsShown(t, Apply(t, edits), map p | p in t :: p);
  }

  lemma RenameKeepsShown(t: Tree, on: Surface, old_: string, new_: string, edits: Edits)
    requires ShownDistinct(t) && RenameEdits(t, on, old_, new_) == Ok(edits)
    ensures ShownDistinct(Apply(t, edits))
  {
    if old_ != new_ {
      hide RenameEdits, Apply, Listing, ShownDistinct, UuidNames, Ids, Moved;
      RenamedTree(t, on, old_, new_, edits);
      RenameSlugs(t, on, old_, new_, edits);
      MovedKeepsShown(t, Ids(Listing(UuidNames(t, old_))), old_, new_);
    }
  }

  lemma MovedKeepsShown(t: Tree, ids: set<Uuid>, old_: string, new_: string)
    requires ShownDistinct(t) && old_ != new_ && old_ != "" && forall id :: id in ids ==> MemoryPath(old_, id) in t
    ensures ShownDistinct(Moved(t, t, ids, old_, new_))
  {
    hide ShownDistinct, Shown;
    var t' := Moved(t, t, ids, old_, new_);
    ImageKeepsShown(t, t', map p | p in t' :: if FileOf(p, new_, ids) then MemoryPath(old_, p.name.id) else p);
  }

  // ---- Groups in which the counter skips nothing ----

  /** No file that is not valid UTF-8 shows a number. */
  ghost predicate GarbledFree(t: Tree) {
    forall p :: p in t && Live(p) && Garbled(t[p]) ==> Shown(t[p]) == {}
  }

  /** There both readings agree. */
  lemma GarbledFreeReads(t: Tree)
    requires GarbledFree(t)
    ensures ShownDistinct(t) <==> TicketsDistinct(t)
    ensures forall n :: (ShownInUse(t, n) <==> NumberInUse(t, n)) && !GarbledShows(t, n)
  {
    hide Live;
    forall p | p in t && Live(p) ensures Shown(t[p]) == Numbers(t[p]) { ShownIs(t[p]); }
    hide Shown, Numbers;
  }

  /** Every file of `t'` was a file of `t` or is rendered. */
  lemma CopiesKeepGarbledFree(t: Tree, t': Tree, from: map<Path, Path>)
    requires GarbledFree(t)
    requires forall p ::
      p in t' && Live(p) && !t'[p].Rendered? ==> p in from && from[p] in t && Live(from[p]) && t'[p] == t[from[p]]
    ensures GarbledFree(t')
  {
    hide Shown;
  }

  lemma AddKeepsGarbledFree(t: Tree, on: Surface, spec: AddSpec, id: Uuid, edits: Edits)
    requires GarbledFree(t) && AddEdits(t, on, spec, id) == Ok(edits)
    ensures GarbledFree(Apply(t, edits))
  {
    hide AddEdits, Apply, NextTicket, NewMemory, Numbers;
    var n, over := AddedMemory(t, on, spec, id, edits);
    CopiesKeepGarbledFree(t, Apply(t, edits), map p | p in t :: p);
  }

  lemma UpdateKeepsGarbledFree(t: Tree, on: Surface, slug: string, spec: UpdateSpec, edits: Edits)
    requires GarbledFree(t) && UpdateEdits(t, on, slug, spec) == Ok(edits)
    ensures GarbledFree(Apply(t, edits))
  {
    hide UpdateEdits, Apply, Rebuild, Numbers;
    var id, m := UpdatedMemory(t, on, slug, spec, edits);
    CopiesKeepGarbledFree(t, Apply(t, edits), map p | p in t :: p);
  }

  lemma DeleteKeepsGarbledFree(t: Tree, on: Surface, slug: string, edits: Edits)
    requires GarbledFree(t) && DeleteEdits(t, on, slug) == Ok(edits)
    ensures GarbledFree(Apply(t, edits))
  {
    hide DeleteEdits, Apply;
    var id := DeletedMemory(t, on, slug, edits);
    CopiesKeepGarbledFree(t, Apply(t, edits), map p | p in t :: p);
  }

  lemma RenameKeepsGarbledFree(t: Tree, on: Surface, old_: string, new_: string, edits: Edits)
    requires GarbledFree(t) && RenameEdits(t, on, old_, new_) == Ok(edits)
    ensures GarbledFree(Apply(t, edits))
  {
    if old_ != new_ {
      hide RenameEdits, Apply, Listing, GarbledFree, UuidNames, Ids, Moved;
      RenamedTree(t, on, old_, new_, edits);
      RenameSlugs(t, on, old_, new_, edits);
    }
  }
}
