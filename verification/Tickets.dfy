/** Ticket numbers and renames: what one operation keeps of a group's tree. */
module Tickets {
  import opened Basics
  import opened Memories
  import opened Conventions
  import opened TrackerOps

  /** A memory file of the group: a `.md` blob in some directory below `memories/`. */
  predicate Live(p: Path) {
    p.slug != "" && IsMarkdown(p.name)
  }

  /** No two memories carry the same ticket number, on either surface. */
  ghost predicate TicketsDistinct(t: Tree) {
    forall p, q :: p in t && q in t && p != q && Live(p) && Live(q) ==> Numbers(t[p]) !! Numbers(t[q])
  }

  ghost predicate NumberInUse(t: Tree, n: nat) {
    exists p :: p in t && Live(p) && n in Numbers(t[p])
  }

  /** A minted number is larger than every number of every memory, so it is nobody's. */
  lemma MintedNumberIsNew(t: Tree, n: U32)
    requires NextTicket(t, t) == Ok(n)
    ensures forall p, m :: p in t && Live(p) && m in Numbers(t[p]) ==> m < n
  {
    forall p, m | p in t && Live(p) && m in Numbers(t[p]) ensures m < n {
      assert Counted(t, p);
      assert m in CountedNumbers(t, t);
    }
  }

  /** At the 32-bit ceiling the counter reports exhaustion; it never wraps. */
  lemma CounterStopsAtTheCeiling(t: Tree, p: Path)
    requires p in t && Live(p) && U32_LIMIT - 1 in Numbers(t[p])
    ensures NextTicket(t, t) == Err(CounterOverflow)
  {
    assert Counted(t, p);
    assert U32_LIMIT - 1 in CountedNumbers(t, t);
  }

  /** If every memory of `t'` has its numbers from a memory of `t` of its own, distinctness carries over. */
  lemma ImageKeepsTickets(t: Tree, t': Tree, from: map<Path, Path>)
    requires TicketsDistinct(t)
    requires forall p ::
      p in t' && Live(p) ==> p in from && from[p] in t && Live(from[p]) && Numbers(t'[p]) <= Numbers(t[from[p]])
    requires forall p, q :: p in t' && q in t' && Live(p) && Live(q) && p != q ==> from[p] != from[q]
    ensures TicketsDistinct(t')
  {
    forall p, q | p in t' && q in t' && p != q && Live(p) && Live(q) ensures Numbers(t'[p]) !! Numbers(t'[q]) {
      assert Numbers(t[from[p]]) !! Numbers(t[from[q]]);
    }
  }

  /** The blob a create writes carries exactly one number. */
  lemma AddedMemory(t: Tree, on: Surface, spec: AddSpec, id: Uuid, edits: Edits) returns (n: U32, over: Option<Uuid>)
    requires AddEdits(t, on, spec, id) == Ok(edits)
    ensures var path := MemoryPath(SlugOf(spec), id);
      && path !in t && Live(path)
      && edits == [(path, Some(Rendered(NewMemory(on, spec, id, n, over))))]
      && Apply(t, edits) == t[path := Rendered(NewMemory(on, spec, id, n, over))]
      && Numbers(Rendered(NewMemory(on, spec, id, n, over))) == {n}
    ensures if spec.number.Some? then n == spec.number.value else NextTicket(t, t) == Ok(n)
    ensures if spec.supersedes.None? then over == None
            else SupersedeTarget(t, on, spec.supersedes.value).Ok? &&
                 over == Some(SupersedeTarget(t, on, spec.supersedes.value).value)
  {
    n := if spec.number.Some? then spec.number.value else NextTicket(t, t).value;
    over := if spec.supersedes.None? then None else Some(SupersedeTarget(t, on, spec.supersedes.value).value);
    assert Apply(t, edits) == Apply(ApplyOne(t, edits[0]), []);
  }

  /** A create keeps numbers distinct exactly when its number is in nobody's use; a minted number never is. */
  lemma AddKeepsTicketsIff(t: Tree, on: Surface, spec: AddSpec, id: Uuid, edits: Edits)
    requires TicketsDistinct(t) && AddEdits(t, on, spec, id) == Ok(edits)
    ensures TicketsDistinct(Apply(t, edits)) <==> (spec.number.Some? ==> !NumberInUse(t, spec.number.value))
  {
    var n, over := AddedMemory(t, on, spec, id, edits);
    var path := MemoryPath(SlugOf(spec), id);
    var t' := Apply(t, edits);
    if spec.number.None? { MintedNumberIsNew(t, n); }
    if NumberInUse(t, n) {
      var p :| p in t && Live(p) && n in Numbers(t[p]);
      assert p != path && n in Numbers(t'[p]) && n in Numbers(t'[path]);
    }
  }

  /** An update rewrites one existing file and never gives it a number it did not have. */
  lemma UpdatedMemory(t: Tree, on: Surface, slug: string, spec: UpdateSpec, edits: Edits) returns (id: Uuid, m: Memory)
    requires UpdateEdits(t, on, slug, spec) == Ok(edits)
    ensures Resolve(t, slug) == Ok(id) && ValidMemorySlug(slug)
    ensures var path := MemoryPath(slug, id);
      && path in t && Strict(t[path]).Some? && BlockOf(on, Strict(t[path]).value).Some?
      && Rebuild(on, id, Strict(t[path]).value, Strict(t[path]).value.refs, spec) == Ok(m)
      && edits == [(path, Some(Rendered(m)))]
      && Apply(t, edits) == t[path := Rendered(m)]
      && Numbers(Rendered(m)) <= Numbers(t[path])
  {
    id := Resolve(t, slug).value;
    var path := MemoryPath(slug, id);
    var current := DecodeRecord(on, t, path).value;
    m := Rebuild(on, id, current, ReadRefs(t, path).value, spec).value;
    assert Apply(t, edits) == Apply(ApplyOne(t, edits[0]), []);
  }

  lemma UpdateKeepsTickets(t: Tree, on: Surface, slug: string, spec: UpdateSpec, edits: Edits)
    requires TicketsDistinct(t) && UpdateEdits(t, on, slug, spec) == Ok(edits)
    ensures TicketsDistinct(Apply(t, edits))
  {
    var id, m := UpdatedMemory(t, on, slug, spec, edits);
    ImageKeepsTickets(t, Apply(t, edits), map p | p in t :: p);
  }

  lemma DeletedMemory(t: Tree, on: Surface, slug: string, edits: Edits) returns (id: Uuid)
    requires DeleteEdits(t, on, slug) == Ok(edits)
    ensures Resolve(t, slug) == Ok(id) && ValidMemorySlug(slug)
    ensures MemoryPath(slug, id) in t && edits == [(MemoryPath(slug, id), None)]
    ensures Apply(t, edits) == t - {MemoryPath(slug, id)}
  {
    id := Resolve(t, slug).value;
    assert Apply(t, edits) == Apply(ApplyOne(t, edits[0]), []);
  }

  lemma DeleteKeepsTickets(t: Tree, on: Surface, slug: string, edits: Edits)
    requires TicketsDistinct(t) && DeleteEdits(t, on, slug) == Ok(edits)
    ensures TicketsDistinct(Apply(t, edits))
  {
    var id := DeletedMemory(t, on, slug, edits);
    ImageKeepsTickets(t, Apply(t, edits), map p | p in t :: p);
  }
}
