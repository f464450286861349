/** Cross-reference lists of a memory and their composition on update. */
module Refs {
  import opened Basics

  /** A reference names a memory and pins the commit at which the referrer saw it. */
  datatype Ref = Ref(target: Uuid, commit: string)

  function Targets(refs: seq<Ref>): set<Uuid> {
    set r | r in refs :: r.target
  }

  /** The references whose target is not in `drop`, in order. */
  function Without(refs: seq<Ref>, drop: set<Uuid>): (kept: seq<Ref>)
    ensures forall r :: r in kept <==> r in refs && r.target !in drop
  {
    if refs == [] then []
    else if refs[0].target in drop then Without(refs[1..], drop)
    else [refs[0]] + Without(refs[1..], drop)
  }

  /** Of several references to one target only the last stays, where it stands. */
  function LastPerTarget(refs: seq<Ref>): (kept: seq<Ref>)
    ensures Targets(kept) == Targets(refs)
    ensures forall r :: r in kept ==> r in refs
  {
    if refs == [] then []
    else
      assert Targets(refs) == {refs[0].target} + Targets(refs[1..]);
      if refs[0].target in Targets(refs[1..]) then LastPerTarget(refs[1..])
      else
        var rest := LastPerTarget(refs[1..]);
        assert Targets([refs[0]] + rest) == {refs[0].target} + Targets(rest);
        [refs[0]] + rest
  }

  function OrEmpty<T>(items: Option<seq<T>>): seq<T> {
    if items.Some? then items.value else []
  }

  function Elements(ids: seq<Uuid>): set<Uuid> {
    set i | i in ids
  }

  /** Current references to neither a removed nor an added target, then the last reference per added target. */
  function Compose(current: seq<Ref>, remove: Option<seq<Uuid>>, add: Option<seq<Ref>>): seq<Ref> {
    Without(current, Elements(OrEmpty(remove)) + Targets(OrEmpty(add))) + LastPerTarget(OrEmpty(add))
  }

  predicate UniqueTargets(refs: seq<Ref>) {
    forall i, j :: 0 <= i < j < |refs| ==> refs[i].target != refs[j].target
  }

  // ---- Algebra of Without ----

  lemma {:induction false} WithoutAppend(a: seq<Ref>, b: seq<Ref>, drop: set<Uuid>)
    ensures Without(a + b, drop) == Without(a, drop) + Without(b, drop)
  {
    if a == [] {
      assert a + b == b;
    } else {
      assert (a + b)[1..] == a[1..] + b;
      WithoutAppend(a[1..], b, drop);
    }
  }

  lemma {:induction false} WithoutTwice(a: seq<Ref>, first: set<Uuid>, second: set<Uuid>)
    ensures Without(Without(a, first), second) == Without(a, first + second)
  {
    if a != [] {
      WithoutTwice(a[1..], first, second);
    }
  }

  lemma {:induction false} WithoutNothing(a: seq<Ref>, drop: set<Uuid>)
    requires Targets(a) !! drop
    ensures Without(a, drop) == a
  {
    if a != [] {
      assert a[0].target in Targets(a);
      assert Targets(a[1..]) <= Targets(a);
      WithoutNothing(a[1..], drop);
    }
  }

  lemma {:induction false} WithoutAll(a: seq<Ref>, drop: set<Uuid>)
    requires Targets(a) <= drop
    ensures Without(a, drop) == []
  {
    if a != [] {
      assert a[0].target in Targets(a);
      assert Targets(a[1..]) <= Targets(a);
      WithoutAll(a[1..], drop);
    }
  }

  lemma LastPerTargetCons(r: Ref, rest: seq<Ref>)
    ensures LastPerTarget([r] + rest) ==
      if r.target in Targets(rest) then LastPerTarget(rest) else [r] + LastPerTarget(rest)
  {
    assert ([r] + rest)[1..] == rest;
  }

  lemma {:induction false} LastPerTargetSnoc(a: seq<Ref>, r: Ref)
    ensures LastPerTarget(a + [r]) == Without(LastPerTarget(a), {r.target}) + [r]
  {
    if a == [] {
      assert a + [r] == [r];
    } else {
      LastPerTargetSnoc(a[1..], r);
      assert a == [a[0]] + a[1..];
      LastPerTargetStep(a[0], a[1..], r);
    }
  }

  lemma LastPerTargetStep(x: Ref, rest: seq<Ref>, r: Ref)
    requires LastPerTarget(rest + [r]) == Without(LastPerTarget(rest), {r.target}) + [r]
    ensures LastPerTarget([x] + rest + [r]) == Without(LastPerTarget([x] + rest), {r.target}) + [r]
  {
    hide *;
    TargetsSnoc(rest, r);
    assert [x] + rest + [r] == [x] + (rest + [r]);
    LastPerTargetCons(x, rest);
    LastPerTargetCons(x, rest + [r]);
    if x.target !in Targets(rest) {
      WithoutCons(x, LastPerTarget(rest), {r.target});
      if x.target != r.target {
        assert [x] + (Without(LastPerTarget(rest), {r.target}) + [r]) ==
          [x] + Without(LastPerTarget(rest), {r.target}) + [r];
      }
    }
  }

  lemma TargetsSnoc(a: seq<Ref>, r: Ref)
    ensures Targets(a + [r]) == Targets(a) + {r.target}
  {
  }

  lemma WithoutCons(r: Ref, rest: seq<Ref>, drop: set<Uuid>)
    ensures Without([r] + rest, drop) == if r.target in drop then Without(rest, drop) else [r] + Without(rest, drop)
  {
    assert ([r] + rest)[1..] == rest;
  }

  // ---- The update itself ----

  function Partial(current: seq<Ref>, dropped: set<Uuid>, added: seq<Ref>): seq<Ref> {
    Without(current, dropped + Targets(added)) + LastPerTarget(added)
  }

  lemma AddOne(current: seq<Ref>, dropped: set<Uuid>, added: seq<Ref>, item: Ref)
    ensures Partial(current, dropped, added + [item])
         == Without(Partial(current, dropped, added), {item.target}) + [item]
  {
    var gone := dropped + Targets(added);
    WithoutAppend(Without(current, gone), LastPerTarget(added), {item.target});
    WithoutTwice(current, gone, {item.target});
    assert gone + {item.target} == dropped + Targets(added + [item]);
    LastPerTargetSnoc(added, item);
  }

  lemma PartialEnds(current: seq<Ref>, remove: Option<seq<Uuid>>, add: Option<seq<Ref>>)
    ensures Partial(current, Elements(OrEmpty(remove)), []) == Without(current, Elements(OrEmpty(remove)))
    ensures Partial(current, Elements(OrEmpty(remove)), OrEmpty(add)) == Compose(current, remove, add)
  {
    assert Elements(OrEmpty(remove)) + Targets([]) == Elements(OrEmpty(remove));
  }

  /** Removals first, then every addition replaces whatever already points at its target. */
  method ComposeRefs(current: seq<Ref>, remove: Option<seq<Uuid>>, add: Option<seq<Ref>>) returns (out: seq<Ref>)
    ensures out == Compose(current, remove, add)
  {
    hide *;
    var gone := Elements(OrEmpty(remove));
    var additions := OrEmpty(add);
    out := Without(current, gone);
    PartialEnds(current, remove, add);
    assert additions[..0] == [] && additions[..|additions|] == additions;
    for i := 0 to |additions|
      invariant out == Partial(current, gone, additions[..i])
    {
      AddOne(current, gone, additions[..i], additions[i]);
      assert additions[..i + 1] == additions[..i] + [additions[i]];
      out := Without(out, {additions[i].target});
      out := out + [additions[i]];
    }
  }

  lemma {:induction false} ComposeIsIdempotent(current: seq<Ref>, remove: Option<seq<Uuid>>, add: Option<seq<Ref>>)
    ensures var once := Compose(current, remove, add); Compose(once, remove, add) == once
  {
    var drop := Elements(OrEmpty(remove)) + Targets(OrEmpty(add));
    hide Without, LastPerTarget, Elements, Targets, OrEmpty;
    var kept := Without(current, drop);
    var added := LastPerTarget(OrEmpty(add));
    WithoutAppend(kept, added, drop);
    WithoutTwice(current, drop, drop);
    assert drop + drop == drop;
    WithoutAll(added, drop);
  }

  lemma {:induction false} WithoutKeepsUnique(a: seq<Ref>, drop: set<Uuid>)
    requires UniqueTargets(a)
    ensures UniqueTargets(Without(a, drop))
  {
    if a != [] {
      WithoutKeepsUnique(a[1..], drop);
      forall r | r in Without(a[1..], drop) ensures r.target != a[0].target {
        var j :| 0 <= j < |a[1..]| && a[1..][j] == r;
        assert a[j + 1] == r;
      }
    }
  }

  lemma {:induction false} LastPerTargetIsUnique(a: seq<Ref>)
    ensures UniqueTargets(LastPerTarget(a))
  {
    if a != [] {
      LastPerTargetIsUnique(a[1..]);
      forall r | r in LastPerTarget(a[1..]) && a[0].target !in Targets(a[1..]) ensures r.target != a[0].target {
        assert r.target in Targets(LastPerTarget(a[1..]));
      }
    }
  }

  /** One reference per target survives an update of a list that had one per target. */
  lemma ComposeKeepsUniqueTargets(current: seq<Ref>, remove: Option<seq<Uuid>>, add: Option<seq<Ref>>)
    requires UniqueTargets(current)
    ensures UniqueTargets(Compose(current, remove, add))
  {
    var kept := Without(current, Elements(OrEmpty(remove)) + Targets(OrEmpty(add)));
    var added := LastPerTarget(OrEmpty(add));
    WithoutKeepsUnique(current, Elements(OrEmpty(remove)) + Targets(OrEmpty(add)));
    LastPerTargetIsUnique(OrEmpty(add));
    forall i, j | 0 <= i < |kept| && 0 <= j < |added| ensures kept[i].target != added[j].target {
      assert kept[i] in kept && added[j] in added;
      assert added[j].target in Targets(added);
    }
  }

  /** Exactly which targets an update leaves: every added one, and every current one not removed. */
  lemma ComposeTargets(current: seq<Ref>, remove: Option<seq<Uuid>>, add: Option<seq<Ref>>)
    ensures Targets(Compose(current, remove, add))
         == (Targets(current) - Elements(OrEmpty(remove))) + Targets(OrEmpty(add))
  {
    var drop := Elements(OrEmpty(remove)) + Targets(OrEmpty(add));
    var kept := Without(current, drop);
    var added := LastPerTarget(OrEmpty(add));
    forall t
      ensures t in Targets(kept + added)
        <==> t in (Targets(current) - Elements(OrEmpty(remove))) + Targets(OrEmpty(add))
    {
      if t in Targets(current) && t !in drop {
        var r :| r in current && r.target == t;
        assert r in kept + added;
      }
      if t in Targets(added) {
        var r :| r in added && r.target == t;
        assert r in kept + added;
      }
    }
  }

  /** `r` is the last one added for its target. */
  ghost predicate LastAdded(add: seq<Ref>, r: Ref) {
    exists i :: 0 <= i < |add| && add[i] == r && forall j :: i < j < |add| ==> add[j].target != r.target
  }

  lemma {:induction false} LastPerTargetIff(add: seq<Ref>, r: Ref)
    ensures r in LastPerTarget(add) <==> LastAdded(add, r)
  {
    if add != [] {
      var rest := add[1..];
      LastPerTargetIff(rest, r);
      if LastAdded(rest, r) {
        var i :| 0 <= i < |rest| && rest[i] == r && forall j :: i < j < |rest| ==> rest[j].target != r.target;
        assert add[i + 1] == r && forall j :: i + 1 < j < |add| ==> add[j] == rest[j - 1];
      }
      if LastAdded(add, r) {
        var i :| 0 <= i < |add| && add[i] == r && forall j :: i < j < |add| ==> add[j].target != r.target;
        if i > 0 {
          assert rest[i - 1] == r && forall j :: i - 1 < j < |rest| ==> rest[j] == add[j + 1];
        } else {
          assert forall x :: x in rest ==> x.target != r.target;
        }
      }
    }
  }

  /** A reference survives an update unless its target is removed or added anew; of those added the last one stays. */
  lemma ComposeHolds(current: seq<Ref>, remove: Option<seq<Uuid>>, add: Option<seq<Ref>>, r: Ref)
    ensures r in Compose(current, remove, add) <==>
      || (r in current && (remove.Some? ==> r.target !in remove.value) &&
          (add.Some? ==> forall a :: a in add.value ==> a.target != r.target))
      || (add.Some? && LastAdded(add.value, r))
  {
    hide LastPerTarget, LastAdded;
    LastPerTargetIff(OrEmpty(add), r);
    if add.None? { NothingAdded(r); }
  }

  lemma NothingAdded(r: Ref)
    ensures !LastAdded([], r)
  {
  }
}
