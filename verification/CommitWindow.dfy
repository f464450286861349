/**
  The head update of one commit, taken apart.

  A commit reads the parent head, builds the new tree from it and later points the branch at the result.
  Two updates of different memories share the group lock, so nothing keeps a second commit from reading
  the parent before the first one lands. The combined system treats a commit as one step; this module
  says exactly when that makes no difference.
*/
module CommitWindow {
  import opened Memories
  import opened SessionCommits

  predicate Touched(edits: Edits, p: Path) {
    exists i :: 0 <= i < |edits| && edits[i].0 == p
  }

  /** A commit leaves untouched paths alone, and what it leaves at a touched one does not depend on its parent. */
  lemma {:induction false} CommitIsLocal(a: Tree, b: Tree, edits: Edits, p: Path)
    ensures At(Apply(a, edits), p) == if Touched(edits, p) then At(Apply(b, edits), p) else At(a, p)
    decreases |edits|
  {
    if edits != [] {
      CommitIsLocal(ApplyOne(a, edits[0]), ApplyOne(b, edits[0]), edits[1..], p);
      CommitIsLocal(ApplyOne(b, edits[0]), ApplyOne(a, edits[0]), edits[1..], p);
      assert forall i :: 1 <= i < |edits| ==> edits[i] == edits[1..][i - 1];
      assert forall i :: 0 <= i < |edits[1..]| ==> edits[1..][i] == edits[i + 1];
    }
  }

  /**
    Two commits built on the same parent, the second landing last: the outcome is that of one after the
    other exactly when the second rewrites every path the first one changed. So two updates of different
    memories of a group lose the first whenever it changed anything.
  */
  lemma OverlapLosesExactly(t: Tree, first: Edits, second: Edits)
    ensures Apply(t, second) == Apply(Apply(t, first), second)
       <==> forall p :: At(Apply(t, first), p) != At(t, p) ==> Touched(second, p)
  {
    var both := Apply(t, first);
    forall p
      ensures At(Apply(t, second), p) == At(Apply(both, second), p)
        <==> (At(both, p) != At(t, p) ==> Touched(second, p))
    {
      CommitIsLocal(t, both, second, p);
      CommitIsLocal(both, t, second, p);
    }
    SameTree(Apply(t, second), Apply(both, second));
  }

  lemma SameTree(a: Tree, b: Tree)
    ensures a == b <==> forall p :: At(a, p) == At(b, p)
  {
    if forall p :: At(a, p) == At(b, p) {
      assert forall p :: p in a <==> At(a, p).Some?;
      assert forall p :: p in b <==> At(b, p).Some?;
      assert forall p :: p in a && p in b ==> At(a, p) == At(b, p);
    }
  }
}
