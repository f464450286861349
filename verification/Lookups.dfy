/** Listings and trees agree on slugs; the id resolver takes the first file listed among equals. */
module Lookups {
  import opened Basics
  import opened Memories
  import opened Addressing
  import TrackerOps
  import Records

  /** The listing holds every file of the tree's directory once. */
  ghost predicate Enumerates(t: Tree, dir: SlugDir) {
    && (forall i, j :: 0 <= i < j < |dir.names| ==> dir.names[i] != dir.names[j])
    && (forall n :: n in dir.names <==> Path(dir.slug, n) in t)
  }

  /** A slug resolves on a listing of a tree's directory as it does on the tree. */
  lemma ListingAgrees(t: Tree, dir: SlugDir)
    requires Enumerates(t, dir)
    ensures forall id: Uuid :: TrackerOps.Resolve(t, dir.slug) == Ok(id) <==> ResolveBySlug(dir) == Ok(id)
    ensures TrackerOps.Resolve(t, dir.slug) == Err(TrackerOps.NotFound) <==>
      ResolveBySlug(dir) == Err(MemoryNotFound(Some(dir.slug), None))
    ensures TrackerOps.Resolve(t, dir.slug) == Err(TrackerOps.Ambiguous) <==>
      exists ids :: ResolveBySlug(dir) == Err(MemoryAmbiguous(dir.slug, ids))
  {
    hide *;
    var at := SlugResolution(dir);
    UuidAtEach(dir.names, at);
    forall id: Uuid
      ensures TrackerOps.Resolve(t, dir.slug) == Ok(id) <==> ResolveBySlug(dir) == Ok(id)
    {
      Records.ResolveIff(t, dir.slug, id);
      NamesAtOne(t, dir, at, id);
      SoleIff(dir.names, at, id);
    }
    Records.ResolveIff(t, dir.slug, 0);
    NoneOrMore(t, dir, at);
  }

  lemma NamesAtOne(t: Tree, dir: SlugDir, at: seq<nat>, id: Uuid)
    requires Enumerates(t, dir) && UuidPositions(dir.names, at)
    ensures forall i :: 0 <= i < |at| ==> at[i] < |dir.names| && IsUuidName(dir.names[at[i]])
    ensures Records.Names(t, dir.slug, id) <==> |at| == 1 && IdOf(dir.names[at[0]]) == id
  {
    hide IdOf, UuidPositions, IsUuidName;
    UuidAtEach(dir.names, at);
    NamesListed(t, dir, at);
    var names := UuidNames(t, dir.slug);
    hide Enumerates, UuidNames;
    if |at| == 1 {
      assert names == {dir.names[at[0]]};
    }
    assert |at| >= 2 ==> dir.names[at[0]] != dir.names[at[1]];
    if n :| names == {n} && IsUuidName(n) && IdOf(n) == id {
      assert n in names;
      var i :| 0 <= i < |at| && dir.names[at[i]] == n;
      assert forall j :: 0 <= j < |at| ==> dir.names[at[j]] in names;
    }
  }

  /** The UUID-named files of the tree are those at the positions. */
  lemma NamesListed(t: Tree, dir: SlugDir, at: seq<nat>)
    requires Enumerates(t, dir) && UuidPositions(dir.names, at)
    ensures forall i :: 0 <= i < |at| ==> at[i] < |dir.names|
    ensures forall n :: n in UuidNames(t, dir.slug) <==> exists i :: 0 <= i < |at| && dir.names[at[i]] == n
    ensures forall i, j :: 0 <= i < j < |at| ==> dir.names[at[i]] != dir.names[at[j]]
  {
    UuidAtEach(dir.names, at);
    forall n
      ensures n in UuidNames(t, dir.slug) <==> exists i :: 0 <= i < |at| && dir.names[at[i]] == n
    {
      if n in UuidNames(t, dir.slug) {
        assert n in dir.names;
        var k :| 0 <= k < |dir.names| && dir.names[k] == n;
        assert k in at;
        var i :| 0 <= i < |at| && at[i] == k;
        assert dir.names[at[i]] == n;
      }
      if i :| 0 <= i < |at| && dir.names[at[i]] == n {
        assert Path(dir.slug, n) in t && Path(dir.slug, n).name in UuidNames(t, dir.slug);
      }
    }
  }

  lemma NoneOrMore(t: Tree, dir: SlugDir, at: seq<nat>)
    requires Enumerates(t, dir) && UuidPositions(dir.names, at)
    ensures at == [] <==> forall n :: IsUuidName(n) ==> Path(dir.slug, n) !in t
    ensures |at| >= 2 <==>
      exists m, n :: m != n && IsUuidName(m) && IsUuidName(n) && Path(dir.slug, m) in t && Path(dir.slug, n) in t
  {
    UuidAtEach(dir.names, at);
    NamesListed(t, dir, at);
    forall n | IsUuidName(n) ensures Path(dir.slug, n) in t <==> n in UuidNames(t, dir.slug) {
      if Path(dir.slug, n) in t { assert Path(dir.slug, n).name in UuidNames(t, dir.slug); }
    }
    if |at| >= 2 {
      var m, n := dir.names[at[0]], dir.names[at[1]];
      assert m in UuidNames(t, dir.slug) && n in UuidNames(t, dir.slug) && m != n;
    }
    if at != [] { assert dir.names[at[0]] in UuidNames(t, dir.slug); }
    if m, n :| m != n && IsUuidName(m) && IsUuidName(n) && Path(dir.slug, m) in t && Path(dir.slug, n) in t {
      assert m in UuidNames(t, dir.slug) && n in UuidNames(t, dir.slug);
    }
  }

  // ---- The first listed file wins ----

  /** The file at this position of the listing carries the id and belongs to the bucket. */
  ghost predicate Carries(store: Store, dirs: seq<SlugDir>, d: nat, k: nat, bucket: Bucket, id: Uuid) {
    && d < |dirs| && k < |dirs[d].names| && BucketOf(dirs[d].names[k], id) == Some(bucket)
    && FrontId(store(Path(dirs[d].slug, dirs[d].names[k]))) == Some(id)
  }

  /** Listing order. */
  predicate Earlier(d: nat, k: nat, e: nat, l: nat) {
    d < e || (d == e && k < l)
  }

  lemma {:induction false} HitOf(store: Store, a: seq<Path>, b: seq<Path>, id: Uuid)
    ensures FirstHit(store, a + b, id) == if FirstHit(store, a, id).Some? then FirstHit(store, a, id)
                                          else FirstHit(store, b, id)
  {
    hide FrontId;
    if a == [] {
      assert a + b == b;
    } else {
      assert (a + b)[1..] == a[1..] + b;
      HitOf(store, a[1..], b, id);
    }
  }

  lemma {:induction false} HitInDir(store: Store, dir: SlugDir, names: seq<Name>, bucket: Bucket, id: Uuid)
    returns (k: nat)
    requires FirstHit(store, FilesIn(dir, names, bucket, id), id).Some?
    ensures k < |names| && FirstHit(store, FilesIn(dir, names, bucket, id), id) == Some(Path(dir.slug, names[k]))
    ensures BucketOf(names[k], id) == Some(bucket) && FrontId(store(Path(dir.slug, names[k]))) == Some(id)
    ensures forall j :: 0 <= j < k && BucketOf(names[j], id) == Some(bucket) ==>
      FrontId(store(Path(dir.slug, names[j]))) != Some(id)
    decreases |names|
  {
    hide FrontId, BucketOf, FirstHit;
    NothingHit(store, dir, names, bucket, id);
    var n := |names| - 1;
    var front, last := FilesIn(dir, names[..n], bucket, id),
      if BucketOf(names[n], id) == Some(bucket) then [Path(dir.slug, names[n])] else [];
    HitOf(store, front, last, id);
    if FirstHit(store, front, id).Some? {
      k := HitInDir(store, dir, names[..n], bucket, id);
    } else {
      k := n;
      LoneHit(store, last, id);
      FirstHitIs(store, front, id);
      FilesInAre(dir, names[..n], bucket, id);
      forall j | 0 <= j < k && BucketOf(names[j], id) == Some(bucket)
        ensures FrontId(store(Path(dir.slug, names[j]))) != Some(id)
      {
        assert names[..n][j] == names[j] && Path(dir.slug, names[j]).name in names[..n];
        assert Path(dir.slug, names[j]) in front;
      }
    }
  }

  lemma NothingHit(store: Store, dir: SlugDir, names: seq<Name>, bucket: Bucket, id: Uuid)
    requires FirstHit(store, FilesIn(dir, names, bucket, id), id).Some?
    ensures names != []
  {
  }

  lemma LoneHit(store: Store, files: seq<Path>, id: Uuid)
    requires |files| <= 1
    ensures FirstHit(store, files, id) ==
      if files != [] && FrontId(store(files[0])) == Some(id) then Some(files[0]) else None
  {
    hide FrontId;
    if files != [] { assert files[1..] == []; }
  }

  lemma {:induction false} HitPosition(store: Store, dirs: seq<SlugDir>, bucket: Bucket, id: Uuid)
    returns (d: nat, k: nat)
    requires FirstHit(store, FilesOf(dirs, bucket, id), id).Some?
    ensures Carries(store, dirs, d, k, bucket, id)
    ensures FirstHit(store, FilesOf(dirs, bucket, id), id) == Some(Path(dirs[d].slug, dirs[d].names[k]))
    ensures forall e: nat, l: nat :: Earlier(e, l, d, k) ==> !Carries(store, dirs, e, l, bucket, id)
    decreases |dirs|
  {
    hide FrontId, BucketOf, FirstHit, FilesIn;
    if dirs == [] {
      LoneHit(store, [], id);
    } else {
      var n := |dirs| - 1;
      var front, last := FilesOf(dirs[..n], bucket, id), FilesIn(dirs[n], dirs[n].names, bucket, id);
      HitOf(store, front, last, id);
      if FirstHit(store, front, id).Some? {
        d, k := HitPosition(store, dirs[..n], bucket, id);
        forall e: nat, l: nat | Earlier(e, l, d, k) ensures !Carries(store, dirs, e, l, bucket, id) {
          assert !Carries(store, dirs[..n], e, l, bucket, id);
        }
      } else {
        d := n;
        k := HitInDir(store, dirs[n], dirs[n].names, bucket, id);
        FirstHitIs(store, front, id);
        forall e: nat, l: nat | Earlier(e, l, d, k) ensures !Carries(store, dirs, e, l, bucket, id) {
          if e < d && Carries(store, dirs, e, l, bucket, id) {
            var p := Path(dirs[e].slug, dirs[e].names[l]);
            BucketsPartition(dirs[..n], bucket, id, p);
            assert dirs[..n][e] == dirs[e] && p.name in dirs[e].names;
            BucketIsMarkdown(p.name, id);
          }
        }
      }
    }
  }

  lemma BucketIsMarkdown(name: Name, id: Uuid)
    ensures BucketOf(name, id).Some? <==> IsMarkdown(name)
    ensures BucketOf(name, id).Some? ==> Rank(name, id) == match BucketOf(name, id).value
      case Matching => 0 case HandMade => 1 case Drifted => 2
  {
  }

  /** Of the files of one precedence that carry the id the resolver takes the first one listed. */
  lemma FirstListedWins(store: Store, dirs: seq<SlugDir>, id: Uuid) returns (d: nat, k: nat)
    requires ResolveOneByOne(store, dirs, id).Ok?
    ensures d < |dirs| && k < |dirs[d].names|
    ensures ResolveOneByOne(store, dirs, id).value.path == Path(dirs[d].slug, dirs[d].names[k])
    ensures forall e: nat, l: nat ::
      e < |dirs| && l < |dirs[e].names| && Earlier(e, l, d, k) && IsMarkdown(dirs[e].names[l]) &&
      SaysId(store(Path(dirs[e].slug, dirs[e].names[l])), id) ==>
        Rank(dirs[e].names[l], id) > Rank(dirs[d].names[k], id)
  {
    var first, second, third := FirstHit(store, FilesOf(dirs, Matching, id), id),
      FirstHit(store, FilesOf(dirs, HandMade, id), id), FirstHit(store, FilesOf(dirs, Drifted, id), id);
    var bucket := if first.Some? then Matching else if second.Some? then HandMade else Drifted;
    hide FirstHit, FilesOf, FrontId, SaysId, BucketOf, Rank;
    d, k := HitPosition(store, dirs, bucket, id);
    BucketIsMarkdown(dirs[d].names[k], id);
    ResolverIsCompleteAndOrdered(store, dirs, id);
    forall e: nat, l: nat | e < |dirs| && l < |dirs[e].names| && Earlier(e, l, d, k) &&
                            IsMarkdown(dirs[e].names[l]) &&
                            SaysId(store(Path(dirs[e].slug, dirs[e].names[l])), id)
      ensures Rank(dirs[e].names[l], id) > Rank(dirs[d].names[k], id)
    {
      var p := Path(dirs[e].slug, dirs[e].names[l]);
      assert Listed(dirs, p) by { assert dirs[e].slug == p.slug && p.name in dirs[e].names; }
      BucketIsMarkdown(p.name, id);
      SaysIff(store(p), id);
      assert !Carries(store, dirs, e, l, bucket, id);
    }
  }
}
