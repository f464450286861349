/** Finding a memory by slug or by id, one file at a time or through batched reads. */
module Addressing {
  import opened Basics
  import opened Memories
  import opened Conventions

  /** One leaf directory and its file names, in listing order. */
  datatype SlugDir = SlugDir(slug: string, names: seq<Name>)

  datatype ReadError = PathNotFound | OtherGit

  type Outcome = Result<Blob, ReadError>

  datatype ImportError =
    | InvalidSlug(slug: string)
    | MemoryNotFound(within: Option<string>, id: Option<Uuid>)
    | MemoryAmbiguous(slug: string, candidates: seq<Uuid>)
    | Git(error: ReadError)
    | Parse

  /** The repository as the reader sees it: an outcome for every path. */
  type Store = Path -> Outcome

  // ---- By slug ----

  /** Ids of the UUID-named files, respelled names included, in listing order. */
  function UuidsOf(names: seq<Name>): seq<Uuid> {
    if names == [] then []
    else (if IsUuidName(names[0]) then [IdOf(names[0])] else []) + UuidsOf(names[1..])
  }

  function ResolveBySlug(dir: SlugDir): Result<Uuid, ImportError> {
    var ids := UuidsOf(dir.names);
    if |ids| == 1 then Ok(ids[0])
    else if |ids| == 0 then Err(MemoryNotFound(Some(dir.slug), None))
    else Err(MemoryAmbiguous(dir.slug, ids))
  }

  /** Validate, resolve, read and parse one slug. */
  function ReadOne(store: Store, dir: SlugDir): Result<Memory, ImportError> {
    if !ValidMemorySlug(dir.slug) then Err(InvalidSlug(dir.slug))
    else
      match ResolveBySlug(dir)
      case Err(e) => Err(e)
      case Ok(id) => ParseRead(store(MemoryPath(dir.slug, id)), dir.slug, id)
  }

  function ParseRead(outcome: Outcome, slug: string, id: Uuid): Result<Memory, ImportError> {
    match outcome
    case Err(PathNotFound) => Err(MemoryNotFound(Some(slug), Some(id)))
    case Err(e) => Err(Git(e))
    case Ok(blob) =>
      match Lossy(blob)
      case None => Err(Parse)
      case Some(m) => Ok(m)
  }

  function ReadEach(store: Store, dirs: seq<SlugDir>): seq<(string, Result<Memory, ImportError>)> {
    if dirs == [] then []
    else ReadEach(store, dirs[..|dirs| - 1]) + [(dirs[|dirs| - 1].slug, ReadOne(store, dirs[|dirs| - 1]))]
  }

  // ---- What a listing answers for a slug ----

  /** The positions of the UUID-named files, in listing order. */
  ghost predicate UuidPositions(names: seq<Name>, at: seq<nat>) {
    && (forall i, j :: 0 <= i < j < |at| ==> at[i] < at[j])
    && (forall k :: k in at <==> 0 <= k < |names| && IsUuidName(names[k]))
  }

  function Behind(at: seq<nat>): (r: seq<nat>)
    ensures |r| == |at| && forall i :: 0 <= i < |at| ==> r[i] == at[i] + 1
  {
    seq(|at|, i requires 0 <= i < |at| => at[i] + 1)
  }

  lemma PositionsBehind(names: seq<Name>, rest: seq<nat>, at: seq<nat>)
    requires names != [] && UuidPositions(names[1..], rest)
    requires at == (if IsUuidName(names[0]) then [0] else []) + Behind(rest)
    ensures UuidPositions(names, at)
  {
    hide Behind, IsUuidName;
    var behind := Behind(rest);
    forall k
      ensures k in at <==> 0 <= k < |names| && IsUuidName(names[k])
    {
      assert k in at <==> (IsUuidName(names[0]) && k == 0) || k in behind;
      if k in behind {
        var i :| 0 <= i < |behind| && behind[i] == k;
        assert rest[i] in rest && names[1..][k - 1] == names[k];
      }
      if 0 < k < |names| && IsUuidName(names[k]) {
        assert names[1..][k - 1] == names[k] && k - 1 in rest;
        var i :| 0 <= i < |rest| && rest[i] == k - 1;
        assert behind[i] == k;
      }
    }
  }

  lemma {:induction false} IdsAtPositions(names: seq<Name>) returns (at: seq<nat>)
    ensures UuidPositions(names, at) && |at| == |UuidsOf(names)|
    ensures forall i :: 0 <= i < |at| ==> at[i] < |names| && UuidsOf(names)[i] == IdOf(names[at[i]])
  {
    hide UuidsOf, Behind, IsUuidName, IdOf, UuidPositions;
    UuidsOfStep(names);
    if names == [] {
      at := [];
      NoPositions();
    } else {
      var rest := IdsAtPositions(names[1..]);
      at := (if IsUuidName(names[0]) then [0] else []) + Behind(rest);
      PositionsBehind(names, rest, at);
      UuidAtEach(names, at);
      var n := |at| - |rest|;
      forall i | 0 <= i < |at| ensures UuidsOf(names)[i] == IdOf(names[at[i]]) {
        if i >= n {
          assert at[i] == rest[i - n] + 1 && names[1..][rest[i - n]] == names[at[i]];
          assert UuidsOf(names)[i] == UuidsOf(names[1..])[i - n];
        }
      }
    }
  }

  lemma NoPositions()
    ensures UuidPositions([], [])
  {
  }

  lemma UuidsOfStep(names: seq<Name>)
    ensures UuidsOf(names) ==
      if names == [] then [] else (if IsUuidName(names[0]) then [IdOf(names[0])] else []) + UuidsOf(names[1..])
  {
  }

  /** The slug names one file, the one at position `k`, and its id is `id`. */
  ghost predicate OnlyUuidAt(names: seq<Name>, k: nat, id: Uuid) {
    && k < |names| && IsUuidName(names[k]) && IdOf(names[k]) == id
    && forall j :: 0 <= j < |names| && j != k ==> !IsUuidName(names[j])
  }

  /**
    A slug resolves to an id exactly when one position of its listing is UUID-named, with that id; it is not
    found exactly when none is, and ambiguous otherwise, with all of them in listing order.
  */
  lemma SlugResolution(dir: SlugDir) returns (at: seq<nat>)
    ensures UuidPositions(dir.names, at) && forall i :: 0 <= i < |at| ==> at[i] < |dir.names|
    ensures forall id: Uuid :: ResolveBySlug(dir) == Ok(id) <==> exists k: nat :: OnlyUuidAt(dir.names, k, id)
    ensures ResolveBySlug(dir) == Err(MemoryNotFound(Some(dir.slug), None)) <==> at == []
    ensures |at| >= 2 <==> exists ids :: ResolveBySlug(dir) == Err(MemoryAmbiguous(dir.slug, ids))
    ensures |at| >= 2 ==>
      (ResolveBySlug(dir).error.candidates == seq(|at|, i requires 0 <= i < |at| => IdOf(dir.names[at[i]])))
  {
    hide UuidsOf, UuidPositions, IdOf, OnlyUuidAt;
    at := IdsAtPositions(dir.names);
    assert forall i :: 0 <= i < |at| ==> IsUuidName(dir.names[at[i]]) by { UuidAtEach(dir.names, at); }
    forall id: Uuid
      ensures ResolveBySlug(dir) == Ok(id) <==> exists k: nat :: OnlyUuidAt(dir.names, k, id)
    {
      SoleIff(dir.names, at, id);
    }
  }

  lemma UuidAtEach(names: seq<Name>, at: seq<nat>)
    requires UuidPositions(names, at)
    ensures forall i :: 0 <= i < |at| ==> at[i] < |names| && IsUuidName(names[at[i]])
  {
    assert forall i :: 0 <= i < |at| ==> at[i] in at;
  }

  lemma SoleIff(names: seq<Name>, at: seq<nat>, id: Uuid)
    requires UuidPositions(names, at)
    ensures forall i :: 0 <= i < |at| ==> at[i] < |names| && IsUuidName(names[at[i]])
    ensures (exists k: nat :: OnlyUuidAt(names, k, id)) <==> |at| == 1 && IdOf(names[at[0]]) == id
  {
    hide IdOf;
    UuidAtEach(names, at);
    if |at| == 1 && IdOf(names[at[0]]) == id { assert OnlyUuidAt(names, at[0], id); }
    assert |at| >= 2 ==> at[0] < at[1];
    if k: nat :| OnlyUuidAt(names, k, id) {
      assert k in at && forall i :: 0 <= i < |at| ==> at[i] == k;
    }
  }

  /** How a read answers for the canonical file of `id` under `slug`; invalid UTF-8 is replaced before parsing. */
  ghost predicate AnswersFile(outcome: Outcome, slug: string, id: Uuid, r: Result<Memory, ImportError>) {
    && (outcome == Err(PathNotFound) ==> r == Err(MemoryNotFound(Some(slug), Some(id))))
    && (outcome.Err? && !outcome.error.PathNotFound? ==> r == Err(Git(outcome.error)))
    && (outcome.Ok? && Lossy(outcome.value).None? ==> r == Err(Parse))
    && (forall m :: outcome.Ok? && Lossy(outcome.value) == Some(m) ==> r == Ok(m))
  }

  /** How a listing answers for one directory: by its UUID-named files, and by its one file if there is one. */
  ghost predicate AnswersSlug(store: Store, dir: SlugDir, r: Result<Memory, ImportError>) {
    if !ValidMemorySlug(dir.slug) then r == Err(ImportError.InvalidSlug(dir.slug))
    else exists at ::
      && UuidPositions(dir.names, at) && (forall i :: 0 <= i < |at| ==> at[i] < |dir.names|)
      && (|at| == 0 ==> r == Err(MemoryNotFound(Some(dir.slug), None)))
      && (|at| == 1 ==>
        AnswersFile(store(Path(dir.slug, Canonical(IdOf(dir.names[at[0]])))), dir.slug, IdOf(dir.names[at[0]]), r))
      && (|at| >= 2 ==>
        r == Err(MemoryAmbiguous(dir.slug, seq(|at|, i requires 0 <= i < |at| => IdOf(dir.names[at[i]])))))
  }

  lemma ReadOneAnswers(store: Store, dir: SlugDir)
    ensures AnswersSlug(store, dir, ReadOne(store, dir))
  {
    hide ValidMemorySlug, UuidsOf, IdOf;
    var at := IdsAtPositions(dir.names);
    assert forall i :: 0 <= i < |at| ==> at[i] in at;
    var ids := seq(|at|, i requires 0 <= i < |at| => IdOf(dir.names[at[i]]));
    assert ids == UuidsOf(dir.names);
  }

  lemma {:induction false} ReadEachAt(store: Store, dirs: seq<SlugDir>)
    ensures |ReadEach(store, dirs)| == |dirs|
    ensures forall i ::
      0 <= i < |dirs| ==> ReadEach(store, dirs)[i].0 == dirs[i].slug &&
                          AnswersSlug(store, dirs[i], ReadEach(store, dirs)[i].1)
    decreases |dirs|
  {
    hide ReadOne, AnswersSlug;
    if dirs != [] {
      ReadEachAt(store, dirs[..|dirs| - 1]);
      ReadOneAnswers(store, dirs[|dirs| - 1]);
    }
  }

  /** Every directory is listed once. */
  ghost predicate DistinctSlugs(dirs: seq<SlugDir>) {
    forall i, j :: 0 <= i < j < |dirs| ==> dirs[i].slug != dirs[j].slug
  }

  /** One outcome per requested path, in request order, or the failure of the whole call. */
  method ReadFiles(store: Store, paths: seq<Path>, broken: Option<ReadError>)
    returns (r: Result<seq<(Path, Outcome)>, ReadError>)
    ensures broken.Some? ==> r == Err(broken.value)
    ensures broken.None? ==>
      r.Ok? && |r.value| == |paths| && forall i :: 0 <= i < |paths| ==> r.value[i] == (paths[i], store(paths[i]))
  {
    if broken.Some? {
      return Err(broken.value);
    }
    var out: seq<(Path, Outcome)> := [];
    for i := 0 to |paths|
      invariant |out| == i && forall j :: 0 <= j < i ==> out[j] == (paths[j], store(paths[j]))
    {
      out := out + [(paths[i], store(paths[i]))];
    }
    return Ok(out);
  }

  /** What the first loop decides for one directory: the path to request, or the error. */
  function CandidateOf(dir: SlugDir): Result<Path, ImportError> {
    if !ValidMemorySlug(dir.slug) then Err(InvalidSlug(dir.slug))
    else
      match ResolveBySlug(dir)
      case Err(e) => Err(e)
      case Ok(id) => Ok(MemoryPath(dir.slug, id))
  }

  lemma CandidateFacts(store: Store, dir: SlugDir)
    ensures CandidateOf(dir).Err? ==> ReadOne(store, dir) == Err(CandidateOf(dir).error)
    ensures CandidateOf(dir).Ok? ==> (var p := CandidateOf(dir).value;
      p.slug == dir.slug && p.name.Canonical? && ReadOne(store, dir) == ParseRead(store(p), dir.slug, p.name.id))
  {
  }

  /** The paths still to be taken out of the batch when directory `from` is next. */
  ghost predicate Pending(store: Store, dirs: seq<SlugDir>, from: nat, batch: map<Path, Outcome>)
  {
    forall i :: from <= i < |dirs| && CandidateOf(dirs[i]).Ok? ==>
      CandidateOf(dirs[i]).value in batch && batch[CandidateOf(dirs[i]).value] == store(CandidateOf(dirs[i]).value)
  }

  lemma TakenOnce(store: Store, dirs: seq<SlugDir>, i: nat, batch: map<Path, Outcome>)
    requires DistinctSlugs(dirs) && i < |dirs| && CandidateOf(dirs[i]).Ok? && Pending(store, dirs, i, batch)
    ensures Pending(store, dirs, i + 1, batch - {CandidateOf(dirs[i]).value})
  {
    forall j | i + 1 <= j < |dirs| && CandidateOf(dirs[j]).Ok?
      ensures CandidateOf(dirs[j]).value != CandidateOf(dirs[i]).value
    {
      CandidateFacts(store, dirs[i]);
      CandidateFacts(store, dirs[j]);
    }
  }

  /**
    Batched listing: one pass resolves every directory, one batch reads every path, one pass hands the
    outcomes out and removes them from a table as it goes. For every store it gives each slug exactly what
    reading it alone gives, and the table never lacks an entry.
  */
  method ReadAllSlugFiles(store: Store, dirs: seq<SlugDir>, broken: Option<ReadError>)
    returns (r: Result<seq<(string, Result<Memory, ImportError>)>, ImportError>)
    requires DistinctSlugs(dirs)
    ensures broken.Some? ==> r == Err(Git(broken.value))
    ensures broken.None? ==> r == Ok(ReadEach(store, dirs))
    ensures broken.None? ==> |r.value| == |dirs| && forall i :: 0 <= i < |dirs| ==>
      r.value[i].0 == dirs[i].slug && AnswersSlug(store, dirs[i], r.value[i].1)
  {
    hide ValidMemorySlug, UuidsOf, CandidateOf, ReadOne, ParseRead, AnswersSlug;
    var candidates: seq<Result<Path, ImportError>> := [];
    var paths: seq<Path> := [];
    for i := 0 to |dirs|
      invariant |candidates| == i && forall j :: 0 <= j < i ==> candidates[j] == CandidateOf(dirs[j])
      invariant forall j :: 0 <= j < i && CandidateOf(dirs[j]).Ok? ==> CandidateOf(dirs[j]).value in paths
    {
      var candidate := CandidateOf(dirs[i]);
      if candidate.Ok? {
        paths := paths + [candidate.value];
      }
      candidates := candidates + [candidate];
    }
    var read := ReadFiles(store, paths, broken);
    if read.Err? {
      return Err(Git(read.error));
    }
    var batch := read.value;
    var bytesByPath: map<Path, Outcome> := map[];
    for i := 0 to |batch|
      invariant forall p :: p in bytesByPath <==> exists j :: 0 <= j < i && batch[j].0 == p
      invariant forall p :: p in bytesByPath ==> bytesByPath[p] == store(p)
    {
      bytesByPath := bytesByPath[batch[i].0 := batch[i].1];
    }
    var out: seq<(string, Result<Memory, ImportError>)> := [];
    assert dirs[..0] == [];
    for i := 0 to |dirs|
      invariant out == ReadEach(store, dirs[..i]) && Pending(store, dirs, i, bytesByPath)
    {
      CandidateFacts(store, dirs[i]);
      assert dirs[..i + 1][..i] == dirs[..i] && dirs[..i + 1][i] == dirs[i];
      match candidates[i] {
        case Err(e) => out := out + [(dirs[i].slug, Err(e))];
        case Ok(path) =>
          TakenOnce(store, dirs, i, bytesByPath);
          var outcome := bytesByPath[path];
          bytesByPath := bytesByPath - {path};
          out := out + [(dirs[i].slug, ParseRead(outcome, dirs[i].slug, path.name.id))];
      }
    }
    assert dirs[..|dirs|] == dirs;
    ReadEachAt(store, dirs);
    return Ok(out);
  }

  // ---- By id ----

  datatype AddressingMode = ByFilename | ByFrontmatter

  datatype Resolved = Resolved(path: Path, id: Uuid, mode: AddressingMode)

  /** The id in the frontmatter of a readable file; only valid UTF-8 is parsed. */
  function FrontId(outcome: Outcome): Option<Uuid> {
    match outcome
    case Err(_) => None
    case Ok(blob) =>
      match Strict(blob)
      case None => None
      case Some(m) => m.id
  }

  datatype Bucket = Matching | HandMade | Drifted

  /** Which step of the resolver looks at a file; none at a file that is not markdown. */
  function BucketOf(name: Name, id: Uuid): Option<Bucket> {
    if !IsMarkdown(name) then None
    else if !IsUuidName(name) then Some(HandMade)
    else if IdOf(name) == id then Some(Matching)
    else Some(Drifted)
  }

  function FilesIn(dir: SlugDir, names: seq<Name>, bucket: Bucket, id: Uuid): seq<Path> {
    if names == [] then []
    else
      var last := names[|names| - 1];
      FilesIn(dir, names[..|names| - 1], bucket,
        id) + (if BucketOf(last, id) == Some(bucket) then [Path(dir.slug, last)] else [])
  }

  /** The files one step looks at, in listing order. */
  function FilesOf(dirs: seq<SlugDir>, bucket: Bucket, id: Uuid): seq<Path> {
    if dirs == [] then []
    else FilesOf(dirs[..|dirs| - 1], bucket, id) + FilesIn(dirs[|dirs| - 1], dirs[|dirs| - 1].names, bucket, id)
  }

  /** A markdown file of some listed directory. */
  ghost predicate Listed(dirs: seq<SlugDir>, p: Path) {
    IsMarkdown(p.name) && exists d :: 0 <= d < |dirs| && dirs[d].slug == p.slug && p.name in dirs[d].names
  }

  /** The first of the files whose frontmatter carries the id. */
  function FirstHit(store: Store, files: seq<Path>, id: Uuid): Option<Path> {
    if files == [] then None
    else if FrontId(store(files[0])) == Some(id) then Some(files[0])
    else FirstHit(store, files[1..], id)
  }

  /** The simple reading: file names that match first, then hand-made ones, then drifted ones, each in listing order. */
  function ResolveOneByOne(store: Store, dirs: seq<SlugDir>, id: Uuid): Result<Resolved, ImportError> {
    var first, second, third := FirstHit(store, FilesOf(dirs, Matching, id), id),
      FirstHit(store, FilesOf(dirs, HandMade, id), id), FirstHit(store, FilesOf(dirs, Drifted, id), id);
    if first.Some? then Ok(Resolved(first.value, id, ByFilename))
    else if second.Some? then Ok(Resolved(second.value, id, ByFrontmatter))
    else if third.Some? then Ok(Resolved(third.value, id, ByFrontmatter))
    else Err(MemoryNotFound(None, Some(id)))
  }

  // ---- The loops ----

  lemma NothingFiled(dirs: seq<SlugDir>, id: Uuid)
    ensures forall bucket :: FilesOf(dirs[..0], bucket, id) == []
  {
  }

  lemma NothingFiledIn(dir: SlugDir, id: Uuid)
    ensures forall bucket :: FilesIn(dir, dir.names[..0], bucket, id) == []
  {
  }

  lemma OneMoreFile(dir: SlugDir, k: nat, bucket: Bucket, id: Uuid)
    requires k < |dir.names|
    ensures FilesIn(dir, dir.names[..k + 1], bucket, id)
         == FilesIn(dir, dir.names[..k], bucket,
           id) + (if BucketOf(dir.names[k], id) == Some(bucket) then [Path(dir.slug, dir.names[k])] else [])
  {
    hide BucketOf;
    assert dir.names[..k + 1][..k] == dir.names[..k];
  }

  lemma OneMoreDir(dirs: seq<SlugDir>, d: nat, bucket: Bucket, id: Uuid)
    requires d < |dirs|
    ensures FilesOf(dirs[..d + 1], bucket, id) ==
      FilesOf(dirs[..d], bucket, id) + FilesIn(dirs[d], dirs[d].names, bucket, id)
  {
    hide FilesIn;
    assert dirs[..d + 1][..d] == dirs[..d];
  }

  method SplitIntoBuckets(dirs: seq<SlugDir>, id: Uuid) returns (first: seq<Path>, second: seq<Path>, third: seq<Path>)
    ensures first == FilesOf(dirs, Matching, id) && second == FilesOf(dirs, HandMade, id)
    ensures third == FilesOf(dirs, Drifted, id)
  {
    hide FilesIn, FilesOf;
    first, second, third := [], [], [];
    NothingFiled(dirs, id);
    for d := 0 to |dirs|
      invariant first == FilesOf(dirs[..d], Matching, id) && second == FilesOf(dirs[..d], HandMade, id)
      invariant third == FilesOf(dirs[..d], Drifted, id)
    {
      var dir := dirs[d];
      ghost var a, b, c := first, second, third;
      NothingFiledIn(dir, id);
      for k := 0 to |dir.names|
        invariant first == a + FilesIn(dir, dir.names[..k], Matching, id)
        invariant second == b + FilesIn(dir, dir.names[..k], HandMade, id)
        invariant third == c + FilesIn(dir, dir.names[..k], Drifted, id)
      {
        var name := dir.names[k];
        OneMoreFile(dir, k, Matching, id);
        OneMoreFile(dir, k, HandMade, id);
        OneMoreFile(dir, k, Drifted, id);
        if !IsMarkdown(name) {
          continue;
        }
        if !IsUuidName(name) {
          second := second + [Path(dir.slug, name)];
        } else if IdOf(name) == id {
          first := first + [Path(dir.slug, name)];
        } else {
          third := third + [Path(dir.slug, name)];
        }
      }
      assert dir.names[..|dir.names|] == dir.names;
      OneMoreDir(dirs, d, Matching, id);
      OneMoreDir(dirs, d, HandMade, id);
      OneMoreDir(dirs, d, Drifted, id);
    }
    assert dirs[..|dirs|] == dirs;
  }

  /** One batched read of all candidates; a candidate that cannot be read or parsed is passed over. */
  method ScanCandidatesForId(store: Store, files: seq<Path>, id: Uuid, broken: Option<ReadError>)
    returns (r: Result<Option<Path>, ImportError>)
    ensures files == [] || broken.None? ==> r == Ok(FirstHit(store, files, id))
    ensures files != [] && broken.Some? ==> r == Err(Git(broken.value))
  {
    if files == [] {
      return Ok(None);
    }
    var read := ReadFiles(store, files, broken);
    if read.Err? {
      return Err(Git(read.error));
    }
    var batch := read.value;
    assert files[0..] == files;
    for i := 0 to |files|
      invariant FirstHit(store, files, id) == FirstHit(store, files[i..], id)
    {
      assert files[i..][1..] == files[i + 1..];
      if batch[i].1.Ok? && FrontId(batch[i].1) == Some(id) {
        return Ok(Some(files[i]));
      }
    }
    return Ok(None);
  }

  /** The three steps; `second` and `third` say whether their batch call fails as a whole. */
  method ResolveById(store: Store, dirs: seq<SlugDir>, id: Uuid, second: Option<ReadError>, third: Option<ReadError>)
    returns (r: Result<Resolved, ImportError>)
    ensures second.None? && third.None? ==> r == ResolveOneByOne(store, dirs, id)
    ensures r.Ok? || r.error.MemoryNotFound? ==> r == ResolveOneByOne(store, dirs, id)
  {
    hide FilesOf, FrontId, FirstHit;
    var matching, handMade, drifted := SplitIntoBuckets(dirs, id);
    NoFiles(store, id);
    WholeScan(store, matching, id);
    for i := 0 to |matching|
      invariant FirstHit(store, matching, id) == FirstHit(store, matching[i..], id)
    {
      ScanStep(store, matching, id, i);
      var outcome := store(matching[i]);
      if outcome.Ok? && FrontId(outcome) == Some(id) {
        return Ok(Resolved(matching[i], id, ByFilename));
      }
      FailedRead(outcome);
    }
    var hit := ScanCandidatesForId(store, handMade, id, second);
    if hit.Err? {
      return Err(hit.error);
    }
    if hit.value.Some? {
      return Ok(Resolved(hit.value.value, id, ByFrontmatter));
    }
    hit := ScanCandidatesForId(store, drifted, id, third);
    if hit.Err? {
      return Err(hit.error);
    }
    if hit.value.Some? {
      return Ok(Resolved(hit.value.value, id, ByFrontmatter));
    }
    return Err(MemoryNotFound(None, Some(id)));
  }

  lemma NoFiles(store: Store, id: Uuid)
    ensures FirstHit(store, [], id) == None
  {
  }

  lemma WholeScan(store: Store, files: seq<Path>, id: Uuid)
    ensures FirstHit(store, files[0..], id) == FirstHit(store, files, id) && files[|files|..] == []
  {
    assert files[0..] == files;
  }

  lemma ScanStep(store: Store, files: seq<Path>, id: Uuid, i: nat)
    requires i < |files|
    ensures FirstHit(store, files[i..], id) ==
      if FrontId(store(files[i])) == Some(id) then Some(files[i]) else FirstHit(store, files[i + 1..], id)
  {
    assert files[i..][1..] == files[i + 1..];
  }

  lemma FailedRead(outcome: Outcome)
    ensures outcome.Err? ==> FrontId(outcome) == None
  {
  }

  // ---- What the resolver promises ----

  lemma {:induction false} FilesInAre(dir: SlugDir, names: seq<Name>, bucket: Bucket, id: Uuid)
    ensures forall p ::
      p in FilesIn(dir, names, bucket, id)
      <==> (p.slug == dir.slug && p.name in names && BucketOf(p.name, id) == Some(bucket))
  {
    if names != [] {
      var n := |names| - 1;
      hide BucketOf;
      FilesInAre(dir, names[..n], bucket, id);
      assert forall x :: x in names <==> x in names[..n] || x == names[n];
    }
  }

  /** The three buckets partition the listed markdown files. */
  lemma {:induction false} BucketsPartition(dirs: seq<SlugDir>, bucket: Bucket, id: Uuid, p: Path)
    ensures p in FilesOf(dirs, bucket, id) <==> Listed(dirs, p) && BucketOf(p.name, id) == Some(bucket)
  {
    if dirs != [] {
      var n := |dirs| - 1;
      BucketsPartition(dirs[..n], bucket, id, p);
      FilesInAre(dirs[n], dirs[n].names, bucket, id);
    }
  }

  lemma {:induction false} FirstHitIs(store: Store, files: seq<Path>, id: Uuid)
    ensures FirstHit(store, files, id).Some? ==>
      FirstHit(store, files, id).value in files && FrontId(store(FirstHit(store, files, id).value)) == Some(id)
    ensures FirstHit(store, files, id).None? <==> forall p :: p in files ==> FrontId(store(p)) != Some(id)
  {
    if files != [] {
      hide FrontId;
      FirstHitIs(store, files[1..], id);
      assert forall p :: p in files <==> p == files[0] || p in files[1..];
    }
  }

  /** The file was read, is valid UTF-8, and its frontmatter has the id. */
  predicate SaysId(outcome: Outcome, id: Uuid) {
    outcome.Ok? && Strict(outcome.value).Some? && Strict(outcome.value).value.id == Some(id)
  }

  lemma SaysIff(outcome: Outcome, id: Uuid)
    ensures SaysId(outcome, id) <==> FrontId(outcome) == Some(id)
  {
  }

  /**
    The resolver is complete and ordered: it reports not-found exactly when no listed readable file carries
    the id; what it finds is listed and carries the id; a file named after the id wins over a hand-named
    one, and that over a file named after another id.
  */
  lemma ResolverIsCompleteAndOrdered(store: Store, dirs: seq<SlugDir>, id: Uuid)
    ensures var r := ResolveOneByOne(store, dirs, id);
      && (r.Err? <==> forall p :: Listed(dirs, p) ==> !SaysId(store(p), id))
      && (r.Ok? ==> Listed(dirs, r.value.path) && SaysId(store(r.value.path), id) && r.value.id == id)
      && (r.Ok? ==>
        forall p ::
          Listed(dirs, p) && SaysId(store(p), id) ==> Rank(r.value.path.name, id) <= Rank(p.name, id))
      && (r.Ok? ==> (r.value.mode == ByFilename <==> IsUuidName(r.value.path.name) && IdOf(r.value.path.name) == id))
  {
    hide FrontId, SaysId;
    forall p ensures SaysId(store(p), id) <==> FrontId(store(p)) == Some(id) { SaysIff(store(p), id); }
    var a, b, c := FilesOf(dirs, Matching, id), FilesOf(dirs, HandMade, id), FilesOf(dirs, Drifted, id);
    FirstHitIs(store, a, id);
    FirstHitIs(store, b, id);
    FirstHitIs(store, c, id);
    forall p
      ensures p in a <==> Listed(dirs, p) && BucketOf(p.name, id) == Some(Matching)
    {
      BucketsPartition(dirs, Matching, id, p);
    }
    forall p
      ensures p in b <==> Listed(dirs, p) && BucketOf(p.name, id) == Some(HandMade)
    {
      BucketsPartition(dirs, HandMade, id, p);
    }
    forall p
      ensures p in c <==> Listed(dirs, p) && BucketOf(p.name, id) == Some(Drifted)
    {
      BucketsPartition(dirs, Drifted, id, p);
    }
    hide FilesOf, FirstHit;
    assert forall p :: Listed(dirs, p) ==> BucketOf(p.name, id).Some?;
  }

  /** Precedence of a file name: named after the id, hand-named, named after another id. */
  function Rank(name: Name, id: Uuid): nat {
    if IsUuidName(name) && IdOf(name) == id then 0 else if !IsUuidName(name) then 1 else 2
  }
}
