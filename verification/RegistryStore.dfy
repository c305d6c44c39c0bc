/** The in-memory registry: a content-addressed store answering one request at a time. */
module RegistryStore {
  import opened Lists
  import opened Options
  import opened SortedText
  import opened Text

  type Bytes = seq<nat>

  datatype Descriptor = Descriptor(
    mediaType: string, digest: string, size: nat, artifactType: string, annotations: map<string, string>)

  datatype Manifest = Manifest(
    mediaType: string, artifactType: string, config: Descriptor, layers: seq<Descriptor>,
    subject: Option<string>, annotations: map<string, string>)

  /** The libraries: SHA-256 with its prefix, and JSON for manifests. */
  datatype Codec = Codec(digest: Bytes -> string, decode: Bytes -> Option<Manifest>, encode: Manifest -> Bytes)

  datatype Stored = Stored(bytes: Bytes, mediaType: string)

  datatype Repo = Repo(blobs: map<string, Bytes>, manifests: map<string, Stored>, tags: map<string, string>)

  type Repos = map<string, Repo>

  const EMPTY_REPO := Repo(map[], map[], map[])
  const MAX_BYTES: nat := 32 * 1024 * 1024
  const OCI_MANIFEST := "application/vnd.oci.image.manifest.v1+json"

  /** A body that cannot be read is None. */
  datatype Request =
    | PutManifest(name: string, ref: string, contentType: string, body: Option<Bytes>)
    | GetManifest(name: string, ref: string)
    | StartUpload(name: string)
    | FinishUpload(name: string, digest: string, body: Option<Bytes>)
    | GetBlob(name: string, digest: string)
    | GetReferrers(name: string, subject: string, filter: string)
    | ListTags(name: string)
    | OtherMethod(name: string)

  datatype Response =
    | Created(digest: string)
    | Accepted(session: nat)
    | Content(digest: string, mediaType: string, bytes: Bytes)
    | IndexOf(manifests: seq<Descriptor>)
    | TagList(tags: seq<string>)
    | NotFound
    | BadRequest
    | NotAllowed

  function RepoOf(rs: Repos, name: string): Repo
  {
    if name in rs then rs[name] else EMPTY_REPO
  }

  /** What a limited read keeps of a body. */
  function Truncated(b: Bytes): (r: Bytes)
    ensures |r| <= MAX_BYTES && (r == b <==> |b| <= MAX_BYTES)
  {
    if |b| <= MAX_BYTES then b else b[..MAX_BYTES]
  }

  predicate IsDigest(ref: string) { "sha256:" <= ref }

  // ----- One request -----

  /** The repository after the request. */
  function AfterIn(codec: Codec, repo: Repo, req: Request): Repo
  {
    match req
    case PutManifest(_, ref, contentType, Some(body)) =>
      var kept := Truncated(body);
      var d := codec.digest(kept);
      repo.(manifests := repo.manifests[d := Stored(kept, if contentType == "" then OCI_MANIFEST else contentType)],
            tags := if IsDigest(ref) then repo.tags else repo.tags[ref := d])
    case FinishUpload(_, digest, Some(body)) =>
      var d := codec.digest(Truncated(body));
      if digest == "" || digest == d then repo.(blobs := repo.blobs[d := Truncated(body)]) else repo
    case _ => repo
  }

  /** Every request creates its repository. */
  function After(codec: Codec, rs: Repos, req: Request): Repos
  {
    rs[req.name := AfterIn(codec, RepoOf(rs, req.name), req)]
  }

  /** d describes a stored manifest with this subject and, unless the filter is empty, this
      artifact type. */
  ghost predicate Listed(codec: Codec, repo: Repo, subject: string, filter: string, d: Descriptor)
  {
    && d.digest in repo.manifests
    && var m := repo.manifests[d.digest];
    && var man := codec.decode(m.bytes);
    && man.Some? && man.value.subject == Some(subject)
    && (filter == "" || man.value.artifactType == filter)
    && d == Descriptor(m.mediaType, d.digest, |m.bytes|, man.value.artifactType, man.value.annotations)
  }

  predicate ByDigest(a: Descriptor, b: Descriptor) { TextLess(a.digest, b.digest) }

  /** The answer, given the repository before the request. */
  ghost predicate Answers(codec: Codec, repo: Repo, req: Request, resp: Response)
  {
    match req
    case PutManifest(_, _, _, body) =>
      resp == if body.None? then BadRequest else Created(codec.digest(Truncated(body.value)))
    case GetManifest(_, ref) =>
      resp == (
        if !IsDigest(ref) && ref !in repo.tags then NotFound else
        var d := if IsDigest(ref) then ref else repo.tags[ref];
        if d !in repo.manifests then NotFound
        else Content(d, repo.manifests[d].mediaType, repo.manifests[d].bytes))
    case StartUpload(_) => resp == Accepted(|repo.blobs| + 1)
    case FinishUpload(_, digest, body) =>
      resp == (
        if body.None? then BadRequest else
        var d := codec.digest(Truncated(body.value));
        if digest == "" || digest == d then Created(d) else BadRequest)
    case GetBlob(_, digest) =>
      resp == if digest in repo.blobs then Content(digest, "", repo.blobs[digest]) else NotFound
    case GetReferrers(_, subject, filter) =>
      && resp.IndexOf? && Strict(resp.manifests, ByDigest)
      && forall d :: d in resp.manifests <==> Listed(codec, repo, subject, filter, d)
    case ListTags(_) =>
      && resp.TagList? && Strict(resp.tags, TextLess)
      && forall t :: t in resp.tags <==> t in repo.tags
    case OtherMethod(_) => resp == NotAllowed
  }

  lemma DigestsRank()
    ensures Ranks(ByDigest)
  {
    TextRanks();
    assert forall x, y :: ByDigest(x, y) ==> !ByDigest(y, x);
    forall x: Descriptor, y: Descriptor, z: Descriptor | ByDigest(x, y) && !ByDigest(z, y)
      ensures ByDigest(x, z)
    {
      assert TextLess(x.digest, y.digest) && !TextLess(z.digest, y.digest);
    }
  }

  /** The referrers index is determined by what is stored: one listing, one order. */
  lemma {:induction false} OneIndexOnly(a: seq<Descriptor>, b: seq<Descriptor>)
    requires Strict(a, ByDigest) && Strict(b, ByDigest) && forall d :: d in a <==> d in b
    ensures a == b
    decreases |a|
  {
    DigestsRank();
    assert |b| > 0 ==> b[0] in b;
    if a != [] {
      assert a[0] in a;
      assert b != [];
      assert a[0] in b && b[0] in a;
      assert a[0] == b[0];
      forall d
        ensures d in a[1..] <==> d in b[1..]
      {
        assert d in a <==> d == a[0] || d in a[1..];
        assert d in b <==> d == b[0] || d in b[1..];
      }
      OneIndexOnly(a[1..], b[1..]);
    }
  }

  // ----- The server -----

  class MemoryRegistry {
    const codec: Codec
    var repos: Repos

    constructor (codec: Codec)
      ensures this.codec == codec && repos == map[]
    {
      this.codec := codec;
      repos := map[];
    }

    method Repository(name: string) returns (r: Repo)
      modifies this
      ensures r == RepoOf(old(repos), name) && repos == old(repos)[name := r]
    {
      if name !in repos {
        repos := repos[name := EMPTY_REPO];
      }
      r := repos[name];
      assert repos == old(repos)[name := r];
    }

    method Serve(req: Request) returns (resp: Response)
      modifies this
      ensures repos == After(codec, old(repos), req)
      ensures Answers(codec, RepoOf(old(repos), req.name), req, resp)
    {
      var repo := Repository(req.name);
      match req {
        case PutManifest(name, ref, contentType, body) =>
          resp := HandlePutManifest(name, ref, contentType, body);
        case GetManifest(_, ref) =>
          resp := HandleGetManifest(repo, ref);
        case StartUpload(_) =>
          resp := Accepted(|repo.blobs| + 1);
        case FinishUpload(name, digest, body) =>
          resp := HandleUpload(name, digest, body);
        case GetBlob(_, digest) =>
          resp := if digest in repo.blobs then Content(digest, "", repo.blobs[digest]) else NotFound;
        case GetReferrers(_, subject, filter) =>
          var ds := HandleReferrers(repo, subject, filter);
          resp := IndexOf(ds);
        case ListTags(_) =>
          var tags := HandleTags(repo);
          resp := TagList(tags);
        case OtherMethod(_) =>
          resp := NotAllowed;
      }
    }

    method HandlePutManifest(name: string, ref: string, contentType: string, body: Option<Bytes>) returns (resp: Response)
      requires name in repos
      modifies this
      ensures repos == After(codec, old(repos), PutManifest(name, ref, contentType, body))
      ensures resp == if body.None? then BadRequest else Created(codec.digest(Truncated(body.value)))
    {
      var repo := repos[name];
      if body.None? {
        assert repos == repos[name := repo];
        return BadRequest;
      }
      var kept := Truncated(body.value);
      var digest := codec.digest(kept);
      var mt := contentType;
      if mt == "" {
        mt := OCI_MANIFEST;
      }
      repo := repo.(manifests := repo.manifests[digest := Stored(kept, mt)]);
      if !IsDigest(ref) {
        repo := repo.(tags := repo.tags[ref := digest]);
      }
      repos := repos[name := repo];
      resp := Created(digest);
    }

    method HandleGetManifest(repo: Repo, ref: string) returns (resp: Response)
      ensures Answers(codec, repo, GetManifest("", ref), resp)
    {
      var digest := ref;
      if !IsDigest(ref) {
        if ref !in repo.tags {
          return NotFound;
        }
        digest := repo.tags[ref];
      }
      if digest !in repo.manifests {
        return NotFound;
      }
      resp := Content(digest, repo.manifests[digest].mediaType, repo.manifests[digest].bytes);
    }

    method HandleUpload(name: string, digest: string, body: Option<Bytes>) returns (resp: Response)
      requires name in repos
      modifies this
      ensures repos == After(codec, old(repos), FinishUpload(name, digest, body))
      ensures Answers(codec, old(repos)[name], FinishUpload(name, digest, body), resp)
    {
      assert repos == repos[name := repos[name]];
      if body.None? {
        return BadRequest;
      }
      var kept := Truncated(body.value);
      var want := if digest == "" then codec.digest(kept) else digest;
      if codec.digest(kept) != want {
        return BadRequest;
      }
      var repo := repos[name];
      repos := repos[name := repo.(blobs := repo.blobs[want := kept])];
      resp := Created(want);
    }

    /** Scans the stored manifests, in whatever order, and sorts what it found. */
    method HandleReferrers(repo: Repo, subject: string, filter: string) returns (out: seq<Descriptor>)
      ensures Strict(out, ByDigest) && forall d :: d in out <==> Listed(codec, repo, subject, filter, d)
    {
      var found: seq<Descriptor> := [];
      var todo := repo.manifests.Keys;
      while todo != {}
        invariant todo <= repo.manifests.Keys
        invariant forall i :: 0 <= i < |found| ==> found[i].digest !in todo
        invariant forall i :: 0 <= i < |found| ==> Listed(codec, repo, subject, filter, found[i])
        invariant forall d :: Listed(codec, repo, subject, filter, d) && d.digest !in todo ==> d in found
        invariant forall i, j :: 0 <= i < j < |found| ==> found[i].digest != found[j].digest
        decreases |todo|
      {
        var digest :| digest in todo;
        todo := todo - {digest};
        var mm := repo.manifests[digest];
        var man := codec.decode(mm.bytes);
        if man.None? {
          continue;
        }
        if man.value.subject != Some(subject) {
          continue;
        }
        if filter != "" && man.value.artifactType != filter {
          continue;
        }
        found := found + [Descriptor(mm.mediaType, digest, |mm.bytes|, man.value.artifactType, man.value.annotations)];
      }
      out := SortDescriptors(found);
    }

    method HandleTags(repo: Repo) returns (out: seq<string>)
      ensures Strict(out, TextLess) && forall t :: t in out <==> t in repo.tags
    {
      var tags: seq<string> := [];
      var todo := repo.tags.Keys;
      while todo != {}
        invariant todo <= repo.tags.Keys
        invariant forall t :: t in tags <==> t in repo.tags.Keys - todo
        invariant forall i, j :: 0 <= i < j < |tags| ==> tags[i] != tags[j]
        decreases |todo|
      {
        var t :| t in todo;
        assert t !in tags;
        tags := tags + [t];
        todo := todo - {t};
      }
      out := SortStrings(tags);
    }
  }

  method SortDescriptors(ds: seq<Descriptor>) returns (out: seq<Descriptor>)
    requires forall i, j :: 0 <= i < j < |ds| ==> ds[i].digest != ds[j].digest
    ensures Strict(out, ByDigest) && forall d :: d in out <==> d in ds
  {
    var a := new Descriptor[|ds|](i requires 0 <= i < |ds| => ds[i]);
    assert a[..] == ds;
    InsertionSort(a, ByDigest);
    out := a[..];
    DigestsRank();
    forall i, j | 0 <= i < j < |ds|
      ensures ByDigest(ds[i], ds[j]) || ByDigest(ds[j], ds[i])
    {
      TextLessIsTotal(ds[i].digest, ds[j].digest);
    }
    SortStrict(ds, ByDigest);
    SortMembers(ds, ByDigest);
  }

  // ----- Every run -----

  function Run(codec: Codec, rs: Repos, reqs: seq<Request>): Repos
    decreases |reqs|
  {
    if reqs == [] then rs else After(codec, Run(codec, rs, reqs[..|reqs| - 1]), reqs[|reqs| - 1])
  }

  /** Everything stored sits under the digest of its own bytes, and tags name manifests. */
  ghost predicate Sound(codec: Codec, repo: Repo)
  {
    && (forall d :: d in repo.blobs ==> d == codec.digest(repo.blobs[d]) && |repo.blobs[d]| <= MAX_BYTES)
    && (forall d :: d in repo.manifests ==>
          d == codec.digest(repo.manifests[d].bytes) && |repo.manifests[d].bytes| <= MAX_BYTES)
    && (forall t :: t in repo.tags ==> !IsDigest(t) && repo.tags[t] in repo.manifests)
  }

  ghost predicate AllSound(codec: Codec, rs: Repos)
  {
    forall name :: name in rs ==> Sound(codec, rs[name])
  }

  lemma RequestKeepsSound(codec: Codec, rs: Repos, req: Request)
    requires AllSound(codec, rs)
    ensures AllSound(codec, After(codec, rs, req))
  {
    var repo := RepoOf(rs, req.name);
    assert Sound(codec, repo);
    assert Sound(codec, AfterIn(codec, repo, req));
  }

  /** After any requests the store is sound. */
  lemma {:induction false} RunKeepsSound(codec: Codec, rs: Repos, reqs: seq<Request>)
    requires AllSound(codec, rs)
    ensures AllSound(codec, Run(codec, rs, reqs))
    decreases |reqs|
  {
    if reqs != [] {
      RunKeepsSound(codec, rs, reqs[..|reqs| - 1]);
      RequestKeepsSound(codec, Run(codec, rs, reqs[..|reqs| - 1]), reqs[|reqs| - 1]);
    }
  }

  /** Bodies among which the digest tells apart. */
  ghost predicate CollisionFree(codec: Codec, bodies: set<Bytes>)
  {
    forall a, b :: a in bodies && b in bodies && codec.digest(a) == codec.digest(b) ==> a == b
  }

  ghost predicate StoresOnly(rs: Repos, bodies: set<Bytes>)
  {
    forall name :: name in rs ==> HoldsOnly(rs[name], bodies)
  }

  ghost predicate HoldsOnly(repo: Repo, bodies: set<Bytes>)
  {
    && (forall d :: d in repo.blobs ==> repo.blobs[d] in bodies)
    && (forall d :: d in repo.manifests ==> repo.manifests[d].bytes in bodies)
  }

  ghost predicate SendsOnly(reqs: seq<Request>, bodies: set<Bytes>)
  {
    forall i :: 0 <= i < |reqs| ==> Sends(reqs[i], bodies)
  }

  ghost predicate Sends(req: Request, bodies: set<Bytes>)
  {
    (req.PutManifest? || req.FinishUpload?) && req.body.Some? ==> Truncated(req.body.value) in bodies
  }

  /** Whatever is stored is still stored in the later state, with the same bytes. */
  ghost predicate Keeps(rs: Repos, later: Repos)
  {
    forall name :: name in rs ==> name in later && KeepsIn(rs[name], later[name])
  }

  ghost predicate KeepsIn(repo: Repo, later: Repo)
  {
    && (forall d :: d in repo.blobs ==> d in later.blobs && later.blobs[d] == repo.blobs[d])
    && (forall d :: d in repo.manifests ==> d in later.manifests && later.manifests[d].bytes == repo.manifests[d].bytes)
    && (forall t :: t in repo.tags ==> t in later.tags)
  }

  lemma RepoKeepsContent(codec: Codec, repo: Repo, req: Request, bodies: set<Bytes>)
    requires Sound(codec, repo) && CollisionFree(codec, bodies) && HoldsOnly(repo, bodies) && Sends(req, bodies)
    ensures KeepsIn(repo, AfterIn(codec, repo, req)) && HoldsOnly(AfterIn(codec, repo, req), bodies)
  {}

  lemma RequestKeepsContent(codec: Codec, rs: Repos, req: Request, bodies: set<Bytes>)
    requires AllSound(codec, rs) && CollisionFree(codec, bodies) && StoresOnly(rs, bodies) && Sends(req, bodies)
    ensures Keeps(rs, After(codec, rs, req)) && StoresOnly(After(codec, rs, req), bodies)
  {
    RepoKeepsContent(codec, RepoOf(rs, req.name), req, bodies);
  }

  /** Stored digests never vanish and, barring collisions, never change their bytes. */
  lemma {:induction false} RunKeepsContent(codec: Codec, rs: Repos, reqs: seq<Request>, bodies: set<Bytes>)
    requires AllSound(codec, rs) && CollisionFree(codec, bodies) && StoresOnly(rs, bodies) && SendsOnly(reqs, bodies)
    ensures Keeps(rs, Run(codec, rs, reqs)) && StoresOnly(Run(codec, rs, reqs), bodies)
    decreases |reqs|
  {
    if reqs != [] {
      var init, last := reqs[..|reqs| - 1], reqs[|reqs| - 1];
      assert SendsOnly(init, bodies);
      assert Sends(last, bodies);
      RunKeepsContent(codec, rs, init, bodies);
      RunKeepsSound(codec, rs, init);
      var mid := Run(codec, rs, init);
      RequestKeepsContent(codec, mid, last, bodies);
      KeepsIsTransitive(rs, mid, After(codec, mid, last));
    }
  }

  lemma KeepsIsTransitive(a: Repos, b: Repos, c: Repos)
    requires Keeps(a, b) && Keeps(b, c)
    ensures Keeps(a, c)
  {}
}
