/** What the registry answers, told from the requests alone: a pull gives what was pushed. */
module RegistryHistory {
  import opened Lists
  import opened Options
  import opened RegistryStore
  import opened Text

  // ----- What a request pushes -----

  /** The part of a body that is read: its first 32 MiB. */
  function ReadPart(b: Bytes): Bytes
  {
    if |b| <= 33_554_432 then b else b[..33_554_432]
  }

  /** A manifest pushed into this repository. */
  predicate IsPush(req: Request, name: string)
  {
    req.PutManifest? && req.name == name && req.body.Some?
  }

  function Pushed(req: Request): Bytes
    requires req.PutManifest? && req.body.Some?
  {
    ReadPart(req.body.value)
  }

  function TypeOf(req: Request): string
    requires req.PutManifest?
  {
    if req.contentType == "" then "application/vnd.oci.image.manifest.v1+json" else req.contentType
  }

  predicate IsTagPush(req: Request, name: string, tag: string)
  {
    IsPush(req, name) && req.ref == tag
  }

  predicate IsDigestPush(codec: Codec, req: Request, name: string, digest: string)
  {
    IsPush(req, name) && codec.digest(Pushed(req)) == digest
  }

  /** An upload this repository takes under the digest. */
  predicate IsUpload(codec: Codec, req: Request, name: string, digest: string)
  {
    && req.FinishUpload? && req.name == name && req.body.Some?
    && codec.digest(ReadPart(req.body.value)) == digest && (req.digest == "" || req.digest == digest)
  }

  /** The last of the requests that satisfies p. */
  function Last(reqs: seq<Request>, p: Request -> bool): (r: Option<Request>)
    ensures r.Some? ==> r.value in reqs && p(r.value)
    ensures r.None? ==> forall q :: q in reqs ==> !p(q)
    decreases |reqs|
  {
    if reqs == [] then None
    else
      var init, req := reqs[..|reqs| - 1], reqs[|reqs| - 1];
      assert reqs == init + [req];
      if p(req) then Some(req) else Last(init, p)
  }

  function TagPush(name: string, tag: string): Request -> bool
  {
    req => IsTagPush(req, name, tag)
  }

  function DigestPush(codec: Codec, name: string, digest: string): Request -> bool
  {
    req => IsDigestPush(codec, req, name, digest)
  }

  function Upload(codec: Codec, name: string, digest: string): Request -> bool
  {
    req => IsUpload(codec, req, name, digest)
  }

  // ----- What the store holds -----

  function Tagged(codec: Codec, push: Option<Request>): Option<string>
    requires push.Some? ==> push.value.PutManifest? && push.value.body.Some?
  {
    if push.None? then None else Some(codec.digest(Pushed(push.value)))
  }

  function Kept(push: Option<Request>): Option<Stored>
    requires push.Some? ==> push.value.PutManifest? && push.value.body.Some?
  {
    if push.None? then None else Some(Stored(Pushed(push.value), TypeOf(push.value)))
  }

  function Taken(upload: Option<Request>): Option<Bytes>
    requires upload.Some? ==> upload.value.FinishUpload? && upload.value.body.Some?
  {
    if upload.None? then None else Some(ReadPart(upload.value.body.value))
  }

  function Lookup<V>(m: map<string, V>, k: string): Option<V>
  {
    if k in m then Some(m[k]) else None
  }

  /** The store holds what was last pushed under each tag and each digest, and nothing else. */
  ghost predicate Agrees(codec: Codec, repo: Repo, name: string, reqs: seq<Request>)
  {
    && (forall t :: Lookup(repo.tags, t) == if "sha256:" <= t then None else Tagged(codec, Last(reqs, TagPush(name, t))))
    && (forall d :: Lookup(repo.manifests, d) == Kept(Last(reqs, DigestPush(codec, name, d))))
    && (forall d :: Lookup(repo.blobs, d) == Taken(Last(reqs, Upload(codec, name, d))))
  }

  lemma RequestAgrees(codec: Codec, repo: Repo, name: string, init: seq<Request>, req: Request, reqs: seq<Request>)
    requires Agrees(codec, repo, name, init) && reqs == init + [req] && req.name == name
    ensures Agrees(codec, AfterIn(codec, repo, req), name, reqs)
  {
    assert reqs[..|reqs| - 1] == init;
    var later := AfterIn(codec, repo, req);
    forall t
      ensures Lookup(later.tags, t) == if "sha256:" <= t then None else Tagged(codec, Last(reqs, TagPush(name, t)))
    {
      assert Lookup(repo.tags, t) == if "sha256:" <= t then None else Tagged(codec, Last(init, TagPush(name, t)));
    }
    forall d
      ensures Lookup(later.manifests, d) == Kept(Last(reqs, DigestPush(codec, name, d)))
    {
      assert Lookup(repo.manifests, d) == Kept(Last(init, DigestPush(codec, name, d)));
    }
    forall d
      ensures Lookup(later.blobs, d) == Taken(Last(reqs, Upload(codec, name, d)))
    {
      assert Lookup(repo.blobs, d) == Taken(Last(init, Upload(codec, name, d)));
    }
  }

  lemma OtherRequestAgrees(codec: Codec, repo: Repo, name: string, init: seq<Request>, req: Request, reqs: seq<Request>)
    requires Agrees(codec, repo, name, init) && reqs == init + [req] && req.name != name
    ensures Agrees(codec, repo, name, reqs)
  {
    assert reqs[..|reqs| - 1] == init;
    assert forall t :: Last(reqs, TagPush(name, t)) == Last(init, TagPush(name, t));
    assert forall d :: Last(reqs, DigestPush(codec, name, d)) == Last(init, DigestPush(codec, name, d));
    assert forall d :: Last(reqs, Upload(codec, name, d)) == Last(init, Upload(codec, name, d));
  }

  /** After any requests to a fresh registry every repository agrees with them. */
  lemma {:induction false} RunAgrees(codec: Codec, reqs: seq<Request>, name: string)
    ensures Agrees(codec, RepoOf(Run(codec, map[], reqs), name), name, reqs)
    decreases |reqs|
  {
    if reqs != [] {
      var init, req := reqs[..|reqs| - 1], reqs[|reqs| - 1];
      assert reqs == init + [req];
      RunAgrees(codec, init, name);
      var repo := RepoOf(Run(codec, map[], init), name);
      if req.name == name {
        RequestAgrees(codec, repo, name, init, req, reqs);
      } else {
        OtherRequestAgrees(codec, repo, name, init, req, reqs);
      }
    }
  }

  // ----- What is answered -----

  /** The answer to the next request after these, on a registry that started empty. */
  ghost predicate NextAnswer(codec: Codec, reqs: seq<Request>, req: Request, resp: Response)
  {
    Answers(codec, RepoOf(Run(codec, map[], reqs), req.name), req, resp)
  }

  /** A pull by tag gives the content last pushed under the tag, with the media type it was last
      pushed with under any reference; and nothing exactly when the tag was never pushed. */
  lemma PullByTag(codec: Codec, reqs: seq<Request>, name: string, tag: string, resp: Response)
    requires !("sha256:" <= tag) && NextAnswer(codec, reqs, GetManifest(name, tag), resp)
    ensures var push := Last(reqs, TagPush(name, tag));
            if push.None? then resp == NotFound
            else
              var digest := codec.digest(Pushed(push.value));
              var same := Last(reqs, DigestPush(codec, name, digest));
              same.Some? && resp == Content(digest, TypeOf(same.value), Pushed(same.value))
  {
    RunAgrees(codec, reqs, name);
    var repo := RepoOf(Run(codec, map[], reqs), name);
    var push := Last(reqs, TagPush(name, tag));
    assert Lookup(repo.tags, tag) == Tagged(codec, push);
    if push.Some? {
      var digest := codec.digest(Pushed(push.value));
      assert DigestPush(codec, name, digest)(push.value);
      assert Lookup(repo.manifests, digest) == Kept(Last(reqs, DigestPush(codec, name, digest)));
    }
  }

  /** A pull by digest gives the manifest last pushed with that digest, if any was. */
  lemma PullByDigest(codec: Codec, reqs: seq<Request>, name: string, digest: string, resp: Response)
    requires "sha256:" <= digest && NextAnswer(codec, reqs, GetManifest(name, digest), resp)
    ensures var push := Last(reqs, DigestPush(codec, name, digest));
            resp == if push.None? then NotFound else Content(digest, TypeOf(push.value), Pushed(push.value))
  {
    RunAgrees(codec, reqs, name);
    assert Lookup(RepoOf(Run(codec, map[], reqs), name).manifests, digest) ==
           Kept(Last(reqs, DigestPush(codec, name, digest)));
  }

  /** A blob is the one last uploaded with that digest, if any was. */
  lemma FetchBlob(codec: Codec, reqs: seq<Request>, name: string, digest: string, resp: Response)
    requires NextAnswer(codec, reqs, GetBlob(name, digest), resp)
    ensures var upload := Last(reqs, Upload(codec, name, digest));
            resp == if upload.None? then NotFound else Content(digest, "", ReadPart(upload.value.body.value))
  {
    RunAgrees(codec, reqs, name);
    assert Lookup(RepoOf(Run(codec, map[], reqs), name).blobs, digest) == Taken(Last(reqs, Upload(codec, name, digest)));
  }

  /** The tags listed are exactly those pushed. */
  lemma TagsArePushed(codec: Codec, reqs: seq<Request>, name: string, resp: Response)
    requires NextAnswer(codec, reqs, ListTags(name), resp)
    ensures resp.TagList? && forall t :: t in resp.tags <==>
              !("sha256:" <= t) && exists req :: req in reqs && IsTagPush(req, name, t)
  {
    RunAgrees(codec, reqs, name);
    var repo := RepoOf(Run(codec, map[], reqs), name);
    forall t
      ensures t in resp.tags <==> !("sha256:" <= t) && exists req :: req in reqs && IsTagPush(req, name, t)
    {
      assert t in repo.tags <==> Lookup(repo.tags, t).Some?;
      forall req | req in reqs && IsTagPush(req, name, t)
        ensures Last(reqs, TagPush(name, t)).Some?
      {
        assert TagPush(name, t)(req);
      }
    }
  }

  /** The referrers listed are exactly the pushed manifests that name the subject, each under
      its digest with the media type it was last pushed with. */
  lemma ReferrersArePushed(codec: Codec, reqs: seq<Request>, name: string, subject: string, filter: string,
      resp: Response, d: Descriptor)
    requires NextAnswer(codec, reqs, GetReferrers(name, subject, filter), resp)
    ensures resp.IndexOf? && (d in resp.manifests <==>
              var push := Last(reqs, DigestPush(codec, name, d.digest));
              && push.Some? && codec.decode(Pushed(push.value)).Some?
              && var m := codec.decode(Pushed(push.value)).value;
                 && m.subject == Some(subject) && (filter == "" || m.artifactType == filter)
                 && d.mediaType == TypeOf(push.value) && d.size == |Pushed(push.value)|
                 && d.artifactType == m.artifactType && d.annotations == m.annotations)
  {
    RunAgrees(codec, reqs, name);
    var repo := RepoOf(Run(codec, map[], reqs), name);
    assert Lookup(repo.manifests, d.digest) == Kept(Last(reqs, DigestPush(codec, name, d.digest)));
  }

  /** The digest tells the manifests pushed into this repository apart. */
  ghost predicate TellsApart(codec: Codec, reqs: seq<Request>, name: string)
  {
    forall p, q | p in reqs && q in reqs && IsPush(p, name) && IsPush(q, name) ::
      codec.digest(Pushed(p)) == codec.digest(Pushed(q)) ==> Pushed(p) == Pushed(q)
  }

  /** A push is answered with the digest of what was read, and an upload as well where the
      announced digest is that one or missing. */
  lemma PushesAreAnswered(codec: Codec, reqs: seq<Request>, req: Request, resp: Response)
    requires NextAnswer(codec, reqs, req, resp) && (req.PutManifest? || req.FinishUpload?)
    ensures req.body.None? ==> resp == BadRequest
    ensures req.PutManifest? && req.body.Some? ==> resp == Created(codec.digest(Pushed(req)))
    ensures req.FinishUpload? && req.body.Some? ==>
              var digest := codec.digest(ReadPart(req.body.value));
              resp == if IsUpload(codec, req, req.name, digest) then Created(digest) else BadRequest
  {}

  /** Where the digest tells the pushed manifests apart, a pull by tag gives the bytes last pushed
      under the tag; and their media type exactly when no other push of the same bytes came later
      with another one. */
  lemma PullGivesLastPush(codec: Codec, reqs: seq<Request>, name: string, tag: string, resp: Response)
    requires !("sha256:" <= tag) && NextAnswer(codec, reqs, GetManifest(name, tag), resp)
    requires TellsApart(codec, reqs, name)
    requires Last(reqs, TagPush(name, tag)).Some?
    ensures var push := Last(reqs, TagPush(name, tag)).value;
            var same := Last(reqs, DigestPush(codec, name, codec.digest(Pushed(push))));
            && resp.Content? && resp.bytes == Pushed(push) && same.Some?
            && (resp.mediaType == TypeOf(push) <==> TypeOf(same.value) == TypeOf(push))
  {
    PullByTag(codec, reqs, name, tag, resp);
  }

  /** Pushing the same bytes under a second tag with another media type changes what the first
      tag is pulled with. */
  lemma SecondTagChangesType(codec: Codec, body: Bytes, resp: Response)
    requires var reqs := [PutManifest("app", "one", "a", Some(body)), PutManifest("app", "two", "b", Some(body))];
             NextAnswer(codec, reqs, GetManifest("app", "one"), resp)
    ensures resp == Content(codec.digest(ReadPart(body)), "b", ReadPart(body))
  {
    var first, second := PutManifest("app", "one", "a", Some(body)), PutManifest("app", "two", "b", Some(body));
    var reqs := [first, second];
    assert |"one"| < |"sha256:"|;
    assert "one"[0] != "two"[0];
    var digest := codec.digest(ReadPart(body));
    assert reqs[..1] == [first] && DigestPush(codec, "app", digest)(second);
    assert TagPush("app", "one")(first) && !TagPush("app", "one")(second);
    assert [first][..0] == [];
    assert Last([first], TagPush("app", "one")) == Some(first);
    assert Last(reqs, TagPush("app", "one")) == Some(first);
    PullByTag(codec, reqs, "app", "one", resp);
  }
}
