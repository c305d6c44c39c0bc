/** Attaching artifacts to images and finding them again: the client's PutReferrer as a
    sequence of requests, with other clients' requests between them, and its Referrers query. */
module RegistryClient {
  import opened Lists
  import opened Options
  import opened RegistryStore
  import opened UrlQuery

  const EMPTY_JSON := "application/vnd.oci.empty.v1+json"
  /** The bytes of "{}". */
  const EMPTY_CONFIG: Bytes := [123, 125]
  /** The artifact type the signature verifier asks for. */
  const BUNDLE := "application/vnd.docker-security.bundle.v1+json"

  /** sha256: and 64 lower-case hexadecimal digits. */
  predicate ValidDigest(d: string)
  {
    && IsDigest(d) && |d| == 71
    && forall i :: 7 <= i < |d| ==> '0' <= d[i] <= '9' || 'a' <= d[i] <= 'f'
  }

  /** Digests look like digests, and JSON gives a manifest back. */
  ghost predicate WellFormed(codec: Codec)
  {
    (forall b :: ValidDigest(codec.digest(b))) && (forall m :: codec.decode(codec.encode(m)) == Some(m))
  }

  datatype Referrer = Referrer(
    name: string, subject: string, artifactType: string, artifact: Bytes, annotations: map<string, string>)

  /** What the other clients do before each of our requests. */
  type Others = nat -> seq<Request>

  // ----- PutReferrer -----

  function Blob(codec: Codec, mediaType: string, data: Bytes): Descriptor
  {
    Descriptor(mediaType, codec.digest(data), |data|, "", map[])
  }

  /** The manifest that makes the artifact refer to its subject. */
  function ReferrerManifest(codec: Codec, r: Referrer): Manifest
  {
    Manifest(OCI_MANIFEST, r.artifactType, Blob(codec, EMPTY_JSON, EMPTY_CONFIG),
      [Blob(codec, r.artifactType, r.artifact)], Some(r.subject), r.annotations)
  }

  function ManifestBytes(codec: Codec, r: Referrer): Bytes
  {
    codec.encode(ReferrerManifest(codec, r))
  }

  /** The server takes what it reads of a body for the announced digest. */
  predicate AcceptsUpload(codec: Codec, digest: string, body: Bytes)
  {
    digest == "" || digest == codec.digest(Truncated(body))
  }

  /** The whole upload of a blob goes through. */
  predicate Uploads(codec: Codec, data: Bytes)
  {
    AcceptsUpload(codec, codec.digest(data), data)
  }

  function BlobRequests(codec: Codec, name: string, data: Bytes): seq<Request>
  {
    [StartUpload(name), FinishUpload(name, codec.digest(data), Some(data))]
  }

  /** The requests PutReferrer sends when none fails. */
  function ReferrerRequests(codec: Codec, r: Referrer): (reqs: seq<Request>)
    ensures |reqs| == 5
  {
    var bytes := ManifestBytes(codec, r);
    BlobRequests(codec, r.name, r.artifact) + BlobRequests(codec, r.name, EMPTY_CONFIG) +
    [PutManifest(r.name, codec.digest(bytes), OCI_MANIFEST, Some(bytes))]
  }

  /** How many of them it sends: it stops behind the first upload that is refused. */
  function SentBy(codec: Codec, r: Referrer): nat
  {
    if !ValidDigest(r.subject) then 0
    else if !Uploads(codec, r.artifact) then 2
    else if !Uploads(codec, EMPTY_CONFIG) then 4
    else 5
  }

  /** Our first n requests, each behind what the others do before it. */
  function Interleaved(ours: seq<Request>, others: Others, n: nat): seq<Request>
    requires n <= |ours|
  {
    if n == 0 then [] else Interleaved(ours, others, n - 1) + others(n - 1) + [ours[n - 1]]
  }

  function ReferrerDescriptor(codec: Codec, r: Referrer): Descriptor
  {
    var bytes := ManifestBytes(codec, r);
    Descriptor(OCI_MANIFEST, codec.digest(bytes), |bytes|, r.artifactType, r.annotations)
  }

  class Client {
    const reg: MemoryRegistry
    const others: Others
    ghost const start: Repos
    ghost const ours: seq<Request>
    var sent: nat

    constructor (reg: MemoryRegistry, others: Others, ghost ours: seq<Request>)
      ensures this.reg == reg && this.others == others && this.ours == ours && start == reg.repos && sent == 0
    {
      this.reg := reg;
      this.others := others;
      this.ours := ours;
      start := reg.repos;
      sent := 0;
    }

    /** So far the server has seen exactly our first requests among the others'. */
    ghost predicate InStep()
      reads this, reg
    {
      sent <= |ours| && reg.repos == Run(reg.codec, start, Interleaved(ours, others, sent))
    }

    method Send(req: Request) returns (resp: Response)
      requires InStep() && sent < |ours| && req == ours[sent]
      modifies this, reg
      ensures InStep() && sent == old(sent) + 1
      ensures req.StartUpload? ==> resp.Accepted?
      ensures req.FinishUpload? && req.body.Some? ==>
        (resp.Created? <==> AcceptsUpload(reg.codec, req.digest, req.body.value))
      ensures req.PutManifest? && req.body.Some? ==> resp.Created?
    {
      var before := others(sent);
      ghost var done := Interleaved(ours, others, sent);
      assert done + before[..0] == done;
      for k := 0 to |before|
        invariant sent == old(sent) && reg.repos == Run(reg.codec, start, done + before[..k])
      {
        assert (done + before[..k + 1])[..|done| + k] == done + before[..k];
        var ignored := reg.Serve(before[k]);
      }
      assert before[..|before|] == before;
      resp := reg.Serve(req);
      sent := sent + 1;
      assert (done + before + [req])[..|done + before|] == done + before;
    }

    method PutBlob(name: string, data: Bytes, mediaType: string) returns (d: Option<Descriptor>)
      requires InStep() && sent + 2 <= |ours| && ours[sent..sent + 2] == BlobRequests(reg.codec, name, data)
      modifies this, reg
      ensures InStep() && sent == old(sent) + 2
      ensures d == if Uploads(reg.codec, data) then Some(Blob(reg.codec, mediaType, data)) else None
    {
      assert ours[sent] == ours[sent..sent + 2][0] && ours[sent + 1] == ours[sent..sent + 2][1];
      var started := Send(StartUpload(name));
      var digest := reg.codec.digest(data);
      var put := Send(FinishUpload(name, digest, Some(data)));
      if !put.Created? {
        return None;
      }
      d := Some(Descriptor(mediaType, digest, |data|, "", map[]));
    }

    method PutReferrer(r: Referrer) returns (d: Option<Descriptor>)
      requires InStep() && sent == 0 && ours == ReferrerRequests(reg.codec, r)
      modifies this, reg
      ensures InStep() && sent == SentBy(reg.codec, r)
      ensures d == if sent == 5 then Some(ReferrerDescriptor(reg.codec, r)) else None
    {
      if !ValidDigest(r.subject) {
        return None;
      }
      var layer := PutBlob(r.name, r.artifact, r.artifactType);
      if layer.None? {
        return None;
      }
      var cfg := PutBlob(r.name, EMPTY_CONFIG, EMPTY_JSON);
      if cfg.None? {
        return None;
      }
      var man := Manifest(OCI_MANIFEST, r.artifactType, cfg.value, [layer.value], Some(r.subject), r.annotations);
      var bytes := reg.codec.encode(man);
      var put := Send(PutManifest(r.name, reg.codec.digest(bytes), OCI_MANIFEST, Some(bytes)));
      if !put.Created? {
        return None;
      }
      d := Some(Descriptor(OCI_MANIFEST, reg.codec.digest(bytes), |bytes|, r.artifactType, r.annotations));
    }
  }

  /** PutReferrer on a server other clients use at the same time. */
  method PutReferrer(reg: MemoryRegistry, others: Others, r: Referrer) returns (d: Option<Descriptor>)
    modifies reg
    ensures var n := SentBy(reg.codec, r);
            && reg.repos == Run(reg.codec, old(reg.repos), Interleaved(ReferrerRequests(reg.codec, r), others, n))
            && d == if n == 5 then Some(ReferrerDescriptor(reg.codec, r)) else None
  {
    var c := new Client(reg, others, ReferrerRequests(reg.codec, r));
    d := c.PutReferrer(r);
  }

  // ----- Referrers -----

  /** What the query finds, where it gets through. */
  ghost predicate Finds(codec: Codec, repo: Repo, subject: string, artifactType: string, d: Descriptor)
  {
    && ValidDigest(subject) && Received(artifactType).Some?
    && Listed(codec, repo, subject, Received(artifactType).value, d)
    && (artifactType == "" || d.artifactType == artifactType)
  }

  /** Client.Referrers: asks the server for a type, and narrows what comes back once more. */
  method Referrers(reg: MemoryRegistry, name: string, subject: string, artifactType: string)
      returns (ds: Option<seq<Descriptor>>)
    modifies reg
    ensures ds.Some? <==> ValidDigest(subject) && Received(artifactType).Some?
    ensures ds.Some? ==> Strict(ds.value, ByDigest) && forall d ::
      d in ds.value <==> Finds(reg.codec, RepoOf(old(reg.repos), name), subject, artifactType, d)
    ensures reg.repos == if ds.Some? then old(reg.repos)[name := RepoOf(old(reg.repos), name)] else old(reg.repos)
  {
    if !ValidDigest(subject) {
      return None;
    }
    var filter := Received(artifactType);
    if filter.None? {
      return None;
    }
    var resp := reg.Serve(GetReferrers(name, subject, filter.value));
    var narrowed := FilterByArtifactType(resp.manifests, artifactType);
    ds := Some(narrowed);
  }

  function OfType(artifactType: string): Descriptor -> bool
  {
    (d: Descriptor) => artifactType == "" || d.artifactType == artifactType
  }

  method FilterByArtifactType(ds: seq<Descriptor>, artifactType: string) returns (out: seq<Descriptor>)
    ensures out == Filter(ds, OfType(artifactType))
    ensures Strict(ds, ByDigest) ==> Strict(out, ByDigest)
    ensures forall d :: d in out <==> d in ds && OfType(artifactType)(d)
  {
    if artifactType == "" {
      FilterAll(ds, OfType(artifactType));
      return ds;
    }
    out := [];
    for k := 0 to |ds|
      invariant out == Filter(ds[..k], OfType(artifactType))
    {
      FilterOfAppended(ds[..k], ds[k], ds[..k + 1], OfType(artifactType));
      if ds[k].artifactType == artifactType {
        out := out + [ds[k]];
      }
    }
    assert ds[..|ds|] == ds;
    if Strict(ds, ByDigest) {
      FilterStrict(ds, OfType(artifactType));
    }
    forall d
      ensures d in out <==> d in ds && OfType(artifactType)(d)
    {
      FilterMembers(ds, OfType(artifactType), d);
    }
  }

  lemma {:induction false} FilterStrict(ds: seq<Descriptor>, p: Descriptor -> bool)
    requires Strict(ds, ByDigest)
    ensures Strict(Filter(ds, p), ByDigest)
    decreases |ds|
  {
    if ds != [] {
      var init, last := ds[..|ds| - 1], ds[|ds| - 1];
      FilterStrict(init, p);
      var f := Filter(init, p);
      forall i | 0 <= i < |f|
        ensures ByDigest(f[i], last)
      {
        FilterMembers(init, p, f[i]);
      }
    }
  }

  lemma {:induction false} FilterAll<T>(s: seq<T>, p: T -> bool)
    requires forall i :: 0 <= i < |s| ==> p(s[i])
    ensures Filter(s, p) == s
    decreases |s|
  {
    if s != [] {
      FilterAll(s[..|s| - 1], p);
    }
  }

  // ----- Round trip -----

  /** PutReferrer completes exactly for a valid subject and an artifact within the read limit. */
  lemma CompletesIff(codec: Codec, r: Referrer)
    requires WellFormed(codec) && CollisionFree(codec, {r.artifact, Truncated(r.artifact)})
    ensures SentBy(codec, r) == 5 <==> ValidDigest(r.subject) && |r.artifact| <= MAX_BYTES
  {
    assert ValidDigest(codec.digest(r.artifact));
    assert Truncated(EMPTY_CONFIG) == EMPTY_CONFIG;
    assert r.artifact in {r.artifact, Truncated(r.artifact)};
  }

  lemma RunAppend(codec: Codec, rs: Repos, a: seq<Request>, b: seq<Request>)
    ensures Run(codec, rs, a + b) == Run(codec, Run(codec, rs, a), b)
    decreases |b|
  {
    if b == [] {
      assert a + b == a;
    } else {
      assert (a + b)[..|a + b| - 1] == a + b[..|b| - 1];
      RunAppend(codec, rs, a, b[..|b| - 1]);
    }
  }

  /** The last of the five requests, with what went before and what comes after. */
  ghost predicate IsHistory(codec: Codec, r: Referrer, before: seq<Request>, after: seq<Request>, all: seq<Request>)
  {
    var bytes := ManifestBytes(codec, r);
    all == before + [PutManifest(r.name, codec.digest(bytes), OCI_MANIFEST, Some(bytes))] + after
  }

  /** The state of a server that has served such a history is sound, holds only these bodies,
      and holds the manifest's truncation under its digest. */
  lemma AfterHistory(codec: Codec, rs: Repos, r: Referrer, before: seq<Request>, after: seq<Request>, all: seq<Request>,
      bodies: set<Bytes>)
    requires IsHistory(codec, r, before, after, all)
    requires AllSound(codec, rs) && CollisionFree(codec, bodies) && StoresOnly(rs, bodies) && SendsOnly(all, bodies)
    ensures var now := Run(codec, rs, all);
            var kept := Truncated(ManifestBytes(codec, r));
            && AllSound(codec, now) && StoresOnly(now, bodies) && kept in bodies
            && r.name in now && codec.digest(kept) in now[r.name].manifests
            && now[r.name].manifests[codec.digest(kept)].bytes == kept
  {
    var bytes := ManifestBytes(codec, r);
    var put := PutManifest(r.name, codec.digest(bytes), OCI_MANIFEST, Some(bytes));
    var upTo := before + [put];
    assert all == upTo + after;
    assert all[|before|] == put && Sends(put, bodies);
    assert forall i :: 0 <= i < |upTo| ==> upTo[i] == all[i];
    assert forall i :: 0 <= i < |after| ==> after[i] == all[|upTo| + i];
    RunKeepsSound(codec, rs, upTo);
    RunKeepsContent(codec, rs, upTo, bodies);
    assert upTo[..|before|] == before;
    RunAppend(codec, rs, upTo, after);
    var mid := Run(codec, rs, upTo);
    RunKeepsSound(codec, mid, after);
    RunKeepsContent(codec, mid, after, bodies);
  }

  /** A query finds the referrer: some descriptor with its digest is in the answer. */
  ghost predicate Found(codec: Codec, rs: Repos, r: Referrer, artifactType: string)
  {
    exists d: Descriptor :: d.digest == ReferrerDescriptor(codec, r).digest &&
      Finds(codec, RepoOf(rs, r.name), r.subject, artifactType, d)
  }

  /** A completed PutReferrer is found by every later query for its type, whatever was asked
      of the server before and after, exactly when its manifest fits the read limit and the
      server reads the type as meant or not at all. */
  lemma FoundIff(codec: Codec, rs: Repos, r: Referrer, before: seq<Request>, after: seq<Request>, all: seq<Request>,
      bodies: set<Bytes>, artifactType: string)
    requires WellFormed(codec) && ValidDigest(r.subject) && IsHistory(codec, r, before, after, all)
    requires AllSound(codec, rs) && CollisionFree(codec, bodies) && StoresOnly(rs, bodies) && SendsOnly(all, bodies)
    requires ManifestBytes(codec, r) in bodies
    requires artifactType == "" || artifactType == r.artifactType
    ensures Found(codec, Run(codec, rs, all), r, artifactType) <==>
            && |ManifestBytes(codec, r)| <= MAX_BYTES
            && (Received(artifactType) == Some("") || Received(artifactType) == Some(artifactType))
  {
    AfterHistory(codec, rs, r, before, after, all, bodies);
    var now := Run(codec, rs, all);
    var repo := RepoOf(now, r.name);
    var bytes := ManifestBytes(codec, r);
    var digest := codec.digest(bytes);
    assert Sound(codec, repo) && HoldsOnly(repo, bodies);
    if digest in repo.manifests {
      StoredMeansFits(codec, repo, bytes, bodies);
      assert codec.decode(bytes) == Some(ReferrerManifest(codec, r));
      var d := Descriptor(repo.manifests[digest].mediaType, digest, |bytes|, r.artifactType, r.annotations);
      assert Finds(codec, repo, r.subject, artifactType, d) <==>
             Received(artifactType) == Some("") || Received(artifactType) == Some(artifactType);
    }
  }

  lemma StoredMeansFits(codec: Codec, repo: Repo, bytes: Bytes, bodies: set<Bytes>)
    requires Sound(codec, repo) && HoldsOnly(repo, bodies) && CollisionFree(codec, bodies) && bytes in bodies
    requires codec.digest(bytes) in repo.manifests
    ensures repo.manifests[codec.digest(bytes)].bytes == bytes && |bytes| <= MAX_BYTES
  {}

  /** Asked without a type, every completed PutReferrer within the limit is found. */
  lemma FoundWithoutType(codec: Codec, rs: Repos, r: Referrer, before: seq<Request>, after: seq<Request>,
      all: seq<Request>, bodies: set<Bytes>)
    requires WellFormed(codec) && ValidDigest(r.subject) && IsHistory(codec, r, before, after, all)
    requires AllSound(codec, rs) && CollisionFree(codec, bodies) && StoresOnly(rs, bodies) && SendsOnly(all, bodies)
    requires ManifestBytes(codec, r) in bodies
    ensures Found(codec, Run(codec, rs, all), r, "") <==> |ManifestBytes(codec, r)| <= MAX_BYTES
  {
    FoundIff(codec, rs, r, before, after, all, bodies, "");
  }

  /** The history of FoundIff is the one PutReferrer makes. */
  lemma CompletedIsHistory(codec: Codec, r: Referrer, others: Others, later: seq<Request>)
    ensures var ours := ReferrerRequests(codec, r);
            IsHistory(codec, r, Interleaved(ours, others, 4) + others(4), later, Interleaved(ours, others, 5) + later)
  {
    var ours := ReferrerRequests(codec, r);
    assert Interleaved(ours, others, 5) == Interleaved(ours, others, 4) + others(4) + [ours[4]];
  }

  // ----- Where it fails -----

  /** The verifier's query for signature bundles never finds one: the plus sign in the type
      reaches the server as a space. */
  lemma BundlesAreNeverFound(codec: Codec, rs: Repos, r: Referrer)
    requires WellFormed(codec) && r.artifactType == BUNDLE
    requires var d := ReferrerDescriptor(codec, r).digest;
             d in RepoOf(rs, r.name).manifests ==> RepoOf(rs, r.name).manifests[d].bytes == ManifestBytes(codec, r)
    ensures !Found(codec, rs, r, BUNDLE)
  {
    BundleHasPlus();
    PlusIsReadAsSpace(BUNDLE);
    assert codec.decode(ManifestBytes(codec, r)) == Some(ReferrerManifest(codec, r));
  }

  lemma BundleHasPlus()
    ensures '+' in BUNDLE && QueryChars(BUNDLE)
  {
    var a, b, c := "application/vnd.", "docker-security.", "bundle.v1+json";
    BundleSplits(a, b, c);
    assert c[9] == '+';
    VendorPart(a);
    ProductPart(b);
    FormatPart(c);
    QueryCharsOfThree(a, b, c, BUNDLE);
  }

  lemma BundleSplits(a: string, b: string, c: string)
    requires a == "application/vnd." && b == "docker-security." && c == "bundle.v1+json"
    ensures BUNDLE == a + b + c
  {}

  lemma QueryCharsOfThree(a: string, b: string, c: string, t: string)
    requires t == a + b + c && QueryChars(a) && QueryChars(b) && QueryChars(c) && '+' in c
    ensures QueryChars(t) && '+' in t
  {}

  lemma VendorPart(t: string)
    requires t == "application/vnd."
    ensures QueryChars(t)
  {}

  lemma ProductPart(t: string)
    requires t == "docker-security."
    ensures QueryChars(t)
  {}

  lemma FormatPart(t: string)
    requires t == "bundle.v1+json"
    ensures QueryChars(t)
  {}

  predicate QueryChars(t: string)
  {
    forall i :: 0 <= i < |t| ==> PlainChar(t[i]) || t[i] == '+'
  }

  /** A plain type is found by its own query, any other non-empty one only when the server
      reads nothing. */
  lemma FoundWithPlainType(codec: Codec, rs: Repos, r: Referrer, before: seq<Request>, after: seq<Request>,
      all: seq<Request>, bodies: set<Bytes>)
    requires WellFormed(codec) && ValidDigest(r.subject) && IsHistory(codec, r, before, after, all)
    requires AllSound(codec, rs) && CollisionFree(codec, bodies) && StoresOnly(rs, bodies) && SendsOnly(all, bodies)
    requires ManifestBytes(codec, r) in bodies && |ManifestBytes(codec, r)| <= MAX_BYTES && r.artifactType != ""
    ensures Found(codec, Run(codec, rs, all), r, r.artifactType) <==>
            Plain(r.artifactType) || Received(r.artifactType) == Some("")
  {
    FoundIff(codec, rs, r, before, after, all, bodies, r.artifactType);
    PlainIsReceived(r.artifactType);
  }

  /** The digest that PutReferrer reports is stored exactly when the manifest fits the read
      limit, whatever was asked of the server before and after. */
  lemma ReportedDigestIsStoredIff(codec: Codec, rs: Repos, r: Referrer, before: seq<Request>, after: seq<Request>,
      all: seq<Request>, bodies: set<Bytes>)
    requires IsHistory(codec, r, before, after, all)
    requires AllSound(codec, rs) && CollisionFree(codec, bodies) && StoresOnly(rs, bodies) && SendsOnly(all, bodies)
    requires ManifestBytes(codec, r) in bodies
    ensures ReferrerDescriptor(codec, r).digest in RepoOf(Run(codec, rs, all), r.name).manifests <==>
            |ManifestBytes(codec, r)| <= MAX_BYTES
  {
    AfterHistory(codec, rs, r, before, after, all, bodies);
    var repo := RepoOf(Run(codec, rs, all), r.name);
    var bytes := ManifestBytes(codec, r);
    if codec.digest(bytes) in repo.manifests {
      StoredMeansFits(codec, repo, bytes, bodies);
    }
  }

  /** An encoded manifest is at least as long as each of its annotations. */
  ghost predicate SpellsAnnotations(codec: Codec)
  {
    forall m: Manifest, key :: key in m.annotations ==> |m.annotations[key]| <= |codec.encode(m)|
  }

  /** With a valid subject, an artifact within the limit and an annotation beyond it PutReferrer
      reports success, and the digest it reports is not stored. */
  lemma LongAnnotationIsLost(codec: Codec, rs: Repos, r: Referrer, key: string, others: Others, later: seq<Request>,
      bodies: set<Bytes>)
    requires WellFormed(codec) && SpellsAnnotations(codec) && CollisionFree(codec, bodies)
    requires ValidDigest(r.subject) && |r.artifact| <= MAX_BYTES
    requires key in r.annotations && |r.annotations[key]| > MAX_BYTES
    requires AllSound(codec, rs) && StoresOnly(rs, bodies) && ManifestBytes(codec, r) in bodies
    requires SendsOnly(Interleaved(ReferrerRequests(codec, r), others, 5) + later, bodies)
    ensures var now := Run(codec, rs, Interleaved(ReferrerRequests(codec, r), others, 5) + later);
            && SentBy(codec, r) == 5
            && ReferrerDescriptor(codec, r).digest !in RepoOf(now, r.name).manifests
  {
    var ours := ReferrerRequests(codec, r);
    var before, all := Interleaved(ours, others, 4) + others(4), Interleaved(ours, others, 5) + later;
    assert Truncated(r.artifact) == r.artifact;
    CompletesIff(codec, r);
    CompletedIsHistory(codec, r, others, later);
    assert ReferrerManifest(codec, r).annotations == r.annotations;
    ReportedDigestIsStoredIff(codec, rs, r, before, later, all, bodies);
  }
}
