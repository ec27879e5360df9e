/** The upstream registry: what one repository holds, and the client calls that read and change it. */
module Registry {
  import opened Prelude

  type Name = string
  type Tag = string

  /** A digest identifies the bytes it was computed from; distinct contents have distinct digests. */
  datatype Digest = Empty | Sha256(content: string)

  /** A manifest reference: a tag, or a digest reference such as sha256:... */
  datatype Ref = Named(tag: Tag) | ByDigest(digest: Digest)

  datatype Manifest = Manifest(contentType: string, body: string)

  datatype Error = NotFound | Rejected(code: nat) | BlobUnknown | Transport

  const DEFAULT_CONTENT_TYPE := "application/vnd.docker.distribution.manifest.v2+json"

  function DigestOf(m: Manifest): Digest {
    Sha256(m.body)
  }

  datatype Repo = Repo(tags: map<Tag, Digest>, manifests: map<Digest, Manifest>) {
    /** Tags point at stored manifests, and manifests are stored under their own digest. */
    ghost predicate Valid() {
      && (forall t :: t in tags ==> tags[t] in manifests)
      && (forall d :: d in manifests ==>
            d == DigestOf(manifests[d]) && manifests[d].contentType != "" && manifests[d].body != "")
    }

    function Resolve(ref: Ref): Option<Digest> {
      match ref
      case Named(t) => if t in tags then Some(tags[t]) else None
      case ByDigest(d) => if d in manifests then Some(d) else None
    }

    ghost function TagsOf(d: Digest): set<Tag> {
      set t | t in tags && tags[t] == d
    }

    /** Deleting by digest wipes the manifest and every tag that points at it. */
    function Remove(d: Digest): Repo {
      Repo(map t | t in tags && tags[t] != d :: tags[t], manifests - {d})
    }

    predicate Accepts(ref: Ref, m: Manifest) {
      m.body != "" && (ref.ByDigest? ==> ref.digest == DigestOf(m))
    }

    /** Pushing stores the manifest and, under a tag, points the tag at it. */
    function Put(ref: Ref, m: Manifest): Repo {
      var stored := if m.contentType == "" then m.(contentType := DEFAULT_CONTENT_TYPE) else m;
      Repo(if ref.Named? then tags[ref.tag := DigestOf(m)] else tags, manifests[DigestOf(m) := stored])
    }
  }

  const EMPTY_REPO := Repo(map[], map[])

  type Catalog = map<Name, Repo>

  function RepoAt(c: Catalog, name: Name): Repo {
    if name in c then c[name] else EMPTY_REPO
  }

  ghost predicate ValidCatalog(c: Catalog) {
    forall n :: n in c ==> c[n].Valid()
  }

  lemma RemoveKeepsValid(r: Repo, d: Digest)
    requires r.Valid()
    ensures r.Remove(d).Valid()
  {}

  lemma PutKeepsValid(r: Repo, ref: Ref, m: Manifest)
    requires r.Valid() && r.Accepts(ref, m)
    ensures r.Put(ref, m).Valid()
  {}

  /** What was pushed is what is fetched, under its reference and its digest; nothing else resolves differently. */
  lemma PushedIsFetched(r: Repo, ref: Ref, m: Manifest, other: Ref)
    requires r.Valid() && r.Accepts(ref, m)
    ensures var r' := r.Put(ref, m);
            r'.Resolve(other) == if other in {ref, ByDigest(DigestOf(m))} then Some(DigestOf(m)) else r.Resolve(other)
    ensures var got := r.Put(ref, m).manifests[DigestOf(m)];
            && got.body == m.body
            && got.contentType == if m.contentType != "" then m.contentType
                                  else "application/vnd.docker.distribution.manifest.v2+json"
  {}

  /** After a delete exactly the references to that digest resolve to nothing; no other resolves differently. */
  lemma RemovedIsGone(r: Repo, d: Digest, ref: Ref)
    ensures r.Remove(d).Resolve(ref) == if r.Resolve(ref) == Some(d) then None else r.Resolve(ref)
  {}

  /** The calls the client makes, by what they are about. */
  datatype Call =
    | ListTags(repo: Name)
    | LookUp(repo: Name, reference: Ref)
    | Fetch(repo: Name, reference: Ref)
    | Delete(repo: Name, digest: Digest)
    | Push(repo: Name, reference: Ref)

  /** Any way a call can fail other than the manifest not being there. */
  type Cause = e: Error | e != NotFound witness Transport

  /** Which calls fail: any, at any time, or exactly those in a set laid down beforehand, each for a fixed cause. */
  datatype Outage = Unforeseen | Fixed(down: set<Call>, cause: Call -> Cause)

  /**
   * The registry behind its HTTP client. Any call may fail, subject to `outage`; a failed call changes
   * nothing, and an answer is accurate. `lookupFaults` counts the tag listings and digest lookups that
   * failed, `callFaults` the other calls.
   */
  class Upstream {
    const outage: Outage
    var repos: Catalog
    ghost var lookupFaults: nat
    ghost var callFaults: nat

    constructor (repos: Catalog, outage: Outage)
      ensures this.repos == repos && this.outage == outage
      ensures lookupFaults == 0 && callFaults == 0
    {
      this.repos := repos;
      this.outage := outage;
      lookupFaults, callFaults := 0, 0;
    }

    ghost predicate Valid()
      reads `repos
    {
      ValidCatalog(repos)
    }

    function At(name: Name): Repo
      reads `repos
    {
      RepoAt(repos, name)
    }

    /** Whether this call fails, and why. */
    method Fails(call: Call) returns (failed: Option<Cause>)
      ensures outage.Fixed? ==> failed == if call in outage.down then Some(outage.cause(call)) else None
    {
      failed := None;
      if outage.Fixed? {
        if call in outage.down {
          failed := Some(outage.cause(call));
        }
      } else if * {
        var cause: Cause := *;
        failed := Some(cause);
      }
    }

    method Tags(name: Name) returns (r: Result<seq<Tag>, Error>)
      modifies `lookupFaults
      ensures r.Success? ==> name in repos && Distinct(r.value) && Elements(r.value) == At(name).tags.Keys
      ensures r == Failure(NotFound) ==> name !in repos
      ensures lookupFaults == old(lookupFaults) <==> r.Success? || r == Failure(NotFound)
      ensures lookupFaults >= old(lookupFaults)
      ensures outage.Fixed? ==> (lookupFaults == old(lookupFaults) <==> ListTags(name) !in outage.down)
      ensures outage.Fixed? && ListTags(name) in outage.down ==> r == Failure(outage.cause(ListTags(name)))
    {
      var failed := Fails(ListTags(name));
      if failed.Some? {
        lookupFaults := lookupFaults + 1;
        return Failure(failed.value);
      }
      if name !in repos {
        return Failure(NotFound);
      }
      var tags := Enumerate(repos[name].tags.Keys);
      r := Success(tags);
    }

    method Digest(name: Name, ref: Ref) returns (d: Option<Digest>)
      modifies `lookupFaults
      ensures d.Some? ==> d == At(name).Resolve(ref)
      ensures lookupFaults == old(lookupFaults) <==> d == At(name).Resolve(ref)
      ensures lookupFaults >= old(lookupFaults)
      ensures outage.Fixed? ==> d == if LookUp(name, ref) in outage.down then None else At(name).Resolve(ref)
    {
      d := At(name).Resolve(ref);
      var failed := Fails(LookUp(name, ref));
      if d.Some? && failed.Some? {
        lookupFaults := lookupFaults + 1;
        d := None;
      }
    }

    method ManifestRaw(name: Name, ref: Ref) returns (r: Result<Manifest, Error>)
      requires Valid()
      modifies `callFaults
      ensures r.Success? ==> At(name).Resolve(ref).Some? && At(name).Resolve(ref).value in At(name).manifests
      ensures r.Success? ==> r.value == At(name).manifests[At(name).Resolve(ref).value]
      ensures r == Failure(NotFound) ==> At(name).Resolve(ref).None?
      ensures callFaults == old(callFaults) <==> r.Success? || r == Failure(NotFound)
      ensures callFaults >= old(callFaults)
      ensures outage.Fixed? ==> (callFaults == old(callFaults) <==> Fetch(name, ref) !in outage.down)
      ensures outage.Fixed? && Fetch(name, ref) in outage.down ==> r == Failure(outage.cause(Fetch(name, ref)))
    {
      var failed := Fails(Fetch(name, ref));
      if failed.Some? {
        callFaults := callFaults + 1;
        return Failure(failed.value);
      }
      var d := At(name).Resolve(ref);
      if d.None? {
        return Failure(NotFound);
      }
      r := Success(At(name).manifests[d.value]);
    }

    method DeleteManifest(name: Name, d: Digest) returns (err: Option<Error>)
      requires Valid()
      modifies `repos, `callFaults
      ensures Valid()
      ensures err.None? ==> name in old(repos) && d in old(At(name)).manifests
      ensures err.None? ==> repos == old(repos)[name := old(At(name)).Remove(d)]
      ensures err.Some? ==> repos == old(repos)
      ensures err == Some(NotFound) ==> d !in old(At(name)).manifests
      ensures callFaults == old(callFaults) <==> err.None? || err == Some(NotFound)
      ensures callFaults >= old(callFaults)
      ensures outage.Fixed? ==> (callFaults == old(callFaults) <==> Delete(name, d) !in outage.down)
      ensures outage.Fixed? && Delete(name, d) in outage.down ==> err == Some(outage.cause(Delete(name, d)))
    {
      var failed := Fails(Delete(name, d));
      if failed.Some? {
        callFaults := callFaults + 1;
        return Some(failed.value);
      }
      if d !in At(name).manifests {
        return Some(NotFound);
      }
      RemoveKeepsValid(repos[name], d);
      repos := repos[name := repos[name].Remove(d)];
      err := None;
    }

    method PutManifest(name: Name, ref: Ref, m: Manifest) returns (err: Option<Error>)
      requires Valid()
      modifies `repos, `callFaults
      ensures Valid()
      ensures err.None? ==> old(At(name)).Accepts(ref, m)
      ensures err.None? ==> repos == old(repos)[name := old(At(name)).Put(ref, m)]
      ensures err.Some? ==> repos == old(repos)
      ensures callFaults == old(callFaults) ==>
                err == if old(At(name)).Accepts(ref, m) then None else Some(Rejected(400))
      ensures err.None? ==> callFaults == old(callFaults)
      ensures callFaults >= old(callFaults)
      ensures outage.Fixed? ==> (callFaults == old(callFaults) <==> Push(name, ref) !in outage.down)
      ensures outage.Fixed? && Push(name, ref) in outage.down ==> err == Some(outage.cause(Push(name, ref)))
    {
      var failed := Fails(Push(name, ref));
      if failed.Some? {
        callFaults := callFaults + 1;
        return Some(failed.value);
      }
      if !At(name).Accepts(ref, m) {
        return Some(Rejected(400));
      }
      PutKeepsValid(At(name), ref, m);
      repos := repos[name := At(name).Put(ref, m)];
      err := None;
    }
  }
}
