/** What the proxy refuses before a push: new repositories where none may be created, and protected tags. */
module Protection {
  import opened Prelude
  import opened Registry
  import opened PushHook
  import opened Glob

  datatype Mode = Rules | Immutable | Overwrite

  /** What the settings come to: the mode of a repository, whether a push may create it, and the rules if readable. */
  datatype Policy = Policy(mode: Name -> Mode, mayCreate: Name -> bool, rules: Option<seq<string>>)

  datatype Denial = CreateDisabled | TagProtected(pattern: string)

  const DIGEST_PREFIX := "sha256:"

  /** A reference that the protection is about: under a mode that has any, and not a digest. */
  predicate Guarded(policy: Policy, repo: Name, reference: string) {
    policy.mode(repo) != Overwrite && !(DIGEST_PREFIX <= reference)
  }

  /**
   * The verdict on repository and reference; `found` is the answer to the question whether the registry has
   * the reference, and a tag that it does not have is not protected.
   */
  function Judge(policy: Policy, known: set<Name>, found: bool, repo: Name, reference: string): Option<Denial> {
    if !policy.mayCreate(repo) && RowName(repo) !in known then Some(CreateDisabled)
    else if !Guarded(policy, repo, reference) || !found then None
    else
      var (bound, pattern) := Verdict(reference, policy.mode(repo) == Immutable, policy.rules);
      if bound then Some(TagProtected(pattern)) else None
  }

  /** The verdict on a push to this path. */
  function Guard(policy: Policy, known: set<Name>, found: bool, path: string): Option<Denial> {
    match HookRead(path)
    case None => None
    case Some((repo, reference)) => Judge(policy, known, found, repo, reference)
  }

  /** What the lookup before a push to this path asks for is there. */
  predicate Present(repos: Catalog, path: string) {
    match HookRead(path)
    case None => false
    case Some((repo, reference)) => RepoAt(repos, repo).Resolve(Named(reference)).Some?
  }

  /** The check in front of a push. A lookup that fails reads as one that finds nothing, and lets the push through. */
  method CheckPush(client: Upstream, cache: PatternCache, policy: Policy, known: set<Name>, path: string)
    returns (denial: Option<Denial>, found: bool)
    requires cache.Valid()
    modifies client`lookupFaults, cache
    ensures cache.Valid() && denial == Guard(policy, known, found, path)
    ensures found ==> Present(client.repos, path)
    ensures client.lookupFaults == old(client.lookupFaults) ==>
              denial == Guard(policy, known, Present(client.repos, path), path)
  {
    found := false;
    var read := HookRead(path);
    if read.None? {
      return None, false;
    }
    var (repo, reference) := read.value;
    if !policy.mayCreate(repo) && RowName(repo) !in known {
      return Some(CreateDisabled), false;
    }
    if !Guarded(policy, repo, reference) {
      return None, false;
    }
    var d := client.Digest(repo, Named(reference));
    found := d.Some?;
    if d.None? {
      return None, found;
    }
    var verdict := cache.CheckImmutableTag(reference, policy.mode(repo) == Immutable, policy.rules);
    denial := if verdict.0 then Some(TagProtected(verdict.1)) else None;
  }

  // ---- Which pushes it protects from ----

  /** Where the check looks for what protects a tag. */
  function JudgedAs(name: Name, tag: Tag): (Name, string) {
    if HasReserved(name) then (BeforeReserved(name), "manifests/" + tag) else (name, tag)
  }

  /** The mode of the repository, or a rule, protects the tag that the registry has. */
  ghost predicate Bound(policy: Policy, found: bool, repo: Name, reference: string) {
    found && match policy.mode(repo)
             case Overwrite => false
             case Immutable => true
             case Rules => policy.rules.Some? && exists i :: 0 <= i < |policy.rules.value| &&
                                                             GlobMatch(policy.rules.value[i], reference)
  }

  /** A push of a tag, as the check judges it in each of the three cases of its path. */
  lemma GuardCases(policy: Policy, known: set<Name>, found: bool, name: Name, tag: Tag)
    requires LegalTag(tag)
    ensures Guard(policy, known, found, PushPath(name, tag)) ==
            if HasReserved(name) && !EndsReserved(name) then None
            else Judge(policy, known, found, JudgedAs(name, tag).0, JudgedAs(name, tag).1)
  {
    PlainText(Named(tag));
    HookCases(name, tag);
  }

  lemma NoDigest(reference: string)
    requires ':' !in reference
    ensures !(DIGEST_PREFIX <= reference)
  {
    assert DIGEST_PREFIX[6] == ':';
    assert |reference| > 6 ==> reference[6] in reference;
  }

  /**
   * A push of a tag is refused as protected exactly if the check takes a repository from the path, may push
   * there, and mode or rules of that repository protect what it takes for the tag. A name with a segment
   * "manifests" elsewhere than at its end is never protected; one that ends with it, only by what protects a
   * longer tag of another repository.
   */
  lemma ProtectedIff(policy: Policy, known: set<Name>, found: bool, name: Name, tag: Tag)
    requires LegalTag(tag)
    ensures var (repo, reference) := JudgedAs(name, tag);
            var denial := Guard(policy, known, found, PushPath(name, tag));
            && (denial.Some? && denial.value.TagProtected? <==>
                && (HasReserved(name) ==> EndsReserved(name))
                && (policy.mayCreate(repo) || RowName(repo) in known)
                && Bound(policy, found, repo, reference))
            && (denial == Some(CreateDisabled) <==>
                && (HasReserved(name) ==> EndsReserved(name))
                && !policy.mayCreate(repo) && RowName(repo) !in known)
  {
    GuardCases(policy, known, found, name, tag);
    var (repo, reference) := JudgedAs(name, tag);
    assert forall c :: c in reference ==> c in tag || c in "manifests/";
    NoDigest(reference);
    if policy.rules.Some? {
      FirstMatchMeans(policy.rules.value, reference);
    }
  }

  /** Whatever the settings, a push is judged as the repository and tag it goes to. */
  ghost predicate JudgedRight(name: Name, tag: Tag) {
    forall policy, known, found ::
      Guard(policy, known, found, PushPath(name, tag)) == Judge(policy, known, found, name, tag)
  }

  /** That is so exactly if no segment of the name is "manifests". */
  lemma JudgedRightIff(name: Name, tag: Tag)
    requires LegalTag(tag)
    ensures JudgedRight(name, tag) <==> "manifests" !in Split(name, "/")
  {
    ReservedIsSegment(name);
    if HasReserved(name) {
      Unprotected(name, tag);
    } else {
      forall policy, known, found
        ensures Guard(policy, known, found, PushPath(name, tag)) == Judge(policy, known, found, name, tag)
      {
        GuardCases(policy, known, found, name, tag);
      }
    }
  }

  /** One repository is immutable; whoever may push may create. */
  function Freezing(repo: Name): Policy {
    Policy(n => if n == repo then Immutable else Overwrite, n => true, None)
  }

  /** The tags of such a repository can be pushed over all the same. */
  lemma Unprotected(name: Name, tag: Tag)
    requires LegalTag(tag) && HasReserved(name)
    ensures Judge(Freezing(name), {}, true, name, tag) == Some(TagProtected("repo-immutable"))
    ensures Guard(Freezing(name), {}, true, PushPath(name, tag)) == None
  {
    ShorterBefore(name);
    GuardCases(Freezing(name), {}, true, name, tag);
    NoDigest(tag);
  }

  /** Nothing protects the tags of team/manifests/app. */
  lemma NeverProtected(policy: Policy, known: set<Name>, found: bool)
    ensures Guard(policy, known, found, PushPath("team/manifests/app", "v1")) == None
  {
    SkippedName();
  }
}
