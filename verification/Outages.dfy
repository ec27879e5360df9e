/** What a tag-aware delete does to the registry when a set of calls laid down beforehand fails. */
module Outages {
  import opened Prelude
  import opened Registry
  import opened DeleteSpec

  /** The digest a reference is seen to have. */
  ghost function SeenDigest(name: Name, r: Repo, reference: Ref, down: set<Call>): Option<Digest> {
    if LookUp(name, reference) in down then None else r.Resolve(reference)
  }

  /** The tags that are listed and can be looked up. */
  ghost function SeenTags(name: Name, r: Repo, down: set<Call>): set<Tag> {
    set t | t in r.tags && ListTags(name) !in down && LookUp(name, Named(t)) !in down
  }

  /** The digests of the selected references that can be looked up. */
  ghost function SeenDigests(name: Name, r: Repo, selected: set<Ref>, down: set<Call>): set<Digest> {
    set s | s in selected && SeenDigest(name, r, s, down).Some? :: SeenDigest(name, r, s, down).value
  }

  /** The survivors the call knows of. */
  ghost function SeenSiblings(name: Name, r: Repo, selected: set<Ref>, down: set<Call>, d: Digest): set<Tag> {
    set t | t in Survivors(r, selected, d) && t in SeenTags(name, r, down)
  }

  /** The digest is deleted: its siblings, if it seems to have any, need its manifest first. */
  ghost predicate Goes(name: Name, r: Repo, selected: set<Ref>, down: set<Call>, d: Digest) {
    && Delete(name, d) !in down
    && (SeenSiblings(name, r, selected, down, d) == {} || Fetch(name, ByDigest(d)) !in down)
  }

  /** The siblings that are pushed again. */
  ghost function Back(name: Name, tags: set<Tag>, down: set<Call>): set<Tag> {
    set t | t in tags && Push(name, Named(t)) !in down
  }

  /** The trace's `kept` for the digests in `digests`. */
  ghost function KeptOf(name: Name, r: Repo, selected: set<Ref>, down: set<Call>, digests: set<Digest>): map<Digest,
      set<Tag>> {
    map d | d in digests && Goes(name, r, selected, down, d) ::
        Back(name, SeenSiblings(name, r, selected, down, d), down)
  }

  /** The digests a call deletes, each with the tags that point at it again. */
  ghost function KeptUnder(name: Name, r: Repo, selected: set<Ref>, down: set<Call>): map<Digest, set<Tag>> {
    KeptOf(name, r, selected, down, SeenDigests(name, r, selected, down))
  }

  /** The digests whose last tags the call believes to remove. */
  ghost function FullUnder(name: Name, r: Repo, selected: set<Ref>, down: set<Call>,
                           digests: set<Digest>): set<Digest> {
    set d | d in digests && SeenSiblings(name, r, selected, down, d) == {}
  }

  /** One digest more. */
  ghost function KeptStep(kept: map<Digest, set<Tag>>, name: Name, r: Repo, selected: set<Ref>, down: set<Call>,
                          d: Digest)
    : map<Digest, set<Tag>>
  {
    if Goes(name, r, selected, down, d)
      then kept[d := Back(name, SeenSiblings(name, r, selected, down, d), down)]
      else kept
  }

  lemma KeptStepIs(kept: map<Digest, set<Tag>>, name: Name, r: Repo, selected: set<Ref>, down: set<Call>, d: Digest)
    ensures var siblings := SeenSiblings(name, r, selected, down, d);
            KeptStep(kept, name, r, selected, down, d) ==
            if siblings == {} then (if Delete(name, d) !in down then kept[d := {}] else kept)
            else if Delete(name, d) !in down && Fetch(name, ByDigest(d)) !in down then
                kept[d := Back(name, siblings, down)]
            else kept
  {
    assert Back(name, {}, down) == {};
  }

  /**
   * The whole outcome of a call under an outage: what it deletes and brings back, what it believes, and
   * what it does not know.
   */
  ghost predicate TraceUnder(name: Name, r: Repo, selected: set<Ref>, down: set<Call>, trace: Trace) {
    && trace.kept == KeptUnder(name, r, selected, down)
    && trace.full == FullUnder(name, r, selected, down, SeenDigests(name, r, selected, down))
    && HidesUnder(name, r, selected, down, trace)
  }

  /** On the deleted digests, the unselected tags a call does not know of are those the outage hides. */
  ghost predicate HidesUnder(name: Name, r: Repo, selected: set<Ref>, down: set<Call>, trace: Trace) {
    forall t :: t in r.tags && Named(t) !in selected && r.tags[t] in trace.kept ==>
      (Named(t) in trace.unseen <==> t !in SeenTags(name, r, down))
  }
}
