/**
 * What a tag-aware delete means. The registry only deletes whole digests, so removing one tag is
 * simulated by deleting its digest and re-pushing the manifest under the tags that were meant to stay.
 */
module DeleteSpec {
  import opened Prelude
  import opened Registry
  import opened Store

  datatype Action = NoAction | DeleteAction | UntagAction

  /** The outcome for one selected reference; `warning` names siblings whose re-push failed. */
  datatype TagResult = TagResult(reference: Ref, action: Action, ok: bool, warning: seq<Tag>)

  /**
   * What one call did: for each digest it deleted, the tags that point at it again (`kept`); the
   * digests it believed to lose their last tag (`full`); the references it could not see because a
   * read failed (`unseen`); and the tags it copied to the recycle bin (`snapped`).
   */
  datatype Trace = Trace(kept: map<Digest, set<Tag>>, full: set<Digest>, unseen: set<Ref>, snapped: set<Tag>)

  // ---- Closed forms ----

  /** The repository once every digest in `kept` was deleted and re-pushed under just those tags. */
  ghost function AfterDelete(r: Repo, kept: map<Digest, set<Tag>>): Repo {
    Repo(map t | t in r.tags && (r.tags[t] in kept ==> t in kept[r.tags[t]]) :: r.tags[t],
         map d | d in r.manifests && (d in kept ==> kept[d] != {}) :: r.manifests[d])
  }

  ghost function SnapshotKeys(name: Name, r: Repo, tags: set<Tag>): set<BinKey> {
    set t | t in tags && t in r.tags && r.tags[t] in r.manifests :: BinKey(name, Named(t), r.tags[t])
  }

  /** The bin with one pending row for each of `tags`, whatever those rows held before. */
  ghost function Snapshotted(bin: Bin, name: Name, r: Repo, tags: set<Tag>): Bin {
    map k | k in bin.Keys + SnapshotKeys(name, r, tags) ::
      if k in SnapshotKeys(name, r, tags) && k.digest in r.manifests
        then BinRow(PendingGC, r.manifests[k.digest], if k in bin then bin[k].attempts else 0)
        else bin[k]
  }

  /** The tags that share digest `d` with a selected reference without being selected. */
  ghost function Survivors(r: Repo, selected: set<Ref>, d: Digest): set<Tag> {
    set t | t in r.tags && r.tags[t] == d && Named(t) !in selected
  }

  ghost function SelectedDigests(r: Repo, selected: set<Ref>): set<Digest> {
    set s | s in selected && r.Resolve(s).Some? :: r.Resolve(s).value
  }

  ghost function FullDigests(r: Repo, selected: set<Ref>): set<Digest> {
    set d | d in SelectedDigests(r, selected) && Survivors(r, selected, d) == {}
  }

  /** The trace of a call in which nothing failed. */
  ghost function CleanTrace(r: Repo, selected: set<Ref>): Trace {
    Trace(map d | d in SelectedDigests(r, selected) :: Survivors(r, selected, d),
          FullDigests(r, selected),
          {},
          set t | t in r.tags && r.tags[t] in FullDigests(r, selected))
  }

  /** cleanupRepoDB refuses names that could escape the repository root. */
  predicate Cleanable(name: Name) {
    name != "" && forall i :: 0 <= i < |name| - 1 ==> !(name[i] == '.' && name[i + 1] == '.')
  }

  /** The references removed from digests that keep other tags. */
  ghost function UntaggedRefs(r: Repo, selected: set<Ref>, digests: set<Digest>): set<Ref> {
    set s | s in selected && r.Resolve(s).Some? && r.Resolve(s).value in digests &&
            Survivors(r, selected, r.Resolve(s).value) != {}
  }

  /** The images table once the selected references on `digests` have been processed. */
  ghost function CleanImages(images: Images, name: Name, r: Repo, selected: set<Ref>, digests: set<Digest>): Images {
    var full := digests * FullDigests(r, selected);
    if full != {} && Cleanable(name) && (forall t :: t in r.tags ==> r.tags[t] in full)
    then images - {name}
    else SoftDeleteIn(images, name, UntaggedRefs(r, selected, digests), full)
  }

  /** The images table once every row of `digest` is soft-deleted, and the whole entry dropped if no tag is left. */
  ghost function WithoutDigest(images: Images, name: Name, digest: Digest, noTags: bool): Images {
    if noTags && Cleanable(name) then images - {name} else SoftDeleteIn(images, name, {}, {digest})
  }

  ghost function ImagesStep(images: Images, name: Name, digest: Digest, refs: set<Ref>, full: bool,
                            noTags: bool): Images {
    if full then WithoutDigest(images, name, digest, noTags) else SoftDeleteIn(images, name, refs, {})
  }

  // ---- The contract of a call ----

  /** What the caller asked for: repetitions and empty strings do not count. */
  function Selection(selectedTags: seq<Ref>): set<Ref> {
    (set s | s in selectedTags) - {Named("")}
  }

  ghost function References(results: seq<TagResult>): seq<Ref> {
    seq(|results|, i requires 0 <= i < |results| => results[i].reference)
  }

  /** Exactly one result for each of `refs`. */
  ghost predicate OnePer(results: seq<TagResult>, refs: set<Ref>) {
    Distinct(References(results)) && Elements(References(results)) == refs
  }

  /** What one result claims is what happened to the digest it is about. */
  ghost predicate ResultFits(r: Repo, selected: set<Ref>, trace: Trace, x: TagResult) {
    match r.Resolve(x.reference)
    case None => x == TagResult(x.reference, NoAction, false, [])
    case Some(d) =>
      if x.ok then
        && d in trace.kept
        && x.action == (if d in trace.full then DeleteAction else UntagAction)
        && (forall t :: t in Survivors(r, selected, d) ==>
            t in trace.kept[d] || t in x.warning || Named(t) in trace.unseen)
        && (forall t :: t in x.warning ==> t in Survivors(r, selected, d) - trace.kept[d] && Named(t) !in trace.unseen)
        && (d in trace.full ==> x.warning == [])
      else
        && x.warning == []
        && (d in trace.kept ==> x.reference in trace.unseen)
        && (if x.action == NoAction then x.reference in trace.unseen
            else x.action == (if d in trace.full then DeleteAction else UntagAction))
  }

  /** Every digest that was deleted has a result that says so. */
  ghost predicate AllReported(r: Repo, trace: Trace, results: seq<TagResult>) {
    forall d :: d in trace.kept ==> exists x :: x in results && x.ok && r.Resolve(x.reference) == Some(d)
  }

  /** `kept` only restores unselected tags, a last-tag digest has no visible sibling, and only its tags are copied. */
  ghost predicate TraceFits(r: Repo, selected: set<Ref>, trace: Trace) {
    && (forall d :: d in trace.kept ==> d in r.manifests && trace.kept[d] <= Survivors(r, selected, d))
    && (forall d, t :: d in trace.kept && t in trace.kept[d] ==> Named(t) !in trace.unseen)
    && (forall d :: d in trace.full ==> forall t :: t in Survivors(r, selected, d) ==> Named(t) in trace.unseen)
    && (forall d :: d in trace.full && d in trace.kept ==> trace.kept[d] == {})
    && (forall t :: t in trace.snapped ==> t in r.tags && r.tags[t] in trace.full)
  }

  /** Only repository `name` differs, and it now is `repo`. */
  ghost predicate Replaced(before: Catalog, after: Catalog, name: Name, repo: Repo) {
    && (name in after <==> name in before)
    && RepoAt(after, name) == repo
    && forall n :: n != name ==> (n in after <==> n in before) && (n in before ==> after[n] == before[n])
  }

  // ---- Facts about the closed forms ----

  lemma AfterDeleteNothing(r: Repo)
    ensures AfterDelete(r, map[]) == r
  {}

  lemma AfterDeleteIsRemove(r: Repo, d: Digest)
    ensures AfterDelete(r, map[d := {}]) == r.Remove(d)
  {}

  /** Re-pushing one more tag of the digest puts that tag back. */
  lemma RepushOne(r: Repo, d: Digest, pushed: set<Tag>, t: Tag)
    requires r.Valid() && t in r.TagsOf(d) && pushed <= r.TagsOf(d)
    ensures AfterDelete(r, map[d := pushed]).Put(Named(t), r.manifests[d]) == AfterDelete(r, map[d := pushed + {t}])
  {
    var a := AfterDelete(r, map[d := pushed]).Put(Named(t), r.manifests[d]);
    var b := AfterDelete(r, map[d := pushed + {t}]);
    assert a.tags == b.tags by {
      assert forall u :: u in r.tags && r.tags[u] == d && u != t ==> (u in pushed <==> u in pushed + {t});
    }
    assert a.manifests == b.manifests;
  }

  lemma AfterDeleteCompose(r: Repo, kept: map<Digest, set<Tag>>, d: Digest, tags: set<Tag>)
    requires d !in kept
    ensures AfterDelete(AfterDelete(r, kept), map[d := tags]) == AfterDelete(r, kept[d := tags])
  {
    var a := AfterDelete(AfterDelete(r, kept), map[d := tags]);
    var b := AfterDelete(r, kept[d := tags]);
    assert a.tags == b.tags;
    assert a.manifests == b.manifests;
  }

  lemma AfterDeleteValid(r: Repo, kept: map<Digest, set<Tag>>)
    requires r.Valid()
    ensures AfterDelete(r, kept).Valid()
  {}

  lemma SnapshotNothing(bin: Bin, name: Name, r: Repo)
    ensures Snapshotted(bin, name, r, {}) == bin
  {}

  lemma SnapshotOneMore(bin: Bin, name: Name, r: Repo, tags: set<Tag>, t: Tag)
    requires r.Valid() && t in r.tags && t !in tags
    ensures Snapshotted(bin, name, r, tags + {t})
         == AddItem(Snapshotted(bin, name, r, tags), BinKey(name, Named(t), r.tags[t]), r.manifests[r.tags[t]])
  {
    var k := BinKey(name, Named(t), r.tags[t]);
    assert SnapshotKeys(name, r, tags + {t}) == SnapshotKeys(name, r, tags) + {k};
    assert k !in SnapshotKeys(name, r, tags);
  }

  lemma SnapshotCompose(bin: Bin, name: Name, r: Repo, a: set<Tag>, b: set<Tag>)
    requires a !! b
    ensures Snapshotted(Snapshotted(bin, name, r, a), name, r, b) == Snapshotted(bin, name, r, a + b)
  {
    assert SnapshotKeys(name, r, a + b) == SnapshotKeys(name, r, a) + SnapshotKeys(name, r, b);
    assert SnapshotKeys(name, r, a) !! SnapshotKeys(name, r, b);
  }

  /** Only the tags being copied matter to a snapshot. */
  lemma SnapshotFrame(bin: Bin, name: Name, r: Repo, q: Repo, d: Digest, tags: set<Tag>)
    requires tags <= r.TagsOf(d) && tags <= q.TagsOf(d)
    requires d in r.manifests && d in q.manifests && r.manifests[d] == q.manifests[d]
    ensures Snapshotted(bin, name, r, tags) == Snapshotted(bin, name, q, tags)
  {
    assert SnapshotKeys(name, r, tags) == SnapshotKeys(name, q, tags);
    forall k | k in SnapshotKeys(name, r, tags)
      ensures k.digest == d
    {}
  }

  lemma OnePerAppend(a: seq<TagResult>, refsA: set<Ref>, b: seq<TagResult>, refsB: set<Ref>)
    requires OnePer(a, refsA) && OnePer(b, refsB) && refsA !! refsB
    ensures OnePer(a + b, refsA + refsB)
  {
    var ra, rb := References(a), References(b);
    assert References(a + b) == ra + rb;
    forall i, j | 0 <= i < j < |ra + rb|
      ensures (ra + rb)[i] != (ra + rb)[j]
    {
      if i < |ra| <= j {
        assert ra[i] in Elements(ra) && rb[j - |ra|] in Elements(rb);
      }
    }
    assert Elements(ra + rb) == Elements(ra) + Elements(rb);
  }
}
