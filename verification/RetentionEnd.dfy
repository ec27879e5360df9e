/** Where a retention run in which nothing failed leaves the three stores. */
module RetentionEnd {
  import opened Prelude
  import opened Registry
  import opened Store
  import opened DeleteSpec
  import opened System
  import opened Sweep
  import opened Deleting
  import opened IndexFacts
  import opened Retention
  import opened RetentionFacts
  import opened RetentionRun

  lemma {:induction false} GroupMembers(images: seq<Image>, registryTags: set<Tag>, d: Digest, ref: Ref)
    ensures ref in GroupTags(images, registryTags, d)
       <==> exists img :: img in images && Eligible(img, registryTags) && img.digest == d && img.reference == ref
    decreases |images|
  {
    if images != [] {
      var init, last := images[..|images| - 1], images[|images| - 1];
      assert images == init + [last];
      GroupMembers(init, registryTags, d, ref);
    }
  }

  lemma {:induction false} AllTagsMembers(candidates: seq<Candidate>, ref: Ref)
    ensures ref in AllTags(candidates) <==> exists c :: c in candidates && ref in c.tags
  {
    if candidates != [] {
      var init, last := candidates[..|candidates| - 1], candidates[|candidates| - 1];
      assert candidates == init + [last];
      AllTagsMembers(init, ref);
    }
  }

  /** The rows handed to the selection are the registry's tags, one row each. */
  ghost predicate RowsMatch(images: seq<Image>, r: Repo) {
    && (forall img :: img in images && Eligible(img, r.tags.Keys) ==> img.digest == r.tags[img.reference.tag])
    && forall t :: t in r.tags ==> exists img ::
        img in images && Eligible(img, r.tags.Keys) && img.reference == Named(t)
  }

  lemma AgreementMatches(s: State, name: Name, images: seq<Image>)
    requires Sound(s) && name in s.repos && AgreesAt(s, name)
    requires Elements(images) == LiveImages(RowsAt(s.images, name))
    ensures RowsMatch(images, s.repos[name])
  {
    var r, rows, view := s.repos[name], RowsAt(s.images, name), View(s.images, name);
    assert forall img :: img in images <==> img in Elements(images);
    forall t | t in r.tags
      ensures exists img :: img in images && Eligible(img, r.tags.Keys) && img.reference == Named(t)
    {
      assert t in view;
      assert Image(Named(t), rows[Named(t)].digest, rows[Named(t)].createdAt) in images;
    }
    forall img | img in images && Eligible(img, r.tags.Keys)
      ensures img.digest == r.tags[img.reference.tag]
    {
      assert img.reference.tag in view;
    }
  }

  /** Then the groups are the tagged digests, and each group holds exactly its digest's tags. */
  lemma GroupsAreLive(images: seq<Image>, r: Repo)
    requires RowsMatch(images, r)
    ensures GroupDigests(images, r.tags.Keys) == Live(r)
    ensures forall d, ref :: ref in GroupTags(images, r.tags.Keys, d) <==> ref.Named? && ref.tag in r.TagsOf(d)
  {
    forall d, ref
      ensures ref in GroupTags(images, r.tags.Keys, d) <==> ref.Named? && ref.tag in r.TagsOf(d)
    {
      GroupMembers(images, r.tags.Keys, d, ref);
    }
  }

  /** The run selects whole digests: all tags of the removed ones and no other tag. */
  lemma SelectsWholeDigests(images: seq<Image>, r: Repo, candidates: seq<Candidate>)
    requires r.Valid() && "" !in r.tags && RowsMatch(images, r)
    requires forall c :: c in candidates ==> IsGroup(images, r.tags.Keys, c)
    ensures forall ref :: ref in Selection(AllTags(candidates)) <==>
              ref.Named? && ref.tag in r.tags && r.tags[ref.tag] in Digests(candidates)
    ensures Digests(candidates) <= Live(r)
  {
    GroupsAreLive(images, r);
    forall ref
      ensures ref in Selection(AllTags(candidates)) <==>
                ref.Named? && ref.tag in r.tags && r.tags[ref.tag] in Digests(candidates)
    {
      AllTagsMembers(candidates, ref);
    }
  }

  /** Deleting whole digests leaves the other digests, with all their tags, and copies every tag that goes. */
  lemma WholeDigestsGone(r: Repo, selected: set<Ref>, gone: set<Digest>)
    requires r.Valid() && gone <= Live(r)
    requires forall ref :: ref in selected <==> ref.Named? && ref.tag in r.tags && r.tags[ref.tag] in gone
    ensures CleanTrace(r, selected).kept == map d | d in gone :: {}
    ensures CleanTrace(r, selected).snapped == set t | t in r.tags && r.tags[t] in gone
  {
    assert SelectedDigests(r, selected) == gone by {
      forall d | d in gone
        ensures d in SelectedDigests(r, selected)
      {
        var t :| t in r.tags && r.tags[t] == d;
        assert r.Resolve(Named(t)) == Some(d);
      }
    }
    assert forall d :: d in gone ==> Survivors(r, selected, d) == {};
    assert FullDigests(r, selected) == gone;
  }

  /** Every tag `r` had and `r'` lacks has a pending row with the manifest it pointed at. */
  ghost predicate EveryLossCopied(bin: Bin, name: Name, r: Repo, r': Repo) {
    forall t :: t in r.tags && t !in r'.tags ==>
      var k := BinKey(name, Named(t), r.tags[t]);
      k in bin && bin[k].status == PendingGC && r.tags[t] in r.manifests && bin[k].manifest == r.manifests[r.tags[t]]
  }

  /**
   * Exactly min(keepCount, n) of the n tagged digests are left, each with all its tags; the others are
   * gone with all of theirs, none of them newer than one that stays.
   */
  ghost predicate NewestKept(images: seq<Image>, keepCount: nat, r: Repo, r': Repo) {
    && Live(r') <= Live(r)
    && |Live(r')| == (if keepCount <= |Live(r)| then keepCount else |Live(r)|)
    && (forall d :: d in Live(r') ==> r'.TagsOf(d) == r.TagsOf(d))
    && (forall d :: d in Live(r) - Live(r') ==> d !in r'.manifests)
    && (forall d, e :: d in Live(r') && e in Live(r) - Live(r') ==>
          Latest(images, r.tags.Keys, d) >= Latest(images, r.tags.Keys, e))
  }

  /**
   * Where a failure-free run leaves a repository whose images table agrees with the registry: only the
   * newest digests are left, whole, every removed tag can be restored, and the table agrees again.
   */
  lemma RetentionEndState(s: State, name: Name, keepCount: int, images: seq<Image>, candidates: seq<Candidate>,
                          s': State)
    requires Sound(s) && AgreesAt(s, name) && name in s.repos && "" !in s.repos[name].tags && keepCount > 0
    requires RetainedClean(s, name, keepCount, images, candidates, s')
    ensures NewestKept(images, keepCount, s.repos[name], RepoAt(s'.repos, name))
    ensures EveryLossCopied(s'.bin, name, s.repos[name], RepoAt(s'.repos, name))
    ensures AgreesAt(s', name)
  {
    var r, selected, gone := s.repos[name], Selection(AllTags(candidates)), Digests(candidates);
    AgreementMatches(s, name, images);
    SelectsWholeDigests(images, r, candidates);
    WholeDigestsGone(r, selected, gone);
    SelectionKeepsNewest(images, keepCount, r, candidates);
    LossesCopied(s, name, selected, gone);
    DeleteTagsAgrees(s, name, selected, name);
  }

  lemma SelectionKeepsNewest(images: seq<Image>, keepCount: nat, r: Repo, candidates: seq<Candidate>)
    requires RowsMatch(images, r) && ValidSelection(images, keepCount, r.tags.Keys, candidates)
    ensures NewestKept(images, keepCount, r, AfterDelete(r, map d | d in Digests(candidates) :: {}))
  {
    GroupsAreLive(images, r);
    KeptOfLive(images, keepCount, r, candidates);
    LiveAfter(r, Digests(candidates));
  }

  /** How many digests stay, and which. */
  lemma KeptOfLive(images: seq<Image>, keepCount: nat, r: Repo, candidates: seq<Candidate>)
    requires GroupDigests(images, r.tags.Keys) == Live(r) && ValidSelection(images, keepCount, r.tags.Keys, candidates)
    ensures Digests(candidates) <= Live(r)
    ensures |Live(r) - Digests(candidates)| == if keepCount <= |Live(r)| then keepCount else |Live(r)|
    ensures forall d, e :: d in Live(r) - Digests(candidates) && e in Digests(candidates) ==>
              Latest(images, r.tags.Keys, d) >= Latest(images, r.tags.Keys, e)
  {
    KeptSize(images, keepCount, r.tags.Keys, candidates);
    SubsetSize(Digests(candidates), Live(r));
  }

  lemma LiveAfter(r: Repo, gone: set<Digest>)
    requires gone <= Live(r)
    ensures var r' := AfterDelete(r, map d | d in gone :: {});
            && Live(r') == Live(r) - gone
            && (forall d :: d in Live(r') ==> r'.TagsOf(d) == r.TagsOf(d))
            && (forall d :: d in gone ==> d !in r'.manifests)
  {
    var r' := AfterDelete(r, map d | d in gone :: {});
    assert forall t :: t in r'.tags <==> t in r.tags && r.tags[t] !in gone;
    assert forall t :: t in r'.tags ==> r'.tags[t] == r.tags[t];
    assert forall t :: t in r.tags ==> r.tags[t] in Live(r);
  }

  lemma LossesCopied(s: State, name: Name, selected: set<Ref>, gone: set<Digest>)
    requires Sound(s) && name in s.repos
    requires CleanTrace(s.repos[name], selected).kept == map d | d in gone :: {}
    requires CleanTrace(s.repos[name], selected).snapped ==
             set t | t in s.repos[name].tags && s.repos[name].tags[t] in gone
    ensures EveryLossCopied(DeleteTagsClean(s, name, selected).bin, name, s.repos[name],
                            RepoAt(DeleteTagsClean(s, name, selected).repos, name))
  {
    var r, r' := s.repos[name], RepoAt(DeleteTagsClean(s, name, selected).repos, name);
    forall t | t in r.tags && t !in r'.tags
      ensures BinKey(name, Named(t), r.tags[t]) in SnapshotKeys(name, r, CleanTrace(r, selected).snapped)
    {}
  }
}
