/** Which tags a failing registry can cost a tag-aware delete, known before the call. */
module OutageFacts {
  import opened Prelude
  import opened Registry
  import opened Store
  import opened DeleteSpec
  import opened DeleteFacts
  import opened Outages
  import opened TagDelete

  /** Some unselected tag is gone although no result warns about it. */
  ghost predicate LostSilently(r: Repo, after: Repo, selected: set<Ref>, results: seq<TagResult>) {
    exists t :: t in r.tags && Named(t) !in selected && t !in after.tags && !WarnedAbout(results, t)
  }

  /** Under this outage, an unselected tag the call does not know of is on a digest it deletes. */
  ghost predicate HiddenLoss(name: Name, r: Repo, selected: set<Ref>, down: set<Call>) {
    exists t :: t in r.tags && Named(t) !in selected && r.tags[t] in KeptUnder(name, r, selected, down) &&
        t !in SeenTags(name, r, down)
  }

  /** The two are the same for every call made during that outage. */
  lemma SilentIffHidden(name: Name, r: Repo, selected: set<Ref>, down: set<Call>, results: seq<TagResult>, trace: Trace)
    requires Delivered(r, selected, results, trace)
    requires TraceUnder(name, r, selected, down, trace)
    ensures LostSilently(r, AfterDelete(r, trace.kept), selected, results) <==> HiddenLoss(name, r, selected, down)
  {
    var after := AfterDelete(r, trace.kept);
    forall t | t in r.tags && Named(t) !in selected
      ensures t !in after.tags && !WarnedAbout(results, t) <==> r.tags[t] in trace.kept && t !in SeenTags(name, r, down)
    {
      UnselectedTag(r, selected, results, trace, t);
    }
  }

  /** Every digest the selection touches loses all of its tags. */
  ghost predicate NoSiblings(r: Repo, selected: set<Ref>) {
    forall d :: d in SelectedDigests(r, selected) ==> Survivors(r, selected, d) == {}
  }

  /**
   * The condition that can be known beforehand: no outage can cost an unselected tag without a warning
   * exactly if no selected digest has an unselected sibling.
   */
  lemma NothingLostSilentlyIff(name: Name, r: Repo, selected: set<Ref>)
    ensures (forall down :: !HiddenLoss(name, r, selected, down)) <==> NoSiblings(r, selected)
  {
    if d :| d in SelectedDigests(r, selected) && Survivors(r, selected, d) != {} {
      ListingDownLoses(name, r, selected, d);
      assert HiddenLoss(name, r, selected, {ListTags(name)});
    } else {
      OthersElsewhere(r, selected);
      forall down
        ensures !HiddenLoss(name, r, selected, down)
      {}
    }
  }

  /** Without siblings, unselected tags are on digests the selection does not touch. */
  lemma OthersElsewhere(r: Repo, selected: set<Ref>)
    requires NoSiblings(r, selected)
    ensures forall t :: t in r.tags && Named(t) !in selected ==> r.tags[t] !in SelectedDigests(r, selected)
  {
    forall t | t in r.tags && Named(t) !in selected
      ensures t in Survivors(r, selected, r.tags[t])
    {}
  }

  /** If only the listing is down, the siblings of every selected digest go with it. */
  lemma ListingDownLoses(name: Name, r: Repo, selected: set<Ref>, d: Digest)
    requires d in SelectedDigests(r, selected) && Survivors(r, selected, d) != {}
    ensures HiddenLoss(name, r, selected, {ListTags(name)})
  {
    var down := {ListTags(name)};
    var s :| s in selected && r.Resolve(s) == Some(d);
    assert SeenDigest(name, r, s, down) == Some(d);
    assert SeenSiblings(name, r, selected, down, d) == {};
    assert d in KeptUnder(name, r, selected, down);
    var t :| t in Survivors(r, selected, d);
    assert t !in SeenTags(name, r, down);
  }

  /** Whatever fails, and whenever: without siblings no unselected tag is touched at all. */
  lemma NothingToLose(r: Repo, selected: set<Ref>, results: seq<TagResult>, trace: Trace)
    requires Delivered(r, selected, results, trace) && NoSiblings(r, selected)
    ensures forall t :: Named(t) !in selected ==> SameTag(r, AfterDelete(r, trace.kept), t)
  {
    OthersElsewhere(r, selected);
    KeptAreSelected(r, selected, results, trace);
  }

  lemma KeptAreSelected(r: Repo, selected: set<Ref>, results: seq<TagResult>, trace: Trace)
    requires Delivered(r, selected, results, trace)
    ensures trace.kept.Keys <= SelectedDigests(r, selected)
  {
    OneResultEach(r, selected, results, trace);
    forall d | d in trace.kept
      ensures d in SelectedDigests(r, selected)
    {
      var x :| x in results && x.ok && r.Resolve(x.reference) == Some(d);
      assert x.reference in selected;
    }
  }

  /** The call itself, with nothing failing but what the outage names. */
  method DeleteDuring(name: Name, r: Repo, down: set<Call>, tags: seq<Ref>)
    returns (client: Upstream, results: seq<TagResult>, ghost trace: Trace)
    requires r.Valid()
    ensures Delivered(r, Selection(tags), results, trace) && TraceUnder(name, r, Selection(tags), down, trace)
    ensures client.At(name) == AfterDelete(r, trace.kept)
  {
    client := new Upstream(map[name := r], Fixed(down, call => Transport));
    var db := new Database(map[], map[], Anytime);
    var count;
    results, count, trace := DeleteTagsAware(client, db, name, tags);
  }

  /** A run of it: the listing fails, and deleting "a" takes its sibling "b" with it, reported as a clean delete. */
  method FailedListingLosesSibling() returns (client: Upstream, results: seq<TagResult>)
    ensures client.At("r").tags == map[]
    ensures results == [TagResult(Named("a"), DeleteAction, true, [])]
  {
    var m := Manifest("c", "m");
    var d := DigestOf(m);
    var r := Repo(map["a" := d, "b" := d], map[d := m]);
    ghost var trace;
    client, results, trace := DeleteDuring("r", r, {ListTags("r")}, [Named("a")]);
    ghost var selected := Selection([Named("a")]);
    assert Named("a") in [Named("a")] && selected == {Named("a")};
    WholeRepoGone(r, selected, d, results, trace);
  }

  /** What the answer must look like when the only selected tag was taken for the last one. */
  lemma WholeRepoGone(r: Repo, selected: set<Ref>, d: Digest, results: seq<TagResult>, trace: Trace)
    requires r == Repo(map["a" := d, "b" := d], r.manifests) && selected == {Named("a")}
    requires Delivered(r, selected, results, trace)
    requires TraceUnder("r", r, selected, {ListTags("r")}, trace)
    ensures AfterDelete(r, trace.kept).tags == map[]
    ensures results == [TagResult(Named("a"), DeleteAction, true, [])]
  {
    BothHidden(r, selected, d);
    assert AfterDelete(r, trace.kept).tags == map[];
    OneResultEach(r, selected, results, trace);
    OnlyResult(r, selected, d, results, trace);
  }

  lemma OnlyResult(r: Repo, selected: set<Ref>, d: Digest, results: seq<TagResult>, trace: Trace)
    requires selected == {Named("a")} && "a" in r.tags && r.tags["a"] == d && |results| == 1
    requires AllReported(r, trace, results)
    requires (forall x :: x in results ==> x.reference in selected && ResultFits(r, selected, trace, x))
    requires d in trace.kept && d in trace.full
    ensures results == [TagResult(Named("a"), DeleteAction, true, [])]
  {
    var x :| x in results && x.ok && r.Resolve(x.reference) == Some(d);
    assert results[0] == x && ResultFits(r, selected, trace, x);
  }

  lemma BothHidden(r: Repo, selected: set<Ref>, d: Digest)
    requires r == Repo(map["a" := d, "b" := d], r.manifests) && selected == {Named("a")}
    ensures KeptUnder("r", r, selected, {ListTags("r")}) == map[d := {}]
    ensures FullUnder("r", r, selected, {ListTags("r")}, SeenDigests("r", r, selected, {ListTags("r")})) == {d}
  {
    var down := {ListTags("r")};
    assert SeenDigest("r", r, Named("a"), down) == Some(d);
    assert SeenDigests("r", r, selected, down) == {d};
    assert SeenSiblings("r", r, selected, down, d) == {};
    assert Back("r", {}, down) == {};
  }
}
