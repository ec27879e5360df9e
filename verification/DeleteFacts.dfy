/** What callers of a tag-aware delete may rely on, whichever calls failed. */
module DeleteFacts {
  import opened Prelude
  import opened Registry
  import opened DeleteSpec

  /** The contract of DeleteTagsAware, for a repository that held `r`. */
  ghost predicate Delivered(r: Repo, selected: set<Ref>, results: seq<TagResult>, trace: Trace) {
    && r.Valid()
    && TraceFits(r, selected, trace)
    && OnePer(results, selected)
    && (forall x :: x in results ==> ResultFits(r, selected, trace, x))
    && AllReported(r, trace, results)
  }

  ghost predicate SameTag(before: Repo, after: Repo, t: Tag) {
    && (t in before.tags <==> t in after.tags)
    && (t in before.tags ==> after.tags[t] == before.tags[t])
  }

  ghost predicate WarnedAbout(results: seq<TagResult>, t: Tag) {
    exists x :: x in results && x.ok && t in x.warning
  }

  /**
   * What a caller may conclude from the results alone: tags reported Ok are gone, the others are
   * untouched, an unselected tag keeps its digest exactly if no warning names it, and a digest whose
   * last tag went is gone too.
   */
  ghost predicate Exact(r: Repo, after: Repo, selected: set<Ref>, results: seq<TagResult>) {
    && after.Valid()
    && (forall x :: x in results && x.reference.Named? ==>
          if x.ok then x.reference.tag !in after.tags else SameTag(r, after, x.reference.tag))
    && (forall t :: Named(t) !in selected ==> (SameTag(r, after, t) <==> !WarnedAbout(results, t)))
    && (forall x :: x in results && x.ok && x.action == DeleteAction ==>
          r.Resolve(x.reference).Some? && r.Resolve(x.reference).value !in after.manifests)
  }

  /** One distinct result per distinct, non-empty selected reference. */
  lemma OneResultEach(r: Repo, selected: set<Ref>, results: seq<TagResult>, trace: Trace)
    requires Delivered(r, selected, results, trace)
    ensures |results| == |selected|
    ensures forall s :: s in selected <==> exists x :: x in results && x.reference == s
    ensures forall x, y :: x in results && y in results && x.reference == y.reference ==> x == y
  {
    var refs := References(results);
    DistinctSize(refs);
    forall s | s in selected
      ensures exists x :: x in results && x.reference == s
    {
      assert s in Elements(refs);
      var i :| 0 <= i < |refs| && refs[i] == s;
      assert results[i] in results;
    }
    forall x | x in results
      ensures x.reference in selected
    {
      var i :| 0 <= i < |results| && results[i] == x;
      assert refs[i] in Elements(refs);
    }
    forall x, y | x in results && y in results && x.reference == y.reference
      ensures x == y
    {
      var i :| 0 <= i < |results| && results[i] == x;
      var j :| 0 <= j < |results| && results[j] == y;
      assert refs[i] == refs[j];
    }
  }

  /** Exactness whatever writes fail, provided nothing stayed unseen. */
  lemma ExactWhenReadsAnswer(r: Repo, selected: set<Ref>, results: seq<TagResult>, trace: Trace)
    requires Delivered(r, selected, results, trace) && trace.unseen == {}
    ensures Exact(r, AfterDelete(r, trace.kept), selected, results)
  {
    var after := AfterDelete(r, trace.kept);
    OneResultEach(r, selected, results, trace);
    AfterDeleteValid(r, trace.kept);
    forall t | Named(t) !in selected
      ensures SameTag(r, after, t) <==> !WarnedAbout(results, t)
    {
      UnselectedTag(r, selected, results, trace, t);
    }
  }

  /** An unselected tag is lost exactly when its digest was deleted and it was warned about or never seen. */
  lemma UnselectedTag(r: Repo, selected: set<Ref>, results: seq<TagResult>, trace: Trace, t: Tag)
    requires Delivered(r, selected, results, trace) && Named(t) !in selected
    ensures SameTag(r, AfterDelete(r, trace.kept), t) <==>
            !WarnedAbout(results, t) && !(t in r.tags && r.tags[t] in trace.kept && Named(t) in trace.unseen)
  {
    if t in r.tags && r.tags[t] in trace.kept {
      var x :| x in results && x.ok && r.Resolve(x.reference) == Some(r.tags[t]);
      assert t in Survivors(r, selected, r.tags[t]);
    }
  }

  /**
   * The caller can tell from the answer whether every deleted tag can be restored: with all reads
   * answered, each tag with a "delete" result was copied to the bin exactly when the snapshot count
   * is the number of such tags.
   */
  lemma AllCopiedIff(r: Repo, selected: set<Ref>, results: seq<TagResult>, trace: Trace)
    requires Delivered(r, selected, results, trace) && trace.unseen == {}
    ensures trace.snapped <= DeletedTags(results)
    ensures DeletedTags(results) <= trace.snapped <==> |trace.snapped| == |DeletedTags(results)|
  {
    OneResultEach(r, selected, results, trace);
    forall t | t in trace.snapped
      ensures t in DeletedTags(results)
    {
      assert Named(t) in selected by {
        assert t !in Survivors(r, selected, r.tags[t]);
      }
      var x :| x in results && x.reference == Named(t);
      assert ResultFits(r, selected, trace, x);
    }
    SubsetSize(trace.snapped, DeletedTags(results));
  }

  /** The tags whose result says "delete", whether or not the delete went through. */
  ghost function DeletedTags(results: seq<TagResult>): set<Tag> {
    set x | x in results && x.reference.Named? && x.action == DeleteAction :: x.reference.tag
  }
}
