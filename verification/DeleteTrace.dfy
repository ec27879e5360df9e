/** How the trace of a tag-aware delete grows, one digest at a time. */
module DeleteTrace {
  import opened Prelude
  import opened Registry
  import opened Store
  import opened DeleteSpec

  /** The trace `digests` would leave if nothing failed. */
  ghost function CleanPart(r: Repo, selected: set<Ref>, digests: set<Digest>): Trace {
    Trace(map d | d in digests :: Survivors(r, selected, d),
          digests * FullDigests(r, selected),
          {},
          set t | t in r.tags && r.tags[t] in digests * FullDigests(r, selected))
  }

  /** Everything the call has established once the digests in `done` are processed. */
  ghost predicate Progress(r: Repo, selected: set<Ref>, done: set<Digest>, trace: Trace) {
    && TraceFits(r, selected, trace)
    && trace.kept.Keys <= done && trace.full <= done
  }

  /** A trace that changed only in what concerns `digest`, and in what could not be seen. */
  ghost predicate TraceStep(r: Repo, trace: Trace, trace': Trace, digest: Digest) {
    && (forall d :: d != digest ==> (d in trace'.kept <==> d in trace.kept))
    && (forall d :: d in trace.kept && d != digest ==> trace'.kept[d] == trace.kept[d])
    && trace'.full - {digest} == trace.full - {digest}
    && trace.unseen <= trace'.unseen
    && trace.snapped <= trace'.snapped && trace'.snapped - trace.snapped <= r.TagsOf(digest)
  }

  /** A result on another digest stays true as the trace grows. */
  lemma FitsStays(r: Repo, selected: set<Ref>, trace: Trace, trace': Trace, digest: Digest, x: TagResult)
    requires ResultFits(r, selected, trace, x) && TraceStep(r, trace, trace', digest)
    requires trace.kept == map[] || trace'.unseen == trace.unseen
    requires r.Resolve(x.reference) != Some(digest) || (!x.ok && x.action == NoAction && x.reference in trace'.unseen)
    ensures ResultFits(r, selected, trace', x)
  {
    assert forall d :: d != digest ==> (d in trace'.full <==> d in trace'.full - {digest});
    assert forall d :: d != digest ==> (d in trace.full <==> d in trace.full - {digest});
  }

  /** The trace left by a last-tag delete of `digest`. */
  ghost function FullStep(trace: Trace, digest: Digest, unseen: set<Ref>, ok: bool, snapped: set<Tag>): Trace {
    Trace(if ok then trace.kept[digest := {}] else trace.kept, trace.full + {digest}, unseen, trace.snapped + snapped)
  }

  /** The trace left by an untag of `digest` that kept `tags`. */
  ghost function UntagStep(trace: Trace, digest: Digest, unseen: set<Ref>, ok: bool, tags: set<Tag>): Trace {
    Trace(if ok then trace.kept[digest := tags] else trace.kept, trace.full, unseen, trace.snapped)
  }

  lemma FullStepFits(r: Repo, selected: set<Ref>, done: set<Digest>, trace: Trace, digest: Digest, unseen: set<Ref>,
                     ok: bool, snapped: set<Tag>, x: TagResult)
    requires r.Valid() && Progress(r, selected, done, trace) && digest !in done && digest in r.manifests
    requires trace.unseen <= unseen && (trace.kept == map[] || unseen == trace.unseen) && snapped <= r.TagsOf(digest)
    requires forall t :: t in Survivors(r, selected, digest) ==> Named(t) in unseen
    requires r.Resolve(x.reference) == Some(digest) && x == TagResult(x.reference, DeleteAction, ok, [])
    ensures Progress(r, selected, done + {digest}, FullStep(trace, digest, unseen, ok, snapped))
    ensures TraceStep(r, trace, FullStep(trace, digest, unseen, ok, snapped), digest)
    ensures ResultFits(r, selected, FullStep(trace, digest, unseen, ok, snapped), x)
    ensures snapped !! trace.snapped
  {}

  lemma UntagStepFits(r: Repo, selected: set<Ref>, done: set<Digest>, trace: Trace, digest: Digest, unseen: set<Ref>,
                      ok: bool, remaining: set<Tag>, failed: seq<Tag>, x: TagResult)
    requires r.Valid() && Progress(r, selected, done, trace) && digest !in done && digest in r.manifests
    requires trace.unseen <= unseen && (trace.kept == map[] || unseen == trace.unseen)
    requires remaining <= Survivors(r, selected, digest) && Elements(failed) <= remaining
    requires forall t :: t in remaining ==> Named(t) !in unseen
    requires forall t :: t in Survivors(r, selected, digest) ==> t in remaining || Named(t) in unseen
    requires !ok ==> failed == []
    requires r.Resolve(x.reference) == Some(digest) && x == TagResult(x.reference, UntagAction, ok, failed)
    ensures Progress(r, selected, done + {digest}, UntagStep(trace, digest, unseen, ok, remaining - Elements(failed)))
    ensures TraceStep(r, trace, UntagStep(trace, digest, unseen, ok, remaining - Elements(failed)), digest)
    ensures ResultFits(r, selected, UntagStep(trace, digest, unseen, ok, remaining - Elements(failed)), x)
  {
    forall t | t in Survivors(r, selected, digest)
      ensures t in remaining - Elements(failed) || t in failed || Named(t) in unseen
    {
      assert t in Elements(failed) ==> t in failed;
    }
    forall t | t in failed
      ensures t in Survivors(r, selected, digest) - (remaining - Elements(failed)) && Named(t) !in unseen
    {
      assert t in Elements(failed);
    }
  }

  lemma CleanPartStep(r: Repo, selected: set<Ref>, done: set<Digest>, digest: Digest)
    requires digest !in done && digest in SelectedDigests(r, selected)
    ensures CleanPart(r, selected, done + {digest}) ==
            if Survivors(r, selected, digest) == {}
              then FullStep(CleanPart(r, selected, done), digest, {}, true, r.TagsOf(digest))
              else UntagStep(CleanPart(r, selected, done), digest, {}, true, Survivors(r, selected, digest))
  {}

  lemma CleanPartAll(r: Repo, selected: set<Ref>)
    ensures CleanPart(r, selected, SelectedDigests(r, selected)) == CleanTrace(r, selected)
  {}

  lemma CleanImagesStart(images: Images, name: Name, r: Repo, selected: set<Ref>)
    ensures CleanImages(images, name, r, selected, {}) == images
  {
    assert {} * FullDigests(r, selected) == {};
    assert UntaggedRefs(r, selected, {}) == {};
    SoftDeleteNothing(images, name);
  }

  /** Processing one more digest is what the closed form of the images table says it is. */
  lemma CleanImagesStep(images: Images, name: Name, r: Repo, selected: set<Ref>, done: set<Digest>, digest: Digest,
                        refs: set<Ref>)
    requires digest !in done && done + {digest} <= SelectedDigests(r, selected)
    requires forall s :: s in refs <==> s in selected && r.Resolve(s) == Some(digest)
    ensures CleanImages(images, name, r, selected, done + {digest})
         == ImagesStep(CleanImages(images, name, r, selected, done), name, digest, refs,
                       Survivors(r, selected, digest) == {},
                       AfterDelete(r, CleanPart(r, selected, done + {digest}).kept).tags == map[])
  {
    var full, full' := done * FullDigests(r, selected), (done + {digest}) * FullDigests(r, selected);
    var untagged, untagged' := UntaggedRefs(r, selected, done), UntaggedRefs(r, selected, done + {digest});
    var after := AfterDelete(r, CleanPart(r, selected, done + {digest}).kept).tags;
    SoftDeleteCompose(images, name, untagged, full, if digest in FullDigests(r, selected) then {} else refs,
                      if digest in FullDigests(r, selected) then {digest} else {});
    if Survivors(r, selected, digest) == {} {
      assert full' == full + {digest} && untagged' == untagged + {};
      NoTagsLeft(r, selected, done + {digest});
      assert images - {name} == images - {name} - {name};
      assert SoftDeleteIn(images, name, untagged, full) - {name} == images - {name};
    } else {
      assert full' == full + {} && untagged' == untagged + refs;
      var t :| t in Survivors(r, selected, digest);
      assert r.tags[t] !in full';
    }
  }

  /** No tag is left exactly when every tag was on a digest that lost its last one. */
  lemma NoTagsLeft(r: Repo, selected: set<Ref>, done: set<Digest>)
    requires done <= SelectedDigests(r, selected)
    ensures AfterDelete(r, CleanPart(r, selected, done).kept).tags == map[]
       <==> forall t :: t in r.tags ==> r.tags[t] in done * FullDigests(r, selected)
  {
    var after := AfterDelete(r, CleanPart(r, selected, done).kept).tags;
    if after == map[] {
      forall t | t in r.tags
        ensures r.tags[t] in done * FullDigests(r, selected)
      {
        assert t !in after;
        assert forall u :: u in Survivors(r, selected, r.tags[t]) ==> u in after;
      }
    } else {
      var t :| t in after;
      assert t in r.tags;
    }
  }
}
