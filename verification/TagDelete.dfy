/** Tag-aware deletion: the writes, digest by digest, and the call as a whole. */
module TagDelete {
  import opened Prelude
  import opened Registry
  import opened Store
  import opened DeleteSpec
  import opened DeleteFacts
  import opened DeleteTrace
  import opened Lookups
  import opened Outages
  import opened Snapshots
  import opened Table

  // ---- One digest ----

  ghost predicate AllResults(results: seq<TagResult>, refs: seq<Ref>, action: Action, ok: bool, warning: seq<Tag>) {
    && |results| == |refs|
    && forall i :: 0 <= i < |refs| ==> results[i] == TagResult(refs[i], action, ok, warning)
  }

  function ResultsFor(refs: seq<Ref>, action: Action, ok: bool, warning: seq<Tag>): (results: seq<TagResult>)
    ensures AllResults(results, refs, action, ok, warning)
  {
    seq(|refs|, i requires 0 <= i < |refs| => TagResult(refs[i], action, ok, warning))
  }

  lemma OnePerGroup(results: seq<TagResult>, refs: seq<Ref>, action: Action, ok: bool, warning: seq<Tag>)
    requires Distinct(refs) && AllResults(results, refs, action, ok, warning)
    ensures References(results) == refs && OnePer(results, Elements(refs))
  {
    assert References(results) == refs;
  }

  /** Of the tags in `done`, those in `pushed` are back and those in `failed` are not. */
  ghost predicate BackSoFar(outage: Outage, name: Name, done: seq<Tag>, pushed: set<Tag>, failed: seq<Tag>) {
    && pushed == Elements(done) - Elements(failed) && Elements(failed) <= Elements(done)
    && (outage.Fixed? ==> pushed == Back(name, Elements(done), outage.down))
  }

  lemma BackOneMore(outage: Outage, name: Name, done: seq<Tag>, pushed: set<Tag>, failed: seq<Tag>, t: Tag)
    requires BackSoFar(outage, name, done, pushed, failed) && t !in done
    ensures (outage.Fixed? ==> Push(name, Named(t)) !in outage.down) ==>
              BackSoFar(outage, name, done + [t], pushed + {t}, failed)
    ensures (outage.Fixed? ==> Push(name, Named(t)) in outage.down) ==>
              BackSoFar(outage, name, done + [t], pushed, failed + [t])
  {
    assert Elements(done + [t]) == Elements(done) + {t};
    assert Elements(failed + [t]) == Elements(failed) + {t};
    assert t !in Elements(done);
  }

  /** Re-pushes the manifest under each surviving tag; the tags whose push failed are returned. */
  method Repush(client: Upstream, name: Name, digest: Digest, m: Manifest, remaining: seq<Tag>, ghost r: Repo)
    returns (failed: seq<Tag>)
    requires client.Valid() && r.Valid() && name in client.repos
    requires client.At(name) == AfterDelete(r, map[digest := {}])
    requires digest in r.manifests && m == r.manifests[digest]
    requires Distinct(remaining) && Elements(remaining) <= r.TagsOf(digest)
    modifies client
    ensures client.Valid()
    ensures Elements(failed) <= Elements(remaining)
    ensures client.repos ==
            old(client.repos)[name := AfterDelete(r, map[digest := Elements(remaining) - Elements(failed)])]
    ensures client.callFaults >= old(client.callFaults) && client.lookupFaults == old(client.lookupFaults)
    ensures client.callFaults == old(client.callFaults) ==> failed == []
    ensures client.outage.Fixed? ==>
              Elements(remaining) - Elements(failed) == Back(name, Elements(remaining), client.outage.down)
  {
    failed := [];
    ghost var pushed: set<Tag> := {};
    for i := 0 to |remaining|
      invariant client.Valid()
      invariant BackSoFar(client.outage, name, remaining[..i], pushed, failed)
      invariant client.repos == old(client.repos)[name := AfterDelete(r, map[digest := pushed])]
      invariant client.callFaults >= old(client.callFaults) && client.lookupFaults == old(client.lookupFaults)
      invariant client.callFaults == old(client.callFaults) ==> failed == []
    {
      assert remaining[i] in Elements(remaining) && remaining[i] !in remaining[..i];
      assert remaining[..i + 1] == remaining[..i] + [remaining[i]];
      assert Elements(remaining[..i]) <= Elements(remaining);
      failed, pushed := RepushTag(client, name, digest, m, remaining[i], r, remaining[..i], pushed, failed);
    }
    assert remaining[..|remaining|] == remaining;
  }

  /** Pushes it under one more tag. */
  method RepushTag(client: Upstream, name: Name, digest: Digest, m: Manifest, t: Tag, ghost r: Repo,
                   ghost done: seq<Tag>, ghost pushed: set<Tag>, failed: seq<Tag>)
    returns (failed': seq<Tag>, ghost pushed': set<Tag>)
    requires client.Valid() && r.Valid() && name in client.repos
    requires client.At(name) == AfterDelete(r, map[digest := pushed])
    requires digest in r.manifests && m == r.manifests[digest]
    requires t in r.TagsOf(digest) && t !in done && pushed <= r.TagsOf(digest)
    requires BackSoFar(client.outage, name, done, pushed, failed)
    modifies client`repos, client`callFaults
    ensures client.Valid()
    ensures BackSoFar(client.outage, name, done + [t], pushed', failed')
    ensures client.repos == old(client.repos)[name := AfterDelete(r, map[digest := pushed'])]
    ensures client.callFaults >= old(client.callFaults)
    ensures client.callFaults == old(client.callFaults) ==> failed' == failed
  {
    RepushOne(r, digest, pushed, t);
    BackOneMore(client.outage, name, done, pushed, failed, t);
    failed', pushed' := failed, pushed;
    var err := client.PutManifest(name, Named(t), m);
    if err.None? {
      pushed' := pushed + {t};
    } else {
      failed' := failed + [t];
    }
  }

  /** The rows that a turn which deleted its digest, or did not, asks to strike. */
  function DigestMarks(done: bool, digest: Digest): Marks {
    if done then Marks({}, {digest}) else NO_MARKS
  }

  /** Last-tag case: copy the manifest to the bin, then delete the digest for good. */
  method DeleteDigest(client: Upstream, db: Database, name: Name, digest: Digest, refs: seq<Ref>, repoKnown: bool)
    returns (results: seq<TagResult>, count: nat, done: bool, ghost snapped: set<Tag>)
    requires client.Valid() && name in client.repos && digest in client.At(name).manifests
    modifies client, db
    ensures client.Valid()
    ensures snapped <= old(client.At(name)).TagsOf(digest) && count == |snapped|
    ensures db.bin == Snapshotted(old(db.bin), name, old(client.At(name)), snapped)
    ensures client.repos == if done then old(client.repos)[name := old(client.At(name)).Remove(digest)]
              else old(client.repos)
    ensures AllResults(results, refs, DeleteAction, done, [])
    ensures client.outage.Fixed? ==> (done <==> Delete(name, digest) !in client.outage.down)
    ensures db.images - {name} == old(db.images) - {name}
    ensures Faults(client, db) >= old(Faults(client, db)) && client.lookupFaults >= old(client.lookupFaults)
    ensures db.faults >= old(db.faults)
    ensures Faults(client, db) == old(Faults(client, db)) ==>
              done && snapped == old(client.At(name)).TagsOf(digest)
    ensures Faults(client, db) == old(Faults(client, db)) && repoKnown && (snapped != {} ==> name in old(db.images)) ==>
              db.images == WithoutDigest(old(db.images), name, digest, client.At(name).tags == map[])
    ensures !done ==> db.images in {old(db.images), EnsureRepo(old(db.images), name)}
    ensures TableAfter(db.breakdown, db.faults == old(db.faults), repoKnown, name, old(db.images), db.images,
                       DigestMarks(done, digest), client.At(name).tags == map[])
    ensures client.outage.Fixed? && db.breakdown.Only? ==>
              snapped == SnappedUnder(name, old(client.At(name)), {digest}, client.outage.down, db.breakdown.broken)
  {
    done, count, snapped := CopyAndDelete(client, db, name, digest);
    assert db.images - {name} == old(db.images) - {name};
    ghost var faults, middle := db.faults, db.images;
    results := ResultsFor(refs, DeleteAction, done, []);
    if done {
      StrikeDigest(client, db, name, digest, repoKnown);
      AfterEnsured(db.breakdown, db.faults == faults, db.faults == old(db.faults), repoKnown, name, old(db.images),
                   middle, db.images, Marks({}, {digest}), client.At(name).tags == map[]);
    } else {
      AfterNothing(db.breakdown, db.faults == old(db.faults), repoKnown, name, old(db.images), middle,
                   client.At(name).tags == map[]);
    }
  }

  /** Untag case: delete the digest, then re-push the manifest under every surviving tag. */
  method UntagDigest(client: Upstream, db: Database, name: Name, digest: Digest, refs: seq<Ref>, remaining: seq<Tag>,
                     repoKnown: bool)
    returns (results: seq<TagResult>, failed: seq<Tag>, ok: bool)
    requires client.Valid() && name in client.repos && digest in client.At(name).manifests
    requires Distinct(remaining) && Elements(remaining) <= client.At(name).TagsOf(digest)
    modifies client, db
    ensures client.Valid()
    ensures db.bin == old(db.bin)
    ensures AllResults(results, refs, UntagAction, ok, failed)
    ensures Elements(failed) <= Elements(remaining)
    ensures !ok ==> failed == []
    ensures client.outage.Fixed? ==>
              && (ok <==>
                  Delete(name, digest) !in client.outage.down && Fetch(name, ByDigest(digest)) !in client.outage.down)
              && (ok ==> Elements(remaining) - Elements(failed) == Back(name, Elements(remaining), client.outage.down))
    ensures client.repos ==
            if ok
              then var kept := map[digest := Elements(remaining) - Elements(failed)];
                   old(client.repos)[name := AfterDelete(old(client.At(name)), kept)]
              else old(client.repos)
    ensures db.images - {name} == old(db.images) - {name}
    ensures Faults(client, db) >= old(Faults(client, db)) && client.lookupFaults >= old(client.lookupFaults)
    ensures db.faults >= old(db.faults)
    ensures Faults(client, db) == old(Faults(client, db)) ==> ok && failed == []
    ensures Faults(client, db) == old(Faults(client, db)) && repoKnown ==>
              db.images == SoftDeleteIn(old(db.images), name, Elements(refs), {})
    ensures TableAfter(db.breakdown, db.faults == old(db.faults), repoKnown, name, old(db.images), db.images,
                       RefMarks(ok, refs), client.At(name).tags == map[])
  {
    ghost var images := db.images;
    failed, ok := Rebuild(client, name, digest, remaining);
    AfterNothing(db.breakdown, true, repoKnown, name, images, images, client.At(name).tags == map[]);
    NoneKnown(db.breakdown, true, name, images, images, RefMarks(ok, refs), client.At(name).tags == map[]);
    if ok && repoKnown {
      SoftDeleteEach(db, name, refs, client.At(name).tags == map[]);
    }
    results := ResultsFor(refs, UntagAction, ok, failed);
  }

  /** The rows that an untag which went through, or did not, asks to strike. */
  function RefMarks(ok: bool, refs: seq<Ref>): Marks {
    if ok then Marks(Elements(refs), {}) else NO_MARKS
  }

  /** The registry part of it. */
  method Rebuild(client: Upstream, name: Name, digest: Digest, remaining: seq<Tag>)
    returns (failed: seq<Tag>, ok: bool)
    requires client.Valid() && name in client.repos && digest in client.At(name).manifests
    requires Distinct(remaining) && Elements(remaining) <= client.At(name).TagsOf(digest)
    modifies client
    ensures client.Valid()
    ensures Elements(failed) <= Elements(remaining) && (!ok ==> failed == [])
    ensures client.outage.Fixed? ==>
              && (ok <==>
                  Delete(name, digest) !in client.outage.down && Fetch(name, ByDigest(digest)) !in client.outage.down)
              && (ok ==> Elements(remaining) - Elements(failed) == Back(name, Elements(remaining), client.outage.down))
    ensures client.repos ==
            if ok
              then var kept := map[digest := Elements(remaining) - Elements(failed)];
                   old(client.repos)[name := AfterDelete(old(client.At(name)), kept)]
              else old(client.repos)
    ensures client.callFaults >= old(client.callFaults) && client.lookupFaults == old(client.lookupFaults)
    ensures client.callFaults == old(client.callFaults) ==> ok && failed == []
  {
    ok, failed := false, [];
    ghost var r := client.At(name);
    var taken := TakeOut(client, name, digest);
    if taken.Some? {
      ok := true;
      AfterDeleteIsRemove(r, digest);
      failed := Repush(client, name, digest, taken.value, remaining, r);
    }
  }

  /** Fetches the manifest, and deletes it once it is at hand. */
  method TakeOut(client: Upstream, name: Name, digest: Digest) returns (taken: Option<Manifest>)
    requires client.Valid() && name in client.repos && digest in client.At(name).manifests
    modifies client`repos, client`callFaults
    ensures client.Valid()
    ensures taken.Some? ==> taken.value == old(client.At(name)).manifests[digest]
    ensures client.repos ==
            if taken.Some? then old(client.repos)[name := old(client.At(name)).Remove(digest)] else old(client.repos)
    ensures client.outage.Fixed? ==>
              (taken.Some? <==>
               Delete(name, digest) !in client.outage.down && Fetch(name, ByDigest(digest)) !in client.outage.down)
    ensures client.callFaults >= old(client.callFaults)
    ensures client.callFaults == old(client.callFaults) ==> taken.Some?
  {
    taken := None;
    var raw := client.ManifestRaw(name, ByDigest(digest));
    if raw.Failure? || raw.value.body == "" {
      return;
    }
    var err := client.DeleteManifest(name, digest);
    if err.None? {
      taken := Some(raw.value);
    }
  }

  /** Strikes the rows of the references; one that cannot be struck does not keep the others from it. */
  method SoftDeleteEach(db: Database, name: Name, refs: seq<Ref>, ghost noTags: bool)
    modifies db`images, db`faults
    ensures db.images - {name} == old(db.images) - {name}
    ensures db.faults >= old(db.faults)
    ensures db.faults == old(db.faults) ==>
              db.images == SoftDeleteIn(old(db.images), name, Elements(refs), {})
    ensures TableAfter(db.breakdown, db.faults == old(db.faults), true, name, old(db.images), db.images,
                       Marks(Elements(refs), {}), noTags)
  {
    SoftDeleteNothing(db.images, name);
    assert Elements(refs[..0]) == {};
    AfterNothing(db.breakdown, true, true, name, db.images, db.images, noTags);
    for i := 0 to |refs|
      invariant db.images - {name} == old(db.images) - {name}
      invariant db.faults >= old(db.faults)
      invariant db.faults == old(db.faults) ==>
                  db.images == SoftDeleteIn(old(db.images), name, Elements(refs[..i]), {})
      invariant TableAfter(db.breakdown, db.faults == old(db.faults), true, name, old(db.images), db.images,
                           Marks(Elements(refs[..i]), {}), noTags)
    {
      assert Elements(refs[..i + 1]) == Elements(refs[..i]) + {refs[i]} by {
        assert refs[..i + 1] == refs[..i] + [refs[i]];
      }
      SoftDeleteOne(db, name, refs[i], Elements(refs[..i]), old(db.images), db.faults == old(db.faults), noTags);
    }
    assert refs[..|refs|] == refs;
  }

  method SoftDeleteOne(db: Database, name: Name, ref: Ref, ghost done: set<Ref>, ghost before: Images,
                       ghost clean: bool, ghost noTags: bool)
    requires TableAfter(db.breakdown, clean, true, name, before, db.images, Marks(done, {}), noTags)
    requires clean ==> db.images == SoftDeleteIn(before, name, done, {})
    modifies db`images, db`faults
    ensures db.images - {name} == old(db.images) - {name}
    ensures db.faults >= old(db.faults)
    ensures clean && db.faults == old(db.faults) ==> db.images == SoftDeleteIn(before, name, done + {ref}, {})
    ensures TableAfter(db.breakdown, clean && db.faults == old(db.faults), true, name, before, db.images,
                       Marks(done + {ref}, {}), noTags)
  {
    var ok := db.SoftDeleteImage(name, ref);
    var one := Marks({ref}, {});
    AfterStatement(db.breakdown, ok, name, old(db.images), one, noTags);
    AfterCompose(db.breakdown, true, name, before, old(db.images), db.images, clean, Marks(done, {}), noTags, ok, one,
                 noTags);
    SoftDeleteCompose(before, name, done, {}, {ref}, {});
    ghost var none: set<Digest> := {};
    assert none + none == none && Marks(done, {}).Plus(one) == Marks(done + {ref}, {});
  }

  /** A digest not yet processed has its manifest and all its tags. */
  lemma StillWhole(r: Repo, selected: set<Ref>, kept: map<Digest, set<Tag>>, digest: Digest)
    requires digest !in kept && digest in r.manifests
    ensures digest in AfterDelete(r, kept).manifests && AfterDelete(r, kept).manifests[digest] == r.manifests[digest]
    ensures AfterDelete(r, kept).TagsOf(digest) == r.TagsOf(digest)
    ensures Survivors(r, selected, digest) <= AfterDelete(r, kept).TagsOf(digest)
  {}

  /** The registry before and after one digest is deleted and pushed again under `tags`, or left alone. */
  lemma RegistryTurn(before: Catalog, name: Name, r: Repo, kept: map<Digest, set<Tag>>, digest: Digest, tags: set<Tag>)
    requires name in before && before[name] == AfterDelete(r, kept) && digest !in kept
    ensures before[name := AfterDelete(before[name], map[digest := tags])] ==
              before[name := AfterDelete(r, kept[digest := tags])]
    ensures before[name := AfterDelete(r, kept)] == before
  {
    AfterDeleteCompose(r, kept, digest, tags);
  }

  /** One digest has been handled: its trace step, and one result for each of its references that fits it. */
  ghost predicate DigestDone(r: Repo, selected: set<Ref>, done: set<Digest>, trace: Trace, digest: Digest,
                             refs: seq<Ref>, results: seq<TagResult>, count: nat, trace': Trace) {
    && Progress(r, selected, done + {digest}, trace') && TraceStep(r, trace, trace', digest)
    && References(results) == refs && OnePer(results, Elements(refs))
    && (forall x :: x in results ==> ResultFits(r, selected, trace', x) && r.Resolve(x.reference) == Some(digest))
    && (digest in trace'.kept && refs != [] ==> exists x :: x in results && x.ok)
    && count == |trace'.snapped - trace.snapped|
  }

  /** What one digest's turn asks to strike. */
  ghost function TurnMarks(results: seq<TagResult>, digest: Digest, trace': Trace): Marks {
    Marks(Untagged(results), if digest in trace'.full && digest in trace'.kept then {digest} else {})
  }

  /** The images table after one turn and, under a fixed outage with known broken statements, the copies it took. */
  ghost predicate TurnAccounted(outage: Outage, breakdown: Breakdown, clean: bool, known: bool, name: Name, r: Repo,
                                before: Images, after: Images, digest: Digest, results: seq<TagResult>, trace: Trace,
                                trace': Trace, noTags: bool) {
    && TableAfter(breakdown, clean, known, name, before, after, TurnMarks(results, digest, trace'), noTags)
    && (outage.Fixed? && breakdown.Only? ==>
          trace'.snapped - trace.snapped ==
              SnappedUnder(name, r, trace'.full - trace.full, outage.down, breakdown.broken))
  }

  lemma FullMarks(results: seq<TagResult>, refs: seq<Ref>, ok: bool, trace: Trace, digest: Digest, unseen: set<Ref>,
                  snapped: set<Tag>)
    requires AllResults(results, refs, DeleteAction, ok, []) && digest !in trace.full && digest !in trace.kept
    ensures TurnMarks(results, digest, FullStep(trace, digest, unseen, ok, snapped)) == DigestMarks(ok, digest)
    ensures FullStep(trace, digest, unseen, ok, snapped).full - trace.full == {digest}
  {
    assert Untagged(results) == {};
  }

  lemma UntagMarks(results: seq<TagResult>, refs: seq<Ref>, ok: bool, failed: seq<Tag>, trace: Trace, digest: Digest,
                   unseen: set<Ref>, tags: set<Tag>)
    requires AllResults(results, refs, UntagAction, ok, failed) && digest !in trace.full
    ensures TurnMarks(results, digest, UntagStep(trace, digest, unseen, ok, tags)) == RefMarks(ok, refs)
  {
    assert Untagged(results) == if ok then Elements(refs) else {} by {
      forall s | ok && s in refs
        ensures s in Untagged(results)
      {
        var i :| 0 <= i < |refs| && refs[i] == s;
        assert results[i] in results;
      }
    }
  }

  /** Digests deleted before make no difference to what can be copied of this one. */
  lemma SameCopies(name: Name, r: Repo, kept: map<Digest, set<Tag>>, digest: Digest, down: set<Call>,
                   broken: set<Statement>)
    requires digest !in kept
    ensures SnappedUnder(name, AfterDelete(r, kept), {digest}, down, broken) ==
              SnappedUnder(name, r, {digest}, down, broken)
  {
    assert AfterDelete(r, kept).TagsOf(digest) == r.TagsOf(digest);
    OneSnapped(name, r, digest, down, broken);
    OneSnapped(name, AfterDelete(r, kept), digest, down, broken);
  }

  /** Where one digest stands once its siblings have been looked for: `remaining` are those that were found. */
  ghost predicate Sorted(r: Repo, selected: set<Ref>, done: set<Digest>, trace: Trace, digest: Digest, refs: seq<Ref>,
                         remaining: set<Tag>, unseen: set<Ref>) {
    && r.Valid() && Progress(r, selected, done, trace) && digest !in done && digest in r.manifests
    && trace.unseen <= unseen && (trace.kept == map[] || unseen == trace.unseen)
    && remaining <= Survivors(r, selected, digest)
    && (forall t :: t in remaining ==> Named(t) !in unseen)
    && (forall t :: t in Survivors(r, selected, digest) ==> t in remaining || Named(t) in unseen)
    && Distinct(refs) && (forall s :: s in refs ==> r.Resolve(s) == Some(digest))
  }

  lemma FullDone(r: Repo, selected: set<Ref>, done: set<Digest>, trace: Trace, digest: Digest, refs: seq<Ref>,
                 results: seq<TagResult>, ok: bool, snapped: set<Tag>, unseen: set<Ref>)
    requires Sorted(r, selected, done, trace, digest, refs, {}, unseen) && snapped <= r.TagsOf(digest)
    requires AllResults(results, refs, DeleteAction, ok, [])
    ensures DigestDone(r, selected, done, trace, digest, refs, results, |snapped|,
                       FullStep(trace, digest, unseen, ok, snapped))
    ensures FullStep(trace, digest, unseen, ok, snapped).snapped - trace.snapped == snapped
  {
    FullStepFits(r, selected, done, trace, digest, unseen, ok, snapped,
                 TagResult(ByDigest(digest), DeleteAction, ok, []));
    assert FullStep(trace, digest, unseen, ok, snapped).snapped - trace.snapped == snapped;
    OnePerGroup(results, refs, DeleteAction, ok, []);
    assert refs != [] ==> results[0] in results;
    forall x | x in results
      ensures ResultFits(r, selected, FullStep(trace, digest, unseen, ok, snapped), x)
      ensures r.Resolve(x.reference) == Some(digest)
    {
      assert x.reference in refs;
      FullStepFits(r, selected, done, trace, digest, unseen, ok, snapped, x);
    }
  }

  method ProcessFull(client: Upstream, db: Database, name: Name, digest: Digest, refs: seq<Ref>, repoKnown: bool,
                     ghost r: Repo, ghost selected: set<Ref>, ghost done: set<Digest>, ghost trace: Trace,
                     ghost unseen: set<Ref>)
    returns (results: seq<TagResult>, count: nat, ghost trace': Trace)
    requires client.Valid() && name in client.repos && client.At(name) == AfterDelete(r, trace.kept)
    requires Sorted(r, selected, done, trace, digest, refs, {}, unseen)
    modifies client, db
    ensures client.Valid()
    ensures client.repos == old(client.repos)[name := AfterDelete(r, trace'.kept)]
    ensures DigestDone(r, selected, done, trace, digest, refs, results, count, trace') && trace'.unseen == unseen
    ensures trace'.full == trace.full + {digest}
    ensures db.bin == Snapshotted(old(db.bin), name, r, trace'.snapped - trace.snapped)
    ensures db.images - {name} == old(db.images) - {name}
    ensures Faults(client, db) >= old(Faults(client, db)) && client.lookupFaults >= old(client.lookupFaults)
    ensures db.faults >= old(db.faults)
    ensures Faults(client, db) == old(Faults(client, db)) ==>
              trace' == FullStep(trace, digest, unseen, true, r.TagsOf(digest))
    ensures client.outage.Fixed? ==>
              trace'.kept == if Delete(name, digest) !in client.outage.down then trace.kept[digest := {}]
                  else trace.kept
    ensures Faults(client, db) == old(Faults(client, db)) && repoKnown &&
              (r.TagsOf(digest) != {} ==> name in old(db.images)) ==>
              db.images == WithoutDigest(old(db.images), name, digest, client.At(name).tags == map[])
    ensures TurnAccounted(client.outage, db.breakdown, db.faults == old(db.faults), repoKnown, name, r, old(db.images),
                          db.images, digest, results, trace, trace', client.At(name).tags == map[])
  {
    StillWhole(r, selected, trace.kept, digest);
    var ok;
    ghost var snapped;
    results, count, ok, snapped := DeleteDigest(client, db, name, digest, refs, repoKnown);
    trace' := FullStep(trace, digest, unseen, ok, snapped);
    FullMarks(results, refs, ok, trace, digest, unseen, snapped);
    if client.outage.Fixed? && db.breakdown.Only? {
      SameCopies(name, r, trace.kept, digest, client.outage.down, db.breakdown.broken);
    }
    FullDone(r, selected, done, trace, digest, refs, results, ok, snapped, unseen);
    SnapshotFrame(old(db.bin), name, r, old(client.At(name)), digest, snapped);
    AfterDeleteIsRemove(old(client.At(name)), digest);
    RegistryTurn(old(client.repos), name, r, trace.kept, digest, {});
  }

  lemma UntagDone(r: Repo, selected: set<Ref>, done: set<Digest>, trace: Trace, digest: Digest, refs: seq<Ref>,
                  results: seq<TagResult>, ok: bool, remaining: set<Tag>, failed: seq<Tag>, unseen: set<Ref>)
    requires Sorted(r, selected, done, trace, digest, refs, remaining, unseen) && Elements(failed) <= remaining
    requires (!ok ==> failed == []) && AllResults(results, refs, UntagAction, ok, failed)
    ensures DigestDone(r, selected, done, trace, digest, refs, results, 0,
                       UntagStep(trace, digest, unseen, ok, remaining - Elements(failed)))
  {
    var trace' := UntagStep(trace, digest, unseen, ok, remaining - Elements(failed));
    UntagStepFits(r, selected, done, trace, digest, unseen, ok, remaining, failed,
                  TagResult(ByDigest(digest), UntagAction, ok, failed));
    assert trace'.snapped - trace.snapped == {};
    OnePerGroup(results, refs, UntagAction, ok, failed);
    assert refs != [] ==> results[0] in results;
    forall x | x in results
      ensures ResultFits(r, selected, trace', x) && r.Resolve(x.reference) == Some(digest)
    {
      assert x.reference in refs;
      UntagStepFits(r, selected, done, trace, digest, unseen, ok, remaining, failed, x);
    }
  }

  method ProcessUntag(client: Upstream, db: Database, name: Name, digest: Digest, refs: seq<Ref>, remaining: seq<Tag>,
                      repoKnown: bool, ghost r: Repo, ghost selected: set<Ref>, ghost done: set<Digest>,
                      ghost trace: Trace, ghost unseen: set<Ref>)
    returns (results: seq<TagResult>, ghost trace': Trace)
    requires client.Valid() && name in client.repos && client.At(name) == AfterDelete(r, trace.kept)
    requires Distinct(remaining) && Sorted(r, selected, done, trace, digest, refs, Elements(remaining), unseen)
    modifies client, db
    ensures client.Valid()
    ensures client.repos == old(client.repos)[name := AfterDelete(r, trace'.kept)]
    ensures DigestDone(r, selected, done, trace, digest, refs, results, 0, trace') && trace'.unseen == unseen
    ensures trace'.snapped == trace.snapped && trace'.full == trace.full && db.bin == old(db.bin)
    ensures db.images - {name} == old(db.images) - {name}
    ensures Faults(client, db) >= old(Faults(client, db)) && client.lookupFaults >= old(client.lookupFaults)
    ensures db.faults >= old(db.faults)
    ensures Faults(client, db) == old(Faults(client, db)) ==>
              trace' == UntagStep(trace, digest, unseen, true, Elements(remaining))
    ensures client.outage.Fixed? ==>
              trace'.kept == if Delete(name, digest) !in client.outage.down &&
                  Fetch(name, ByDigest(digest)) !in client.outage.down
                               then trace.kept[digest := Back(name, Elements(remaining), client.outage.down)]
                               else trace.kept
    ensures Faults(client, db) == old(Faults(client, db)) && repoKnown ==>
              db.images == SoftDeleteIn(old(db.images), name, Elements(refs), {})
    ensures TurnAccounted(client.outage, db.breakdown, db.faults == old(db.faults), repoKnown, name, r, old(db.images),
                          db.images, digest, results, trace, trace', client.At(name).tags == map[])
  {
    StillWhole(r, selected, trace.kept, digest);
    var failed, ok;
    results, failed, ok := UntagDigest(client, db, name, digest, refs, remaining, repoKnown);
    trace' := UntagStep(trace, digest, unseen, ok, Elements(remaining) - Elements(failed));
    UntagDone(r, selected, done, trace, digest, refs, results, ok, Elements(remaining), failed, unseen);
    UntagMarks(results, refs, ok, failed, trace, digest, unseen, Elements(remaining) - Elements(failed));
    assert failed == [] ==> Elements(remaining) - Elements(failed) == Elements(remaining);
    RegistryTurn(old(client.repos), name, r, trace.kept, digest, Elements(remaining) - Elements(failed));
  }

  /** Under a fixed outage, what one digest adds to the trace. */
  ghost predicate StepForeseen(outage: Outage, name: Name, r: Repo, selected: set<Ref>, trace: Trace, digest: Digest,
                               trace': Trace) {
    outage.Fixed? ==>
      && trace'.kept == KeptStep(trace.kept, name, r, selected, outage.down, digest)
      && trace'.full == trace.full +
          (if SeenSiblings(name, r, selected, outage.down, digest) == {} then {digest} else {})
  }

  /** Deletes for good or untags, by whether siblings were found. */
  method ProcessSorted(client: Upstream, db: Database, name: Name, digest: Digest, refs: seq<Ref>, remaining: seq<Tag>,
                       repoKnown: bool, ghost r: Repo, ghost selected: set<Ref>, ghost done: set<Digest>,
                       ghost trace: Trace, ghost unseen: set<Ref>)
    returns (results: seq<TagResult>, count: nat, ghost trace': Trace)
    requires client.Valid() && name in client.repos && client.At(name) == AfterDelete(r, trace.kept)
    requires Distinct(remaining) && Sorted(r, selected, done, trace, digest, refs, Elements(remaining), unseen)
    requires client.outage.Fixed? ==> Elements(remaining) == SeenSiblings(name, r, selected, client.outage.down, digest)
    modifies client, db
    ensures client.Valid()
    ensures client.repos == old(client.repos)[name := AfterDelete(r, trace'.kept)]
    ensures DigestDone(r, selected, done, trace, digest, refs, results, count, trace') && trace'.unseen == unseen
    ensures StepForeseen(client.outage, name, r, selected, trace, digest, trace')
    ensures db.bin == Snapshotted(old(db.bin), name, r, trace'.snapped - trace.snapped)
    ensures db.images - {name} == old(db.images) - {name}
    ensures Faults(client, db) >= old(Faults(client, db)) && client.lookupFaults >= old(client.lookupFaults)
    ensures db.faults >= old(db.faults)
    ensures Faults(client, db) == old(Faults(client, db)) ==>
              trace' == if Elements(remaining) == {}
                          then FullStep(trace, digest, unseen, true, r.TagsOf(digest))
                          else UntagStep(trace, digest, unseen, true, Elements(remaining))
    ensures Faults(client, db) == old(Faults(client, db)) && repoKnown &&
              (r.TagsOf(digest) != {} ==> name in old(db.images)) ==>
              db.images == ImagesStep(old(db.images), name, digest, Elements(refs), Elements(remaining) == {},
                                      client.At(name).tags == map[])
    ensures TurnAccounted(client.outage, db.breakdown, db.faults == old(db.faults), repoKnown, name, r, old(db.images),
                          db.images, digest, results, trace, trace', client.At(name).tags == map[])
  {
    if client.outage.Fixed? {
      KeptStepIs(trace.kept, name, r, selected, client.outage.down, digest);
    }
    assert remaining != [] ==> remaining[0] in Elements(remaining);
    if |remaining| == 0 {
      results, count, trace' :=
          ProcessFull(client, db, name, digest, refs, repoKnown, r, selected, done, trace, unseen);
    } else {
      count := 0;
      results, trace' := ProcessUntag(client, db, name, digest, refs, remaining, repoKnown, r, selected, done, trace,
                                      unseen);
      assert trace'.snapped - trace.snapped == {};
      SnapshotNothing(db.bin, name, r);
    }
  }

  /** Handles one digest of the selection, as a last-tag delete or as an untag. */
  method ProcessDigest(client: Upstream, db: Database, name: Name, digest: Digest, refs: seq<Ref>, listing: seq<Tag>,
                       cache: Cache, repoKnown: bool, ghost r: Repo, ghost selected: set<Ref>, ghost done: set<Digest>,
                       ghost trace: Trace)
    returns (results: seq<TagResult>, count: nat, cache': Cache, ghost trace': Trace)
    requires client.Valid() && r.Valid() && name in client.repos && client.At(name) == AfterDelete(r, trace.kept)
    requires Progress(r, selected, done, trace) && digest !in done && digest in r.manifests
    requires Visible(r, listing, cache, trace.unseen) && selected <= cache.Keys
    requires trace.kept == map[] || AllCached(listing, cache)
    requires Distinct(refs) && Elements(refs) == Group(selected, cache, digest)
    requires Foreseen(client.outage, name, r, listing, cache)
    modifies client, db
    ensures client.Valid()
    ensures client.repos == old(client.repos)[name := AfterDelete(r, trace'.kept)]
    ensures DigestDone(r, selected, done, trace, digest, refs, results, count, trace')
    ensures Visible(r, listing, cache', trace'.unseen) && Extends(cache, cache') && AllCached(listing, cache')
    ensures trace.kept == map[] || trace'.unseen == trace.unseen
    ensures client.lookupFaults >= old(client.lookupFaults)
    ensures client.lookupFaults == old(client.lookupFaults) ==> trace'.unseen == trace.unseen
    ensures Foreseen(client.outage, name, r, listing, cache')
    ensures StepForeseen(client.outage, name, r, selected, trace, digest, trace')
    ensures db.bin == Snapshotted(old(db.bin), name, r, trace'.snapped - trace.snapped)
    ensures db.images - {name} == old(db.images) - {name}
    ensures Faults(client, db) >= old(Faults(client, db))
    ensures db.faults >= old(db.faults)
    ensures Faults(client, db) == old(Faults(client, db)) && trace.unseen == {} ==>
              if Survivors(r, selected, digest) == {}
                then trace' == FullStep(trace, digest, {}, true, r.TagsOf(digest))
                else trace' == UntagStep(trace, digest, {}, true, Survivors(r, selected, digest))
    ensures Faults(client, db) == old(Faults(client, db)) && trace.unseen == {} && repoKnown &&
            (r.TagsOf(digest) != {} ==> name in old(db.images)) ==>
              db.images == ImagesStep(old(db.images), name, digest, Elements(refs),
                                      Survivors(r, selected, digest) == {}, client.At(name).tags == map[])
    ensures TurnAccounted(client.outage, db.breakdown, db.faults == old(db.faults), repoKnown, name, r, old(db.images),
                          db.images, digest, results, trace, trace', client.At(name).tags == map[])
  {
    var remaining;
    ghost var unseen;
    remaining, cache', unseen := Classify(client, name, listing, refs, cache, digest, r, selected, trace);
    assert Faults(client, db) == old(Faults(client, db)) ==> unseen == trace.unseen;
    results, count, trace' :=
        ProcessSorted(client, db, name, digest, refs, remaining, repoKnown, r, selected, done, trace, unseen);
  }

  // ---- All digests ----

  ghost function Covered(selected: set<Ref>, cache: Cache, done: set<Digest>): set<Ref> {
    set s | s in selected && s in cache && (cache[s].None? || cache[s].value in done)
  }

  /** The results so far: one per reference covered, each true of the trace, none on a digest still to come. */
  ghost predicate ResultsSoFar(r: Repo, selected: set<Ref>, cache: Cache, done: set<Digest>, trace: Trace,
                               results: seq<TagResult>) {
    && OnePer(results, Covered(selected, cache, done))
    && (forall x :: x in results ==> ResultFits(r, selected, trace, x)) && AllReported(r, trace, results)
    && (forall x :: x in results && r.Resolve(x.reference).Some? ==>
          r.Resolve(x.reference).value in done || (!x.ok && x.action == NoAction && x.reference in trace.unseen))
  }

  lemma ResultsGrow(r: Repo, selected: set<Ref>, cache: Cache, done: set<Digest>, trace: Trace, results: seq<TagResult>,
                    digest: Digest, trace': Trace, more: seq<TagResult>)
    requires ResultsSoFar(r, selected, cache, done, trace, results)
    requires digest !in done && TraceStep(r, trace, trace', digest) && selected <= cache.Keys
    requires trace.kept == map[] || trace'.unseen == trace.unseen
    requires digest in trace'.kept ==> exists x :: x in more && x.ok
    requires OnePer(more, Group(selected, cache, digest))
    requires forall x :: x in more ==> ResultFits(r, selected, trace', x) && r.Resolve(x.reference) == Some(digest)
    ensures ResultsSoFar(r, selected, cache, done + {digest}, trace', results + more)
  {
    assert Covered(selected, cache, done + {digest}) == Covered(selected, cache, done) + Group(selected, cache, digest);
    OnePerAppend(results, Covered(selected, cache, done), more, Group(selected, cache, digest));
    forall x | x in results
      ensures ResultFits(r, selected, trace', x)
    {
      FitsStays(r, selected, trace, trace', digest, x);
    }
    forall d | d in trace'.kept
      ensures exists x :: x in results + more && x.ok && r.Resolve(x.reference) == Some(d)
    {
      var x :| x in (if d == digest then more else results) && x.ok && r.Resolve(x.reference) == Some(d);
      assert x in results + more;
    }
  }

  lemma RefusalsFit(r: Repo, selected: set<Ref>, cache: Cache, unseen: set<Ref>, results: seq<TagResult>)
    requires CacheSound(r, cache, unseen) && AllRefused(results, Unresolved(selected, cache))
    ensures ResultsSoFar(r, selected, cache, {}, Trace(map[], {}, unseen, {}), results)
  {
    assert Covered(selected, cache, {}) == Unresolved(selected, cache);
    forall x | x in results
      ensures x.reference in Unresolved(selected, cache)
    {
      var i :| 0 <= i < |results| && results[i] == x;
      assert References(results)[i] in Elements(References(results));
    }
  }

  /** Under a fixed outage, what the digests in `done` have come to. */
  ghost predicate TraceForeseen(outage: Outage, name: Name, r: Repo, selected: set<Ref>, done: set<Digest>,
                                trace: Trace) {
    outage.Fixed? ==>
      && trace.kept == KeptOf(name, r, selected, outage.down, done)
      && trace.full == FullUnder(name, r, selected, outage.down, done)
  }

  lemma ForeseenGrows(outage: Outage, name: Name, r: Repo, selected: set<Ref>, done: set<Digest>, trace: Trace,
                      digest: Digest, trace': Trace)
    requires TraceForeseen(outage, name, r, selected, done, trace)
    requires StepForeseen(outage, name, r, selected, trace, digest, trace')
    ensures TraceForeseen(outage, name, r, selected, done + {digest}, trace')
  {}

  lemma CopiesGrow(before: Bin, name: Name, r: Repo, snapped: set<Tag>, snapped': set<Tag>)
    requires snapped <= snapped'
    ensures Snapshotted(Snapshotted(before, name, r, snapped), name, r, snapped' - snapped) ==
              Snapshotted(before, name, r, snapped')
    ensures |snapped'| == |snapped| + |snapped' - snapped|
  {
    SnapshotCompose(before, name, r, snapped, snapped' - snapped);
    assert snapped + (snapped' - snapped) == snapped';
    SubsetSize(snapped, snapped');
  }

  /** Everything the main loop has established once the digests in `done` are processed. */
  ghost predicate SoFar(outage: Outage, name: Name, r: Repo, selected: set<Ref>, listing: seq<Tag>, cache0: Cache,
                        before: Bin, done: set<Digest>, trace: Trace, results: seq<TagResult>, cache: Cache, count: nat,
                        bin: Bin) {
    && Progress(r, selected, done, trace) && ResultsSoFar(r, selected, cache0, done, trace, results)
    && Visible(r, listing, cache, trace.unseen) && Extends(cache0, cache)
    && (trace.kept == map[] || AllCached(listing, cache))
    && Foreseen(outage, name, r, listing, cache)
    && TraceForeseen(outage, name, r, selected, done, trace)
    && count == |trace.snapped| && bin == Snapshotted(before, name, r, trace.snapped)
  }

  /** One digest more, with its own results, copies and lookups. */
  lemma SoFarGrows(outage: Outage, name: Name, r: Repo, selected: set<Ref>, listing: seq<Tag>, cache0: Cache,
                   before: Bin, done: set<Digest>, trace: Trace, results: seq<TagResult>, cache: Cache, count: nat,
                   bin: Bin, digest: Digest, refs: seq<Ref>, trace': Trace, more: seq<TagResult>, cache': Cache, n: nat)
    requires SoFar(outage, name, r, selected, listing, cache0, before, done, trace, results, cache, count, bin)
    requires selected <= cache0.Keys && digest !in done
    requires refs != [] && Elements(refs) == Group(selected, cache0, digest)
    requires DigestDone(r, selected, done, trace, digest, refs, more, n, trace')
    requires Visible(r, listing, cache', trace'.unseen) && Extends(cache, cache') && AllCached(listing, cache')
    requires trace.kept == map[] || trace'.unseen == trace.unseen
    requires Foreseen(outage, name, r, listing, cache')
    requires StepForeseen(outage, name, r, selected, trace, digest, trace')
    ensures SoFar(outage, name, r, selected, listing, cache0, before, done + {digest}, trace', results + more, cache',
                  count + n, Snapshotted(bin, name, r, trace'.snapped - trace.snapped))
  {
    ResultsGrow(r, selected, cache0, done, trace, results, digest, trace', more);
    CopiesGrow(before, name, r, trace.snapped, trace'.snapped);
    ForeseenGrows(outage, name, r, selected, done, trace, digest, trace');
  }

  /** What one turn does to the trace if nothing fails, and what it then leaves of the images table. */
  lemma CleanTurn(images: Images, name: Name, r: Repo, selected: set<Ref>, cache0: Cache, done: set<Digest>,
                  digest: Digest)
    requires digest !in done && done + {digest} <= SelectedDigests(r, selected)
    requires CacheSound(r, cache0, {}) && selected <= cache0.Keys
    ensures CleanPart(r, selected, done + {digest}) ==
            if Survivors(r, selected, digest) == {}
              then FullStep(CleanPart(r, selected, done), digest, {}, true, r.TagsOf(digest))
              else UntagStep(CleanPart(r, selected, done), digest, {}, true, Survivors(r, selected, digest))
    ensures CleanImages(images, name, r, selected, done + {digest})
         == ImagesStep(CleanImages(images, name, r, selected, done), name, digest, Group(selected, cache0, digest),
                       Survivors(r, selected, digest) == {},
                       AfterDelete(r, CleanPart(r, selected, done + {digest}).kept).tags == map[])
    ensures name in images && r.TagsOf(digest) != {} ==> name in CleanImages(images, name, r, selected, done)
  {
    CleanPartStep(r, selected, done, digest);
    CleanImagesStep(images, name, r, selected, done, digest, Group(selected, cache0, digest));
  }

  /** Lookups that extend sound ones without failing are sound on the part they extend. */
  lemma SoundBelow(r: Repo, listing: seq<Tag>, cache0: Cache, cache: Cache)
    requires Visible(r, listing, cache, {}) && Extends(cache0, cache)
    ensures CacheSound(r, cache0, {})
  {}

  /** What holds of the trace and the images table after the digests in `done` if nothing has failed. */
  ghost predicate CleanSoFar(before: Images, images: Images, name: Name, r: Repo, selected: set<Ref>, done: set<Digest>,
                             trace: Trace, repoKnown: bool) {
    && trace == CleanPart(r, selected, done)
    && (repoKnown && name in before ==> images == CleanImages(before, name, r, selected, done))
  }

  lemma CleanGrows(before: Images, middle: Images, after: Images, name: Name, r: Repo, selected: set<Ref>,
                   listing: seq<Tag>, cache0: Cache, cache: Cache, done: set<Digest>, trace: Trace, digest: Digest,
                   trace': Trace, repoKnown: bool)
    requires CleanSoFar(before, middle, name, r, selected, done, trace, repoKnown)
    requires digest !in done && done + {digest} <= SelectedDigests(r, selected) && selected <= cache0.Keys
    requires Visible(r, listing, cache, {}) && Extends(cache0, cache)
    requires trace' == if Survivors(r, selected, digest) == {}
                         then FullStep(trace, digest, {}, true, r.TagsOf(digest))
                         else UntagStep(trace, digest, {}, true, Survivors(r, selected, digest))
    requires repoKnown && (r.TagsOf(digest) != {} ==> name in middle) ==>
               after == ImagesStep(middle, name, digest, Group(selected, cache0, digest),
                                   Survivors(r, selected, digest) == {}, AfterDelete(r, trace'.kept).tags == map[])
    ensures CleanSoFar(before, after, name, r, selected, done + {digest}, trace', repoKnown)
  {
    SoundBelow(r, listing, cache0, cache);
    CleanTurn(before, name, r, selected, cache0, done, digest);
  }

  /** The images table so far and, under a fixed outage with known broken statements, the copies. */
  ghost predicate Accounted(outage: Outage, breakdown: Breakdown, clean: bool, known: bool, name: Name, r: Repo,
                            before: Images, after: Images, results: seq<TagResult>, trace: Trace) {
    && TableAfter(breakdown, clean, known, name, before, after, MarksOf(results, trace),
                  AfterDelete(r, trace.kept).tags == map[])
    && (outage.Fixed? && breakdown.Only? ==>
          trace.snapped == SnappedUnder(name, r, trace.full, outage.down, breakdown.broken))
  }

  lemma AccountedGrows(outage: Outage, breakdown: Breakdown, clean: bool, clean': bool, known: bool, name: Name,
                       r: Repo, before: Images, middle: Images, after: Images, results: seq<TagResult>, trace: Trace,
                       digest: Digest, more: seq<TagResult>, trace': Trace)
    requires Accounted(outage, breakdown, clean, known, name, r, before, middle, results, trace)
    requires TurnAccounted(outage, breakdown, clean', known, name, r, middle, after, digest, more, trace, trace',
                           AfterDelete(r, trace'.kept).tags == map[])
    requires TraceStep(r, trace, trace', digest) && digest !in trace.full && digest !in trace.kept
    ensures Accounted(outage, breakdown, clean && clean', known, name, r, before, after, results + more, trace')
  {
    var m, m' := MarksOf(results, trace), TurnMarks(more, digest, trace');
    if AfterDelete(r, trace.kept).tags == map[] {
      StaysTagless(r, trace.kept, trace', digest);
    }
    AfterCompose(breakdown, known, name, before, middle, after, clean, m, AfterDelete(r, trace.kept).tags == map[],
                 clean', m', AfterDelete(r, trace'.kept).tags == map[]);
    assert forall d :: d != digest ==> (d in trace'.full <==> d in trace.full) by {
      assert forall d :: d != digest ==> (d in trace'.full <==> d in trace'.full - {digest});
      assert forall d :: d != digest ==> (d in trace.full <==> d in trace.full - {digest});
    }
    assert MarksOf(results + more, trace') == m.Plus(m') by {
      assert forall x :: x in results + more <==> x in results || x in more;
      assert Untagged(results + more) == Untagged(results) + Untagged(more);
    }
    if outage.Fixed? && breakdown.Only? {
      assert trace.full <= trace'.full;
      SnappedSplits(name, r, trace.full, trace'.full, outage.down, breakdown.broken);
    }
  }

  lemma SnappedSplits(name: Name, r: Repo, a: set<Digest>, b: set<Digest>, down: set<Call>, broken: set<Statement>)
    requires a <= b
    ensures SnappedUnder(name, r, b, down, broken) ==
              SnappedUnder(name, r, a, down, broken) + SnappedUnder(name, r, b - a, down, broken)
  {}

  /** A repository that has lost all its tags stays without. */
  lemma StaysTagless(r: Repo, kept: map<Digest, set<Tag>>, trace': Trace, digest: Digest)
    requires AfterDelete(r, kept).tags == map[] && digest !in kept
    requires forall d :: d != digest ==> (d in trace'.kept <==> d in kept)
    requires forall d :: d in kept && d != digest ==> trace'.kept[d] == kept[d]
    ensures AfterDelete(r, trace'.kept).tags == map[]
  {
    assert forall t :: t in AfterDelete(r, trace'.kept).tags ==> t in AfterDelete(r, kept).tags;
  }

  lemma ReferencesConcat(a: seq<TagResult>, b: seq<TagResult>)
    ensures References(a + b) == References(a) + References(b)
  {}

  /** One turn of the main loop, but for the account of the images table and the copies. */
  method ProcessTurn(client: Upstream, db: Database, name: Name, digest: Digest, refs: seq<Ref>, listing: seq<Tag>,
                     cache: Cache, repoKnown: bool, ghost bin: Bin, ghost images: Images, ghost r: Repo,
                     ghost selected: set<Ref>, ghost cache0: Cache, ghost done: set<Digest>, ghost trace: Trace,
                     results: seq<TagResult>, count: nat)
    returns (results': seq<TagResult>, count': nat, cache': Cache, ghost trace': Trace, ghost more: seq<TagResult>)
    requires client.Valid() && r.Valid() && name in client.repos && client.At(name) == AfterDelete(r, trace.kept)
    requires SoFar(client.outage, name, r, selected, listing, cache0, bin, done, trace, results, cache, count, db.bin)
    requires selected <= cache0.Keys
    requires digest !in done && digest in r.manifests && done + {digest} <= SelectedDigests(r, selected)
    requires refs != [] && Distinct(refs) && Elements(refs) == Group(selected, cache0, digest)
    modifies client, db
    ensures client.Valid()
    ensures Replaced(old(client.repos), client.repos, name, AfterDelete(r, trace'.kept))
    ensures SoFar(client.outage, name, r, selected, listing, cache0, bin, done + {digest}, trace', results', cache',
                  count', db.bin)
    ensures client.lookupFaults >= old(client.lookupFaults)
    ensures client.lookupFaults == old(client.lookupFaults) ==> trace'.unseen == trace.unseen
    ensures Faults(client, db) >= old(Faults(client, db))
    ensures db.faults >= old(db.faults)
    ensures Faults(client, db) == old(Faults(client, db)) &&
            CleanSoFar(images, old(db.images), name, r, selected, done, trace, repoKnown) ==>
              CleanSoFar(images, db.images, name, r, selected, done + {digest}, trace', repoKnown)
    ensures results' == results + more && References(more) == refs && TraceStep(r, trace, trace', digest)
    ensures TurnAccounted(client.outage, db.breakdown, db.faults == old(db.faults), repoKnown, name, r, old(db.images),
                          db.images, digest, more, trace, trace', AfterDelete(r, trace'.kept).tags == map[])
  {
    var these, n;
    these, n, cache', trace' :=
        ProcessDigest(client, db, name, digest, refs, listing, cache, repoKnown, r, selected, done, trace);
    results', count' := results + these, count + n;
    more := these;
    SoFarGrows(client.outage, name, r, selected, listing, cache0, bin, done, trace, results, cache, count, old(db.bin),
               digest, refs, trace', more, cache', n);
    if CleanSoFar(images, old(db.images), name, r, selected, done, trace, repoKnown) &&
       Faults(client, db) == old(Faults(client, db)) {
      CleanGrows(images, old(db.images), db.images, name, r, selected, listing, cache0, cache, done, trace, digest,
                 trace', repoKnown);
    }
  }

  /** One turn of the main loop. */
  method ProcessNext(client: Upstream, db: Database, name: Name, digest: Digest, refs: seq<Ref>, listing: seq<Tag>,
                     cache: Cache, repoKnown: bool, ghost bin: Bin, ghost images: Images, ghost r: Repo,
                     ghost selected: set<Ref>, ghost cache0: Cache, ghost done: set<Digest>, ghost trace: Trace,
                     results: seq<TagResult>, count: nat, ghost clean: bool)
    returns (results': seq<TagResult>, count': nat, cache': Cache, ghost trace': Trace)
    requires client.Valid() && r.Valid() && name in client.repos && client.At(name) == AfterDelete(r, trace.kept)
    requires SoFar(client.outage, name, r, selected, listing, cache0, bin, done, trace, results, cache, count, db.bin)
    requires selected <= cache0.Keys
    requires digest !in done && digest in r.manifests && done + {digest} <= SelectedDigests(r, selected)
    requires refs != [] && Distinct(refs) && Elements(refs) == Group(selected, cache0, digest)
    requires Accounted(client.outage, db.breakdown, clean, repoKnown, name, r, images, db.images, results, trace)
    modifies client, db
    ensures client.Valid()
    ensures Replaced(old(client.repos), client.repos, name, AfterDelete(r, trace'.kept))
    ensures SoFar(client.outage, name, r, selected, listing, cache0, bin, done + {digest}, trace', results', cache',
                  count', db.bin)
    ensures client.lookupFaults >= old(client.lookupFaults)
    ensures client.lookupFaults == old(client.lookupFaults) ==> trace'.unseen == trace.unseen
    ensures Faults(client, db) >= old(Faults(client, db))
    ensures db.faults >= old(db.faults)
    ensures Faults(client, db) == old(Faults(client, db)) &&
            CleanSoFar(images, old(db.images), name, r, selected, done, trace, repoKnown) ==>
              CleanSoFar(images, db.images, name, r, selected, done + {digest}, trace', repoKnown)
    ensures Accounted(client.outage, db.breakdown, clean && db.faults == old(db.faults), repoKnown, name, r, images,
                      db.images, results', trace')
    ensures References(results') == References(results) + refs
  {
    ghost var more;
    results', count', cache', trace', more :=
        ProcessTurn(client, db, name, digest, refs, listing, cache, repoKnown, bin, images, r, selected, cache0, done,
                    trace, results, count);
    AccountedGrows(client.outage, db.breakdown, clean, db.faults == old(db.faults), repoKnown, name, r, images,
                   old(db.images), db.images, results, trace, digest, more, trace');
    ReferencesConcat(results, more);
  }

  /** Before the first turn: the refusals are the results, and nothing has changed. */
  lemma NothingYet(outage: Outage, name: Name, r: Repo, selected: set<Ref>, listing: seq<Tag>, cache: Cache,
                   unseen: set<Ref>, bin: Bin, images: Images, refusals: seq<TagResult>, repoKnown: bool)
    requires Visible(r, listing, cache, unseen) && AllRefused(refusals, Unresolved(selected, cache))
    requires Foreseen(outage, name, r, listing, cache)
    ensures SoFar(outage, name, r, selected, listing, cache, bin, {}, Trace(map[], {}, unseen, {}), refusals, cache, 0,
                  bin)
    ensures AfterDelete(r, map[]) == r
    ensures unseen == {} ==> CleanSoFar(images, images, name, r, selected, {}, Trace(map[], {}, unseen, {}), repoKnown)
  {
    AfterDeleteNothing(r);
    SnapshotNothing(bin, name, r);
    CleanImagesStart(images, name, r, selected);
    RefusalsFit(r, selected, cache, unseen, refusals);
  }

  lemma NothingAsked(outage: Outage, breakdown: Breakdown, known: bool, name: Name, r: Repo, images: Images,
                     unseen: set<Ref>, refusals: seq<TagResult>, selected: set<Ref>, cache: Cache)
    requires AllRefused(refusals, Unresolved(selected, cache))
    ensures Accounted(outage, breakdown, true, known, name, r, images, images, refusals, Trace(map[], {}, unseen, {}))
  {
    var trace := Trace(map[], {}, unseen, {});
    assert Untagged(refusals) == {};
    assert MarksOf(refusals, trace) == NO_MARKS;
    AfterNothing(breakdown, true, known, name, images, images, AfterDelete(r, trace.kept).tags == map[]);
  }

  /** Processes the digests of the selection in order. */
  method ProcessAll(client: Upstream, db: Database, name: Name, groups: map<Digest, seq<Ref>>, order: seq<Digest>,
                    refusals: seq<TagResult>, listing: seq<Tag>, cache0: Cache, repoKnown: bool, ghost r: Repo,
                    ghost selected: set<Ref>, ghost unseen: set<Ref>)
    returns (results: seq<TagResult>, count: nat, ghost trace: Trace)
    requires client.Valid() && client.At(name) == r
    requires Visible(r, listing, cache0, unseen) && cache0.Keys == selected
    requires Grouped(selected, cache0, groups, order) && AllRefused(refusals, Unresolved(selected, cache0))
    requires Foreseen(client.outage, name, r, listing, cache0)
    modifies client, db
    ensures client.Valid()
    ensures Replaced(old(client.repos), client.repos, name, AfterDelete(r, trace.kept))
    ensures Delivered(r, selected, results, trace)
    ensures count == |trace.snapped|
    ensures db.bin == Snapshotted(old(db.bin), name, r, trace.snapped)
    ensures client.lookupFaults >= old(client.lookupFaults)
    ensures client.lookupFaults == old(client.lookupFaults) ==> trace.unseen == unseen
    ensures client.outage.Fixed? ==> TraceUnder(name, r, selected, client.outage.down, trace)
    ensures Faults(client, db) >= old(Faults(client, db))
    ensures db.faults >= old(db.faults)
    ensures Faults(client, db) == old(Faults(client, db)) && unseen == {} ==>
              CleanSoFar(old(db.images), db.images, name, r, selected, SelectedDigests(r, selected), trace, repoKnown)
    ensures Accounted(client.outage, db.breakdown, db.faults == old(db.faults), repoKnown, name, r, old(db.images),
                      db.images, results, trace)
    ensures InTurn(refusals, groups, order, results)
  {
    NothingYet(client.outage, name, r, selected, listing, cache0, unseen, db.bin, db.images, refusals, repoKnown);
    NothingAsked(client.outage, db.breakdown, repoKnown, name, r, db.images, unseen, refusals, selected, cache0);
    GroupsAreSelected(r, selected, cache0, unseen, groups, order);
    assert order != [] ==> order[0] in order;
    var cache;
    results, count, cache, trace :=
      ProcessEach(client, db, name, groups, order, refusals, listing, cache0, repoKnown, r, selected, unseen);
    AllDone(client.outage, name, r, selected, listing, cache0, old(db.bin), trace, results, cache, count, db.bin,
            groups, order);
  }

  /** Every digest in `order` is about selected references, which are those in its group. */
  ghost predicate InGroups(r: Repo, selected: set<Ref>, cache: Cache, groups: map<Digest, seq<Ref>>,
                           order: seq<Digest>) {
    && Distinct(order) && selected <= cache.Keys
    && forall d :: d in order ==>
         && d in SelectedDigests(r, selected) && d in r.manifests
         && d in groups && groups[d] != [] && Distinct(groups[d]) && Elements(groups[d]) == Group(selected, cache, d)
  }

  /** The references of the groups, one group after the other. */
  ghost function Joined(groups: map<Digest, seq<Ref>>, order: seq<Digest>): seq<Ref> {
    if order == [] then []
    else
      var last := order[|order| - 1];
      Joined(groups, order[..|order| - 1]) + (if last in groups then groups[last] else [])
  }

  /** After the refusals, the results are in the order of the groups. */
  ghost predicate InTurn(refusals: seq<TagResult>, groups: map<Digest, seq<Ref>>, done: seq<Digest>,
                         results: seq<TagResult>) {
    References(results) == References(refusals) + Joined(groups, done)
  }

  lemma OneMoreJoined(refusals: seq<TagResult>, groups: map<Digest, seq<Ref>>, order: seq<Digest>, i: nat,
                      before: seq<TagResult>, after: seq<TagResult>)
    requires i < |order| && order[i] in groups && InTurn(refusals, groups, order[..i], before)
    requires References(after) == References(before) + groups[order[i]]
    ensures InTurn(refusals, groups, order[..i + 1], after)
  {
    PrefixStep(order, i);
  }

  /** The main loop. */
  method ProcessEach(client: Upstream, db: Database, name: Name, groups: map<Digest, seq<Ref>>, order: seq<Digest>,
                     refusals: seq<TagResult>, listing: seq<Tag>, cache0: Cache, repoKnown: bool, ghost r: Repo,
                     ghost selected: set<Ref>, ghost unseen: set<Ref>)
    returns (results: seq<TagResult>, count: nat, cache: Cache, ghost trace: Trace)
    requires client.Valid() && r.Valid() && client.At(name) == AfterDelete(r, map[])
    requires (order != [] ==> name in client.repos)
    requires SoFar(client.outage, name, r, selected, listing, cache0, db.bin, {}, Trace(map[], {}, unseen, {}),
                   refusals, cache0, 0, db.bin)
    requires InGroups(r, selected, cache0, groups, order)
    requires unseen == {} ==>
              CleanSoFar(db.images, db.images, name, r, selected, {}, Trace(map[], {}, unseen, {}), repoKnown)
    requires Accounted(client.outage, db.breakdown, true, repoKnown, name, r, db.images, db.images, refusals,
                       Trace(map[], {}, unseen, {}))
    modifies client, db
    ensures client.Valid()
    ensures Replaced(old(client.repos), client.repos, name, AfterDelete(r, trace.kept))
    ensures SoFar(client.outage, name, r, selected, listing, cache0, old(db.bin), Elements(order), trace, results,
                  cache, count, db.bin)
    ensures client.lookupFaults >= old(client.lookupFaults)
    ensures client.lookupFaults == old(client.lookupFaults) ==> trace.unseen == unseen
    ensures Faults(client, db) >= old(Faults(client, db))
    ensures db.faults >= old(db.faults)
    ensures Faults(client, db) == old(Faults(client, db)) && unseen == {} ==>
              CleanSoFar(old(db.images), db.images, name, r, selected, Elements(order), trace, repoKnown)
    ensures Accounted(client.outage, db.breakdown, db.faults == old(db.faults), repoKnown, name, r, old(db.images),
                      db.images, results, trace)
    ensures InTurn(refusals, groups, order, results)
  {
    results, count, cache, trace := refusals, 0, cache0, Trace(map[], {}, unseen, {});
    ghost var done: set<Digest> := {};
    for i := 0 to |order|
      invariant client.Valid() && Replaced(old(client.repos), client.repos, name, AfterDelete(r, trace.kept))
      invariant done == Elements(order[..i])
      invariant SoFar(client.outage, name, r, selected, listing, cache0, old(db.bin), done, trace, results, cache,
                      count, db.bin)
      invariant client.lookupFaults >= old(client.lookupFaults)
      invariant client.lookupFaults == old(client.lookupFaults) ==> trace.unseen == unseen
      invariant Faults(client, db) >= old(Faults(client, db))
      invariant db.faults >= old(db.faults)
      invariant Faults(client, db) == old(Faults(client, db)) && unseen == {} ==>
                  CleanSoFar(old(db.images), db.images, name, r, selected, done, trace, repoKnown)
      invariant Accounted(client.outage, db.breakdown, db.faults == old(db.faults), repoKnown, name, r, old(db.images),
                          db.images, results, trace)
      invariant InTurn(refusals, groups, order[..i], results)
    {
      PrefixGrows(order, i);
      ghost var before := results;
      results, count, cache, trace :=
        ProcessNext(client, db, name, order[i], groups[order[i]], listing, cache, repoKnown, old(db.bin),
                    old(db.images), r, selected, cache0, done, trace, results, count, db.faults == old(db.faults));
      OneMoreJoined(refusals, groups, order, i, before, results);
      done := done + {order[i]};
    }
    assert order[..|order|] == order;
  }

  /** After the last turn every selected reference is covered. */
  lemma AllDone(outage: Outage, name: Name, r: Repo, selected: set<Ref>, listing: seq<Tag>, cache0: Cache, before: Bin,
                trace: Trace, results: seq<TagResult>, cache: Cache, count: nat, bin: Bin,
                groups: map<Digest, seq<Ref>>, order: seq<Digest>)
    requires SoFar(outage, name, r, selected, listing, cache0, before, Elements(order), trace, results, cache, count,
                   bin)
    requires r.Valid() && Grouped(selected, cache0, groups, order) && cache0.Keys == selected
    ensures Delivered(r, selected, results, trace)
    ensures count == |trace.snapped| && bin == Snapshotted(before, name, r, trace.snapped)
    ensures outage.Fixed? ==> TraceUnder(name, r, selected, outage.down, trace)
  {
    if outage.Fixed? {
      GroupsAreSeen(outage.down, name, r, selected, cache0, groups, order);
    }
  }

  /** What looking every reference up gives if each lookup is answered. */
  ghost function Answers(r: Repo, sel: seq<Ref>): Cache {
    map s | s in sel :: r.Resolve(s)
  }

  /** The references on each of the digests, in order. */
  ghost function ByDigests(sel: seq<Ref>, cache: Cache, order: seq<Digest>): seq<Ref> {
    if order == [] then []
    else ByDigests(sel, cache, order[..|order| - 1]) + Having(sel, cache, Some(order[|order| - 1]))
  }

  /**
   * The order of results: first the references that do not resolve, then those on each digest, the digests by
   * where they are first seen; all else as selected.
   */
  ghost function ResultOrder(r: Repo, sel: seq<Ref>): seq<Ref> {
    var answers := Answers(r, sel);
    Having(sel, answers, None) + ByDigests(sel, answers, DigestsIn(sel, answers))
  }

  lemma InTurnIsOrdered(r: Repo, sel: seq<Ref>, cache: Cache, groups: map<Digest, seq<Ref>>, order: seq<Digest>,
                        refusals: seq<TagResult>)
    requires InOrder(sel, cache, groups, order, refusals) && CacheSound(r, cache, {}) && cache.Keys == Elements(sel)
    ensures References(refusals) + Joined(groups, order) == ResultOrder(r, sel)
  {
    GroupsInOrder(sel, cache, groups, order);
    assert cache == Answers(r, sel);
  }

  lemma {:induction false} GroupsInOrder(sel: seq<Ref>, cache: Cache, groups: map<Digest, seq<Ref>>,
                                         order: seq<Digest>)
    requires forall d :: Having(sel, cache, Some(d)) == if d in groups then groups[d] else []
    ensures Joined(groups, order) == ByDigests(sel, cache, order)
  {
    if order != [] {
      GroupsInOrder(sel, cache, groups, order[..|order| - 1]);
    }
  }

  /** Looks everything up that the deletes go by. */
  method Gather(client: Upstream, name: Name, selectedTags: seq<Ref>)
    returns (groups: map<Digest, seq<Ref>>, order: seq<Digest>, refusals: seq<TagResult>, listing: seq<Tag>,
             cache: Cache, ghost unseen: set<Ref>)
    requires client.Valid()
    modifies client`lookupFaults
    ensures Visible(client.At(name), listing, cache, unseen) && cache.Keys == Selection(selectedTags)
    ensures Grouped(Selection(selectedTags), cache, groups, order)
    ensures AllRefused(refusals, Unresolved(Selection(selectedTags), cache))
    ensures Foreseen(client.outage, name, client.At(name), listing, cache)
    ensures unseen == {} ==> References(refusals) + Joined(groups, order) ==
                               ResultOrder(client.At(name), FirstMentions(selectedTags))
    ensures client.lookupFaults >= old(client.lookupFaults)
    ensures client.lookupFaults == old(client.lookupFaults) ==> unseen == {}
  {
    var sel := Deduplicate(selectedTags);
    ghost var unlisted;
    listing, unlisted := KnownTags(client, name);
    groups, order, refusals, cache, unseen := GroupByDigest(client, name, sel, unlisted);
    if unseen == {} {
      InTurnIsOrdered(client.At(name), sel, cache, groups, order, refusals);
    }
  }

  /**
   * Removes the selected tags with proper tag semantics, whatever calls fail. The results, and the
   * number of bin rows written, are the caller's; the trace says exactly what changed.
   */
  method DeleteTagsAware(client: Upstream, db: Database, name: Name, selectedTags: seq<Ref>)
    returns (results: seq<TagResult>, snapshotCount: nat, ghost trace: Trace)
    requires client.Valid()
    modifies client, db
    ensures client.Valid()
    ensures Replaced(old(client.repos), client.repos, name, AfterDelete(old(client.At(name)), trace.kept))
    ensures TraceFits(old(client.At(name)), Selection(selectedTags), trace)
    ensures OnePer(results, Selection(selectedTags))
    ensures forall x :: x in results ==> ResultFits(old(client.At(name)), Selection(selectedTags), trace, x)
    ensures AllReported(old(client.At(name)), trace, results)
    ensures snapshotCount == |trace.snapped|
    ensures db.bin == Snapshotted(old(db.bin), name, old(client.At(name)), trace.snapped)
    ensures db.images - {name} == old(db.images) - {name}
    ensures client.lookupFaults >= old(client.lookupFaults)
    ensures client.lookupFaults == old(client.lookupFaults) ==>
              && trace.unseen == {} && Exact(old(client.At(name)), client.At(name), Selection(selectedTags), results)
              && References(results) == ResultOrder(old(client.At(name)), FirstMentions(selectedTags))
    ensures client.outage.Fixed? ==>
              TraceUnder(name, old(client.At(name)), Selection(selectedTags), client.outage.down, trace)
    ensures Faults(client, db) >= old(Faults(client, db))
    ensures db.faults >= old(db.faults)
    ensures TableAfter(db.breakdown, db.faults == old(db.faults), Known(db.breakdown, name), name, old(db.images),
                       db.images, MarksOf(results, trace), client.At(name).tags == map[])
    ensures client.outage.Fixed? && db.breakdown.Only? ==>
              trace.snapped == SnappedUnder(name, old(client.At(name)), trace.full, client.outage.down,
                                            db.breakdown.broken)
    ensures Faults(client, db) == old(Faults(client, db)) ==>
              && trace == CleanTrace(old(client.At(name)), Selection(selectedTags))
              && db.images == CleanImages(EnsureRepo(old(db.images), name), name, old(client.At(name)),
                                          Selection(selectedTags), SelectedDigests(old(client.At(name)),
                                          Selection(selectedTags)))
  {
    ghost var r := client.At(name);
    var groups, order, refusals, listing, cache, unseen := Gather(client, name, selectedTags);
    var repoKnown := db.ResolveRepo(name);
    assert db.images - {name} == old(db.images) - {name};
    ghost var faults, images := db.faults, db.images;
    results, snapshotCount, trace := ProcessAll(client, db, name, groups, order, refusals, listing, cache, repoKnown, r,
                                                Selection(selectedTags), unseen);
    FromStart(db.breakdown, repoKnown, faults == old(db.faults), db.faults == faults, name, old(db.images), images,
              db.images, MarksOf(results, trace), client.At(name).tags == map[]);
    CleanPartAll(r, Selection(selectedTags));
    if trace.unseen == {} {
      ExactWhenReadsAnswer(r, Selection(selectedTags), results, trace);
    }
  }
}
