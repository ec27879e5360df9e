/** Whole runs of the system: any sequence of operations, with any calls failing inside them. */
module Runs {
  import opened Prelude
  import opened Registry
  import opened Store
  import opened DeleteSpec
  import opened DeleteFacts
  import opened PushHook
  import opened System
  import opened Lifecycle
  import opened Sweep
  import opened SweepFacts
  import opened Table

  /**
   * One completed operation, with what it reported and what it is known to have done; `answered` says
   * that every tag listing and digest lookup in it was answered.
   */
  datatype Event =
    | Pushed(name: Name, reference: Ref, m: Manifest, accepted: bool)
    | TagsDeleted(name: Name, selected: set<Ref>, results: seq<TagResult>, trace: Trace, answered: bool)
    | DigestDeleted(name: Name, digest: Digest, deleted: bool, snapped: set<Tag>)
    | RestoreTried(key: BinKey, outcome: RestoreOutcome)
    | Discarded(key: BinKey)
    | Browsed(name: Name, reference: Ref, found: bool)
    | Swept(items: seq<BinKey>, swept: set<Spot>, f: Failures, answered: bool)
    | BlobsCollected

  /** How each operation may change the stores; every clause is a method's own contract. */
  ghost predicate Step(s: State, e: Event, s': State) {
    match e
    case Pushed(name, reference, m, accepted) => PushStep(s, name, reference, m, accepted, s')
    case TagsDeleted(name, selected, results, trace, answered) =>
      && Delivered(RepoAt(s.repos, name), selected, results, trace)
      && Replaced(s.repos, s'.repos, name, AfterDelete(RepoAt(s.repos, name), trace.kept))
      && s'.bin == Snapshotted(s.bin, name, RepoAt(s.repos, name), trace.snapped)
      && (answered ==> trace.unseen == {})
      && TableFits(s.images, s'.images, name, NO_MARKS, MarksOf(results, trace), RepoAt(s'.repos, name).tags == map[])
    case DigestDeleted(name, digest, deleted, snapped) => DigestDeleteStep(s, name, digest, deleted, snapped, s')
    case RestoreTried(key, outcome) => RestoreStep(s, key, outcome, s')
    case Discarded(key) => s' == s || s' == s.(bin := s.bin - {key})
    case Browsed(name, reference, found) =>
      && s'.repos == s.repos && s'.bin == s.bin
      && (if found
            then var d := RepoAt(s.repos, name).Resolve(reference);
                 d.Some? && Records(s.images, s'.images, name, reference, d.value)
            else s'.images == s.images)
    case Swept(items, swept, f, answered) =>
      && (forall k :: k in items ==> k in s.bin && s.bin[k].status == PendingGC)
      && s'.repos == SweptRepos(s.repos, swept) && swept <= SpotsOf(items)
      && BinAged(s.bin, s'.bin, Elements(items), f) && s'.images == s.images
      && GoneFit(s.repos, s'.bin, Elements(items), swept)
      && (answered ==> forall p :: p in swept ==> p.digest !in Live(RepoAt(s.repos, p.repo)))
      && (answered ==> forall k :: k in f.doomed ==> k.digest !in Live(RepoAt(s.repos, k.repo)))
    case BlobsCollected => s' == s
  }

  ghost predicate IsRun(states: seq<State>, events: seq<Event>) {
    && |states| == |events| + 1
    && forall i :: 0 <= i < |events| ==> Step(states[i], events[i], states[i + 1])
  }

  // ---- What every step keeps ----

  lemma StepKeepsCatalog(s: State, e: Event, s': State)
    requires Sound(s) && Step(s, e, s')
    ensures ValidCatalog(s'.repos)
  {
    match e
    case Pushed(name, reference, m, accepted) =>
      if accepted {
        PutKeepsValid(RepoAt(s.repos, name), reference, m);
      }
    case TagsDeleted(name, selected, results, trace, answered) => AfterDeleteValid(RepoAt(s.repos, name), trace.kept);
    case DigestDeleted(name, digest, deleted, snapped) => RemoveKeepsValid(RepoAt(s.repos, name), digest);
    case RestoreTried(key, outcome) =>
      if outcome in {Done, NotRecorded} {
        PutKeepsValid(RepoAt(s.repos, key.repo), key.reference, s.bin[key].manifest);
      }
    case Swept(items, swept, f, answered) =>
      forall n | n in s'.repos
        ensures s'.repos[n].Valid()
      {}
    case _ =>
  }

  lemma StepKeepsBin(s: State, e: Event, s': State)
    requires Sound(s) && Step(s, e, s')
    ensures BinSound(s'.bin)
  {
    match e
    case Pushed(name, reference, m, accepted) => PushKeepsBin(s, name, reference, m, accepted, s');
    case TagsDeleted(name, selected, results, trace, answered) =>
        SnapshottedSound(s.bin, name, RepoAt(s.repos, name), trace.snapped);
    case DigestDeleted(name, digest, deleted, snapped) => SnapshottedSound(s.bin, name, RepoAt(s.repos, name), snapped);
    case RestoreTried(key, outcome) => RestoreKeepsBin(s, key, outcome, s');
    case Swept(items, swept, f, answered) =>
      forall k | k in s'.bin && k.digest != Empty
        ensures k.digest == DigestOf(s'.bin[k].manifest) && s'.bin[k].manifest.body != ""
      {
        assert s'.bin[k].manifest == s.bin[k].manifest;
      }
    case _ =>
  }

  lemma PushKeepsBin(s: State, name: Name, reference: Ref, m: Manifest, accepted: bool, s': State)
    requires Sound(s) && PushStep(s, name, reference, m, accepted, s')
    ensures BinSound(s'.bin)
  {
    OverwritingSound(s, FiledUnder(name, reference));
  }

  lemma OverwritingSound(s: State, filed: Option<Filing>)
    requires Sound(s)
    ensures BinSound(Overwriting(s, filed))
  {
    if filed.Some? {
      DisplacedSound(s, filed.value.repo, filed.value.reference);
    }
  }

  lemma RestoreKeepsBin(s: State, k: BinKey, outcome: RestoreOutcome, s': State)
    requires Sound(s) && RestoreStep(s, k, outcome, s')
    ensures BinSound(s'.bin)
  {
    DisplacedSound(s, k.repo, k.reference);
    assert BinSound(BeforeRestore(s, k));
  }

  lemma StepKeepsSound(s: State, e: Event, s': State)
    requires Sound(s) && Step(s, e, s')
    ensures Sound(s')
  {
    StepKeepsCatalog(s, e, s');
    StepKeepsBin(s, e, s');
  }

  /** The registry stays well formed, and every bin row keeps a manifest that hashes to its digest, in every run. */
  lemma {:induction false} RunKeepsSound(states: seq<State>, events: seq<Event>, i: nat)
    requires IsRun(states, events) && Sound(states[0]) && i < |states|
    ensures Sound(states[i])
  {
    if i > 0 {
      RunKeepsSound(states, events, i - 1);
      StepKeepsSound(states[i - 1], events[i - 1], states[i]);
    }
  }

  // ---- Recoverability ----

  /** The operation copied tag `k.reference`, then at `k.digest`, to the bin. */
  ghost predicate Copies(s: State, e: Event, k: BinKey) {
    && (e.TagsDeleted? || e.DigestDeleted?)
    && k.repo == e.name && k.reference.Named?
    && k.reference.tag in (if e.TagsDeleted? then e.trace.snapped else e.snapped)
    && RepoAt(s.repos, k.repo).Resolve(k.reference) == Some(k.digest)
  }

  /** The operations after which a copy may be gone: restored, expired, discarded, swept, or its tag pushed again. */
  predicate Releases(e: Event, k: BinKey) {
    match e
    case Pushed(name, reference, m, accepted) =>
        accepted && FiledUnder(name, reference) == Some(Filing(k.repo, k.reference))
    case RestoreTried(key, outcome) => key == k && (outcome == Done || outcome == Expired)
    case Discarded(key) => key == k
    case Swept(items, swept, f, answered) => k in items
    case _ => false
  }

  /** The bin holds a pending row for `k` whose manifest hashes to the digest. */
  ghost predicate Held(s: State, k: BinKey) {
    k in s.bin && s.bin[k].status == PendingGC && DigestOf(s.bin[k].manifest) == k.digest
  }

  lemma CopiedIsHeld(s: State, e: Event, s': State, k: BinKey)
    requires Sound(s) && Step(s, e, s') && Copies(s, e, k)
    ensures Held(s', k)
  {
    var r := RepoAt(s.repos, k.repo);
    assert k in SnapshotKeys(k.repo, r, if e.TagsDeleted? then e.trace.snapped else e.snapped);
  }

  lemma HeldThroughPush(s: State, name: Name, reference: Ref, m: Manifest, accepted: bool, s': State, k: BinKey)
    requires PushStep(s, name, reference, m, accepted, s') && Held(s, k) && Sound(s)
    requires !(accepted && FiledUnder(name, reference) == Some(Filing(k.repo, k.reference)))
    ensures Held(s', k)
  {}

  lemma HeldThroughRestore(s: State, key: BinKey, outcome: RestoreOutcome, s': State, k: BinKey)
    requires RestoreStep(s, key, outcome, s') && Held(s, k) && Sound(s)
    requires !(key == k && (outcome == Done || outcome == Expired))
    ensures Held(s', k)
  {}

  lemma HeldStays(s: State, e: Event, s': State, k: BinKey)
    requires Sound(s) && Step(s, e, s') && Held(s, k) && !Releases(e, k)
    ensures Held(s', k)
  {
    match e
    case TagsDeleted(name, selected, results, trace, answered) =>
    case DigestDeleted(name, digest, deleted, snapped) =>
    case Pushed(name, reference, m, accepted) => HeldThroughPush(s, name, reference, m, accepted, s', k);
    case RestoreTried(key, outcome) => HeldThroughRestore(s, key, outcome, s', k);
    case _ =>
  }

  lemma HeldNext(states: seq<State>, events: seq<Event>, i: nat, k: BinKey)
    requires IsRun(states, events) && i < |events| && Sound(states[i])
    requires Copies(states[i], events[i], k) || (Held(states[i], k) && !Releases(events[i], k))
    ensures Held(states[i + 1], k)
  {
    assert Step(states[i], events[i], states[i + 1]);
    if Copies(states[i], events[i], k) {
      CopiedIsHeld(states[i], events[i], states[i + 1], k);
    } else {
      HeldStays(states[i], events[i], states[i + 1], k);
    }
  }

  /**
   * Recoverability over whole runs: from the delete that copied it on, a tag's row stays pending with
   * a manifest that hashes to its digest until something releases it.
   */
  lemma {:induction false} CopyIsKept(states: seq<State>, events: seq<Event>, i: nat, j: nat, k: BinKey)
    requires IsRun(states, events) && Sound(states[0])
    requires i < j < |states| && Copies(states[i], events[i], k)
    requires forall m :: i < m < j ==> !Releases(events[m], k)
    ensures Held(states[j], k)
  {
    RunKeepsSound(states, events, j - 1);
    if j > i + 1 {
      CopyIsKept(states, events, i, j - 1, k);
    }
    HeldNext(states, events, j - 1, k);
  }

  /**
   * Which tags a delete makes recoverable is visible to the caller. With every listing and lookup
   * answered, whatever else failed, and every copy counted, a tag that is gone was copied exactly if its
   * result says "delete"; an untagged one was not, as its digest lives on under other tags.
   */
  lemma CopiedIffLastTag(s: State, e: Event, s': State, x: TagResult)
    requires Sound(s) && Step(s, e, s') && e.TagsDeleted? && e.answered
    requires |e.trace.snapped| == |DeletedTags(e.results)|
    requires x in e.results && x.ok && x.reference.Named?
    ensures RepoAt(s.repos, e.name).Resolve(x.reference).Some?
    ensures RepoAt(s'.repos, e.name).Resolve(x.reference) == None
    ensures Copies(s, e, BinKey(e.name, x.reference, RepoAt(s.repos, e.name).Resolve(x.reference).value)) <==>
              x.action == DeleteAction
  {
    AllCopiedIff(RepoAt(s.repos, e.name), e.selected, e.results, e.trace);
    ExactWhenReadsAnswer(RepoAt(s.repos, e.name), e.selected, e.results, e.trace);
    assert x.action == DeleteAction ==> x.reference.tag in DeletedTags(e.results);
    assert ResultFits(RepoAt(s.repos, e.name), e.selected, e.trace, x);
  }

  /** A held row can be restored, and restoring it points the tag at the digest again. */
  lemma HeldRestores(s: State, k: BinKey, now: int)
    requires Sound(s) && Held(s, k)
    ensures Restorable(s, k)
    ensures RepoAt(RestoreClean(s, k, now).repos, k.repo).Resolve(k.reference) == Some(k.digest)
    ensures RestoreClean(s, k, now).bin[k].status == Restored
  {}

  /** The tags of a digest deleted as a whole were all copied exactly if as many copies were counted as it had tags. */
  lemma CopiedIffAllCounted(s: State, e: Event, s': State)
    requires Sound(s) && Step(s, e, s') && e.DigestDeleted? && e.deleted
    ensures var r := RepoAt(s.repos, e.name);
            && RepoAt(s'.repos, e.name).tags == r.tags - r.TagsOf(e.digest)
            && (|e.snapped| == |r.TagsOf(e.digest)| <==>
                forall t :: t in r.TagsOf(e.digest) ==> Copies(s, e, BinKey(e.name, Named(t), e.digest)))
  {
    var tags := RepoAt(s.repos, e.name).TagsOf(e.digest);
    SubsetSize(e.snapped, tags);
    if t :| t in tags && t !in e.snapped {
      assert !Copies(s, e, BinKey(e.name, Named(t), e.digest));
    } else {
      assert e.snapped == tags;
    }
  }

  /**
   * The copy a push takes of what it overwrites outlives the push exactly if the registry refuses it: an
   * accepted push drops every pending row of its reference, the new copy included. A push that the hook
   * files elsewhere, or nowhere, takes no such copy and drops none.
   */
  lemma OverwriteCopyKeptIff(s: State, name: Name, reference: Ref, m: Manifest, now: int, d: Digest)
    requires Sound(s) && RepoAt(s.repos, name).Resolve(reference) == Some(d)
    ensures var k, s' := BinKey(name, reference, d), PushClean(s, name, reference, m, true, now);
            if FiledUnder(name, reference) == Some(Filing(name, reference))
              then Held(s', k) <==> !RepoAt(s.repos, name).Accepts(reference, m)
              else Held(s', k) <==> Held(s, k)
  {
    var k, filed := BinKey(name, reference, d), FiledUnder(name, reference);
    if filed == Some(Filing(name, reference)) {
      CopyTaken(s, k);
    }
  }

  lemma CopyTaken(s: State, k: BinKey)
    requires Sound(s) && RepoAt(s.repos, k.repo).Resolve(k.reference) == Some(k.digest)
    ensures var filed := Some(Filing(k.repo, k.reference));
            && Held(s.(bin := Overwriting(s, filed)), k)
            && k !in Overwritten(Overwriting(s, filed), filed)
  {
    assert k.digest in RepoAt(s.repos, k.repo).manifests;
  }

  /** A collection whose listings and lookups were all answered loses no tag, whatever else failed in it. */
  lemma AnsweredSweepKeepsTags(s: State, e: Event, s': State)
    requires Step(s, e, s') && e.Swept? && e.answered
    ensures TagsKept(s.repos, s'.repos)
  {
    UnreferencedKeepTags(s.repos, e.swept);
  }
}
