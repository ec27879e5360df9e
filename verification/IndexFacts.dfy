/** The images table mirrors the registry's tags in every run without failures. */
module IndexFacts {
  import opened Prelude
  import opened Registry
  import opened Store
  import opened DeleteSpec
  import opened PushHook
  import opened System
  import opened Lifecycle
  import opened SweepFacts
  import opened Deleting
  import opened RetentionRun
  import opened Server

  /** The rows that are not deleted and belong to a tag are the registry's tag map. */
  ghost predicate AgreesAt(s: State, name: Name) {
    View(s.images, name) == RepoAt(s.repos, name).tags
  }

  /** Every bin row is about a digest; only rows written by older versions are not. */
  ghost predicate NoEmptyDigests(bin: Bin) {
    forall k :: k in bin ==> k.digest != Empty
  }

  ghost predicate Good(s: State) {
    Sound(s) && NoEmptyDigests(s.bin) && forall n :: AgreesAt(s, n)
  }

  // ---- One operation at a time ----

  lemma SyncedView(images: Images, name: Name, reference: Ref, d: Digest, now: int, n: Name)
    ensures View(Synced(images, name, reference, d, now), n)
         == if n == name && reference.Named? then View(images, n)[reference.tag := d] else View(images, n)
  {
    if n == name && reference.Named? {
      SyncedTag(images, name, reference, d, now);
    } else {
      assert View(Synced(images, name, reference, d, now), n).Keys == View(images, n).Keys;
    }
  }

  lemma SyncedTag(images: Images, name: Name, reference: Ref, d: Digest, now: int)
    requires reference.Named?
    ensures View(Synced(images, name, reference, d, now), name) == View(images, name)[reference.tag := d]
  {
    assert RowsAt(Synced(images, name, reference, d, now), name) == SyncRow(RowsAt(images, name), reference, d, now);
  }

  lemma SyncAgrees(s: State, s': State, name: Name, reference: Ref, m: Manifest, now: int, n: Name)
    requires AgreesAt(s, n)
    requires s'.repos == s.repos[name := RepoAt(s.repos, name).Put(reference, m)]
    requires s'.images == Synced(s.images, name, reference, DigestOf(m), now)
    ensures AgreesAt(s', n)
  {
    SyncedView(s.images, name, reference, DigestOf(m), now, n);
  }

  lemma BrowseAgrees(s: State, name: Name, reference: Ref, now: int, n: Name)
    requires AgreesAt(s, n)
    ensures AgreesAt(BrowseClean(s, name, reference, now), n)
  {
    var d := RepoAt(s.repos, name).Resolve(reference);
    if d.Some? {
      SyncedView(s.images, name, reference, d.value, now, n);
      if n == name && reference.Named? {
        assert View(s.images, n)[reference.tag := d.value] == View(s.images, n);
      }
    }
  }

  /** A tag map without the tags in `refs` and those at `digests`. */
  ghost function Struck(tags: map<Tag, Digest>, refs: set<Ref>, digests: set<Digest>): map<Tag, Digest> {
    map t | t in tags && Named(t) !in refs && tags[t] !in digests :: tags[t]
  }

  lemma SoftDeletedView(images: Images, name: Name, refs: set<Ref>, digests: set<Digest>)
    ensures View(SoftDeleteIn(images, name, refs, digests), name) == Struck(View(images, name), refs, digests)
  {}

  lemma OtherView(a: Images, b: Images, name: Name, n: Name)
    requires a - {name} == b - {name} && n != name
    ensures View(a, n) == View(b, n)
  {
    assert n in a <==> n in a - {name};
    assert n in b <==> n in b - {name};
    assert RowsAt(a, n) == RowsAt(b, n);
  }

  lemma RemoveStrikes(r: Repo, d: Digest)
    ensures r.Remove(d).tags == Struck(r.tags, {}, {d})
  {}

  lemma WithoutDigestView(images: Images, name: Name, r: Repo, d: Digest)
    requires View(images, name) == r.tags
    ensures View(WithoutDigest(images, name, d, r.Remove(d).tags == map[]), name) == r.Remove(d).tags
  {
    RemoveStrikes(r, d);
    SoftDeletedView(images, name, {}, {d});
  }

  lemma WithoutDigestFrame(images: Images, name: Name, d: Digest, noTags: bool)
    ensures WithoutDigest(EnsureRepo(images, name), name, d, noTags) - {name} == images - {name}
  {}

  lemma DigestDeleteAgrees(s: State, name: Name, d: Digest, n: Name)
    requires AgreesAt(s, n)
    ensures AgreesAt(DigestDeleteClean(s, name, d), n)
  {
    var r := RepoAt(s.repos, name);
    if d in r.manifests {
      if n == name {
        WithoutDigestView(EnsureRepo(s.images, name), name, r, d);
      } else {
        WithoutDigestFrame(s.images, name, d, r.Remove(d).tags == map[]);
        OtherView(DigestDeleteClean(s, name, d).images, s.images, name, n);
      }
    }
  }

  lemma CleanImagesFrame(images: Images, name: Name, r: Repo, selected: set<Ref>, digests: set<Digest>)
    ensures CleanImages(EnsureRepo(images, name), name, r, selected, digests) - {name} == images - {name}
  {}

  lemma DeleteTagsAgrees(s: State, name: Name, selected: set<Ref>, n: Name)
    requires AgreesAt(s, n)
    ensures AgreesAt(DeleteTagsClean(s, name, selected), n)
  {
    var r := RepoAt(s.repos, name);
    if n == name {
      DeletedView(EnsureRepo(s.images, name), name, r, selected);
    } else {
      CleanImagesFrame(s.images, name, r, selected, SelectedDigests(r, selected));
      OtherView(DeleteTagsClean(s, name, selected).images, s.images, name, n);
    }
  }

  /** What survives a tag-aware delete, in the terms the images table uses. */
  lemma DeleteStrikes(r: Repo, selected: set<Ref>)
    ensures AfterDelete(r, CleanTrace(r, selected).kept).tags
         == Struck(r.tags, UntaggedRefs(r, selected, SelectedDigests(r, selected)), FullDigests(r, selected))
  {}

  /** What the images table shows after a tag-aware delete is what the registry still has. */
  lemma DeletedView(images: Images, name: Name, r: Repo, selected: set<Ref>)
    requires View(images, name) == r.tags
    ensures View(CleanImages(images, name, r, selected, SelectedDigests(r, selected)), name)
         == AfterDelete(r, CleanTrace(r, selected).kept).tags
  {
    var full := FullDigests(r, selected);
    assert SelectedDigests(r, selected) * full == full;
    DeleteStrikes(r, selected);
    SoftDeletedView(images, name, UntaggedRefs(r, selected, SelectedDigests(r, selected)), full);
  }

  lemma SweepAgrees(s: State, due: set<BinKey>, n: Name)
    requires Sound(s) && AgreesAt(s, n)
    ensures AgreesAt(SweepClean(s, due), n)
  {
    UnreferencedKeepTags(s.repos, Orphans(s, due));
  }

  lemma RestoreAgrees(s: State, k: BinKey, now: int, n: Name)
    requires Good(s)
    ensures AgreesAt(RestoreClean(s, k, now), n)
  {
    assert AgreesAt(s, n);
    if Restorable(s, k) {
      SyncAgrees(s, RestoreClean(s, k, now), k.repo, k.reference, s.bin[k].manifest, now, n);
    }
  }

  /** Pointing the reference at `d` would not change the repository's tags. */
  ghost predicate NoNews(repos: Catalog, name: Name, reference: Ref, d: Digest) {
    reference.Named? ==> RepoAt(repos, name).Resolve(reference) == Some(d)
  }

  /** The push changes no tag, and the row written for it, if any, says what the registry says already. */
  ghost predicate Unnoticed(s: State, name: Name, reference: Ref, filed: Option<Filing>, d: Digest) {
    && NoNews(s.repos, name, reference, d)
    && (filed.Some? ==> NoNews(s.repos, RowName(filed.value.repo), filed.value.reference, d))
  }

  function Pointed(tags: map<Tag, Digest>, reference: Ref, d: Digest): map<Tag, Digest> {
    if reference.Named? then tags[reference.tag := d] else tags
  }

  /** The stores once the registry has accepted a push that the hook filed as `filed`. */
  ghost predicate PushFiled(s: State, name: Name, reference: Ref, m: Manifest, filed: Option<Filing>, now: int,
                            s': State) {
    && s'.repos == s.repos[name := RepoAt(s.repos, name).Put(reference, m)]
    && s'.images == Recorded(s.images, filed, DigestOf(m), now)
  }

  lemma PushedView(s: State, name: Name, reference: Ref, m: Manifest, filed: Option<Filing>, now: int, s': State,
                   n: Name)
    requires AgreesAt(s, n) && PushFiled(s, name, reference, m, filed, now, s')
    ensures RepoAt(s'.repos, n).tags ==
            if n == name then Pointed(RepoAt(s.repos, n).tags, reference, DigestOf(m)) else RepoAt(s.repos, n).tags
    ensures View(s'.images, n) ==
            if filed.Some? && n == RowName(filed.value.repo)
              then Pointed(RepoAt(s.repos, n).tags, filed.value.reference, DigestOf(m))
              else RepoAt(s.repos, n).tags
  {
    PushedRows(s.images, filed, DigestOf(m), now, n);
  }

  lemma PushedRows(images: Images, filed: Option<Filing>, d: Digest, now: int, n: Name)
    ensures View(Recorded(images, filed, d, now), n) ==
            if filed.Some? && n == RowName(filed.value.repo) then Pointed(View(images, n), filed.value.reference, d)
            else View(images, n)
  {
    if filed.Some? {
      var row := RowName(filed.value.repo);
      SyncedView(images, row, filed.value.reference, d, now, n);
    }
  }

  lemma FiledAgrees(s: State, name: Name, reference: Ref, m: Manifest, filing: Filing, now: int, s': State, n: Name)
    requires AgreesAt(s, n) && PushFiled(s, name, reference, m, Some(filing), now, s')
    requires RowName(filing.repo) == name && filing.reference == reference
    ensures AgreesAt(s', n)
  {
    PushedView(s, name, reference, m, Some(filing), now, s', n);
  }

  /** Two references change the tags in the same way if they are the same, or if neither changes them. */
  lemma PointedSame(tags: map<Tag, Digest>, a: Ref, b: Ref, d: Digest)
    ensures Pointed(tags, a, d) == Pointed(tags, b, d) <==>
              a == b || (Pointed(tags, a, d) == tags && Pointed(tags, b, d) == tags)
  {
    if a.Named? && b.Named? && a != b {
      var p, q := Pointed(tags, a, d), Pointed(tags, b, d);
      assert p[a.tag] == d && q[b.tag] == d;
      if p == q {
        assert a.tag in tags && b.tag in tags;
        assert p == tags && q == tags;
      }
    }
  }

  /** The tags of repository `n` once the reference of one repository points at `d`. */
  function TagsAfter(repos: Catalog, name: Name, reference: Ref, d: Digest, n: Name): map<Tag, Digest> {
    if n == name then Pointed(RepoAt(repos, n).tags, reference, d) else RepoAt(repos, n).tags
  }

  lemma UnchangedIff(repos: Catalog, name: Name, reference: Ref, d: Digest)
    ensures (forall n :: TagsAfter(repos, name, reference, d, n) == RepoAt(repos, n).tags) <==>
            NoNews(repos, name, reference, d)
  {
    assert TagsAfter(repos, name, reference, d, name) == Pointed(RepoAt(repos, name).tags, reference, d);
  }

  lemma SameEverywhereIff(repos: Catalog, name: Name, a: Ref, row: Name, b: Ref, d: Digest)
    ensures (forall n :: TagsAfter(repos, name, a, d, n) == TagsAfter(repos, row, b, d, n)) <==>
            (row == name && b == a) || (NoNews(repos, name, a, d) && NoNews(repos, row, b, d))
  {
    PointedSame(RepoAt(repos, name).tags, a, b, d);
    var sameAt := n => TagsAfter(repos, name, a, d, n) == TagsAfter(repos, row, b, d, n);
    assert sameAt(name) <==>
      Pointed(RepoAt(repos, name).tags, a, d) ==
          if row == name then Pointed(RepoAt(repos, name).tags, b, d) else RepoAt(repos, name).tags;
    assert row != name ==> (sameAt(row) <==> Pointed(RepoAt(repos, row).tags, b, d) == RepoAt(repos, row).tags);
  }

  lemma FiledAgreesIff(s: State, name: Name, reference: Ref, m: Manifest, filed: Option<Filing>, now: int, s': State)
    requires (forall n :: AgreesAt(s, n)) && PushFiled(s, name, reference, m, filed, now, s')
    ensures (forall n :: AgreesAt(s', n)) <==>
            || (filed.Some? && RowName(filed.value.repo) == name && filed.value.reference == reference)
            || Unnoticed(s, name, reference, filed, DigestOf(m))
  {
    var d := DigestOf(m);
    forall n
      ensures AgreesAt(s', n) <==>
                TagsAfter(s.repos, name, reference, d, n) ==
                    if filed.Some? then TagsAfter(s.repos, RowName(filed.value.repo), filed.value.reference, d, n)
                    else RepoAt(s.repos, n).tags
    {
      PushedView(s, name, reference, m, filed, now, s', n);
    }
    if filed.Some? {
      SameEverywhereIff(s.repos, name, reference, RowName(filed.value.repo), filed.value.reference, d);
    } else {
      UnchangedIff(s.repos, name, reference, d);
    }
  }

  /**
   * A push the registry accepts leaves table and registry in agreement exactly if the hook files it right,
   * or if it told neither of them anything new.
   */
  lemma PushAgreesIff(s: State, name: Name, reference: Ref, m: Manifest, recycle: bool, now: int)
    requires (forall n :: AgreesAt(s, n)) && RepoAt(s.repos, name).Accepts(reference, m)
    ensures (forall n :: AgreesAt(PushClean(s, name, reference, m, recycle, now), n)) <==>
            FiledRight(name, reference) || Unnoticed(s, name, reference, FiledUnder(name, reference), DigestOf(m))
  {
    FiledAgreesIff(s, name, reference, m, FiledUnder(name, reference), now,
                   PushClean(s, name, reference, m, recycle, now));
  }

  const NOTHING := State(map[], map[], map[])

  /** A new tag that no row is written for is one the images table does not show. */
  lemma SkippedDisagrees(s: State, name: Name, t: Tag, m: Manifest, now: int, s': State)
    requires AgreesAt(s, name) && t !in RepoAt(s.repos, name).tags && PushFiled(s, name, Named(t), m, None, now, s')
    ensures !AgreesAt(s', name)
  {
    PushedView(s, name, Named(t), m, None, now, s', name);
  }

  /** A new tag filed as one of another repository is shown there only, where it is not. */
  lemma MisfiledDisagrees(s: State, name: Name, t: Tag, filing: Filing, m: Manifest, now: int, s': State)
    requires AgreesAt(s, name) && AgreesAt(s, RowName(filing.repo)) && RowName(filing.repo) != name
    requires t !in RepoAt(s.repos, name).tags
    requires filing.reference.Named? && filing.reference.tag !in RepoAt(s.repos, RowName(filing.repo)).tags
    requires PushFiled(s, name, Named(t), m, Some(filing), now, s')
    ensures !AgreesAt(s', name) && !AgreesAt(s', RowName(filing.repo))
  {
    PushedView(s, name, Named(t), m, Some(filing), now, s', name);
    PushedView(s, name, Named(t), m, Some(filing), now, s', RowName(filing.repo));
  }

  /** The first push to a legal name, which leaves table and registry in disagreement. */
  lemma SkippedPushDisagrees(m: Manifest, recycle: bool, now: int)
    requires m.body != ""
    ensures Good(NOTHING)
    ensures !AgreesAt(PushClean(NOTHING, "team/manifests/app", Named("v1"), m, recycle, now), "team/manifests/app")
  {
    SkippedFiling();
    FirstPushSkipped("team/manifests/app", "v1", m, recycle, now);
  }

  lemma FirstPushSkipped(name: Name, t: Tag, m: Manifest, recycle: bool, now: int)
    requires FiledUnder(name, Named(t)) == None && m.body != ""
    ensures Good(NOTHING) && !AgreesAt(PushClean(NOTHING, name, Named(t), m, recycle, now), name)
  {
    SkippedDisagrees(NOTHING, name, t, m, now, PushClean(NOTHING, name, Named(t), m, recycle, now));
  }

  /** And to another, which does so for two repositories. */
  lemma MisfiledPushDisagrees(m: Manifest, recycle: bool, now: int)
    requires m.body != ""
    ensures !AgreesAt(PushClean(NOTHING, "a/manifests", Named("v1"), m, recycle, now), "a/manifests")
    ensures !AgreesAt(PushClean(NOTHING, "a/manifests", Named("v1"), m, recycle, now), "a")
  {
    MisfiledFiling();
    FirstPushMisfiled("a/manifests", "v1", Filing("a", Named("manifests/v1")), m, recycle, now);
  }

  lemma FirstPushMisfiled(name: Name, t: Tag, filing: Filing, m: Manifest, recycle: bool, now: int)
    requires FiledUnder(name, Named(t)) == Some(filing) && m.body != ""
    requires filing.reference.Named? && RowName(filing.repo) != name
    ensures var s' := PushClean(NOTHING, name, Named(t), m, recycle, now);
            !AgreesAt(s', name) && !AgreesAt(s', RowName(filing.repo))
  {
    MisfiledDisagrees(NOTHING, name, t, filing, m, now, PushClean(NOTHING, name, Named(t), m, recycle, now));
  }

  lemma RetainAgrees(s: State, name: Name, keepCount: int, s': State, n: Name)
    requires AgreesAt(s, n) && Retained(s, name, keepCount, s')
    ensures AgreesAt(s', n)
  {
    var images, candidates :| RetainedClean(s, name, keepCount, images, candidates, s');
    DeleteTagsAgrees(s, name, Selection(AllTags(candidates)), n);
  }

  /** Whatever the request is, if it is a push, the hook files it right. */
  predicate Readable(q: Request) {
    q.Push? ==> FiledRight(q.name, q.reference)
  }

  lemma StepAgrees(s: State, q: Request, s': State, n: Name)
    requires Good(s) && CleanNext(s, q, s') && Readable(q)
    ensures AgreesAt(s', n)
  {
    assert AgreesAt(s, n);
    match q
    case Push(name, reference, m, recycle, now) =>
      if RepoAt(s.repos, name).Accepts(reference, m) {
        FiledAgrees(s, name, reference, m, FiledUnder(name, reference).value, now, s', n);
      }
    case DeleteTags(name, tags) => DeleteTagsAgrees(s, name, Selection(tags), n);
    case DeleteDigest(name, digest) => DigestDeleteAgrees(s, name, digest, n);
    case Retain(name, keepCount) => RetainAgrees(s, name, keepCount, s', n);
    case Restore(key, now) => RestoreAgrees(s, key, now, n);
    case Browse(name, reference, now) => BrowseAgrees(s, name, reference, now, n);
    case CollectMetadata(due) => SweepAgrees(s, due, n);
    case _ =>
  }

  lemma PushSound(s: State, name: Name, reference: Ref, m: Manifest, recycle: bool, now: int)
    requires Sound(s) && NoEmptyDigests(s.bin)
    ensures Sound(PushClean(s, name, reference, m, recycle, now))
    ensures NoEmptyDigests(PushClean(s, name, reference, m, recycle, now).bin)
  {
    FiledBinSound(s, FiledUnder(name, reference), recycle);
    if RepoAt(s.repos, name).Accepts(reference, m) {
      PutKeepsValid(RepoAt(s.repos, name), reference, m);
    }
  }

  lemma FiledBinSound(s: State, filed: Option<Filing>, recycle: bool)
    requires Sound(s) && NoEmptyDigests(s.bin)
    ensures var bin := if recycle then Overwriting(s, filed) else s.bin;
            BinSound(bin) && NoEmptyDigests(bin) && BinSound(Overwritten(bin, filed)) &&
                NoEmptyDigests(Overwritten(bin, filed))
  {
    var bin := if recycle then Overwriting(s, filed) else s.bin;
    if filed.Some? {
      DisplacedSound(s, filed.value.repo, filed.value.reference);
      assert BinSound(bin) && NoEmptyDigests(bin);
    }
  }

  lemma RestoreSound(s: State, k: BinKey, now: int)
    requires Sound(s) && NoEmptyDigests(s.bin)
    ensures Sound(RestoreClean(s, k, now)) && NoEmptyDigests(RestoreClean(s, k, now).bin)
  {
    BeforeRestoreSound(s, k);
    if Restorable(s, k) {
      PutKeepsValid(RepoAt(s.repos, k.repo), k.reference, s.bin[k].manifest);
      SetStatusSound(BeforeRestore(s, k), k, Restored);
    }
  }

  lemma BeforeRestoreSound(s: State, k: BinKey)
    requires Sound(s) && NoEmptyDigests(s.bin)
    ensures BinSound(BeforeRestore(s, k)) && NoEmptyDigests(BeforeRestore(s, k))
  {
    DisplacedSound(s, k.repo, k.reference);
  }

  lemma SetStatusSound(bin: Bin, k: BinKey, status: Status)
    requires BinSound(bin) && NoEmptyDigests(bin)
    ensures BinSound(SetStatus(bin, k, status)) && NoEmptyDigests(SetStatus(bin, k, status))
  {}

  lemma SnapshotGood(bin: Bin, name: Name, r: Repo, tags: set<Tag>)
    requires r.Valid() && BinSound(bin) && NoEmptyDigests(bin)
    ensures BinSound(Snapshotted(bin, name, r, tags)) && NoEmptyDigests(Snapshotted(bin, name, r, tags))
  {
    SnapshottedSound(bin, name, r, tags);
  }

  lemma SweepSound(s: State, due: set<BinKey>)
    requires Sound(s) && NoEmptyDigests(s.bin)
    ensures Sound(SweepClean(s, due)) && NoEmptyDigests(SweepClean(s, due).bin)
  {}

  lemma DeleteTagsSound(s: State, name: Name, selected: set<Ref>)
    requires Sound(s) && NoEmptyDigests(s.bin)
    ensures Sound(DeleteTagsClean(s, name, selected)) && NoEmptyDigests(DeleteTagsClean(s, name, selected).bin)
  {
    var r := RepoAt(s.repos, name);
    AfterDeleteValid(r, CleanTrace(r, selected).kept);
    SnapshotGood(s.bin, name, r, CleanTrace(r, selected).snapped);
  }

  lemma RetainSound(s: State, name: Name, keepCount: int, s': State)
    requires Sound(s) && NoEmptyDigests(s.bin) && Retained(s, name, keepCount, s')
    ensures Sound(s') && NoEmptyDigests(s'.bin)
  {
    var images, candidates :| RetainedClean(s, name, keepCount, images, candidates, s');
    DeleteTagsSound(s, name, Selection(AllTags(candidates)));
  }

  /** No operation writes a row without a digest, and all keep the stores sound. */
  lemma StepSound(s: State, q: Request, s': State)
    requires Sound(s) && NoEmptyDigests(s.bin) && CleanNext(s, q, s')
    ensures Sound(s') && NoEmptyDigests(s'.bin)
  {
    match q
    case Push(name, reference, m, recycle, now) => PushSound(s, name, reference, m, recycle, now);
    case DeleteTags(name, tags) => DeleteTagsSound(s, name, Selection(tags));
    case DeleteDigest(name, digest) =>
      var r := RepoAt(s.repos, name);
      RemoveKeepsValid(r, digest);
      SnapshotGood(s.bin, name, r, r.TagsOf(digest));
    case Retain(name, keepCount) => RetainSound(s, name, keepCount, s');
    case Restore(key, now) => RestoreSound(s, key, now);
    case CollectMetadata(due) => SweepSound(s, due);
    case _ =>
  }

  // ---- Runs ----

  /**
   * The image index mirrors the registry in every state of every run in which nothing failed, as long as
   * its pushes are filed where the registry puts them.
   */
  lemma {:induction false} IndexMirrorsRegistry(states: seq<State>, requests: seq<Request>, i: nat)
    requires IsCleanRun(states, requests) && Good(states[0]) && i < |states|
    requires forall j :: 0 <= j < i ==> Readable(requests[j])
    ensures Good(states[i])
  {
    if i > 0 {
      IndexMirrorsRegistry(states, requests, i - 1);
      NextIsGood(states[i - 1], requests[i - 1], states[i]);
    }
  }

  lemma NextIsGood(s: State, q: Request, s': State)
    requires Good(s) && CleanNext(s, q, s') && Readable(q)
    ensures Good(s')
  {
    StepSound(s, q, s');
    forall n
      ensures AgreesAt(s', n)
    {
      StepAgrees(s, q, s', n);
    }
  }

  // ---- Age ----

  /** Rows that are still there were not re-dated. */
  ghost predicate AgesKept(before: Images, after: Images) {
    forall n, ref :: n in before && n in after && ref in before[n] ==>
      ref in after[n] && after[n][ref].createdAt == before[n][ref].createdAt
  }

  lemma DeleteTagsKeepsAges(s: State, name: Name, selected: set<Ref>)
    ensures AgesKept(s.images, DeleteTagsClean(s, name, selected).images)
  {
    CleanImagesFrame(s.images, name, RepoAt(s.repos, name), selected, SelectedDigests(RepoAt(s.repos, name), selected));
  }

  lemma StepKeepsAges(s: State, q: Request, s': State)
    requires CleanNext(s, q, s')
    ensures AgesKept(s.images, s'.images)
  {
    match q
    case DeleteTags(name, tags) => DeleteTagsKeepsAges(s, name, Selection(tags));
    case Retain(name, keepCount) =>
      var images, candidates :| RetainedClean(s, name, keepCount, images, candidates, s');
      DeleteTagsKeepsAges(s, name, Selection(AllTags(candidates)));
    case _ =>
  }

  /**
   * As long as its repository is known, a row keeps the time it was first seen, however often its tag is
   * pushed, deleted or restored.
   */
  lemma {:induction false} AgeIsFixed(states: seq<State>, requests: seq<Request>, i: nat, name: Name, reference: Ref)
    requires IsCleanRun(states, requests) && i < |states|
    requires name in states[0].images && reference in states[0].images[name]
    requires forall j :: 0 <= j <= i ==> name in states[j].images
    ensures reference in states[i].images[name]
    ensures states[i].images[name][reference].createdAt == states[0].images[name][reference].createdAt
  {
    if i > 0 {
      AgeIsFixed(states, requests, i - 1, name, reference);
      StepKeepsAges(states[i - 1], requests[i - 1], states[i]);
    }
  }
}
