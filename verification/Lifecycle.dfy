/** Pushes, deletes by digest, restores and discards: one step of a repository's life each. */
module Lifecycle {
  import opened Prelude
  import opened Registry
  import opened Store
  import opened DeleteSpec
  import opened PushHook
  import opened Snapshots
  import opened System
  import opened Table

  // ---- Records ----

  /**
   * The images table after a record of one reference was tried: as it was, with the repository's row found or
   * made, or with the reference's row showing the digest, not deleted, at the age it had if it was there.
   */
  ghost predicate Records(before: Images, after: Images, name: Name, reference: Ref, d: Digest) {
    || after in {before, EnsureRepo(before, name)}
    || (&& after - {name} == before - {name} && name in after
        && reference in after[name] && after[name] - {reference} == RowsAt(before, name) - {reference}
        && after[name][reference].digest == d && !after[name][reference].deleted
        && (reference in RowsAt(before, name) ==>
              after[name][reference].createdAt == RowsAt(before, name)[reference].createdAt))
  }

  /** With known broken statements, the table after it. */
  function RecordedUnder(images: Images, name: Name, reference: Ref, d: Digest, now: int, broken: set<Statement>)
    : Images
  {
    if ResolveRow(name) in broken then images
    else if UpsertImage(name, reference) in broken then EnsureRepo(images, name)
    else Synced(images, name, reference, d, now)
  }

  lemma SyncedRecords(images: Images, name: Name, reference: Ref, d: Digest, now: int)
    ensures Records(images, Synced(images, name, reference, d, now), name, reference, d)
  {
    assert Synced(images, name, reference, d, now) - {name} == images - {name};
  }

  // ---- Push ----

  /** The bin once a push has copied what it overwrites, if its hook finds that. */
  function Overwriting(s: State, filed: Option<Filing>): Bin {
    if filed.Some? then Displaced(s, filed.value.repo, filed.value.reference) else s.bin
  }

  /** The bin once an accepted push has dropped the pending rows of the reference its hook reads. */
  function Overwritten(bin: Bin, filed: Option<Filing>): Bin {
    if filed.Some? then DropPending(bin, filed.value.repo, filed.value.reference) else bin
  }

  /** The images table once an accepted push has recorded its digest where its hook files it. */
  function Recorded(images: Images, filed: Option<Filing>, d: Digest, now: int): Images {
    if filed.Some? then Synced(images, RowName(filed.value.repo), filed.value.reference, d, now) else images
  }

  /**
   * The state after a push in which nothing failed: the manifest goes where it is sent, the records where
   * the hook files them.
   */
  function PushClean(s: State, name: Name, reference: Ref, m: Manifest, recycle: bool, now: int): State {
    var filed := FiledUnder(name, reference);
    var bin := if recycle then Overwriting(s, filed) else s.bin;
    if !RepoAt(s.repos, name).Accepts(reference, m) then s.(bin := bin) else
      State(s.repos[name := RepoAt(s.repos, name).Put(reference, m)],
            Overwritten(bin, filed),
            Recorded(s.images, filed, DigestOf(m), now))
  }

  /** What a push may do to the stores, given whether the registry accepted it. */
  ghost predicate PushStep(s: State, name: Name, reference: Ref, m: Manifest, accepted: bool, s': State) {
    var filed := FiledUnder(name, reference);
    && s'.repos == (if accepted then s.repos[name := RepoAt(s.repos, name).Put(reference, m)] else s.repos)
    && (accepted ==> RepoAt(s.repos, name).Accepts(reference, m))
    && s'.bin in (if accepted
                    then {s.bin, Overwriting(s, filed), Overwritten(s.bin, filed),
                          Overwritten(Overwriting(s, filed), filed)}
                    else {s.bin, Overwriting(s, filed)})
    && (if accepted && filed.Some?
          then Records(s.images, s'.images, RowName(filed.value.repo), filed.value.reference, DigestOf(m))
          else s'.images == s.images)
  }

  /** The bin after a push, as far as calls and statements work. */
  function PushBinUnder(s: State, filed: Option<Filing>, recycle: bool, accepted: bool, down: set<Call>,
                        broken: set<Statement>): Bin {
    var bin := if recycle && filed.Some? then CopiedUnder(s, filed.value.repo, filed.value.reference, down, broken)
               else s.bin;
    if accepted && filed.Some? && DropPendingOf(filed.value.repo, filed.value.reference) !in broken
      then Overwritten(bin, filed) else bin
  }

  /** The bin once the manifest behind a reference is copied, if it can be read and written. */
  function CopiedUnder(s: State, name: Name, reference: Ref, down: set<Call>, broken: set<Statement>): Bin {
    var d := RepoAt(s.repos, name).Resolve(reference);
    if Fetch(name, reference) !in down && d.Some? && UpsertItem(BinKey(name, reference, d.value)) !in broken
      then Displaced(s, name, reference) else s.bin
  }

  /** Copies what the reference points at now, if the registry says what that is. */
  method SnapshotCurrent(client: Upstream, db: Database, name: Name, reference: Ref)
    requires client.Valid()
    modifies client`callFaults, db`bin, db`faults
    ensures db.bin == old(db.bin) || db.bin == Displaced(old(StateOf(client, db)), name, reference)
    ensures Faults(client, db) >= old(Faults(client, db))
    ensures Faults(client, db) == old(Faults(client, db)) ==>
              db.bin == Displaced(old(StateOf(client, db)), name, reference)
    ensures client.outage.Fixed? && db.breakdown.Only? ==>
              db.bin == CopiedUnder(old(StateOf(client, db)), name, reference, client.outage.down, db.breakdown.broken)
  {
    var raw := client.ManifestRaw(name, reference);
    if raw.Success? {
      var _ := db.AddRecycleItem(BinKey(name, reference, DigestOf(raw.value)), raw.value);
    }
  }

  /**
   * A manifest push through the proxy: with the recycle policy the manifest it replaces is copied
   * first; after success the images row is synced and every pending row of the reference is dropped. All
   * of this under the repository and reference that the hook reads from the path, if it reads any.
   */
  method PushManifest(client: Upstream, db: Database, name: Name, reference: Ref, m: Manifest, recycle: bool, now: int)
    returns (accepted: bool)
    requires client.Valid()
    modifies client, db
    ensures client.Valid()
    ensures PushStep(old(StateOf(client, db)), name, reference, m, accepted, StateOf(client, db))
    ensures Faults(client, db) >= old(Faults(client, db))
    ensures Faults(client, db) == old(Faults(client, db)) ==>
              && accepted == old(client.At(name)).Accepts(reference, m)
              && StateOf(client, db) == PushClean(old(StateOf(client, db)), name, reference, m, recycle, now)
    ensures client.outage.Fixed? ==>
              (accepted <==> Push(name, reference) !in client.outage.down && old(client.At(name)).Accepts(reference, m))
    ensures client.outage.Fixed? && db.breakdown.Only? ==>
              db.bin == PushBinUnder(old(StateOf(client, db)), FiledUnder(name, reference), recycle, accepted,
                                     client.outage.down, db.breakdown.broken)
    ensures db.breakdown.Only? && accepted && FiledUnder(name, reference).Some? ==>
              var filed := FiledUnder(name, reference).value;
              db.images == RecordedUnder(old(db.images), RowName(filed.repo), filed.reference, DigestOf(m), now,
                                         db.breakdown.broken)
  {
    var filed := FiledUnder(name, reference);
    if recycle && filed.Some? {
      SnapshotCurrent(client, db, filed.value.repo, filed.value.reference);
    }
    var err := client.PutManifest(name, reference, m);
    accepted := err.None?;
    if accepted && filed.Some? {
      RecordImage(db, RowName(filed.value.repo), filed.value.reference, DigestOf(m), now);
      var _ := db.DeletePendingByRepoRef(filed.value.repo, filed.value.reference);
    }
  }

  /** Finds or creates the repository row, then upserts the image row. */
  method RecordImage(db: Database, name: Name, reference: Ref, digest: Digest, now: int)
    modifies db`images, db`faults
    ensures db.images - {name} == old(db.images) - {name}
    ensures Records(old(db.images), db.images, name, reference, digest)
    ensures db.faults >= old(db.faults)
    ensures db.faults == old(db.faults) ==> db.images == Synced(old(db.images), name, reference, digest, now)
    ensures db.breakdown.Only? ==>
              db.images == RecordedUnder(old(db.images), name, reference, digest, now, db.breakdown.broken)
  {
    var known := db.ResolveRepo(name);
    assert db.images - {name} == old(db.images) - {name};
    SyncedRecords(old(db.images), name, reference, digest, now);
    if known {
      var _ := db.SyncImage(name, reference, digest, now);
    }
  }

  // ---- Delete by digest ----

  /** The state after a delete by digest in which nothing failed: an unknown digest changes nothing. */
  ghost function DigestDeleteClean(s: State, name: Name, d: Digest): State {
    var r := RepoAt(s.repos, name);
    if d !in r.manifests then s else
      State(s.repos[name := r.Remove(d)],
            Snapshotted(s.bin, name, r, r.TagsOf(d)),
            WithoutDigest(EnsureRepo(s.images, name), name, d, r.Remove(d).tags == map[]))
  }

  ghost predicate DigestDeleteStep(s: State, name: Name, d: Digest, deleted: bool, snapped: set<Tag>, s': State) {
    && snapped <= RepoAt(s.repos, name).TagsOf(d)
    && s'.repos == (if deleted then s.repos[name := RepoAt(s.repos, name).Remove(d)] else s.repos)
    && s'.bin == Snapshotted(s.bin, name, RepoAt(s.repos, name), snapped)
    && TableFits(s.images, s'.images, name, NO_MARKS, if deleted then Marks({}, {d}) else NO_MARKS,
                 RepoAt(s'.repos, name).tags == map[])
  }

  /** The explicit request to remove a whole manifest, with all its tags. */
  method DeleteByDigest(client: Upstream, db: Database, name: Name, d: Digest)
    returns (deleted: bool, snapshotCount: nat, ghost snapped: set<Tag>)
    requires client.Valid()
    modifies client, db
    ensures client.Valid()
    ensures snapshotCount == |snapped|
    ensures DigestDeleteStep(old(StateOf(client, db)), name, d, deleted, snapped, StateOf(client, db))
    ensures Faults(client, db) >= old(Faults(client, db))
    ensures Faults(client, db) == old(Faults(client, db)) ==>
              && deleted == (d in old(client.At(name)).manifests)
              && snapped == old(client.At(name)).TagsOf(d)
              && StateOf(client, db) == DigestDeleteClean(old(StateOf(client, db)), name, d)
    ensures TableAfter(db.breakdown, db.faults == old(db.faults), Known(db.breakdown, name), name, old(db.images),
                       db.images, if deleted then Marks({}, {d}) else NO_MARKS, client.At(name).tags == map[])
    ensures !deleted ==> db.images in {old(db.images), EnsureRepo(old(db.images), name)}
    ensures client.outage.Fixed? ==>
              (deleted <==> d in old(client.At(name)).manifests && Delete(name, d) !in client.outage.down)
    ensures client.outage.Fixed? && db.breakdown.Only? ==>
              snapped == SnappedUnder(name, old(client.At(name)), {d}, client.outage.down, db.breakdown.broken)
  {
    deleted, snapshotCount, snapped := CopyAndDelete(client, db, name, d);
    ghost var faults, middle := db.faults, db.images;
    assert middle - {name} == old(db.images) - {name};
    if deleted {
      ForgetDigest(client, db, name, d);
    }
    if Faults(client, db) == old(Faults(client, db)) {
      if deleted {
        assert StateOf(client, db).images == DigestDeleteClean(old(StateOf(client, db)), name, d).images;
      } else {
        assert snapped == {};
        SnapshotNothing(old(db.bin), name, old(client.At(name)));
        assert StateOf(client, db) == old(StateOf(client, db));
      }
    }
    DigestTable(db.breakdown, db.faults == faults, db.faults == old(db.faults), name, old(db.images), middle, db.images,
                d, deleted, client.At(name).tags == map[]);
  }

  lemma DigestTable(bd: Breakdown, clean: bool, clean': bool, name: Name, a: Images, b: Images, c: Images, d: Digest,
                    deleted: bool, noTags: bool)
    requires b in {a, EnsureRepo(a, name)} && (clean' ==> clean)
    requires if deleted then TableAfter(bd, clean, Known(bd, name), name, b, c, Marks({}, {d}), noTags) else c == b
    ensures EnsureRepo(b, name) == EnsureRepo(a, name)
    ensures TableAfter(bd, clean', Known(bd, name), name, a, c, if deleted then Marks({}, {d}) else NO_MARKS, noTags)
    ensures TableFits(a, c, name, NO_MARKS, if deleted then Marks({}, {d}) else NO_MARKS, noTags)
  {
    if deleted {
      AfterEnsured(bd, clean, clean', Known(bd, name), name, a, b, c, Marks({}, {d}), noTags);
    } else {
      AfterNothing(bd, clean', Known(bd, name), name, a, b, noTags);
    }
    TableStays(bd, clean', Known(bd, name), name, a, c, if deleted then Marks({}, {d}) else NO_MARKS, noTags);
  }

  /** Strikes a deleted digest from the images table, and the repository with it once no tag is left. */
  method ForgetDigest(client: Upstream, db: Database, name: Name, d: Digest)
    modifies client`lookupFaults, db`images, db`faults
    ensures db.images - {name} == old(db.images) - {name}
    ensures Faults(client, db) >= old(Faults(client, db))
    ensures Faults(client, db) == old(Faults(client, db)) ==>
              db.images == WithoutDigest(EnsureRepo(old(db.images), name), name, d, client.At(name).tags == map[])
    ensures db.faults >= old(db.faults)
    ensures TableAfter(db.breakdown, db.faults == old(db.faults), Known(db.breakdown, name), name, old(db.images),
                       db.images, Marks({}, {d}), client.At(name).tags == map[])
    ensures client.outage.Fixed? && db.breakdown.Only? ==>
              var known := ResolveRow(name) !in db.breakdown.broken;
              db.images == StruckUnder(if known then EnsureRepo(old(db.images), name) else old(db.images), name,
                                       client.At(name), d, known, client.outage.down, db.breakdown.broken)
  {
    var known := db.ResolveRepo(name);
    assert db.images - {name} == old(db.images) - {name};
    ghost var faults, middle := db.faults, db.images;
    StrikeDigest(client, db, name, d, known);
    FromStart(db.breakdown, known, faults == old(db.faults), db.faults == faults, name, old(db.images), middle,
              db.images, Marks({}, {d}), client.At(name).tags == map[]);
  }

  // ---- Restore and discard ----

  datatype RestoreOutcome = Done | NoSuchItem | NotPending | Expired | Refused | NotRecorded

  /** The row a restore keeps of the manifest it is about to displace, if it displaces one. */
  function BeforeRestore(s: State, k: BinKey): Bin {
    var d := RepoAt(s.repos, k.repo).Resolve(k.reference);
    if d.Some? && d.value != k.digest then Displaced(s, k.repo, k.reference) else s.bin
  }

  /** The state after a restore in which nothing failed. */
  function RestoreClean(s: State, k: BinKey, now: int): State {
    if k !in s.bin || s.bin[k].status != PendingGC then s else
    if !RepoAt(s.repos, k.repo).Accepts(k.reference, s.bin[k].manifest) then s.(bin := BeforeRestore(s, k)) else
      State(s.repos[k.repo := RepoAt(s.repos, k.repo).Put(k.reference, s.bin[k].manifest)],
            SetStatus(BeforeRestore(s, k), k, Restored),
            Synced(s.images, k.repo, k.reference, k.digest, now))
  }

  ghost predicate RestoreStep(s: State, k: BinKey, outcome: RestoreOutcome, s': State) {
    match outcome
    case NoSuchItem => k !in s.bin && s' == s
    case NotPending => k in s.bin && s.bin[k].status != PendingGC && s' == s
    case _ =>
      && k in s.bin && s.bin[k].status == PendingGC
      && (if outcome == Done then Records(s.images, s'.images, k.repo, k.reference, k.digest)
          else s'.images == s.images)
      && (outcome in {Done, NotRecorded} ==> RepoAt(s.repos, k.repo).Accepts(k.reference, s.bin[k].manifest))
      && s'.repos == (if outcome in {Done, NotRecorded}
                        then s.repos[k.repo := RepoAt(s.repos, k.repo).Put(k.reference, s.bin[k].manifest)]
                        else s.repos)
      && (RestoreBin(s.bin, k, outcome, s'.bin) || RestoreBin(BeforeRestore(s, k), k, outcome, s'.bin))
  }

  ghost predicate RestoreBin(before: Bin, k: BinKey, outcome: RestoreOutcome, after: Bin) {
    match outcome
    case Done => after == SetStatus(before, k, Restored)
    case Expired => after == before || after == SetStatus(before, k, GCExpired)
    case _ => after == before
  }

  /** How a restore ends, if it is known which calls fail and why, and which statements do. */
  function OutcomeUnder(s: State, k: BinKey, outage: Outage, broken: set<Statement>): RestoreOutcome
    requires outage.Fixed?
  {
    if k !in s.bin then NoSuchItem
    else if s.bin[k].status != PendingGC then NotPending
    else if Push(k.repo, k.reference) in outage.down
      then if outage.cause(Push(k.repo, k.reference)) == BlobUnknown then Expired else Refused
    else if !RepoAt(s.repos, k.repo).Accepts(k.reference, s.bin[k].manifest) then Refused
    else if MarkItem(k) in broken then NotRecorded
    else Done
  }

  /** The bin it then leaves. */
  function RestoreBinUnder(s: State, k: BinKey, outage: Outage, broken: set<Statement>): Bin
    requires outage.Fixed?
  {
    var d := RepoAt(s.repos, k.repo).Resolve(k.reference);
    var moved := d.Some? && d.value != k.digest && LookUp(k.repo, k.reference) !in outage.down;
    var before := if moved then CopiedUnder(s, k.repo, k.reference, outage.down, broken) else s.bin;
    match OutcomeUnder(s, k, outage, broken)
    case NoSuchItem => s.bin
    case NotPending => s.bin
    case Done => SetStatus(before, k, Restored)
    case Expired => if MarkItem(k) in broken then before else SetStatus(before, k, GCExpired)
    case _ => before
  }

  /** A row leaves its pending state exactly if the restore is done, or has expired and that was recorded. */
  lemma LeavesPendingIff(s: State, k: BinKey, outcome: RestoreOutcome, s': State)
    requires RestoreStep(s, k, outcome, s') && k in s.bin && s.bin[k].status == PendingGC
    ensures k in s'.bin && s'.bin[k].status in {PendingGC, Restored, GCExpired}
    ensures s'.bin[k].status == Restored <==> outcome == Done
    ensures s'.bin[k].status == GCExpired ==> outcome == Expired
  {}

  /** Re-pushes the manifest of a pending row under its reference. */
  method RestoreItem(client: Upstream, db: Database, k: BinKey, now: int) returns (outcome: RestoreOutcome)
    requires client.Valid()
    modifies client, db
    ensures client.Valid()
    ensures RestoreStep(old(StateOf(client, db)), k, outcome, StateOf(client, db))
    ensures Faults(client, db) >= old(Faults(client, db))
    ensures Faults(client, db) == old(Faults(client, db)) ==>
              && (outcome == Done <==> Restorable(old(StateOf(client, db)), k))
              && StateOf(client, db) == RestoreClean(old(StateOf(client, db)), k, now)
    ensures client.outage.Fixed? && k in old(db.bin) && old(db.bin)[k].status == PendingGC ==>
              (outcome == Expired <==>
               Push(k.repo, k.reference) in client.outage.down &&
               client.outage.cause(Push(k.repo, k.reference)) == BlobUnknown)
    ensures client.outage.Fixed? && db.breakdown.Only? ==>
              && outcome == OutcomeUnder(old(StateOf(client, db)), k, client.outage, db.breakdown.broken)
              && db.bin == RestoreBinUnder(old(StateOf(client, db)), k, client.outage, db.breakdown.broken)
    ensures db.breakdown.Only? && outcome == Done ==>
              db.images == RecordedUnder(old(db.images), k.repo, k.reference, k.digest, now, db.breakdown.broken)
  {
    if k !in db.bin {
      return NoSuchItem;
    }
    var item := db.bin[k];
    if item.status != PendingGC {
      return NotPending;
    }
    ghost var s := StateOf(client, db);
    var current := client.Digest(k.repo, k.reference);
    if current.Some? && current.value != k.digest {
      SnapshotCurrent(client, db, k.repo, k.reference);
    }
    ghost var before := db.bin;
    assert before == s.bin || before == BeforeRestore(s, k);
    var err := client.PutManifest(k.repo, k.reference, item.manifest);
    if err.Some? {
      outcome := Refused;
      if err == Some(BlobUnknown) {
        outcome := Expired;
        var _ := db.MarkRecycle(k, GCExpired);
      }
      return;
    }
    var marked := db.MarkRecycle(k, Restored);
    if !marked {
      return NotRecorded;
    }
    RecordImage(db, k.repo, k.reference, k.digest, now);
    outcome := Done;
  }

  ghost predicate Restorable(s: State, k: BinKey) {
    && k in s.bin && s.bin[k].status == PendingGC
    && RepoAt(s.repos, k.repo).Accepts(k.reference, s.bin[k].manifest)
  }

  /** Throws a row of the bin away, whatever its status. */
  method DiscardItem(client: Upstream, db: Database, k: BinKey) returns (found: bool, ok: bool)
    modifies db`bin, db`faults
    ensures found <==> k in old(db.bin)
    ensures StateOf(client, db) == old(StateOf(client, db)).(bin := if ok then old(db.bin) - {k} else old(db.bin))
    ensures Faults(client, db) >= old(Faults(client, db))
    ensures Faults(client, db) == old(Faults(client, db)) ==> db.bin == old(db.bin) - {k}
    ensures db.breakdown.Only? ==> (ok <==> found && DropItem(k) !in db.breakdown.broken)
  {
    found := k in db.bin;
    ok := false;
    if found {
      ok := db.DeleteRecycleItem(k);
    }
  }

  // ---- Looking at a manifest ----

  /** Showing a manifest also syncs its images row. */
  function BrowseClean(s: State, name: Name, reference: Ref, now: int): State {
    var d := RepoAt(s.repos, name).Resolve(reference);
    if d.None? then s else s.(images := Synced(s.images, name, reference, d.value, now))
  }

  method BrowseManifest(client: Upstream, db: Database, name: Name, reference: Ref, now: int) returns (found: bool)
    requires client.Valid()
    modifies client`callFaults, db`images, db`faults
    ensures if found
              then var d := client.At(name).Resolve(reference);
                   d.Some? && Records(old(db.images), db.images, name, reference, d.value)
              else db.images == old(db.images)
    ensures Faults(client, db) >= old(Faults(client, db))
    ensures Faults(client, db) == old(Faults(client, db)) ==>
              StateOf(client, db) == BrowseClean(old(StateOf(client, db)), name, reference, now)
    ensures client.outage.Fixed? ==>
              (found <==> Fetch(name, reference) !in client.outage.down && client.At(name).Resolve(reference).Some?)
    ensures db.breakdown.Only? && found ==>
              db.images == RecordedUnder(old(db.images), name, reference, client.At(name).Resolve(reference).value, now,
                                         db.breakdown.broken)
  {
    var raw := client.ManifestRaw(name, reference);
    found := raw.Success?;
    if found {
      RecordImage(db, name, reference, DigestOf(raw.value), now);
    }
  }
}
