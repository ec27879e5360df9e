# Verified model of the registry UI backend

This project models the parts of the backend that can lose data: how tags and manifests move
between the upstream registry, the recycle bin and the images table, how garbage collection and
retention decide what goes, and the algorithms these rely on. It proves what each operation keeps
and what whole runs guarantee, with any call allowed to fail unless a statement says otherwise.

Run `dafny verify dfyconfig.toml` to check everything.

## How it is organised

- `Registry`, `Store`: the upstream registry (tags and manifests per repository, deletion by digest
  only) and the SQLite tables, keyed by their UNIQUE constraints. Both are classes that the
  operations change in place. Every call may fail; a failed call changes nothing. Ghost counters
  record failed listings and lookups, failed other calls and failed statements apart, so a contract
  can say which of them it needs to have been answered. A registry can also be given an outage, a set
  of calls that fail, and a store a breakdown, a set of statements that fail; then each outcome is
  determined.
- `DeleteSpec`, `DeleteTrace`, `Table`, `Snapshots`, `Lookups`, `TagDelete`, `DeleteFacts`, `Outages`,
  `OutageFacts`: the tag-aware delete. The registry only deletes whole digests, so removing one tag is
  a delete followed by re-pushes, driven by lookups cached while the registry changes underneath. A
  ghost trace records what happened; the facts say what a caller may conclude, and what an outage can
  cost. `Table` says what a delete may do to the images table and what it must, whichever statements fail.
- `PushHook`, `System`, `Lifecycle`, `Sweep`, `SweepFacts`, `Runs`, `Retries`, `Deleting`, `Server`,
  `RetryRun`, `BinRows`, `Shown`, `IndexFacts`, `RoundTrip`: pushes, with what their hook reads from the path,
  deletes by digest, restores, discards and the metadata half of garbage collection, as steps of runs;
  recoverability, collection safety, retry bounds, what can change a row of the bin or take one from users'
  sight, index agreement and the delete-restore round trip.
- `Retention`, `RetentionFacts`, `RetentionRun`, `RetentionEnd`, `Ages`: which images a retention run removes,
  when that depends on the order of a Go map, where the run leaves all three stores, and what the time it goes by
  says.
- `Gate`: the two atomic flags between collectors and writers, one instruction per step, for any
  number of threads.
- `SweepCalls`, `Race`, `UntagRace`: a sweep one call per step, among the calls of anybody else; a restore
  and an untag in particular, neither of which consults the gate.
- `Protection`: the check in front of a push. `Blobs`: the layers behind the manifests, and until when a
  row of the recycle bin can be restored.
- `ImageSize`, `ImageSizeFacts`, `ImageLimits`, `Glob`, `Prune`, `Token`, `Recent`, `RepoPath`: the size traversal,
  glob compilation, empty-directory cleanup, the token codec, the bounded recent list and path parsing.

A digest is modelled as the content it was computed from, so distinct contents have distinct digests.
"Unseen" references are those a failed listing or lookup kept a call from knowing about.

## Main results

- Deleting tags: `TagDelete.DeleteTagsAware` (exact with any writes failing),
  `OutageFacts.NothingLostSilentlyIff`, `RoundTrip.RoundTripIff`.
- Recoverability over runs: `Runs.CopyIsKept`, `Runs.CopiedIffLastTag`, `BinRows.RowStays`,
  `Lifecycle.RestoreItem`, `Blobs.CopyRestoresIff`.
- Garbage collection: `SweepFacts.SafeWhenLookupsAnswer`, `SweepFacts.SafeUnderEveryOutageIff`,
  `Retries.RowFailuresEndIff`, `Gate.GateIsSafe`, `Gate.LateWritesReadEarlier`.
- Requests during a sweep: `SweepCalls.LostIfPlanned`, `Race.RestoreLostIff`, `Race.RestoreSafeIff`,
  `UntagRace.SurvivorsKeptIff`, `UntagRace.UntagSafeIff`.
- The images table: `Shown.ShownUntilStruck`, `IndexFacts.IndexMirrorsRegistry`, `IndexFacts.PushAgreesIff`,
  `PushHook.FiledRightIff`, `IndexFacts.AgeIsFixed`. Protected tags: `Protection.JudgedRightIff`.
- Retention: `RetentionEnd.RetentionEndState`, `Ages.LaterDigestsStay`,
  `RetentionFacts.SameDigestsIffNoTie`.
- Algorithms: `ImageSizeFacts.SizeIsSetSum`, `ImageSizeFacts.CostBound`,
  `Glob.CompilationPreservesMeaning`, `Token.MintedValidatesIff`, `Token.AcceptedIff`,
  `Recent.RefinesHistory`, `Prune.Disk.CleanupEmptyDirs`, `RepoPath.ParsersAgreeIff`.

## Where the code and its comments disagree

The model follows the code.

- Verifying that no live tag refers to a digest is said to keep a collection from ever wiping tags that
  were meant to survive (backend/internal/server/server.go:1579-1582). A lookup that fails is skipped
  (backend/internal/server/server.go:1672-1676), so a live digest can read as dead and is deleted with
  its tags: `SweepFacts.FailedLookupCostsTag`, and `SweepFacts.SafeUnderEveryOutageIff` for when this
  cannot happen.
- A broken record is said to be parked so that it cannot make every future collection repeat a doomed
  delete (backend/internal/server/server.go:1643-1646). Counting and parking are two statements
  (backend/internal/store/store.go:1996-2002); if the second keeps failing, the row is tried for ever:
  `RetryRun.ParkingBroken`, and `Retries.RowFailuresEndIff` for when the tries do end.
- The helper that finds the last marker in a path calls itself the single source of truth for where a
  repository name ends (backend/internal/server/repo_path.go:12-13), and legal names may have a segment
  "manifests" (backend/internal/server/repo_path_test.go:25). The push hook splits the path at every
  marker instead (backend/internal/server/v2_proxy.go:186-188 and 240-242): such a push is not recorded, or
  recorded for another repository. `PushHook.FiledRightIff` says when, `IndexFacts.PushAgreesIff` what
  it costs. The check of immutable tags splits the path in the same way
  (backend/internal/server/v2_proxy.go:31-34), so it does not protect such names: `Protection.JudgedRightIff`.
- Verifying live tags before each delete by digest is also said to keep an untag from losing tags that were
  meant to survive (backend/internal/server/server.go:1579-1582). The lookups are made once per repository,
  and neither untags nor restores consult the gate, so tags pushed since are lost: `UntagRace.UntagSafeIff`,
  `Race.RestoreLostIff`.
- The retention sort is called stable and deterministic (backend/internal/server/server.go:1097-1100),
  but it sorts a list filled by ranging over a map, so groups of equal age come in any order:
  `RetentionFacts.SameDigestsIffNoTie` says exactly when that matters.
- Sizes above the int64 range are said to be clamped rather than to wrap
  (backend/internal/server/server.go:75-78). The guard compares with the float 2^63, which itself
  passes it: `ImageSize.ClampsIff`.
- A surviving tag whose sibling is removed is said to be preserved
  (backend/internal/server/delete_tags.go:24-34); after a failed listing it is not:
  `OutageFacts.NothingLostSilentlyIff` and `OutageFacts.FailedListingLosesSibling`.
- The returned count of a sweep includes rows without a digest even if removing them failed
  (backend/internal/server/server.go:1589-1593): `SweepFacts.CountAlwaysRightIff`.
- The helper behind the UI paths promises to keep names with reserved segments intact
  (backend/internal/server/repo_path.go:5-14); a reference that begins like another sub-path is cut
  wrongly: `RepoPath.ApiManifestRoundTripIff`.
- The overwrite copy that a push takes with the recycle policy is dropped by that same push, unless the
  registry refuses it (backend/internal/server/v2_proxy.go:209-211): `Runs.OverwriteCopyKeptIff`.

## Model

| member | source | states |
|---|---|---|
| Registry.Upstream.Tags | backend/internal/registry/client.go:103-119 | An answer lists every tag once; an unknown repository is a 404; a failed call changes nothing, is counted, and happens exactly for the calls of a fixed outage |
| Registry.Upstream.Digest | backend/internal/registry/client.go:146-155 | An answered lookup is what the reference points at now; one that fails to see an existing reference is counted |
| Registry.Upstream.ManifestRaw | backend/internal/registry/client.go:129-144 | An answer is the stored manifest the reference points at; under a fixed outage exactly its calls fail, each for its cause |
| Registry.Upstream.DeleteManifest | backend/internal/registry/client.go:157-169 | Success removes the manifest and every tag on it and nothing else; failure changes nothing; a 404 means it was not there |
| Registry.Upstream.PutManifest | backend/internal/registry/client.go:182-194 | Success stores the body under its own digest and points the tag at it; a body that does not match a digest reference is refused; under a fixed outage exactly its calls fail, each for its cause |
| Registry.RemoveKeepsValid | backend/internal/registry/client.go:157-169 | Deleting a digest leaves no tag pointing at nothing |
| Registry.PutKeepsValid | backend/internal/registry/client.go:182-194 | Pushing keeps manifests under their own digest and tags pointing at stored manifests |
| Registry.PushedIsFetched | backend/internal/registry/client.go:182-194 | What was pushed is fetched back under its reference and its digest, with the default content type if it had none; nothing else resolves differently |
| Registry.RemovedIsGone | backend/internal/registry/client.go:157-169 | Exactly the references to a deleted digest resolve to nothing, the others as before |
| Store.Database.AddRecycleItem | backend/internal/store/store.go:1461-1464 | The row of (repo, reference, digest) is pending with the new manifest and the attempts it had; failure changes nothing |
| Store.Database.DeletePendingByRepoRef | backend/internal/store/store.go:1466-1469 | Removes exactly the pending rows of one reference, whatever their digest |
| Store.Database.DeleteRecycleItem | backend/internal/store/store.go:1509-1512 | Removes exactly one row, or nothing on failure |
| Store.Database.MarkRecycle | backend/internal/store/store.go:1514-1522 | Changes the status of exactly one row |
| Store.Database.MarkRecycleGCFailure | backend/internal/store/store.go:1990-2003 | Two statements that can fail apart: at most one more attempt, parked only when pending and out of attempts, and the answer tells whether it was parked |
| Store.Database.SyncImage | backend/internal/store/store.go:1242-1245 | The row shows the digest and is not deleted; it keeps the creation time it had, and a new row gets the time of the request |
| Store.Database.SoftDeleteImage | backend/internal/store/store.go:1359-1362 | Marks the row of one tag deleted |
| Store.Database.SoftDeleteImageByDigest | backend/internal/store/store.go:1364-1367 | Marks every row of the repository that shows the digest deleted |
| Store.Database.DeleteRepository | backend/internal/store/store.go:1199-1214 | Drops the repository with all its rows, in one transaction |
| Store.Database.ResolveRepo | backend/internal/server/server.go:1019-1036 | Finds or creates the repository row without touching existing rows |
| DeleteSpec.RepushOne | backend/internal/server/delete_tags.go:152-163 | Re-pushing the deleted manifest under one more tag restores that tag and nothing else |
| DeleteSpec.AfterDeleteCompose | backend/internal/server/delete_tags.go:91-178 | Deleting and re-pushing digest after digest is one simultaneous change |
| Snapshots.SnapshotTag | backend/internal/server/recycle_snapshot.go:20-58 | One more tag: the bin gains its row exactly if it was copied, and the tags copied so far are those it could copy |
| Snapshots.CopyTag | backend/internal/server/recycle_snapshot.go:20-58 | Copies one tag exactly if the registry still points it at the digest and every call succeeds; with known failures, exactly if it can |
| Snapshots.SnapshotRecycleItems | backend/internal/server/recycle_snapshot.go:11-61 | The bin gains exactly one pending row for each tag in the returned count, all of the digest; without failures, for every tag of it; with known ones, for exactly those that can be copied |
| Snapshots.CleanupIfEmpty | backend/internal/server/server.go:1953-1981 | Drops the repository row exactly if no tag is left and the name is safe; after a failure it drops it for no other reason and changes nothing else; with known failures the table is determined |
| Snapshots.CopyAndDelete | backend/internal/server/delete_tags.go:104-114 | The copies, then the delete, which is reported as done exactly if the registry did it; a digest that it does not have, or refuses to delete, stays |
| Snapshots.StrikeDigest | backend/internal/server/delete_tags.go:115-130 | The rows that show the deleted digest are struck if the statement works, no other row is, and the repository goes only if no tag is left; with known failures the table is determined |
| Lookups.KnownTags | backend/internal/server/delete_tags.go:54-58 | A failed listing reads as an empty one, and all its tags then count as unseen |
| Lookups.DigestOf | backend/internal/server/delete_tags.go:60-72 | A cached answer is the registry's, or the reference counts as unseen |
| Lookups.SurvivingTags | backend/internal/server/delete_tags.go:187-198 | Exactly the listed tags on the digest that are not being removed, as far as lookups were answered; later digests find every tag cached |
| Lookups.Deduplicate | backend/internal/server/delete_tags.go:41-49 | Each non-empty selected reference once, where it is first mentioned |
| Lookups.MentionedBefore | backend/internal/server/delete_tags.go:41-49 | Of two of them, the one that stands first was selected while the other was still to come |
| Lookups.GroupByDigest | backend/internal/server/delete_tags.go:74-87 | The groups are exactly the preimages of their digests, digests and members in the order of the selection; what cannot be resolved is refused once each |
| TagDelete.Repush | backend/internal/server/delete_tags.go:152-163 | After a delete, exactly the tags whose push succeeded are back; the others are returned |
| TagDelete.DeleteDigest | backend/internal/server/delete_tags.go:104-131 | The last-tag case: the results say exactly whether the digest went; if it did not, no images row is struck; if it did, its rows are unless the statement fails, and no other row is |
| TagDelete.UntagDigest | backend/internal/server/delete_tags.go:133-177 | The sibling case: on success the digest has exactly the re-pushed tags, and the lost ones are named in every result; the rows of the references are struck then, each unless its statement fails, and otherwise none |
| TagDelete.ProcessDigest | backend/internal/server/delete_tags.go:91-178 | One turn of the loop: either case, with the cache still agreeing with the registry for every later digest, and nothing more unseen unless a lookup failed |
| TagDelete.DeleteTagsAware | backend/internal/server/delete_tags.go:37-181 | Whatever calls fail: the registry is the old one with each deleted digest re-pushed under the tags its trace keeps, the bin gained exactly the counted copies, other repositories are untouched; a row of the images table is struck only if its reference was untagged and the result says so, or the digest it shows was deleted for good, and then unless its statement fails. With listings and lookups answered, whatever writes fail, the results are exact, and come in the order of the selection, digest by digest. Under a fixed outage the trace is determined; without failures so is the whole state |
| DeleteFacts.OneResultEach | backend/internal/server/delete_tags.go:41-51 | Exactly one result per distinct non-empty selected reference |
| DeleteFacts.ExactWhenReadsAnswer | backend/internal/server/delete_tags.go:22-36 | If nothing is unseen, whatever writes fail: Ok tags are gone, others unchanged, an unselected tag keeps its digest exactly if no warning names it, and a digest whose last tag went is gone |
| DeleteFacts.UnselectedTag | backend/internal/server/delete_tags.go:152-167 | When exactly an unselected tag is lost |
| DeleteFacts.AllCopiedIff | backend/internal/server/delete_tags.go:104-106 | Every deleted tag was copied to the bin exactly if the snapshot count is the number of deleted tags |
| Table.ShownStays | backend/internal/server/delete_tags.go:104-176 | Of a table so changed: a row shown before is shown still, unless it is among those to be struck or the repository has no tag left |
| OutageFacts.NothingLostSilentlyIff | backend/internal/server/delete_tags.go:54-58 | No outage can cost an unselected tag without a warning exactly if no selected digest has an unselected sibling |
| OutageFacts.SilentIffHidden | backend/internal/server/delete_tags.go:54-72 | A call during an outage loses a tag silently exactly if the outage hides one on a digest that the call deletes |
| OutageFacts.NothingToLose | backend/internal/server/delete_tags.go:91-178 | Without such siblings no unselected tag is touched, whatever fails and whenever |
| OutageFacts.FailedListingLosesSibling | backend/internal/server/delete_tags.go:55-58 | The call itself with only its listing failing: the sibling tag goes too, reported as a clean delete |
| Lifecycle.PushManifest | backend/internal/server/v2_proxy.go:184-256 | A refused push changes at most the bin; an accepted one stores the manifest and records nothing but the reference its hook reads, at the age it had; without failures the images row the hook reads from the path shows it and no row of the reference read there is pending; a path it cannot read is recorded nowhere; with known failures bin and table are determined |
| Lifecycle.DeleteByDigest | backend/internal/server/server.go:590-618 | The digest and all its tags go exactly if the registry had it and deleted it; each tag copied first; the images table follows, and stays as it is if the digest does; with known failures the copies are determined |
| Lifecycle.RestoreItem | backend/internal/server/recycle.go:76-150 | A pending row expires exactly if the push fails because blobs are missing; after any other failure it stays pending; a displaced manifest is copied first; nothing else happens to the bin. Without failures exactly the restorable rows are restored; with known ones outcome, bin and table are determined |
| Lifecycle.LeavesPendingIff | backend/internal/server/recycle.go:112-135 | The row is restored exactly if the outcome says done, expired only if it says so, and otherwise still pending |
| Lifecycle.DiscardItem | backend/internal/server/recycle.go:60-74 | Removes the row, if it is there and the statement works, whatever its status, and nothing else |
| Lifecycle.BrowseManifest | backend/internal/server/server.go:544-572 | Showing a manifest only syncs its images row, and only if the registry answered; with known failures the table is determined |
| Runs.StepKeepsSound | backend/internal/server/recycle.go:76-150 | Each operation, failing or not, keeps the registry well formed and every bin row true to its digest |
| Runs.RunKeepsSound | backend/internal/store/store.go:1461-1522 | So does every run of operations |
| BinRows.RowStays | backend/internal/store/store.go:1461-1522 | In every run a row of the bin stays as it is, to the last field, until it is discarded or swept, a copy is written into it, its restore is tried while it is pending, or an accepted push filed under its reference takes it |
| BinRows.GoneWasTaken | backend/internal/store/store.go:1466-1512 | Only a discard, a sweep of the row or such a push takes a row, and a push takes one that is not pending only if it has just copied what it overwrites into it |
| BinRows.PushTakesPending | backend/internal/server/v2_proxy.go:184-211 | Of the rows there were, a push in which nothing failed takes exactly the pending ones of the reference it is filed under, and that of what it overwrites if this is copied first; the others are as they were |
| Shown.StaysShown | backend/internal/server/delete_tags.go:104-176 | Whatever calls and statements fail in an operation: a row that users were shown is shown still, unless a delete untagged its reference and said so or deleted the digest it shows, or its repository has no tag left |
| Shown.ShownUntilStruck | backend/internal/store/store.go:1359-1367 | So in every run a row is shown until such a delete |
| Runs.HeldStays | backend/internal/store/store.go:1461-1522 | Only a push of the tag, a restore, an expiry, a discard or a sweep of that row can end that |
| Runs.CopyIsKept | backend/internal/server/recycle_snapshot.go:11-61 | Recoverability over whole runs: the copy stays pending, with a manifest that hashes to its digest, until something releases it |
| Runs.CopiedIffLastTag | backend/internal/server/delete_tags.go:104-126 | With listings and lookups answered, whatever writes fail, and all copies counted, a removed tag was copied exactly if its result says delete: an untagged one was not |
| Runs.CopiedIffAllCounted | backend/internal/server/server.go:590-603 | A delete by digest takes all tags of the digest with it; they were all copied exactly if as many copies were counted |
| Runs.OverwriteCopyKeptIff | backend/internal/server/v2_proxy.go:184-256 | The overwrite copy a push takes outlives the push exactly if the registry refuses it; a push that the hook files elsewhere or nowhere neither takes nor drops a copy of what it overwrites |
| Runs.AnsweredSweepKeepsTags | backend/internal/server/server.go:1579-1582 | A collection whose listings and lookups were answered loses no tag, whatever else failed in it |
| Runs.HeldRestores | backend/internal/server/recycle.go:112-132 | A held row restores if no call fails, and its tag then points at the digest again; the registry refuses it once a layer is collected, as `Blobs.CopyRestoresIff` states |
| Server.Collect | backend/internal/server/server.go:1558-1577 | A metadata collection is a sweep over exactly the pending rows that are due |
| Server.Perform | backend/internal/server/recycle.go:37-150 | Every request, retention runs included, is a step of the run model, and without failures follows its clean form |
| IndexFacts.DeletedView | backend/internal/server/delete_tags.go:107-176 | After a tag-aware delete the table shows exactly the tags the registry still has, also when the repository row was dropped |
| IndexFacts.PushAgreesIff | backend/internal/server/v2_proxy.go:184-213 | An accepted push leaves table and registry in agreement exactly if the hook files it right, or it tells neither of them anything new |
| IndexFacts.SkippedPushDisagrees | backend/internal/server/v2_proxy.go:186-188 | The first push to team/manifests/app: a tag that no row shows |
| IndexFacts.MisfiledPushDisagrees | backend/internal/server/v2_proxy.go:186-188 | The first push to a/manifests: a tag shown under repository a, which does not have it, and not under its own |
| IndexFacts.NextIsGood | backend/internal/store/store.go:1242-1367 | Each request keeps that agreement for every repository, also pushes the registry refuses, collections and retention runs; a push does so if the hook files it right |
| IndexFacts.IndexMirrorsRegistry | backend/internal/store/store.go:1242-1367 | In every state of every failure-free run of requests whose pushes the hook files right, the rows that are not deleted are exactly the registry's tag map |
| IndexFacts.AgeIsFixed | backend/internal/store/store.go:1242-1245 | Over every run a row keeps the time it was first seen as long as its repository is known, so a pushed-over tag does not grow younger |
| Ages.NewRowDated | backend/internal/store/store.go:1242-1245 | A row that a failure-free request adds carries the time of that request |
| Ages.CreatedWhenFirstRecorded | backend/internal/store/store.go:1242-1245 | In every state of every failure-free run, the time of a row is that of the request that first recorded its reference since its repository was last unknown |
| Ages.FirstRecordedOnce | backend/internal/store/store.go:1242-1245 | There is only one such time |
| RoundTrip.GivenBack | backend/internal/server/recycle.go:76-150 | In whatever order, each digest regains exactly the tags among the restored rows that it had |
| RoundTrip.DeleteThenRestore | backend/internal/server/delete_tags.go:104-131 | After deleting tags and restoring every copy in any order, fully deleted digests have all their tags back |
| RoundTrip.RoundTripIff | backend/internal/server/recycle.go:94-146 | That returns the whole repository to what it was exactly if every touched digest had a tag and lost all of its tags or none |
| RoundTrip.UnchangedIff | backend/internal/server/delete_tags.go:133-163 | Delete and re-push is invisible exactly if every digest involved keeps all its tags and has one |
| RoundTrip.DisplacedCanComeBack | backend/internal/server/recycle.go:99-111 | Restoring over a tag that moved on keeps the displaced manifest pending, and restoring that one points the tag back |
| Sweep.LiveDigestsForRepo | backend/internal/server/server.go:1666-1680 | Only digests some tag points at; all of them if every lookup was answered; 404 exactly for an unknown repository |
| Sweep.RecordGCFailure | backend/internal/server/server.go:1643-1662 | A transport failure changes nothing; any other ages one row by what the two statements recorded |
| Sweep.CachedLive | backend/internal/server/server.go:1596-1611 | The cached set fits the registry as the sweep has left it; an unknown repository has no live digest |
| Sweep.SweepItem | backend/internal/server/server.go:1589-1639 | One row: its manifest goes only if no visible tag points at it, nothing more is missed unless a lookup failed, and the row is counted exactly if it is gone or has no digest |
| Sweep.SweepDigest | backend/internal/server/server.go:1596-1639 | A row with a digest is gone only if its manifest is swept or a tag pointed at it, and is counted exactly if it is gone |
| Sweep.DeleteUnreferenced | backend/internal/server/server.go:1624-1639 | A manifest already gone counts as done; after a delete that fails for any other reason, the registry being unreachable included, the row stays and is not counted; the row goes only with its manifest |
| Sweep.ProcessGCItems | backend/internal/server/server.go:1583-1641 | The registry lost exactly the swept manifests, live ones only where a lookup failed; the bin changed only in the items, by what was recorded; a row is gone only if it has no digest, its manifest is swept or a tag pointed at it; the count is of the items done; with lookups answered no delete of a live digest fails. Under a fixed outage the swept manifests and the failures are determined, with known broken statements the rows that are left too; without failures all items are gone |
| SweepFacts.SafeWhenLookupsAnswer | backend/internal/server/server.go:1579-1611 | With listings and lookups answered, whatever else fails: tag maps are unchanged, only untagged manifests behind the items are gone, and the live cache, never refreshed, is still the true live set |
| SweepFacts.SafeUnderEveryOutageIff | backend/internal/server/server.go:1579-1582 | The tags survive every outage exactly if no due row is about a digest that a tag points at |
| SweepFacts.SafeWithoutLiveRows | backend/internal/server/server.go:1579-1582 | Then they also survive failures that come and go |
| SweepFacts.FailedLookupCostsTag | backend/internal/server/server.go:1672-1676 | The sweep itself with one lookup failing: a tagged manifest is deleted, tag and all |
| SweepFacts.CountAlwaysRightIff | backend/internal/server/server.go:1589-1593 | The count is the number of rows removed, whatever fails, exactly if every row taken on has a digest |
| SweepFacts.Overcount | backend/internal/server/server.go:1589-1593 | The sweep itself with one row's removal failing: the row has no digest, stays, and is counted all the same |
| Retries.HonestAfterIff | backend/internal/store/store.go:1461-1464 | Pending rows have attempts left and parked ones none, until a copy revives a used-up row or a last attempt is counted without parking the row: exactly then |
| Retries.HonestRunIff | backend/internal/store/store.go:1461-1464 | The same for whole runs: attempts are honest in every state exactly if no step does either |
| Retries.RevivedByCopy | backend/internal/store/store.go:1461-1464 | Only operations that copy a manifest under the very key of the row revive it |
| Retries.RenewedByCopy | backend/internal/store/store.go:1461-1464 | Nor can anything else let a row be tried more often than before |
| Retries.RecordedUsesOne | backend/internal/store/store.go:1996-2002 | A failure both statements record uses up one unit of the row's budget and parks it with the last one; a half recorded one stops using it up |
| Retries.FiveFailuresPark | backend/internal/server/server.go:1643-1646 | A fresh row is still pending after four failures recorded in full and parked after the fifth |
| Retries.BudgetStep | backend/internal/server/server.go:1643-1662 | In any operation, recorded failures are paid from the budget; only rows that can now be tried more often add to it, at most five each |
| Retries.DoomedWithin | backend/internal/server/server.go:1643-1646 | In every run failed deletes exceed the unrecorded failures by at most the initial budget and five per renewal of a row |
| Retries.FailuresEndIff | backend/internal/server/server.go:1643-1646 | In an endless run that renews rows finitely often, deletes fail finitely often exactly if finitely many failures go unrecorded |
| Retries.RowFailuresEndIff | backend/internal/server/server.go:1643-1646 | The same for any one row, whatever happens to the others |
| Retries.NoBoundIff | backend/internal/store/store.go:1996-2002 | Counted failures can go on for ever exactly if a pending row with a digest exists: the parking statement just has to keep failing |
| RetryRun.ParkingBroken | backend/internal/server/server.go:1596-1611 | The server itself, from any such state: collections that fail on the row every time, as often as one likes, count each attempt and leave it pending |
| Gate.RunInv | backend/internal/server/server.go:1484-1556 | So does every run, for any number of threads |
| Gate.GateIsSafe | backend/internal/server/server.go:1522-1556 | At most one holder, running implies busy, running throughout drain, sweep and blob phases, both flags clear without a holder |
| Gate.ClosedTheGate | backend/internal/server/server.go:1484-1490 | A collector in a phase closed the gate itself and it has been closed since |
| Gate.PhasesInOrder | backend/internal/server/server.go:1522-1556 | A full cycle drains before it sweeps and sweeps before it collects blobs; the metadata half alone never collects blobs, the blob half alone never sweeps |
| Gate.LateWritesReadEarlier | backend/internal/server/v2_proxy.go:20-28 | A write that lands during a phase read the open gate before that collector closed it |
| Gate.NoNewWrites | backend/internal/server/v2_proxy.go:20-28 | While the gate is closed, writes in flight only become fewer |
| Gate.QuietAfterDrain | backend/internal/server/server.go:1537-1542 | Once they have all landed, none lands until the gate opens |
| Gate.LateWriteHappens | backend/internal/server/server.go:1537-1542 | The fixed drain delay guarantees no such thing: a run in which a write lands in the sweep |
| Gate.RunsEnd | backend/internal/server/server.go:1484-1556 | No thread waits for another: the steps left are bounded by the threads' ranks |
| Gate.NoDeadlock | backend/internal/server/server.go:1492-1495 | A thread that has not ended can step, and when all have ended the gate is open |
| PushHook.HookReadsBackIff | backend/internal/server/v2_proxy.go:184-188 | The hook reads repository and reference back from the path of a push exactly if no segment of the name is "manifests" and the reference has no blanks around it |
| PushHook.HookCases | backend/internal/server/v2_proxy.go:184-188 | What it reads in every case: right; the part before a last segment "manifests" and a longer reference; or nothing |
| PushHook.ReservedIsSegment | backend/internal/server/v2_proxy.go:184-188 | The condition, in terms of the segments between the slashes of the name |
| PushHook.FiledRightIff | backend/internal/server/v2_proxy.go:184-211 | For references the registry takes, the images row of a push is the right one exactly if no segment of the name is "manifests" |
| PushHook.TrimSpaceMeans | backend/internal/server/v2_proxy.go:188 | Only blanks are trimmed from what is read, at either end, and none is left there |
| PushHook.SameRowIff | backend/internal/server/server.go:1019-1030 | Two names share an images row exactly if they are stored by the same namespace and name, split at the first slash |
| PushHook.SkippedName | backend/internal/server/v2_proxy.go:186 | From /v2/team/manifests/app/manifests/v1 the hook takes nothing, while the pull parser reads it right |
| PushHook.MisfiledName | backend/internal/server/v2_proxy.go:186-188 | From /v2/a/manifests/manifests/v1 it takes repository a and reference manifests/v1 |
| SweepCalls.LostIfPlanned | backend/internal/server/server.go:1596-1634 | One sweep call by call, anybody else in between: of a digest nobody else touches from some point on, with its calls then answered, it leaves nothing if a row about the digest is then still to come and it neither has seen the digest in use nor will on a tag it is still to look at, and everything otherwise |
| SweepCalls.LostIfDeleted | backend/internal/server/server.go:1624-1632 | Whatever calls fail: nothing if it deletes the digest from then on, everything otherwise |
| SweepCalls.RowKeptIff | backend/internal/server/server.go:1612-1634 | A copy written while the sweep is under way outlives it exactly if its row is not among those still to be done |
| SweepCalls.AloneIsSweep | backend/internal/server/server.go:1583-1641 | Left alone, the calls add up to the sweep of ProcessGCItems: exactly the unreferenced manifests behind the rows go, and the rows |
| Race.RestoreLostIff | backend/internal/server/recycle.go:94-135 | A restore during a sweep of rows of its repository, any calls failing before its push, is undone exactly if at the push the sweep is past the tag, has not seen the digest in use and has a row about it still to come, its own or another: then every tag of the digest is gone with the manifest, otherwise the tag is back for good |
| Race.RestoreLostIffDeleted | backend/internal/server/recycle.go:112-132 | Whatever calls fail: it is undone exactly if the sweep deletes the digest after the push |
| Race.RestoreSafeIff | backend/internal/server/recycle.go:94-135 | With calls answered, the restore is safe however they fall exactly if at the start some tag is on the digest or no row about it is to be swept |
| Race.RowIsDropped | backend/internal/server/server.go:1634-1637 | A sweep whose calls are answered takes the row, restored or not |
| Race.RestoreCanBeLost | backend/internal/server/recycle.go:112-132 | One row, the push between lookups and delete: both go through and the restored tag is gone |
| Race.SiblingRowCanLoseIt | backend/internal/server/server.go:1596-1634 | Two rows of one digest, the push after the delete for the first: the delete for the second takes the restored tag |
| UntagRace.SurvivorsKeptIff | backend/internal/server/delete_tags.go:144-163 | An untag during a sweep: the re-pushed survivors still have the digest in the end exactly if the sweep neither deleted it between two pushes nor was still going to at the last; if it was, all are gone; the report depends on the pushes alone |
| UntagRace.UntagSafeIff | backend/internal/server/delete_tags.go:144-176 | With calls answered, the survivors keep the digest however the calls fall exactly if no row about it is to be swept; the untag reports success without a warning either way |
| Protection.CheckPush | backend/internal/server/v2_proxy.go:29-68 | The verdict on a push is that on the repository and reference read from its path, with at most one lookup, whose failure lets the push through |
| Protection.ProtectedIff | backend/internal/server/v2_proxy.go:30-63 | A push of a tag is refused as protected exactly if the check reads a repository from the path, may push there, the registry has what it takes for the tag, and mode or rules protect that; and refused as new exactly if creating is off and the repository unknown |
| Protection.JudgedRightIff | backend/internal/server/v2_proxy.go:31-34 | Under all settings a push is judged as the repository and tag it goes to exactly if no segment of the name is "manifests" |
| Protection.Unprotected | backend/internal/server/v2_proxy.go:31-58 | A name with such a segment in an immutable repository: its tags can be pushed over |
| Protection.NeverProtected | backend/internal/server/v2_proxy.go:31-32 | Nothing protects the tags of team/manifests/app |
| Blobs.RunStaysWhole | backend/internal/server/server.go:1543-1556 | In every run every stored manifest keeps all its blobs, as collections take only blobs no manifest refers to |
| Blobs.RestoreTruthfully | backend/internal/server/recycle.go:112-128 | A restore by the server, at a registry that takes a manifest exactly if it has its blobs: the row expires exactly if one is missing |
| Blobs.PushTruthfully | backend/internal/server/v2_proxy.go:184-213 | And its push is a step of such a run |
| Blobs.CopyRestoresIff | backend/internal/server/recycle.go:112-128 | Until when a copy restores: unreleased, and with the registry answering, the tag points at its digest again exactly if every layer that a collection took since has been uploaded again; otherwise the row expires |
| Blobs.FullCycle | backend/internal/server/server.go:1543-1550 | A full collection in which a held row was not due keeps the row pending, but it restores afterwards exactly if each of its layers is one that a manifest left by the sweep refers to |
| Blobs.NotDueCanExpire | backend/internal/server/recycle.go:117-125 | A run of that kind: a restorable row that was not due has expired |
| Retention.LatestIsMaximum | backend/internal/server/server.go:1096-1098 | A group's time is the maximum of its rows' times and the zero time |
| Retention.GroupTagsMean | backend/internal/server/server.go:1080-1095 | A group has exactly the references of rows that show its digest, which is not empty, under a tag the registry has |
| Retention.GroupImages | backend/internal/server/server.go:1080-1099 | One group per eligible digest, with its tags in row order and its newest time |
| Retention.RetentionCandidates | backend/internal/server/server.go:1065-1125 | Nothing for a keep count of zero or less; otherwise the selection for the order in which the map of groups was visited |
| Retention.SortIsStable | backend/internal/server/server.go:1105-1107 | Newest first, a permutation, groups of one age in their old order |
| Retention.StableSortIsUnique | backend/internal/server/server.go:1097-1107 | There is only one such list |
| Retention.SelectionIsValid | backend/internal/server/server.go:1100-1124 | For every visiting order: exactly the surplus groups, newest first, none newer than a kept one |
| RetentionFacts.EveryValidSelectionIsReached | backend/internal/server/server.go:1100-1124 | Conversely every such list is the outcome of some visiting order |
| RetentionFacts.SameDigestsIffNoTie | backend/internal/server/server.go:1097-1107 | The removed digests are the same for every visiting order exactly if the cut goes through no age, which the rows alone decide |
| RetentionFacts.TieIsAmbiguous | backend/internal/server/server.go:1097-1107 | Two rows of one age and two visiting orders that remove different digests |
| RetentionFacts.SameForEveryOrder | backend/internal/server/server.go:1079-1124 | With distinct times, digests and times come out in the same places, with the same tags, for every permutation of the rows and every visiting order |
| RetentionRun.ListImages | backend/internal/store/store.go:1330-1352 | The rows not deleted, each once; a query that breaks off leaves some of them, and one known to work all |
| RetentionRun.ChooseTags | backend/internal/server/server.go:1196-1204 | The references of a valid selection over the rows that were read; none without a repository row; over all live rows if the read works |
| RetentionRun.RunRetention | backend/internal/server/server.go:1173-1218 | Whatever fails, a run is one tag deletion, of a valid selection among live rows, or nothing; without failures, or with the two statements it chooses by known to work, that of a valid selection over all of them |
| RetentionEnd.RetentionEndState | backend/internal/server/server.go:1173-1218 | A failure-free run leaves exactly min(keep, n) digests, each with all its tags, none older than a removed one, every removed tag with a pending row; and the table still agrees |
| Ages.LaterDigestsStay | backend/internal/server/server.go:1096-1124 | In a failure-free run, of two digests first recorded at different times a retention run never removes the later one and keeps the earlier |
| ImageSize.ClampsIff | backend/internal/server/server.go:75-101 | A float size is clamped to int64 for every value except 2^63, unless the platform's conversion saturates |
| ImageSize.ParseSizeMeans | backend/internal/server/server.go:79-104 | Every field: a text that reads as an integer gives it, zero if negative; otherwise a finite float gives its whole part clamped to int64, except as in `ImageSize.ClampsIff`; everything else zero |
| ImageSize.BlobsOfImage | backend/internal/server/server.go:158-169 | An image has its config and its layers, each as often as listed; an index has no blobs of its own |
| ImageSize.ParseSize | backend/internal/server/server.go:79-104 | Every size field gives a 64-bit size, negative at most for the float 2^63 |
| ImageSize.Seen.UniqueBlobSize | backend/internal/server/server.go:172-187 | A blob adds its size the first time its digest is met, undigested ones every time |
| ImageSize.SumBlobs | backend/internal/server/server.go:158-169 | The blobs of one image, each digest once |
| ImageSize.ImageSizeInto | backend/internal/server/server.go:125-170 | With the sets shared by all levels: the fetches are the depth-first walk, the total is the wrapped sum of the blobs not counted before |
| ImageSize.SumChildren | backend/internal/server/server.go:130-154 | An index adds what its first children with new digests contribute, up to the limit |
| ImageSize.ImageSize | backend/internal/server/server.go:115-123 | The whole traversal from empty sets |
| ImageSizeFacts.CostBound | backend/internal/server/server.go:106-113 | On every document graph, cyclic or not: at most 4368 fetches, none twice |
| ImageSizeFacts.FetchesExactlyTheReachable | backend/internal/server/server.go:115-120 | Within the limits, exactly the reachable manifests are fetched, and all of them counted |
| ImageSizeFacts.UniqueIsSum | backend/internal/server/server.go:172-187 | Counting once is the sum over distinct digests plus the undigested descriptors |
| ImageSizeFacts.SizeIsSetSum | backend/internal/server/server.go:115-170 | The total is the sum over the set of reachable blobs, reported truly exactly if it fits in 64 bits |
| ImageSizeFacts.ChildOrderIrrelevant | backend/internal/server/server.go:130-154 | The order of children makes no difference |
| ImageLimits.FirstSixteen | backend/internal/server/server.go:104-147 | Of an index of images exactly the first sixteen are fetched, in the order in which they are first listed |
| ImageLimits.TwoIndexesDeep | backend/internal/server/server.go:108-128 | An image in nested indexes counts exactly if it is at most two deep |
| Glob.EveryPatternParses | backend/internal/server/features.go:97-118 | Every pattern compiles, to an anchored expression with one piece per character |
| Glob.CompilationPreservesMeaning | backend/internal/server/features.go:88-124 | The compiled expression matches exactly the tags the glob means |
| Glob.LiteralPattern | backend/internal/server/features.go:98-109 | A pattern without wildcards matches itself only |
| Glob.MatchString | backend/internal/server/features.go:121-124 | The matcher finds a match exactly if one begins somewhere |
| Glob.PatternCache.PatternRegexp | backend/internal/server/features.go:88-119 | Cached or compiled now, the answer is the fresh compilation; the cache gains that entry only |
| Glob.PatternCache.MatchPattern | backend/internal/server/features.go:121-124 | Matches exactly as the glob means |
| Glob.PatternCache.CheckImmutableTag | backend/internal/server/features.go:126-146 | Digest references never; an immutable repository always; otherwise the first matching rule, and none if the rules cannot be read |
| Glob.FirstMatchMeans | backend/internal/server/features.go:138-145 | A tag is protected exactly if some rule matches, and the rule named is the first that does |
| Prune.Disk.Walk | backend/internal/server/server.go:1931-1942 | Every directory once, after those that contain it, but for exactly those at or below one that a failed listing did not return |
| Prune.Disk.CleanupEmptyDirs | backend/internal/server/server.go:1931-1951 | A directory is left exactly if it is or contains a file, a directory that a failed listing of the walk missed, or one that a later call failed on; no file goes |
| Prune.EmptyIff | backend/internal/server/server.go:1943-1950 | At its turn a directory is empty exactly if nothing is needed below it |
| Token.EncodeRoundTrip | backend/internal/server/v2_token.go:89-90 | Unpadded base64url decodes to what was encoded, and has no dot (sections 3.2 and 5 of RFC 4648) |
| Token.PayloadReads | backend/internal/server/v2_token.go:113-124 | A payload reads back as its name while unexpired, exactly if the name has no NUL byte |
| Token.FieldsReadBack | backend/internal/server/v2_token.go:83-88 | User, name and expiry read back from the payload as they were put in, for a name without NUL bytes |
| Token.NumberReadsIff | backend/internal/server/v2_token.go:117-120 | A number with any sign and leading zeros is read exactly if it fits in 64 bits |
| Token.TokenText | backend/internal/server/v2_token.go:83-91 | The letters of one payload, spelled out |
| Token.MintedValidatesIff | backend/internal/server/v2_token.go:83-125 | A minted token validates to its name exactly while the name is NUL-free and the expiry has not come |
| Token.AcceptedIff | backend/internal/server/v2_token.go:93-125 | Whatever text is presented, it validates to a name exactly if it is signed with the key and grants that name, unexpired |
| Token.BreaksDoNotMatter | backend/internal/server/v2_token.go:93-105 | Line breaks anywhere in a token make no difference to whether and to what it validates |
| Recent.RecentTable.AddRecent | backend/internal/store/store.go:1385-1398 | Three statements that can fail apart; together the visit replaces the repository's row and the table is trimmed |
| Recent.RecentTable.ListRecent | backend/internal/store/store.go:1400-1418 | The user's newest rows first, limited as asked, fifty by default |
| Recent.HistoryMeans | backend/internal/store/store.go:1386-1387 | The history lists each repository once, and exactly the user's last visits |
| Recent.HistoryNewestFirst | backend/internal/store/store.go:1404 | Newest first while the clock does not go back |
| Recent.TrimKeeps | backend/internal/store/store.go:1395-1396 | Trimming keeps the user's newest hundred rows and all rows of others |
| Recent.RefinesHistory | backend/internal/store/store.go:1385-1418 | After every sequence of visits the table answers with the newest hundred entries of the whole history |
| Recent.ListingShows | backend/internal/store/store.go:1400-1404 | What a listing shows of the history: as much as asked for, up to a hundred, and fifty if that was out of range |
| RepoPath.RepoBeforeLastSuffix | backend/internal/server/repo_path.go:14-25 | A marker begins right after the result and none later; the result is empty exactly if no marker begins past the start |
| RepoPath.LocatedIsUnique | backend/internal/server/repo_path.go:14-25 | Only one prefix of a path has a marker right after it and none later |
| RepoPath.PullResourceRepoPath | backend/internal/server/repo_path.go:46-52 | Under /v2/, what precedes the last manifest or blob marker of the rest, empty if none has anything before it; elsewhere empty |
| RepoPath.ExtractV2RepoPath | backend/internal/server/repo_path.go:56-68 | Empty exactly outside /v2/, for an empty rest, and at or below _catalog; otherwise what precedes the last marker of the rest, or all of it if no marker has anything before it |
| RepoPath.ExtractRepoNameFromPath | backend/internal/server/repo_path.go:70-76 | What precedes the last sub-path marker, empty exactly if none begins past the start |
| RepoPath.SplitsIff | backend/internal/server/repo_path.go:5-14 | A path splits right exactly if no marker begins later |
| RepoPath.AuthorizationRoundTripIff | backend/internal/server/repo_path.go:54-68 | Content paths of a repository, reserved segments and all, parse back exactly if it is not at or below _catalog |
| RepoPath.PullRoundTrip | backend/internal/server/repo_path.go:36-52 | Content paths of every repository parse back |
| RepoPath.TagListRoundTripIff | backend/internal/server/repo_path.go:54-68 | The same as for content paths, for tag lists |
| RepoPath.ParsersAgreeIff | backend/internal/server/repo_path.go:36-52 | The two parsers agree exactly if the path is not below _catalog and no tag-list marker follows the last content marker |
| RepoPath.ApiManifestRoundTripIff | backend/internal/server/repo_path.go:70-76 | A UI manifest path parses back exactly if the reference does not begin like another sub-path |
| RepoPath.ApiSubPathRoundTrip | backend/internal/server/repo_path.go:70-76 | Paths that end with a sub-path always parse back |
| RepoPath.TagNamedInit | backend/internal/server/repo_path.go:70-76 | A tag named "init" is filed under another repository |

## Left out

- HTTP handling, JSON, headers, cookies, CSRF, TLS, uploads, webhooks and audit rows: none of them
  feeds back into what is modelled.
- User, role and namespace permission checks and the three-tier policy lookup: each is settled by a
  few branches; the outcome of the overwrite policy is a parameter of a push.
- SQL text, migrations and row ids: tables are maps keyed by their UNIQUE constraints, and the
  columns for sizes, notes, favorites, content types and error texts of images rows are not kept.
- The favorites upsert, the recent-list entry a page view adds and the startup synchronisation of all
  repositories: they are not steps of the runs.
- Deletes sent straight to the registry API under /v2/: they do not sync the images table, so index
  agreement is not claimed for runs that contain them.
- Manifests referenced only as children of an index that is still tagged: garbage collection looks at
  tags only, and nothing is claimed about children.
- The age filter of a retention-based collection: which pending rows are due is a parameter.
- The external garbage-collect command, configuration scanning, disk usage and restarts: a blob
  collection is a step that changes none of the three stores. In `Blobs` the stored blobs are an abstract set,
  what a manifest refers to is a parameter, and links between blobs and repositories are not kept.
- Other requests between the calls of one request: in `Runs` each request is one step. The gate
  between collections and registry writes is the part whose single instructions are interleaved.
- The UI's own restores, deletes and retention runs do not consult the gate, so `Gate` speaks about
  registry writes only; restores and untags are interleaved with a sweep in `Race` and `UntagRace`, and
  `SweepCalls` speaks of any other requests.
- Clock values, retention settings and request contexts are parameters; the drain delay is a step of
  any length.
- Rounding of floating-point numbers: a JSON number comes with the float and the integer it parses to,
  and a float with what the platform converts it to.
- Invalid UTF-8 in tags and patterns, and the size limit of the regular-expression compiler: text is a
  sequence of characters.
- RetentionEnd.RetentionEndState: speaks of repositories without an empty tag name, which the
  distribution specification rules out and a selection ignores.
- ImageSizeFacts.FetchesExactlyTheReachable: its condition counts walks from the root, so a document
  that contains itself, which a content digest rules out, does not meet it.
- IndexFacts.IndexMirrorsRegistry: starts from a bin without rows that lack a digest; no modelled
  operation writes one. It needs the pushes to be filed right, as `IndexFacts.PushAgreesIff` shows.
- Ages.CreatedWhenFirstRecorded: speaks of runs in which nothing fails; after a failure the row is added by a later
  request, if any.
- Recent.RefinesHistory: needs a clock that does not go back; without it trimming goes by time, which
  `Recent.RecentTable.AddRecent` still states.
- Outages and breakdowns: a fixed one fails a call or a statement each time it is made; failures that come
  and go are covered by the results that do not mention one.
- Repository names the registry refuses: it is taken to store a push under any name and reference given. A
  name that begins with a slash shares its images row with the name without it; only the push hook, which
  can produce such a name, is modelled with that.
- The pull and push statistics, which read the path in the same way.
- The lookup in front of a push, for a reference with a slash in it: how a registry answers that is open, so
  in `Protection` the answer is a parameter of every statement.
- In `SweepCalls`, rows of other repositories, whose calls do not touch this one, and row ids: a row that is
  thrown away and written again under the same key while the sweep has it to do counts as the same row.
- SweepCalls, Race and UntagRace are modelled on values, as relations over single calls, because they interleave.
- Gate is modelled on values, as a relation over single instructions, because its steps interleave.
