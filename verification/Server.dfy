/** The server's operations as one dispatcher, tied to the run-level steps and to their failure-free form. */
module Server {
  import opened Prelude
  import opened Registry
  import opened Store
  import opened DeleteSpec
  import opened Snapshots
  import opened System
  import opened Lifecycle
  import opened Sweep
  import opened Runs
  import opened Deleting
  import opened RetentionRun

  datatype Request =
    | Push(name: Name, reference: Ref, m: Manifest, recycle: bool, now: int)
    | DeleteTags(name: Name, tags: seq<Ref>)
    | DeleteDigest(name: Name, digest: Digest)
    | Retain(name: Name, keepCount: int)
    | Restore(key: BinKey, now: int)
    | Discard(key: BinKey)
    | Browse(name: Name, reference: Ref, now: int)
    | CollectMetadata(due: set<BinKey>)
    | CollectBlobs

  /** The pending rows a collection takes on. */
  ghost function Due(s: State, due: set<BinKey>): set<BinKey> {
    set k | k in s.bin && s.bin[k].status == PendingGC && k in due
  }

  /** The manifests behind due rows that no tag points at. */
  ghost function Orphans(s: State, due: set<BinKey>): set<Spot> {
    set k | k in Due(s, due) && k.digest != Empty && k.digest !in Live(RepoAt(s.repos, k.repo)) ::
        Spot(k.repo, k.digest)
  }

  /** The state after a metadata sweep in which nothing failed. */
  ghost function SweepClean(s: State, due: set<BinKey>): State {
    State(SweptRepos(s.repos, Orphans(s, due)), s.bin - Due(s, due), s.images)
  }

  /** A retention run removes some valid selection; which one depends on the order of a map. */
  ghost predicate Retained(s: State, name: Name, keepCount: int, s': State) {
    exists images, candidates :: RetainedClean(s, name, keepCount, images, candidates, s')
  }

  /** What a request in which nothing failed does. */
  ghost predicate CleanNext(s: State, q: Request, s': State) {
    match q
    case Push(name, reference, m, recycle, now) => s' == PushClean(s, name, reference, m, recycle, now)
    case DeleteTags(name, tags) => s' == DeleteTagsClean(s, name, Selection(tags))
    case DeleteDigest(name, digest) => s' == DigestDeleteClean(s, name, digest)
    case Retain(name, keepCount) => Retained(s, name, keepCount, s')
    case Restore(key, now) => s' == RestoreClean(s, key, now)
    case Discard(key) => s' == s.(bin := s.bin - {key})
    case Browse(name, reference, now) => s' == BrowseClean(s, name, reference, now)
    case CollectMetadata(due) => s' == SweepClean(s, due)
    case CollectBlobs => s' == s
  }

  /** The states that requests in which nothing failed lead through. */
  ghost predicate IsCleanRun(states: seq<State>, requests: seq<Request>) {
    && |states| == |requests| + 1
    && forall i :: 0 <= i < |requests| ==> CleanNext(states[i], requests[i], states[i + 1])
  }

  /** Runs the metadata sweep over the pending rows that are due, in some order. */
  method Collect(client: Upstream, db: Database, due: set<BinKey>) returns (ghost e: Event)
    requires client.Valid()
    modifies client, db`bin, db`faults
    ensures client.Valid()
    ensures Step(old(StateOf(client, db)), e, StateOf(client, db))
    ensures e.Swept? && Elements(e.items) == Due(old(StateOf(client, db)), due)
    ensures FailuresFit(client.outage, db.breakdown, old(client.repos), e.answered, db.bin, Elements(e.items), e.f)
    ensures client.lookupFaults == old(client.lookupFaults) <==> e.answered
    ensures Faults(client, db) >= old(Faults(client, db))
    ensures Faults(client, db) == old(Faults(client, db)) ==>
              StateOf(client, db) == SweepClean(old(StateOf(client, db)), due)
  {
    ghost var s := StateOf(client, db);
    var items := Enumerate(set k | k in db.bin && db.bin[k].status == PendingGC && k in due);
    assert forall k :: k in items ==> k in Elements(items);
    assert forall k :: k in Elements(items) <==> k in items;
    var deleted;
    ghost var cache, swept, missed, f;
    deleted, cache, swept, missed, f := ProcessGCItems(client, db, items);
    e := Swept(items, swept, f, client.lookupFaults == old(client.lookupFaults));
    assert Unreferenced(s.repos, items) == Orphans(s, due);
  }

  /** Every request is a step of the run-level model, and with no failure it is its clean form. */
  method Perform(client: Upstream, db: Database, q: Request) returns (ghost e: Event)
    requires client.Valid()
    modifies client, db
    ensures client.Valid()
    ensures Step(old(StateOf(client, db)), e, StateOf(client, db))
    ensures client.lookupFaults == old(client.lookupFaults) && (e.TagsDeleted? || e.Swept?) ==> e.answered
    ensures Faults(client, db) >= old(Faults(client, db))
    ensures Faults(client, db) == old(Faults(client, db)) ==>
              CleanNext(old(StateOf(client, db)), q, StateOf(client, db))
  {
    match q {
      case Push(name, reference, m, recycle, now) =>
        var accepted := PushManifest(client, db, name, reference, m, recycle, now);
        e := Pushed(name, reference, m, accepted);
      case DeleteTags(name, tags) =>
        e := DeleteSelected(client, db, name, tags);
      case DeleteDigest(name, digest) =>
        var deleted, count;
        ghost var snapped;
        deleted, count, snapped := DeleteByDigest(client, db, name, digest);
        e := DigestDeleted(name, digest, deleted, snapped);
      case Retain(name, keepCount) =>
        var listed;
        ghost var images, candidates;
        listed, e, images, candidates := RunRetention(client, db, name, keepCount);
      case Restore(key, now) =>
        var outcome := RestoreItem(client, db, key, now);
        e := RestoreTried(key, outcome);
      case Discard(key) =>
        var found, ok := DiscardItem(client, db, key);
        e := Discarded(key);
      case Browse(name, reference, now) =>
        var found := BrowseManifest(client, db, name, reference, now);
        e := Browsed(name, reference, found);
      case CollectMetadata(due) =>
        e := Collect(client, db, due);
      case CollectBlobs =>
        e := BlobsCollected;
    }
  }
}
