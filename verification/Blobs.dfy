/** The layers behind the manifests: until when a row of the recycle bin can be restored. */
module Blobs {
  import opened Prelude
  import opened Registry
  import opened Store
  import opened System
  import opened Lifecycle
  import opened Sweep
  import opened Runs

  type Blob = string

  /** What the body of a manifest refers to; how it is read from the text does not matter here. */
  type References = string -> set<Blob>

  /** The three stores, and the blobs the registry has. */
  datatype Storage = Storage(stores: State, blobs: set<Blob>)

  datatype Happening = Uploaded(blob: Blob) | Requested(e: Event)

  /** The blobs that some stored manifest refers to. */
  ghost predicate Needed(refs: References, repos: Catalog, b: Blob) {
    exists n, d :: n in repos && d in repos[n].manifests && b in refs(repos[n].manifests[d].body)
  }

  /**
   * The registry takes a manifest only if it has all its blobs, and answers that one is unknown only if it
   * lacks one. Collecting takes blobs that no manifest refers to, if it gets that far.
   */
  ghost predicate BlobStep(refs: References, s: Storage, h: Happening, s': Storage) {
    match h
    case Uploaded(b) => s' == s.(blobs := s.blobs + {b})
    case Requested(e) =>
      && Step(s.stores, e, s'.stores)
      && (if e.BlobsCollected?
            then s'.blobs <= s.blobs && forall b :: b in s.blobs && Needed(refs, s.stores.repos, b) ==> b in s'.blobs
            else s'.blobs == s.blobs)
      && (e.Pushed? && e.accepted ==> refs(e.m.body) <= s.blobs)
      && (e.RestoreTried? && e.key in s.stores.bin ==>
            var whole := refs(s.stores.bin[e.key].manifest.body) <= s.blobs;
            (e.outcome in {Done, NotRecorded} ==> whole) && (e.outcome == Expired ==> !whole))
  }

  ghost predicate IsBlobRun(refs: References, states: seq<Storage>, happened: seq<Happening>) {
    && |states| == |happened| + 1
    && forall i :: 0 <= i < |happened| ==> BlobStep(refs, states[i], happened[i], states[i + 1])
  }

  /** A registry that takes the manifest only if it has all its blobs, and answers that one is unknown if not. */
  ghost predicate Truthful(refs: References, blobs: set<Blob>, outage: Outage, name: Name, reference: Ref,
                           m: Manifest) {
    && outage.Fixed?
    && (!(refs(m.body) <= blobs) <==>
        Push(name, reference) in outage.down && outage.cause(Push(name, reference)) == BlobUnknown)
  }

  /** With such a registry, the server's restore is a step of this kind, and expires exactly rows that lack a blob. */
  method RestoreTruthfully(client: Upstream, db: Database, k: BinKey, now: int, ghost refs: References,
                           ghost blobs: set<Blob>)
    returns (outcome: RestoreOutcome)
    requires client.Valid() && k in db.bin && db.bin[k].status == PendingGC
    requires Truthful(refs, blobs, client.outage, k.repo, k.reference, db.bin[k].manifest)
    modifies client, db
    ensures client.Valid()
    ensures BlobStep(refs, Storage(old(StateOf(client, db)), blobs), Requested(RestoreTried(k, outcome)),
                     Storage(StateOf(client, db), blobs))
    ensures outcome == Expired <==> !(refs(old(db.bin)[k].manifest.body) <= blobs)
  {
    outcome := RestoreItem(client, db, k, now);
  }

  /** And so is a push. */
  method PushTruthfully(client: Upstream, db: Database, name: Name, reference: Ref, m: Manifest, recycle: bool,
                        now: int, ghost refs: References, ghost blobs: set<Blob>)
    returns (accepted: bool)
    requires client.Valid() && Truthful(refs, blobs, client.outage, name, reference, m)
    modifies client, db
    ensures client.Valid()
    ensures BlobStep(refs, Storage(old(StateOf(client, db)), blobs), Requested(Pushed(name, reference, m, accepted)),
                     Storage(StateOf(client, db), blobs))
  {
    accepted := PushManifest(client, db, name, reference, m, recycle, now);
  }

  // ---- The registry stays whole ----

  /** Every stored manifest has all its blobs. */
  ghost predicate Whole(refs: References, s: Storage) {
    forall b :: Needed(refs, s.stores.repos, b) ==> b in s.blobs
  }

  lemma StepKeepsWhole(refs: References, s: Storage, h: Happening, s': Storage)
    requires BlobStep(refs, s, h, s') && Whole(refs, s) && Sound(s.stores)
    ensures Whole(refs, s')
  {
    if h.Requested? {
      forall n, d | n in s'.stores.repos && d in s'.stores.repos[n].manifests
        ensures forall b :: b in refs(s'.stores.repos[n].manifests[d].body) ==> b in s'.blobs
      {}
    }
  }

  /** Where a stored manifest comes from: it was there, or the step brought it. */
  ghost predicate Brought(s: State, e: Event, m: Manifest) {
    || (e.Pushed? && e.accepted && e.m.body == m.body)
    || (e.RestoreTried? && e.outcome in {Done, NotRecorded} && e.key in s.bin && s.bin[e.key].manifest.body == m.body)
  }

  lemma {:induction false} RunStaysWhole(refs: References, states: seq<Storage>, happened: seq<Happening>, j: nat)
    requires IsBlobRun(refs, states, happened) && Whole(refs, states[0]) && Sound(states[0].stores) && j < |states|
    ensures Whole(refs, states[j]) && Sound(states[j].stores)
  {
    if j > 0 {
      RunStaysWhole(refs, states, happened, j - 1);
      var s, h, s' := states[j - 1], happened[j - 1], states[j];
      assert BlobStep(refs, s, h, s');
      StepKeepsWhole(refs, s, h, s');
      if h.Requested? {
        StepKeepsSound(s.stores, h.e, s'.stores);
      }
    }
  }

  // ---- Until when a row restores ----

  /** The blobs of the manifest behind a row. */
  function Layers(refs: References, k: BinKey): set<Blob> {
    if k.digest.Sha256? then refs(k.digest.content) else {}
  }

  /** A blob collected from `i` to `j` has been uploaded again since. */
  ghost predicate Left(b: Blob, states: seq<Storage>, happened: seq<Happening>, i: nat, j: nat) {
    && i <= j < |states| && |states| == |happened| + 1
    && forall c :: i <= c < j && Takes(states[c], b, states[c + 1]) ==> UploadedAfter(b, happened, c, j)
  }

  predicate UploadedAfter(b: Blob, happened: seq<Happening>, c: nat, j: nat) {
    j <= |happened| && exists u :: c < u < j && happened[u] == Uploaded(b)
  }

  predicate Takes(s: Storage, b: Blob, s': Storage) {
    b in s.blobs && b !in s'.blobs
  }

  lemma LeftNext(b: Blob, states: seq<Storage>, happened: seq<Happening>, i: nat, j: nat)
    requires i < j < |states| && |states| == |happened| + 1
    requires happened[j - 1] == Uploaded(b) ==> b in states[j].blobs
    ensures Left(b, states, happened, i, j) <==>
              happened[j - 1] == Uploaded(b) ||
              (Left(b, states, happened, i, j - 1) && !Takes(states[j - 1], b, states[j]))
  {
    forall c | i <= c < j - 1
      ensures UploadedAfter(b, happened, c, j) <==>
                UploadedAfter(b, happened, c, j - 1) || happened[j - 1] == Uploaded(b)
    {}
  }

  lemma {:induction false} StoredIffLeft(refs: References, states: seq<Storage>, happened: seq<Happening>, b: Blob,
                                         i: nat, j: nat)
    requires IsBlobRun(refs, states, happened) && i <= j < |states| && b in states[i].blobs
    ensures b in states[j].blobs <==> Left(b, states, happened, i, j)
  {
    if i < j {
      StoredIffLeft(refs, states, happened, b, i, j - 1);
      LeftNext(b, states, happened, i, j);
    }
  }

  /** The row is not released from `i` to `j`. */
  ghost predicate Unreleased(k: BinKey, happened: seq<Happening>, i: nat, j: nat) {
    i <= j <= |happened| && forall n :: i <= n < j && happened[n].Requested? ==> !Releases(happened[n].e, k)
  }

  lemma HeldNext(refs: References, s: Storage, h: Happening, s': Storage, k: BinKey)
    requires BlobStep(refs, s, h, s') && Sound(s.stores) && Held(s.stores, k)
    requires h.Requested? ==> !Releases(h.e, k)
    ensures Held(s'.stores, k)
  {
    if h.Requested? {
      HeldStays(s.stores, h.e, s'.stores, k);
    }
  }

  lemma {:induction false} StaysHeld(refs: References, states: seq<Storage>, happened: seq<Happening>, k: BinKey,
                                     i: nat, j: nat)
    requires IsBlobRun(refs, states, happened) && Whole(refs, states[0]) && Sound(states[0].stores)
    requires i <= j < |states| && Held(states[i].stores, k) && Unreleased(k, happened, i, j)
    ensures Held(states[j].stores, k)
  {
    if i < j {
      StaysHeld(refs, states, happened, k, i, j - 1);
      RunStaysWhole(refs, states, happened, j - 1);
      HeldNext(refs, states[j - 1], happened[j - 1], states[j], k);
    }
  }

  /** The registry answers to the push of the restore. */
  predicate AnsweredRestore(h: Happening, k: BinKey) {
    h.Requested? && h.e.RestoreTried? && h.e.key == k && h.e.outcome in {Done, NotRecorded, Expired}
  }

  /** Such a restore of a held row goes through exactly if the registry has all its layers. */
  lemma RestoresIffLayers(refs: References, s: Storage, h: Happening, s': Storage, k: BinKey)
    requires BlobStep(refs, s, h, s') && Held(s.stores, k) && AnsweredRestore(h, k) && k.digest.Sha256?
    ensures h.e.outcome != Expired <==> Layers(refs, k) <= s.blobs
    ensures if Layers(refs, k) <= s.blobs
              then RepoAt(s'.stores.repos, k.repo).Resolve(k.reference) == Some(k.digest)
              else s'.stores.repos == s.stores.repos
  {}

  /**
   * Until when a copy can be restored. A delete copied row `k` at `i`, and nothing released it up to `j`. A
   * restore at `j` that the registry answers then points the tag at the digest again exactly if every layer of
   * the manifest that a collection took since has been uploaded again; otherwise the row expires.
   */
  lemma CopyRestoresIff(refs: References, states: seq<Storage>, happened: seq<Happening>, k: BinKey, i: nat, j: nat)
    requires IsBlobRun(refs, states, happened) && Whole(refs, states[0]) && Sound(states[0].stores)
    requires i < j < |happened| && happened[i].Requested? && Copies(states[i].stores, happened[i].e, k)
    requires Unreleased(k, happened, i + 1, j) && AnsweredRestore(happened[j], k)
    ensures k.digest.Sha256?
    ensures if forall b :: b in Layers(refs, k) ==> Left(b, states, happened, i, j)
              then RepoAt(states[j + 1].stores.repos, k.repo).Resolve(k.reference) == Some(k.digest)
              else happened[j].e.outcome == Expired && states[j + 1].stores.repos == states[j].stores.repos
  {
    RunStaysWhole(refs, states, happened, i);
    CopiedIsWhole(refs, states[i], happened[i], states[i + 1], k);
    StaysHeld(refs, states, happened, k, i + 1, j);
    forall b | b in Layers(refs, k)
      ensures b in states[j].blobs <==> Left(b, states, happened, i, j)
    {
      StoredIffLeft(refs, states, happened, b, i, j);
    }
    RestoresIffLayers(refs, states[j], happened[j], states[j + 1], k);
  }

  /** What is copied is stored, so all its layers are there. */
  lemma CopiedIsWhole(refs: References, s: Storage, h: Happening, s': Storage, k: BinKey)
    requires BlobStep(refs, s, h, s') && Whole(refs, s) && Sound(s.stores)
    requires h.Requested? && Copies(s.stores, h.e, k)
    ensures k.digest.Sha256? && Layers(refs, k) <= s.blobs && Held(s'.stores, k)
  {
    CopiedIsHeld(s.stores, h.e, s'.stores, k);
    var r := RepoAt(s.stores.repos, k.repo);
    assert k.digest in r.manifests && k.digest == DigestOf(r.manifests[k.digest]);
    assert forall b :: b in Layers(refs, k) ==> Needed(refs, s.stores.repos, b);
  }

  /**
   * A full collection, metadata and then blobs, in which a held row was not due leaves the row pending; it
   * restores afterwards exactly if each of its layers is one that a manifest left by the sweep refers to.
   */
  lemma FullCycle(refs: References, s: Storage, e: Event, t: Storage, u: Storage, answer: Event, v: Storage, k: BinKey)
    requires BlobStep(refs, s, Requested(e), t) && e.Swept? && k !in e.items
    requires BlobStep(refs, t, Requested(BlobsCollected), u)
    requires forall b :: b in u.blobs ==> Needed(refs, t.stores.repos, b)
    requires BlobStep(refs, u, Requested(answer), v) && AnsweredRestore(Requested(answer), k)
    requires Sound(s.stores) && Held(s.stores, k) && k.digest.Sha256? && Layers(refs, k) <= s.blobs
    ensures Held(u.stores, k)
    ensures answer.outcome != Expired <==> forall b :: b in Layers(refs, k) ==> Needed(refs, t.stores.repos, b)
  {
    HeldStays(s.stores, e, t.stores, k);
    RestoresIffLayers(refs, u, Requested(answer), v, k);
  }

  function Expiry(k: BinKey): seq<Happening> {
    [Requested(Swept([], {}, NO_FAILURES, true)), Requested(BlobsCollected), Requested(RestoreTried(k, Expired))]
  }

  /** It could be restored at first, and has expired in the end. */
  ghost predicate LosesRow(refs: References, states: seq<Storage>, k: BinKey) {
    && |states| == 4 && Held(states[0].stores, k) && Layers(refs, k) <= states[0].blobs
    && k in states[3].stores.bin && states[3].stores.bin[k].status == GCExpired
  }

  /** A row that is not due, of an image nothing else refers to: after one full collection it has expired. */
  lemma NotDueCanExpire(refs: References, k: BinKey, m: Manifest)
    requires m.body != "" && k.digest == DigestOf(m) && Layers(refs, k) != {}
    ensures exists states: seq<Storage> :: IsBlobRun(refs, states, Expiry(k)) && LosesRow(refs, states, k)
  {
    var bin: Bin := map[k := BinRow(PendingGC, m, 0)];
    var stores := State(map[], bin, map[]);
    var s, t := Storage(stores, Layers(refs, k)), Storage(stores, {});
    var v := t.(stores := stores.(bin := SetStatus(bin, k, GCExpired)));
    SweepNothing(stores.repos);
    assert BlobStep(refs, s, Requested(Swept([], {}, NO_FAILURES, true)), s);
    assert BlobStep(refs, t, Requested(RestoreTried(k, Expired)), v);
    assert IsBlobRun(refs, [s, s, t, v], Expiry(k)) && LosesRow(refs, [s, s, t, v], k);
  }
}
