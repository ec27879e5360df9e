/** The metadata half of garbage collection: deleting the manifests behind recycle-bin rows. */
module Sweep {
  import opened Prelude
  import opened Registry
  import opened Store
  import opened Snapshots

  const GC_MAX_ATTEMPTS: nat := 5

  // ---- What a sweep does ----

  /** A manifest of one repository. */
  datatype Spot = Spot(repo: Name, digest: Digest)

  ghost function Live(r: Repo): set<Digest> {
    set t | t in r.tags :: r.tags[t]
  }

  ghost function DigestsAt(spots: set<Spot>, name: Name): set<Digest> {
    set p | p in spots && p.repo == name :: p.digest
  }

  ghost function RemoveAll(r: Repo, digests: set<Digest>): Repo {
    Repo(map t | t in r.tags && r.tags[t] !in digests :: r.tags[t], r.manifests - digests)
  }

  /** The registry once every manifest in `swept` is gone. */
  ghost function SweptRepos(repos: Catalog, swept: set<Spot>): Catalog {
    map n | n in repos :: RemoveAll(repos[n], DigestsAt(swept, n))
  }

  /**
   * The deletes that could not be done: the rows whose manifest the registry refused to delete, or
   * whose repository it refused to list; of these, the rows whose attempt was counted; and of these,
   * the rows for which the second statement, which parks at the limit, took effect too.
   */
  datatype Failures = Failures(doomed: set<BinKey>, counted: set<BinKey>, marked: set<BinKey>)

  const NO_FAILURES := Failures({}, {}, {})

  function Join(a: Failures, b: Failures): Failures {
    Failures(a.doomed + b.doomed, a.counted + b.counted, a.marked + b.marked)
  }

  function RowAfter(row: BinRow, counted: bool, marked: bool): BinRow {
    var tried := if counted then row.(attempts := row.attempts + 1) else row;
    if marked && tried.status == PendingGC && tried.attempts >= GC_MAX_ATTEMPTS then tried.(status := GCFailed)
        else tried
  }

  /** Rows of `items` may be gone; a row whose delete failed is still there, aged by what was recorded. */
  ghost predicate BinAged(before: Bin, after: Bin, items: set<BinKey>, f: Failures) {
    && after.Keys <= before.Keys && before.Keys - items <= after.Keys
    && f.marked <= f.counted <= f.doomed <= items && f.doomed <= after.Keys
    && (forall k :: k in f.doomed ==> k.digest != Empty)
    && (forall k :: k in after ==> after[k] == RowAfter(before[k], k in f.counted, k in f.marked))
  }

  /** A swept manifest that was live is one the sweep failed to see. */
  ghost predicate OnlyMissed(repos: Catalog, swept: set<Spot>, missed: set<Spot>) {
    forall p :: p in swept && p.digest in Live(RepoAt(repos, p.repo)) ==> p in missed
  }

  /** The rows the sweep counts as deleted: those that are gone, and every row without a digest. */
  ghost function CountedItems(items: seq<BinKey>, after: Bin): set<BinKey> {
    set k | k in items && (k !in after || k.digest == Empty)
  }

  lemma RemoveNone(r: Repo)
    ensures RemoveAll(r, {}) == r
  {}

  lemma SweepNothing(repos: Catalog)
    ensures SweptRepos(repos, {}) == repos
  {
    forall n | n in repos
      ensures SweptRepos(repos, {})[n] == repos[n]
    {
      assert DigestsAt({}, n) == {};
      RemoveNone(repos[n]);
    }
  }

  lemma RemoveOneMore(r: Repo, digests: set<Digest>, d: Digest)
    requires r.Valid()
    ensures RemoveAll(r, digests + {d}) == RemoveAll(r, digests).Remove(d)
    ensures d !in RemoveAll(r, digests).manifests ==> RemoveAll(r, digests + {d}) == RemoveAll(r, digests)
  {
    var a, b := RemoveAll(r, digests), RemoveAll(r, digests + {d});
    assert b.tags == a.Remove(d).tags && b.manifests == a.Remove(d).manifests;
    if d !in a.manifests {
      assert b.tags == a.tags && b.manifests == a.manifests;
    }
  }

  lemma OneMoreDigest(swept: set<Spot>, p: Spot, name: Name)
    ensures DigestsAt(swept + {p}, name) == DigestsAt(swept, name) + (if name == p.repo then {p.digest} else {})
  {}

  /** One repository once one more of its manifests is swept. */
  lemma SweepOneMoreAt(repos: Catalog, swept: set<Spot>, p: Spot, n: Name)
    requires ValidCatalog(repos) && n in repos
    ensures var a, b := SweptRepos(repos, swept)[n], SweptRepos(repos, swept + {p})[n];
            if n != p.repo then b == a else b == a.Remove(p.digest) && (p.digest !in a.manifests ==> b == a)
  {
    OneMoreDigest(swept, p, n);
    if n == p.repo {
      RemoveOneMore(repos[n], DigestsAt(swept, n), p.digest);
    }
  }

  /** Deleting one more manifest, or finding it gone already, adds it to the swept ones. */
  lemma SweepOneMore(repos: Catalog, swept: set<Spot>, p: Spot)
    requires ValidCatalog(repos)
    ensures p.repo in repos ==>
              SweptRepos(repos, swept + {p}) ==
                  SweptRepos(repos, swept)[p.repo := RepoAt(SweptRepos(repos, swept), p.repo).Remove(p.digest)]
    ensures p.digest !in RepoAt(SweptRepos(repos, swept), p.repo).manifests ==>
              SweptRepos(repos, swept + {p}) == SweptRepos(repos, swept)
  {
    forall n | n in repos
      ensures var a, b := SweptRepos(repos, swept)[n], SweptRepos(repos, swept + {p})[n];
              if n != p.repo then b == a else b == a.Remove(p.digest) && (p.digest !in a.manifests ==> b == a)
    {
      SweepOneMoreAt(repos, swept, p, n);
    }
  }

  // ---- Under a fixed outage ----

  /** The digests that tags of the repository are seen to point at. */
  ghost function SeenLive(name: Name, r: Repo, down: set<Call>): set<Digest> {
    set t | t in r.tags && LookUp(name, Named(t)) !in down :: r.tags[t]
  }

  /**
   * The manifest behind a row is deleted: its repository can be listed, nothing is seen to need it, and the
   * delete goes through.
   */
  ghost predicate Sweeps(repos: Catalog, down: set<Call>, k: BinKey) {
    && k.digest != Empty && ListTags(k.repo) !in down && Delete(k.repo, k.digest) !in down
    && k.digest !in SeenLive(k.repo, RepoAt(repos, k.repo), down)
  }

  /** The manifests a sweep of `items` deletes, or finds deleted. */
  ghost function SweptUnder(repos: Catalog, down: set<Call>, items: seq<BinKey>): set<Spot> {
    set k | k in items && Sweeps(repos, down, k) :: Spot(k.repo, k.digest)
  }

  /**
   * The delete behind a row fails for a reason that counts: the registry refuses to list its repository, or
   * to delete.
   */
  ghost predicate Dooms(repos: Catalog, outage: Outage, k: BinKey)
    requires outage.Fixed?
  {
    && k.digest != Empty
    && if ListTags(k.repo) in outage.down then outage.cause(ListTags(k.repo)) != Transport
       else
         && k.digest !in SeenLive(k.repo, RepoAt(repos, k.repo), outage.down)
         && Delete(k.repo, k.digest) in outage.down && outage.cause(Delete(k.repo, k.digest)) != Transport
  }

  /** With known broken statements, the failures that are counted and acted on. */
  ghost predicate RecordedFit(breakdown: Breakdown, f: Failures) {
    breakdown.Only? ==>
      && f.counted == (set k | k in f.doomed && CountAttempt(k) !in breakdown.broken)
      && f.marked == (set k | k in f.counted && ParkItem(k) !in breakdown.broken)
  }

  /** A sweep cannot finish the row: its repository cannot be listed, or its manifest not be deleted. */
  ghost predicate Stuck(repos: Catalog, down: set<Call>, k: BinKey) {
    && k.digest != Empty
    && (ListTags(k.repo) in down ||
        (k.digest !in SeenLive(k.repo, RepoAt(repos, k.repo), down) && Delete(k.repo, k.digest) in down))
  }

  /**
   * Which of the rows in `done` are left: under a fixed outage, those the sweep cannot finish are; with known broken
   * statements too, besides these exactly those that cannot be removed.
   */
  ghost predicate LeftoversFit(outage: Outage, breakdown: Breakdown, repos: Catalog, after: Bin, done: set<BinKey>) {
    && (breakdown.Only? ==>
          forall k :: k in done && k.digest == Empty ==> (k in after <==> DropItem(k) in breakdown.broken))
    && (outage.Fixed? ==> forall k :: k in done && Stuck(repos, outage.down, k) ==> k in after)
    && (outage.Fixed? && breakdown.Only? ==>
          forall k :: k in done ==> (k in after <==> Stuck(repos, outage.down, k) || DropItem(k) in breakdown.broken))
  }

  /** A row that is gone had no digest, or its manifest has been deleted, or a tag pointed at it. */
  ghost predicate GoneFit(repos: Catalog, after: Bin, done: set<BinKey>, swept: set<Spot>) {
    forall k :: k in done && k !in after ==>
      k.digest == Empty || Spot(k.repo, k.digest) in swept || k.digest in Live(RepoAt(repos, k.repo))
  }

  /** Under a fixed outage, the deletes that fail; if all lookups were answered, none of a live digest does. */
  ghost predicate DoomedFit(outage: Outage, repos: Catalog, answered: bool, done: set<BinKey>, f: Failures) {
    && (outage.Fixed? ==> f.doomed == set k | k in done && Dooms(repos, outage, k))
    && (answered ==> forall k :: k in f.doomed ==> k.digest !in Live(RepoAt(repos, k.repo)))
  }

  /** All that can be said of the rows in `done` from what fails. */
  ghost predicate FailuresFit(outage: Outage, breakdown: Breakdown, repos: Catalog, answered: bool, after: Bin,
                              done: set<BinKey>, f: Failures) {
    && DoomedFit(outage, repos, answered, done, f) && RecordedFit(breakdown, f)
    && LeftoversFit(outage, breakdown, repos, after, done)
  }

  // ---- The calls ----

  type LiveCache = map<Name, set<Digest>>

  /** A cached set holds live digests only, and misses none that its lookups saw. */
  ghost predicate CacheFits(repos: Catalog, cache: LiveCache, swept: set<Spot>, missed: set<Spot>) {
    && (forall n :: n in cache ==>
          && cache[n] <= Live(RepoAt(repos, n))
          && forall d :: d in Live(RepoAt(repos, n)) ==> d in cache[n] || Spot(n, d) in missed)
    && (forall p :: p in swept ==> p.repo in cache)
  }

  /** Under a fixed outage, exactly the listable repositories can be cached, each with what it is seen to hold. */
  ghost predicate CacheForeseen(outage: Outage, repos: Catalog, cache: LiveCache) {
    outage.Fixed? ==>
      forall n :: n in cache ==> ListTags(n) !in outage.down && cache[n] == SeenLive(n, RepoAt(repos, n), outage.down)
  }

  /** What the sweep keeps true of the registry it started from, the registry now, and its cache. */
  ghost predicate Fits(outage: Outage, before: Catalog, after: Catalog, cache: LiveCache, swept: set<Spot>,
                       missed: set<Spot>) {
    && after == SweptRepos(before, swept)
    && CacheFits(before, cache, swept, missed) && OnlyMissed(before, swept, missed)
    && CacheForeseen(outage, before, cache)
  }

  /** The digests some tag of the repository points at, as far as the registry answers. */
  method LiveDigestsForRepo(client: Upstream, name: Name) returns (live: Result<set<Digest>, Error>)
    modifies client`lookupFaults
    ensures live == Failure(NotFound) ==> name !in client.repos
    ensures live.Success? ==> name in client.repos && live.value <= Live(client.At(name))
    ensures client.lookupFaults >= old(client.lookupFaults)
    ensures client.lookupFaults == old(client.lookupFaults) ==>
              live == if name in client.repos then Success(Live(client.At(name))) else Failure(NotFound)
    ensures client.outage.Fixed? ==>
              && (live.Success? || live == Failure(NotFound) <==> ListTags(name) !in client.outage.down)
              && (ListTags(name) in client.outage.down ==> live == Failure(client.outage.cause(ListTags(name))))
              && (live.Success? ==> live.value == SeenLive(name, client.At(name), client.outage.down))
  {
    var listing := client.Tags(name);
    if listing.Failure? {
      return Failure(listing.error);
    }
    var tags := listing.value;
    var seen: set<Digest> := {};
    for i := 0 to |tags|
      invariant seen <= Live(client.At(name))
      invariant client.lookupFaults >= old(client.lookupFaults)
      invariant client.lookupFaults == old(client.lookupFaults) ==>
                  forall t :: t in tags[..i] ==> t in client.At(name).tags && client.At(name).tags[t] in seen
      invariant client.outage.Fixed? ==> seen == SeenOf(name, client.At(name), client.outage.down, tags[..i])
    {
      assert tags[i] in Elements(tags);
      assert tags[..i + 1] == tags[..i] + [tags[i]];
      var d := client.Digest(name, Named(tags[i]));
      if d.Some? {
        seen := seen + {d.value};
      }
    }
    assert tags[..|tags|] == tags;
    assert forall t :: t in client.At(name).tags <==> t in Elements(tags);
    assert client.lookupFaults == old(client.lookupFaults) ==> seen == Live(client.At(name));
    live := Success(seen);
  }

  ghost function SeenOf(name: Name, r: Repo, down: set<Call>, tags: seq<Tag>): set<Digest> {
    set t | t in tags && t in r.tags && LookUp(name, Named(t)) !in down :: r.tags[t]
  }

  /** Counts an attempt, unless the registry could not be reached at all. */
  method RecordGCFailure(db: Database, k: BinKey, cause: Error) returns (ghost f: Failures)
    requires k in db.bin && k.digest != Empty
    modifies db`bin, db`faults
    ensures db.bin.Keys == old(db.bin).Keys && BinAged(old(db.bin), db.bin, {k}, f)
    ensures f.doomed == if cause == Transport then {} else {k}
    ensures cause != Transport && db.faults == old(db.faults) ==> f.marked == {k}
    ensures RecordedFit(db.breakdown, f)
    ensures db.faults >= old(db.faults)
  {
    f := NO_FAILURES;
    if cause != Transport {
      var parked;
      ghost var counted, marked;
      parked, counted, marked := db.MarkRecycleGCFailure(k, GC_MAX_ATTEMPTS);
      f := Failures({k}, if counted then {k} else {}, if marked then {k} else {});
    }
  }

  /** The live digests of an item's repository, from the cache or looked up and cached now. */
  method CachedLive(client: Upstream, name: Name, cache: LiveCache, ghost repos: Catalog, ghost swept: set<Spot>,
                    ghost missed: set<Spot>)
    returns (live: Result<set<Digest>, Error>, cache': LiveCache, ghost missed': set<Spot>)
    requires Fits(client.outage, repos, client.repos, cache, swept, missed)
    modifies client`lookupFaults
    ensures Fits(client.outage, repos, client.repos, cache', swept, missed') && missed <= missed'
    ensures live != Failure(NotFound)
    ensures live.Success? ==> name in cache' && cache'[name] == live.value
    ensures client.outage.Fixed? ==> (live.Success? <==> ListTags(name) !in client.outage.down)
    ensures client.outage.Fixed? && live.Failure? ==> live == Failure(client.outage.cause(ListTags(name)))
    ensures client.lookupFaults >= old(client.lookupFaults)
    ensures client.lookupFaults == old(client.lookupFaults) ==> live.Success? && missed' == missed
  {
    cache', missed' := cache, missed;
    if name in cache {
      return Success(cache[name]), cache, missed;
    }
    NotYetSwept(repos, cache, swept, missed, name);
    live := LiveDigestsForRepo(client, name);
    if live == Failure(NotFound) {
      live := Success({});
    }
    if live.Success? {
      cache' := cache[name := live.value];
      missed' := missed + set d | d in Live(RepoAt(repos, name)) && d !in live.value :: Spot(name, d);
      assert client.lookupFaults == old(client.lookupFaults) ==> missed' == missed;
    }
  }

  lemma NotYetSwept(repos: Catalog, cache: LiveCache, swept: set<Spot>, missed: set<Spot>, name: Name)
    requires CacheFits(repos, cache, swept, missed) && name !in cache
    ensures RepoAt(SweptRepos(repos, swept), name) == RepoAt(repos, name)
    ensures name in SweptRepos(repos, swept) <==> name in repos
  {}

  /** What one more item does to the set of swept manifests under a fixed outage. */
  ghost predicate SweptForeseen(outage: Outage, repos: Catalog, k: BinKey, swept: set<Spot>, swept': set<Spot>) {
    outage.Fixed? ==> swept' == if Sweeps(repos, outage.down, k) then swept + {Spot(k.repo, k.digest)} else swept
  }

  /** Deletes the manifest behind one row, unless a live tag still points at it, and drops the row. */
  method SweepItem(client: Upstream, db: Database, k: BinKey, cache: LiveCache, ghost repos: Catalog,
                   ghost swept: set<Spot>, ghost missed: set<Spot>)
    returns (counted: bool, cache': LiveCache, ghost swept': set<Spot>, ghost missed': set<Spot>, ghost f: Failures)
    requires client.Valid() && ValidCatalog(repos) && k in db.bin
    requires Fits(client.outage, repos, client.repos, cache, swept, missed)
    modifies client, db`bin, db`faults
    ensures client.Valid()
    ensures Fits(client.outage, repos, client.repos, cache', swept', missed') && missed <= missed'
    ensures SweptForeseen(client.outage, repos, k, swept, swept')
    ensures swept <= swept' <= swept + SpotsOf([k])
    ensures BinAged(old(db.bin), db.bin, {k}, f)
    ensures counted <==> k !in db.bin || k.digest == Empty
    ensures GoneFit(repos, db.bin, {k}, swept')
    ensures FailuresFit(client.outage, db.breakdown, repos,
                        client.lookupFaults == old(client.lookupFaults) && missed == {}, db.bin, {k}, f)
    ensures Faults(client, db) >= old(Faults(client, db)) && client.lookupFaults >= old(client.lookupFaults)
    ensures client.lookupFaults == old(client.lookupFaults) ==> missed' == missed
    ensures Faults(client, db) == old(Faults(client, db)) ==>
              counted && db.bin == old(db.bin) - {k} && missed' == missed
    ensures Faults(client, db) == old(Faults(client, db)) && missed == {} && k.digest != Empty ==>
              (Spot(k.repo, k.digest) in swept' <==>
               Spot(k.repo, k.digest) in swept || k.digest !in Live(RepoAt(repos, k.repo)))
  {
    if k.digest == Empty {
      swept', cache', missed', f := swept, cache, missed, NO_FAILURES;
      var _ := db.DeleteRecycleItem(k);
      counted := true;
    } else {
      counted, cache', swept', missed', f := SweepDigest(client, db, k, cache, repos, swept, missed);
    }
  }

  /** The same for a row with a digest. */
  method SweepDigest(client: Upstream, db: Database, k: BinKey, cache: LiveCache, ghost repos: Catalog,
                     ghost swept: set<Spot>, ghost missed: set<Spot>)
    returns (counted: bool, cache': LiveCache, ghost swept': set<Spot>, ghost missed': set<Spot>, ghost f: Failures)
    requires client.Valid() && ValidCatalog(repos) && k in db.bin && k.digest != Empty
    requires Fits(client.outage, repos, client.repos, cache, swept, missed)
    modifies client, db`bin, db`faults
    ensures client.Valid()
    ensures Fits(client.outage, repos, client.repos, cache', swept', missed') && missed <= missed'
    ensures SweptForeseen(client.outage, repos, k, swept, swept')
    ensures swept <= swept' <= swept + SpotsOf([k])
    ensures BinAged(old(db.bin), db.bin, {k}, f)
    ensures counted <==> k !in db.bin
    ensures GoneFit(repos, db.bin, {k}, swept')
    ensures FailuresFit(client.outage, db.breakdown, repos,
                        client.lookupFaults == old(client.lookupFaults) && missed == {}, db.bin, {k}, f)
    ensures Faults(client, db) >= old(Faults(client, db)) && client.lookupFaults >= old(client.lookupFaults)
    ensures client.lookupFaults == old(client.lookupFaults) ==> missed' == missed
    ensures Faults(client, db) == old(Faults(client, db)) ==>
              counted && db.bin == old(db.bin) - {k} && missed' == missed
    ensures Faults(client, db) == old(Faults(client, db)) && missed == {} ==>
              (Spot(k.repo, k.digest) in swept' <==>
               Spot(k.repo, k.digest) in swept || k.digest !in Live(RepoAt(repos, k.repo)))
  {
    swept', counted, f := swept, false, NO_FAILURES;
    var live;
    live, cache', missed' := CachedLive(client, k.repo, cache, repos, swept, missed);
    if live.Failure? {
      f := RecordGCFailure(db, k, live.error);
      return;
    }
    if k.digest in live.value {
      counted := db.DeleteRecycleItem(k);
    } else {
      counted, swept', f := DeleteUnreferenced(client, db, k, cache', repos, swept, missed');
    }
  }

  /** Deletes a manifest no visible tag points at, then its row; a manifest already gone is fine. */
  method DeleteUnreferenced(client: Upstream, db: Database, k: BinKey, cache: LiveCache, ghost repos: Catalog,
                            ghost swept: set<Spot>, ghost missed: set<Spot>)
    returns (counted: bool, ghost swept': set<Spot>, ghost f: Failures)
    requires client.Valid() && ValidCatalog(repos) && k in db.bin
    requires Fits(client.outage, repos, client.repos, cache, swept, missed)
    requires k.repo in cache && k.digest !in cache[k.repo] && k.digest != Empty
    modifies client`repos, client`callFaults, db`bin, db`faults
    ensures client.Valid()
    ensures Fits(client.outage, repos, client.repos, cache, swept', missed)
    ensures swept' == swept || swept' == swept + {Spot(k.repo, k.digest)}
    ensures client.outage.Fixed? ==>
              swept' == if Delete(k.repo, k.digest) in client.outage.down then swept
                  else swept + {Spot(k.repo, k.digest)}
    ensures BinAged(old(db.bin), db.bin, {k}, f)
    ensures counted <==> k !in db.bin
    ensures k !in db.bin ==> Spot(k.repo, k.digest) in swept'
    ensures FailuresFit(client.outage, db.breakdown, repos, missed == {}, db.bin, {k}, f)
    ensures Faults(client, db) >= old(Faults(client, db))
    ensures Faults(client, db) == old(Faults(client, db)) ==>
              counted && db.bin == old(db.bin) - {k} && swept' == swept + {Spot(k.repo, k.digest)}
  {
    swept', counted, f := swept, false, NO_FAILURES;
    SweepOneMore(repos, swept, Spot(k.repo, k.digest));
    var err := client.DeleteManifest(k.repo, k.digest);
    if err.Some? && err != Some(NotFound) {
      f := RecordGCFailure(db, k, err.value);
      return;
    }
    swept' := swept + {Spot(k.repo, k.digest)};
    counted := db.DeleteRecycleItem(k);
  }

  ghost function SpotsOf(items: seq<BinKey>): set<Spot> {
    set k | k in items && k.digest != Empty :: Spot(k.repo, k.digest)
  }

  /** The manifests a sweep removes when nothing fails: those behind its items that no tag points at. */
  ghost function Unreferenced(repos: Catalog, items: seq<BinKey>): set<Spot> {
    set p | p in SpotsOf(items) && p.digest !in Live(RepoAt(repos, p.repo))
  }

  /** Everything the sweep has established about the bin after its first items. */
  ghost predicate SweptBin(before: Bin, after: Bin, done: seq<BinKey>, deleted: nat, f: Failures) {
    BinAged(before, after, Elements(done), f) && deleted == |CountedItems(done, after)|
  }

  lemma BinAgedCompose(before: Bin, middle: Bin, after: Bin, done: set<BinKey>, k: BinKey, f: Failures, g: Failures)
    requires BinAged(before, middle, done, f) && BinAged(middle, after, {k}, g) && k !in done
    ensures BinAged(before, after, done + {k}, Join(f, g))
  {
    forall j | j in after
      ensures after[j] == RowAfter(before[j], j in Join(f, g).counted, j in Join(f, g).marked)
    {
      assert j == k ==> middle[k] == before[k];
      assert j != k ==> after[j] == middle[j];
    }
  }

  lemma CountGrows(middle: Bin, after: Bin, done: seq<BinKey>, k: BinKey, f: Failures, counted: bool)
    requires BinAged(middle, after, {k}, f) && k !in done && (counted <==> k !in after || k.digest == Empty)
    ensures |CountedItems(done + [k], after)| == |CountedItems(done, middle)| + (if counted then 1 else 0)
  {
    assert forall j :: j in done + [k] <==> j in done || j == k;
    assert forall j :: j in done ==> (j in after <==> j in middle);
    assert CountedItems(done + [k], after) == CountedItems(done, middle) + (if counted then {k} else {});
    assert k !in CountedItems(done, middle);
  }

  /** What holds of the registry after the items in `done`. */
  ghost predicate SweptSoFar(outage: Outage, before: Catalog, after: Catalog, done: seq<BinKey>, cache: LiveCache,
                             swept: set<Spot>, missed: set<Spot>) {
    && Fits(outage, before, after, cache, swept, missed) && swept <= SpotsOf(done)
    && (outage.Fixed? ==> swept == SweptUnder(before, outage.down, done))
  }

  lemma SweptGrows(outage: Outage, repos: Catalog, done: seq<BinKey>, k: BinKey, swept: set<Spot>, swept': set<Spot>)
    requires swept <= SpotsOf(done) && swept' <= swept + SpotsOf([k])
    requires outage.Fixed? ==> swept == SweptUnder(repos, outage.down, done)
    requires SweptForeseen(outage, repos, k, swept, swept')
    ensures swept' <= SpotsOf(done + [k])
    ensures outage.Fixed? ==> swept' == SweptUnder(repos, outage.down, done + [k])
  {
    assert forall j :: j in done + [k] <==> j in done || j == k;
  }

  /** One turn of the sweep's loop. */
  method SweepNext(client: Upstream, db: Database, k: BinKey, cache: LiveCache, deleted: nat, ghost bin: Bin,
                   ghost repos: Catalog, ghost done: seq<BinKey>, ghost swept: set<Spot>, ghost missed: set<Spot>,
                   ghost f: Failures, ghost answered: bool)
    returns (deleted': nat, cache': LiveCache, ghost swept': set<Spot>, ghost missed': set<Spot>, ghost f': Failures)
    requires client.Valid() && ValidCatalog(repos) && k in db.bin && k !in done
    requires SweptSoFar(client.outage, repos, client.repos, done, cache, swept, missed)
    requires SweptBin(bin, db.bin, done, deleted, f) && (answered ==> missed == {})
    requires GoneFit(repos, db.bin, Elements(done), swept)
    requires FailuresFit(client.outage, db.breakdown, repos, answered, db.bin, Elements(done), f)
    modifies client, db`bin, db`faults
    ensures client.Valid()
    ensures SweptSoFar(client.outage, repos, client.repos, done + [k], cache', swept', missed')
    ensures SweptBin(bin, db.bin, done + [k], deleted', f')
    ensures GoneFit(repos, db.bin, Elements(done + [k]), swept') && swept <= swept'
    ensures FailuresFit(client.outage, db.breakdown, repos, answered && client.lookupFaults == old(client.lookupFaults),
                        db.bin, Elements(done + [k]), f')
    ensures forall j :: j in old(db.bin) && j != k ==> j in db.bin
    ensures Faults(client, db) >= old(Faults(client, db)) && client.lookupFaults >= old(client.lookupFaults)
    ensures client.lookupFaults == old(client.lookupFaults) ==> missed' == missed
    ensures Faults(client, db) == old(Faults(client, db)) &&
              CleanSweep(bin, old(db.bin), repos, done, swept, missed) ==>
              CleanSweep(bin, db.bin, repos, done + [k], swept', missed')
  {
    var counted;
    ghost var g;
    counted, cache', swept', missed', g := SweepItem(client, db, k, cache, repos, swept, missed);
    deleted', f' := if counted then deleted + 1 else deleted, Join(f, g);
    SweptGrows(client.outage, repos, done, k, swept, swept');
    assert Elements(done + [k]) == Elements(done) + {k} by { SpotsGrow(repos, done, k); }
    BinAgedCompose(bin, old(db.bin), db.bin, Elements(done), k, f, g);
    CountGrows(old(db.bin), db.bin, done, k, g, counted);
    if Faults(client, db) == old(Faults(client, db)) && CleanSweep(bin, old(db.bin), repos, done, swept, missed) {
      CleanGrows(bin, old(db.bin), repos, done, k, swept, swept');
    }
  }

  lemma CleanGrows(bin: Bin, middle: Bin, repos: Catalog, done: seq<BinKey>, k: BinKey, swept: set<Spot>,
                   swept': set<Spot>)
    requires CleanSweep(bin, middle, repos, done, swept, {}) && swept <= swept' <= swept + SpotsOf([k])
    requires k.digest != Empty ==>
               (Spot(k.repo, k.digest) in swept' <==>
                Spot(k.repo, k.digest) in swept || k.digest !in Live(RepoAt(repos, k.repo)))
    ensures CleanSweep(bin, middle - {k}, repos, done + [k], swept', {})
  {
    SpotsGrow(repos, done, k);
    assert forall p :: p in SpotsOf([k]) ==> p == Spot(k.repo, k.digest) && k.digest != Empty;
    assert bin - Elements(done) - {k} == bin - (Elements(done) + {k});
  }

  /** What holds after the items in `done` if nothing has failed. */
  ghost predicate CleanSweep(before: Bin, after: Bin, repos: Catalog, done: seq<BinKey>, swept: set<Spot>,
                             missed: set<Spot>) {
    && missed == {} && swept == Unreferenced(repos, done)
    && after == before - Elements(done)
  }

  /**
   * Deletes the manifests behind the items and removes their rows; returns how many it counts as done.
   * The ghost results tell which manifests are gone, which live digests a failed lookup hid, and which
   * rows could not be finished.
   */
  method ProcessGCItems(client: Upstream, db: Database, items: seq<BinKey>)
    returns (deleted: nat, ghost liveCache: LiveCache, ghost swept: set<Spot>, ghost missed: set<Spot>,
             ghost f: Failures)
    requires client.Valid() && Distinct(items) && forall k :: k in items ==> k in db.bin
    modifies client, db`bin, db`faults
    ensures client.Valid()
    ensures SweptSoFar(client.outage, old(client.repos), client.repos, items, liveCache, swept, missed)
    ensures SweptBin(old(db.bin), db.bin, items, deleted, f)
    ensures GoneFit(old(client.repos), db.bin, Elements(items), swept)
    ensures FailuresFit(client.outage, db.breakdown, old(client.repos), client.lookupFaults == old(client.lookupFaults),
                        db.bin, Elements(items), f)
    ensures Faults(client, db) >= old(Faults(client, db)) && client.lookupFaults >= old(client.lookupFaults)
    ensures client.lookupFaults == old(client.lookupFaults) ==> missed == {}
    ensures Faults(client, db) == old(Faults(client, db)) ==>
              CleanSweep(old(db.bin), db.bin, old(client.repos), items, swept, missed)
  {
    deleted, swept, missed, f := 0, {}, {}, NO_FAILURES;
    var cache: LiveCache := map[];
    SweepNothing(client.repos);
    for i := 0 to |items|
      invariant client.Valid()
      invariant SweptSoFar(client.outage, old(client.repos), client.repos, items[..i], cache, swept, missed)
      invariant SweptBin(old(db.bin), db.bin, items[..i], deleted, f)
      invariant GoneFit(old(client.repos), db.bin, Elements(items[..i]), swept)
      invariant FailuresFit(client.outage, db.breakdown, old(client.repos),
                            client.lookupFaults == old(client.lookupFaults), db.bin, Elements(items[..i]), f)
      invariant forall j :: i <= j < |items| ==> items[j] in db.bin
      invariant Faults(client, db) >= old(Faults(client, db)) && client.lookupFaults >= old(client.lookupFaults)
      invariant client.lookupFaults == old(client.lookupFaults) ==> missed == {}
      invariant Faults(client, db) == old(Faults(client, db)) ==>
                  CleanSweep(old(db.bin), db.bin, old(client.repos), items[..i], swept, missed)
    {
      assert items[..i + 1] == items[..i] + [items[i]];
      deleted, cache, swept, missed, f :=
        SweepNext(client, db, items[i], cache, deleted, old(db.bin), old(client.repos), items[..i], swept, missed, f,
                  client.lookupFaults == old(client.lookupFaults));
    }
    assert items[..|items|] == items;
    liveCache := cache;
  }

  lemma SpotsGrow(repos: Catalog, done: seq<BinKey>, k: BinKey)
    ensures SpotsOf(done + [k]) == SpotsOf(done) + (if k.digest == Empty then {} else {Spot(k.repo, k.digest)})
    ensures Unreferenced(repos, done + [k]) == Unreferenced(repos, done) +
              (if k.digest == Empty || k.digest in Live(RepoAt(repos, k.repo)) then {} else {Spot(k.repo, k.digest)})
    ensures Elements(done + [k]) == Elements(done) + {k}
  {}
}
