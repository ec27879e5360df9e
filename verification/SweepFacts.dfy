/** When garbage collection leaves tags alone, and what the number it returns means. */
module SweepFacts {
  import opened Prelude
  import opened Registry
  import opened Store
  import opened Sweep

  // ---- Safety ----

  ghost predicate TagsKept(before: Catalog, after: Catalog) {
    forall n :: n in before ==> n in after && after[n].tags == before[n].tags
  }

  /** No tag is lost by sweeping manifests that no tag points at. */
  lemma UnreferencedKeepTags(repos: Catalog, swept: set<Spot>)
    requires forall p :: p in swept ==> p.digest !in Live(RepoAt(repos, p.repo))
    ensures TagsKept(repos, SweptRepos(repos, swept))
  {
    forall n, t | n in repos && t in repos[n].tags
      ensures repos[n].tags[t] !in DigestsAt(swept, n)
    {
      assert repos[n].tags[t] in Live(RepoAt(repos, n));
    }
  }

  /**
   * A sweep whose listings and lookups were all answered, whatever else failed: every tag map is as it
   * was, only manifests behind the items are gone, none of them tagged, and the live cache, which is
   * never refreshed, is still the true live set.
   */
  lemma SafeWhenLookupsAnswer(outage: Outage, before: Catalog, after: Catalog, items: seq<BinKey>, cache: LiveCache,
                              swept: set<Spot>)
    requires ValidCatalog(before) && SweptSoFar(outage, before, after, items, cache, swept, {})
    ensures TagsKept(before, after) && after.Keys == before.Keys
    ensures forall n, d :: n in before && d in before[n].manifests && d !in after[n].manifests ==>
              d !in Live(before[n]) && exists k :: k in items && k.repo == n && k.digest == d
    ensures forall n :: n in cache ==> cache[n] == Live(RepoAt(after, n))
  {
    UnreferencedKeepTags(before, swept);
    forall n, d | n in before && d in before[n].manifests && d !in after[n].manifests
      ensures d !in Live(before[n]) && exists k :: k in items && k.repo == n && k.digest == d
    {
      assert Spot(n, d) in swept;
    }
    forall n | n in cache
      ensures cache[n] == Live(RepoAt(after, n))
    {
      assert n in before ==> Live(before[n]) == Live(after[n]);
    }
  }

  /** Whatever fails, no tag is lost if the digest of no row is one that a tag points at. */
  lemma SafeWithoutLiveRows(outage: Outage, before: Catalog, after: Catalog, items: seq<BinKey>, cache: LiveCache,
                            swept: set<Spot>, missed: set<Spot>)
    requires SweptSoFar(outage, before, after, items, cache, swept, missed)
    requires forall k :: k in items && k.digest != Empty ==> k.digest !in Live(RepoAt(before, k.repo))
    ensures TagsKept(before, after)
  {
    UnreferencedKeepTags(before, swept);
  }

  /** A manifest that a tag points at is behind a row that is due. */
  ghost predicate LiveRow(repos: Catalog, k: BinKey) {
    k.digest != Empty && k.digest in Live(RepoAt(repos, k.repo))
  }

  /**
   * The condition that can be known beforehand: the tags survive every outage exactly if no row that
   * is due is about a digest some tag points at.
   */
  lemma SafeUnderEveryOutageIff(repos: Catalog, items: seq<BinKey>)
    ensures (forall down :: TagsKept(repos, SweptRepos(repos, SweptUnder(repos, down, items))))
       <==> (forall k :: k in items ==> !LiveRow(repos, k))
  {
    if k :| k in items && LiveRow(repos, k) {
      LiveRowCanCost(repos, items, k);
    } else {
      forall down
        ensures TagsKept(repos, SweptRepos(repos, SweptUnder(repos, down, items)))
      {
        UnreferencedKeepTags(repos, SweptUnder(repos, down, items));
      }
    }
  }

  /** If the lookups of its tags fail, the digest of such a row reads as dead. */
  lemma LiveRowCanCost(repos: Catalog, items: seq<BinKey>, k: BinKey)
    requires k in items && LiveRow(repos, k)
    ensures exists down :: !TagsKept(repos, SweptRepos(repos, SweptUnder(repos, down, items)))
  {
    var r := RepoAt(repos, k.repo);
    var down := set t | t in r.tags :: LookUp(k.repo, Named(t));
    assert Sweeps(repos, down, k) && Spot(k.repo, k.digest) in SweptUnder(repos, down, items);
    var t :| t in r.tags && r.tags[t] == k.digest;
    assert t !in SweptRepos(repos, SweptUnder(repos, down, items))[k.repo].tags;
    assert !TagsKept(repos, SweptRepos(repos, SweptUnder(repos, down, items)));
  }

  /** A run of it: one lookup fails, and the sweep deletes a tagged manifest, tag and all. */
  method FailedLookupCostsTag() returns (client: Upstream, db: Database)
    ensures "t" !in client.At("r").tags
  {
    var m := Manifest("c", "b");
    var d := DigestOf(m);
    var k := BinKey("r", Named("t"), d);
    client := new Upstream(map["r" := Repo(map["t" := d], map[d := m])],
                           Fixed({LookUp("r", Named("t"))}, call => Transport));
    db := new Database(map[k := BinRow(PendingGC, m, 0)], map[], Anytime);
    ghost var before := client.repos;
    assert client.At("r").tags["t"] == d;
    var deleted;
    ghost var cache, swept, missed, f;
    deleted, cache, swept, missed, f := ProcessGCItems(client, db, [k]);
    assert Sweeps(before, client.outage.down, k) && Spot("r", d) in SweptUnder(before, client.outage.down, [k]);
    assert d in DigestsAt(swept, "r");
  }

  // ---- The count ----

  /**
   * The count a sweep returns is the number of rows it removed exactly when no item without a digest
   * is still in the bin: those are counted even if dropping their row failed.
   */
  lemma CountIsRemovedIff(before: Bin, after: Bin, items: seq<BinKey>, deleted: nat, f: Failures)
    requires SweptBin(before, after, items, deleted, f) && forall k :: k in items ==> k in before
    ensures deleted >= |before.Keys - after.Keys|
    ensures deleted == |before.Keys - after.Keys| <==> forall k :: k in items && k.digest == Empty ==> k !in after
  {
    var removed, counted := before.Keys - after.Keys, CountedItems(items, after);
    forall k | k in removed
      ensures k in counted
    {
      assert k in Elements(items);
    }
    SubsetSize(removed, counted);
    forall k | k in counted - removed
      ensures k in items && k.digest == Empty && k in after
    {}
  }

  /** What can be known beforehand: the count is right whatever fails exactly if every item has a digest. */
  lemma CountAlwaysRightIff(before: Bin, items: seq<BinKey>)
    requires forall k :: k in items ==> k in before
    ensures (forall after, deleted, f :: SweptBin(before, after, items, deleted, f) ==>
               deleted == |before.Keys - after.Keys|)
       <==> (forall k :: k in items ==> k.digest != Empty)
  {
    if k :| k in items && k.digest == Empty {
      var deleted := |CountedItems(items, before)|;
      assert SweptBin(before, before, items, deleted, NO_FAILURES);
      CountIsRemovedIff(before, before, items, deleted, NO_FAILURES);
    } else {
      forall after, deleted, f | SweptBin(before, after, items, deleted, f)
        ensures deleted == |before.Keys - after.Keys|
      {
        CountIsRemovedIff(before, after, items, deleted, f);
      }
    }
  }

  /** A run of it: the row has no digest, dropping it fails, and the sweep reports it as deleted all the same. */
  method Overcount() returns (db: Database, deleted: nat)
    ensures deleted == 1 && BinKey("r", Named("t"), Empty) in db.bin
  {
    var k := BinKey("r", Named("t"), Empty);
    var client := new Upstream(map[], Unforeseen);
    db := new Database(map[k := BinRow(PendingGC, Manifest("c", "b"), 0)], map[], Only({DropItem(k)}));
    ghost var cache, swept, missed, f;
    deleted, cache, swept, missed, f := ProcessGCItems(client, db, [k]);
    assert k in Elements([k]);
    assert CountedItems([k], db.bin) == {k};
  }
}
