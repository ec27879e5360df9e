/** Copies of manifests in the recycle bin, taken before a digest is deleted. */
module Snapshots {
  import opened Prelude
  import opened Registry
  import opened Store
  import opened DeleteSpec
  import opened Table

  /** The calls that have failed so far; a call that leaves this number alone met no failure. */
  ghost function Faults(client: Upstream, db: Database): nat
    reads client`lookupFaults, client`callFaults, db`faults
  {
    client.lookupFaults + client.callFaults + db.faults
  }

  /** Of the tags in `done`, those in `snapped` are on the digest and were copied. */
  ghost predicate Taken(before: Bin, after: Bin, name: Name, r: Repo, digest: Digest, done: set<Tag>,
                        snapped: set<Tag>) {
    snapped <= done * r.TagsOf(digest) && after == Snapshotted(before, name, r, snapped)
  }

  /** The repository's row is there once a copy has been tried. */
  function Ensured(images: Images, name: Name, tried: bool): Images {
    if tried then EnsureRepo(images, name) else images
  }

  /** All of them on the digest were copied, as when nothing fails. */
  ghost predicate AllTaken(before: Images, after: Images, name: Name, r: Repo, digest: Digest, done: set<Tag>,
                           snapped: set<Tag>) {
    snapped == done * r.TagsOf(digest) && after == Ensured(before, name, snapped != {})
  }

  /** Under a fixed outage, the tags of the digest whose manifest can be read. */
  ghost function Readable(name: Name, r: Repo, digest: Digest, down: set<Call>): set<Tag> {
    set t | t in r.TagsOf(digest) && LookUp(name, Named(t)) !in down && Fetch(name, Named(t)) !in down
  }

  /** With known broken statements, those of them that can be copied. */
  ghost function Copyable(name: Name, r: Repo, digest: Digest, down: set<Call>, broken: set<Statement>): set<Tag> {
    set t | t in Readable(name, r, digest, down) && UpsertItem(BinKey(name, Named(t), digest)) !in broken
  }

  /** The tags that a call copies, of the digests it takes to lose their last tag. */
  ghost function SnappedUnder(name: Name, r: Repo, full: set<Digest>, down: set<Call>, broken: set<Statement>)
    : set<Tag>
  {
    set t | t in r.tags && r.tags[t] in full && ListTags(name) !in down &&
            t in Copyable(name, r, r.tags[t], down, broken)
  }

  /** Under a fixed outage and with known broken statements, exactly the copyable ones among `done` were copied. */
  ghost predicate TakenUnder(outage: Outage, breakdown: Breakdown, before: Images, after: Images, name: Name, r: Repo,
                             digest: Digest, done: set<Tag>, snapped: set<Tag>) {
    outage.Fixed? && breakdown.Only? ==>
      && snapped == done * Copyable(name, r, digest, outage.down, breakdown.broken)
      && after == Ensured(before, name, done * Readable(name, r, digest, outage.down) != {} &&
                                        ResolveRow(name) !in breakdown.broken)
  }

  /** Copies the manifest to the bin under one tag, if the tag points at `digest`. */
  method CopyTag(client: Upstream, db: Database, name: Name, tag: Tag, digest: Digest) returns (taken: bool)
    requires client.Valid()
    modifies client`lookupFaults, client`callFaults, db`bin, db`images, db`faults
    ensures taken ==> tag in client.At(name).TagsOf(digest) && digest in client.At(name).manifests
    ensures db.bin == if taken
                        then AddItem(old(db.bin), BinKey(name, Named(tag), digest), client.At(name).manifests[digest])
                        else old(db.bin)
    ensures db.images == old(db.images) || db.images == EnsureRepo(old(db.images), name)
    ensures Faults(client, db) >= old(Faults(client, db)) && client.lookupFaults >= old(client.lookupFaults)
    ensures db.faults >= old(db.faults)
    ensures Faults(client, db) == old(Faults(client, db)) ==>
              taken == (tag in client.At(name).TagsOf(digest)) && db.images == Ensured(old(db.images), name, taken)
    ensures client.outage.Fixed? && db.breakdown.Only? ==>
              var down, broken := client.outage.down, db.breakdown.broken;
              && taken == (tag in Copyable(name, client.At(name), digest, down, broken))
              && db.images == Ensured(old(db.images), name, tag in Readable(name, client.At(name), digest, down) &&
                                                            ResolveRow(name) !in broken)
  {
    taken := false;
    var d := client.Digest(name, Named(tag));
    if d == Some(digest) {
      var raw := client.ManifestRaw(name, Named(tag));
      if raw.Success? {
        var _ := db.ResolveRepo(name);
        taken := db.AddRecycleItem(BinKey(name, Named(tag), digest), raw.value);
      }
    }
  }

  /** One copy more, if it is taken. */
  method SnapshotTag(client: Upstream, db: Database, name: Name, tag: Tag, digest: Digest, ghost bin: Bin,
                     ghost images: Images, ghost done: set<Tag>, ghost snapped: set<Tag>)
    returns (taken: bool, ghost snapped': set<Tag>)
    requires client.Valid()
    requires tag !in done && Taken(bin, db.bin, name, client.At(name), digest, done, snapped)
    modifies client`lookupFaults, client`callFaults, db`bin, db`images, db`faults
    ensures snapped' == if taken then snapped + {tag} else snapped
    ensures Taken(bin, db.bin, name, client.At(name), digest, done + {tag}, snapped')
    ensures db.images == old(db.images) || db.images == EnsureRepo(old(db.images), name)
    ensures Faults(client, db) >= old(Faults(client, db)) && client.lookupFaults >= old(client.lookupFaults)
    ensures db.faults >= old(db.faults)
    ensures Faults(client, db) == old(Faults(client, db)) &&
              AllTaken(images, old(db.images), name, client.At(name), digest, done, snapped) ==>
              AllTaken(images, db.images, name, client.At(name), digest, done + {tag}, snapped')
    ensures TakenUnder(client.outage, db.breakdown, images, old(db.images), name, client.At(name), digest, done,
                       snapped) ==>
              TakenUnder(client.outage, db.breakdown, images, db.images, name, client.At(name), digest, done + {tag},
                         snapped')
  {
    taken := CopyTag(client, db, name, tag, digest);
    snapped' := if taken then snapped + {tag} else snapped;
    TakenGrows(bin, old(db.bin), db.bin, name, client.At(name), digest, done, snapped, tag, taken);
    ImagesGrow(client.outage, db.breakdown, images, old(db.images), db.images, name, client.At(name), digest, done,
               snapped, tag, taken);
  }

  lemma TakenGrows(before: Bin, middle: Bin, after: Bin, name: Name, r: Repo, digest: Digest, done: set<Tag>,
                   snapped: set<Tag>, tag: Tag, taken: bool)
    requires r.Valid() && Taken(before, middle, name, r, digest, done, snapped)
    requires taken ==> tag in r.TagsOf(digest) && digest in r.manifests
    requires after == if taken then AddItem(middle, BinKey(name, Named(tag), digest), r.manifests[digest]) else middle
    requires taken ==> tag !in snapped
    ensures Taken(before, after, name, r, digest, done + {tag}, if taken then snapped + {tag} else snapped)
  {
    if taken {
      SnapshotOneMore(before, name, r, snapped, tag);
    }
  }

  lemma ImagesGrow(outage: Outage, breakdown: Breakdown, before: Images, middle: Images, after: Images, name: Name,
                   r: Repo, digest: Digest, done: set<Tag>, snapped: set<Tag>, tag: Tag, taken: bool)
    ensures AllTaken(before, middle, name, r, digest, done, snapped) && taken == (tag in r.TagsOf(digest)) &&
              after == Ensured(middle, name, taken) ==>
              AllTaken(before, after, name, r, digest, done + {tag}, if taken then snapped + {tag} else snapped)
    ensures TakenUnder(outage, breakdown, before, middle, name, r, digest, done, snapped) &&
            (outage.Fixed? && breakdown.Only? ==>
               && taken == (tag in Copyable(name, r, digest, outage.down, breakdown.broken))
               && after == Ensured(middle, name, tag in Readable(name, r, digest, outage.down) &&
                                                 ResolveRow(name) !in breakdown.broken)) ==>
              TakenUnder(outage, breakdown, before, after, name, r, digest, done + {tag},
                         if taken then snapped + {tag} else snapped)
  {
    OneMoreTried(outage, breakdown, name, r, digest, done, tag);
  }

  lemma OneMoreTried(outage: Outage, breakdown: Breakdown, name: Name, r: Repo, digest: Digest, done: set<Tag>,
                     tag: Tag)
    ensures (done + {tag}) * r.TagsOf(digest) == done * r.TagsOf(digest) + ({tag} * r.TagsOf(digest))
    ensures outage.Fixed? ==>
              var can := Readable(name, r, digest, outage.down);
              (done + {tag}) * can == done * can + (if tag in can then {tag} else {})
    ensures outage.Fixed? && breakdown.Only? ==>
              var can := Copyable(name, r, digest, outage.down, breakdown.broken);
              (done + {tag}) * can == done * can + (if tag in can then {tag} else {})
  {}

  lemma AllListed(name: Name, r: Repo, digest: Digest, tags: set<Tag>, outage: Outage, breakdown: Breakdown)
    requires tags == r.tags.Keys
    ensures tags * r.TagsOf(digest) == r.TagsOf(digest)
    ensures outage.Fixed? ==> tags * Readable(name, r, digest, outage.down) == Readable(name, r, digest, outage.down)
    ensures outage.Fixed? && breakdown.Only? ==>
              var can := Copyable(name, r, digest, outage.down, breakdown.broken);
              tags * can == can
  {}

  /** Copies it under each of `tags` in turn. */
  method SnapshotEach(client: Upstream, db: Database, name: Name, digest: Digest, tags: seq<Tag>)
    returns (count: nat, ghost snapped: set<Tag>)
    requires client.Valid() && Distinct(tags)
    modifies client`lookupFaults, client`callFaults, db`bin, db`images, db`faults
    ensures Taken(old(db.bin), db.bin, name, client.At(name), digest, Elements(tags), snapped) && count == |snapped|
    ensures db.images == old(db.images) || db.images == EnsureRepo(old(db.images), name)
    ensures Faults(client, db) >= old(Faults(client, db)) && client.lookupFaults >= old(client.lookupFaults)
    ensures db.faults >= old(db.faults)
    ensures Faults(client, db) == old(Faults(client, db)) ==>
              AllTaken(old(db.images), db.images, name, client.At(name), digest, Elements(tags), snapped)
    ensures TakenUnder(client.outage, db.breakdown, old(db.images), db.images, name, client.At(name), digest,
                       Elements(tags), snapped)
  {
    count, snapped := 0, {};
    SnapshotNothing(db.bin, name, client.At(name));
    ghost var r := client.At(name);
    for i := 0 to |tags|
      invariant client.At(name) == r && count == |snapped|
      invariant Taken(old(db.bin), db.bin, name, r, digest, Elements(tags[..i]), snapped)
      invariant db.images == old(db.images) || db.images == EnsureRepo(old(db.images), name)
      invariant Faults(client, db) >= old(Faults(client, db)) && client.lookupFaults >= old(client.lookupFaults)
      invariant db.faults >= old(db.faults)
      invariant Faults(client, db) == old(Faults(client, db)) ==>
                  AllTaken(old(db.images), db.images, name, r, digest, Elements(tags[..i]), snapped)
      invariant TakenUnder(client.outage, db.breakdown, old(db.images), db.images, name, r, digest, Elements(tags[..i]),
                           snapped)
    {
      PrefixGrows(tags, i);
      var taken;
      taken, snapped := SnapshotTag(client, db, name, tags[i], digest, old(db.bin), old(db.images),
                                    Elements(tags[..i]), snapped);
      if taken {
        count := count + 1;
      }
    }
    assert tags[..|tags|] == tags;
  }

  /** Copies the manifest of `digest` to the bin, once for every tag that points at it. */
  method SnapshotRecycleItems(client: Upstream, db: Database, name: Name, digest: Digest)
    returns (count: nat, ghost snapped: set<Tag>)
    requires client.Valid()
    modifies client`lookupFaults, client`callFaults, db`bin, db`images, db`faults
    ensures snapped <= client.At(name).TagsOf(digest) && count == |snapped|
    ensures db.bin == Snapshotted(old(db.bin), name, client.At(name), snapped)
    ensures db.images == old(db.images) || db.images == EnsureRepo(old(db.images), name)
    ensures Faults(client, db) >= old(Faults(client, db)) && client.lookupFaults >= old(client.lookupFaults)
    ensures db.faults >= old(db.faults)
    ensures Faults(client, db) == old(Faults(client, db)) ==>
              && snapped == client.At(name).TagsOf(digest)
              && db.images == Ensured(old(db.images), name, snapped != {})
    ensures client.outage.Fixed? && db.breakdown.Only? ==>
              var listed := ListTags(name) !in client.outage.down;
              && snapped == (if listed
                               then Copyable(name, client.At(name), digest, client.outage.down, db.breakdown.broken)
                               else {})
              && db.images == Ensured(old(db.images), name,
                                      listed && ResolveRow(name) !in db.breakdown.broken &&
                                      Readable(name, client.At(name), digest, client.outage.down) != {})
  {
    count, snapped := 0, {};
    SnapshotNothing(db.bin, name, client.At(name));
    var listing := client.Tags(name);
    if listing.Failure? {
      return;
    }
    count, snapped := SnapshotEach(client, db, name, digest, listing.value);
    AllListed(name, client.At(name), digest, Elements(listing.value), client.outage, db.breakdown);
  }

  /** The table once an empty repository is dropped, if it can be seen to be empty and the statement works. */
  function Cleaned(images: Images, name: Name, r: Repo, down: set<Call>, broken: set<Statement>): Images {
    if r.tags == map[] && Cleanable(name) && ListTags(name) !in down && DropRepo(name) !in broken then images - {name}
    else images
  }

  /** Drops the repository row once the registry reports no tags, or no repository. */
  method CleanupIfEmpty(client: Upstream, db: Database, name: Name)
    modifies client`lookupFaults, db`images, db`faults
    ensures Faults(client, db) >= old(Faults(client, db)) && client.lookupFaults >= old(client.lookupFaults)
    ensures db.faults >= old(db.faults)
    ensures db.images in {old(db.images), old(db.images) - {name}}
    ensures db.images != old(db.images) ==> client.At(name).tags == map[] && Cleanable(name)
    ensures client.outage.Fixed? && db.breakdown.Only? ==>
              db.images == Cleaned(old(db.images), name, client.At(name), client.outage.down, db.breakdown.broken)
    ensures Faults(client, db) == old(Faults(client, db)) ==>
              db.images == if client.At(name).tags == map[] && Cleanable(name) then old(db.images) - {name}
                  else old(db.images)
  {
    var listing := client.Tags(name);
    assert listing.Success? ==> (listing.value == [] <==> client.At(name).tags.Keys == {}) by {
      if listing.Success? && listing.value != [] {
        assert listing.value[0] in Elements(listing.value);
      }
    }
    if (listing.Success? && |listing.value| == 0) || listing == Failure(NotFound) {
      if Cleanable(name) && name in db.images {
        var _ := db.DeleteRepository(name);
      }
    }
  }

  lemma OneSnapped(name: Name, r: Repo, digest: Digest, down: set<Call>, broken: set<Statement>)
    ensures SnappedUnder(name, r, {digest}, down, broken) ==
            if ListTags(name) in down then {} else Copyable(name, r, digest, down, broken)
  {}

  /** The table once a deleted digest is struck from it, as far as the statements work and the registry answers. */
  ghost function StruckUnder(images: Images, name: Name, r: Repo, digest: Digest, repoKnown: bool, down: set<Call>,
                             broken: set<Statement>): Images {
    var struck := if repoKnown && StrikeImages(name, digest) !in broken
                    then SoftDeleteIn(images, name, {}, {digest}) else images;
    Cleaned(struck, name, r, down, broken)
  }

  /** Strikes a deleted digest from the images table, and the repository with it once no tag is left. */
  method StrikeDigest(client: Upstream, db: Database, name: Name, digest: Digest, repoKnown: bool)
    modifies client`lookupFaults, db`images, db`faults
    ensures db.images - {name} == old(db.images) - {name}
    ensures Faults(client, db) >= old(Faults(client, db)) && client.lookupFaults >= old(client.lookupFaults)
    ensures db.faults >= old(db.faults)
    ensures Faults(client, db) == old(Faults(client, db)) && repoKnown ==>
              db.images == WithoutDigest(old(db.images), name, digest, client.At(name).tags == map[])
    ensures TableAfter(db.breakdown, db.faults == old(db.faults), repoKnown, name, old(db.images), db.images,
                       Marks({}, {digest}), client.At(name).tags == map[])
    ensures client.outage.Fixed? && db.breakdown.Only? ==>
              db.images == StruckUnder(old(db.images), name, client.At(name), digest, repoKnown, client.outage.down,
                                       db.breakdown.broken)
  {
    ghost var noTags := client.At(name).tags == map[];
    AfterNothing(db.breakdown, true, false, name, db.images, db.images, noTags);
    if repoKnown {
      var ok := db.SoftDeleteImageByDigest(name, digest);
      AfterStatement(db.breakdown, ok, name, old(db.images), Marks({}, {digest}), noTags);
    }
    ghost var faults, struck := db.faults, db.images;
    assert db.images - {name} == old(db.images) - {name};
    CleanupIfEmpty(client, db, name);
    AfterCleanup(db.breakdown, faults == old(db.faults), db.faults == old(db.faults), repoKnown, name, old(db.images),
                 struck, db.images, Marks({}, {digest}), noTags);
  }

  /** Copies the manifest under each of its tags, then deletes the digest. */
  method CopyAndDelete(client: Upstream, db: Database, name: Name, d: Digest)
    returns (deleted: bool, count: nat, ghost snapped: set<Tag>)
    requires client.Valid()
    modifies client, db
    ensures client.Valid()
    ensures snapped <= old(client.At(name)).TagsOf(d) && count == |snapped|
    ensures db.bin == Snapshotted(old(db.bin), name, old(client.At(name)), snapped)
    ensures deleted ==> name in old(client.repos) && d in old(client.At(name)).manifests
    ensures client.repos == if deleted then old(client.repos)[name := old(client.At(name)).Remove(d)]
                            else old(client.repos)
    ensures db.images in {old(db.images), EnsureRepo(old(db.images), name)}
    ensures Faults(client, db) >= old(Faults(client, db)) && client.lookupFaults >= old(client.lookupFaults)
    ensures db.faults >= old(db.faults)
    ensures Faults(client, db) == old(Faults(client, db)) ==>
              && deleted == (d in old(client.At(name)).manifests) && snapped == old(client.At(name)).TagsOf(d)
              && db.images == Ensured(old(db.images), name, snapped != {})
    ensures client.outage.Fixed? ==>
              (deleted <==> d in old(client.At(name)).manifests && Delete(name, d) !in client.outage.down)
    ensures client.outage.Fixed? && db.breakdown.Only? ==>
              snapped == SnappedUnder(name, old(client.At(name)), {d}, client.outage.down, db.breakdown.broken)
  {
    count, snapped := SnapshotRecycleItems(client, db, name, d);
    if client.outage.Fixed? && db.breakdown.Only? {
      OneSnapped(name, client.At(name), d, client.outage.down, db.breakdown.broken);
    }
    var err := client.DeleteManifest(name, d);
    deleted := err.None?;
  }
}
