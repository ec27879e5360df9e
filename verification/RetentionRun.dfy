/** A retention run: keep the newest images of a repository, and move the rest to the recycle bin. */
module RetentionRun {
  import opened Prelude
  import opened Registry
  import opened Store
  import opened DeleteSpec
  import opened Snapshots
  import opened Table
  import opened System
  import opened Runs
  import opened Deleting
  import opened Retention

  /** The rows of a repository that are not deleted. */
  ghost function LiveImages(rows: Rows): set<Image> {
    set ref | ref in rows && !rows[ref].deleted :: Image(ref, rows[ref].digest, rows[ref].createdAt)
  }

  /** Lists them; a query that breaks off leaves the rows read until then, and the caller does not look. */
  method ListImages(db: Database, name: Name) returns (images: seq<Image>)
    modifies db`faults
    ensures Distinct(images) && Elements(images) <= LiveImages(RowsAt(db.images, name))
    ensures db.faults >= old(db.faults)
    ensures db.faults == old(db.faults) ==> Elements(images) == LiveImages(RowsAt(db.images, name))
    ensures db.breakdown.Only? && ReadImages(name) !in db.breakdown.broken ==>
              Elements(images) == LiveImages(RowsAt(db.images, name))
  {
    var rows := RowsAt(db.images, name);
    var live := set ref | ref in rows && !rows[ref].deleted :: Image(ref, rows[ref].digest, rows[ref].createdAt);
    images := Enumerate(live);
    var ok := db.Attempt(ReadImages(name));
    if !ok {
      var read: nat :| read <= |images|;
      assert Elements(images[..read]) <= Elements(images);
      images := images[..read];
    }
  }

  /** The references of all candidates, in order. */
  function AllTags(candidates: seq<Candidate>): seq<Ref> {
    if candidates == [] then [] else AllTags(candidates[..|candidates| - 1]) + candidates[|candidates| - 1].tags
  }

  /** What a run in which nothing failed does: the tags of a valid selection are deleted together. */
  ghost predicate RetainedClean(s: State, name: Name, keepCount: int, images: seq<Image>, candidates: seq<Candidate>,
                                s': State) {
    if keepCount <= 0 || name !in s.repos then s' == s && candidates == []
    else
      && Distinct(images) && Elements(images) == LiveImages(RowsAt(s.images, name))
      && ValidSelection(images, keepCount, s.repos[name].tags.Keys, candidates)
      && s' == DeleteTagsClean(s, name, Selection(AllTags(candidates)))
  }

  /** The step of a run that found nothing to delete. */
  ghost function NothingDeleted(name: Name): Event {
    TagsDeleted(name, {}, [], Trace(map[], {}, {}, {}), true)
  }

  lemma NothingDeletedIsStep(s: State, name: Name, s': State)
    requires ValidCatalog(s.repos) && s'.repos == s.repos && s'.bin == s.bin
    requires s'.images in {s.images, EnsureRepo(s.images, name)}
    ensures Step(s, NothingDeleted(name), s')
  {
    Untouched(s.images, name, RepoAt(s.repos, name).tags == map[]);
    assert MarksOf([], Trace(map[], {}, {}, {})) == NO_MARKS;
    AfterDeleteNothing(RepoAt(s.repos, name));
    SnapshotNothing(s.bin, name, RepoAt(s.repos, name));
  }

  lemma NothingSelectedIsClean(s: State, name: Name)
    requires name in s.repos
    ensures DeleteTagsClean(s, name, {}) == s.(images := EnsureRepo(s.images, name))
  {
    var r := RepoAt(s.repos, name);
    assert SelectedDigests(r, {}) == {} && CleanTrace(r, {}).kept == map[] && CleanTrace(r, {}).snapped == {};
    AfterDeleteNothing(r);
    assert s.repos[name := r] == s.repos;
    SnapshotNothing(s.bin, name, r);
    assert UntaggedRefs(r, {}, {}) == {} && FullDigests(r, {}) == {};
    SoftDeleteNothing(EnsureRepo(s.images, name), name);
  }

  /** Collects the references of the candidates. */
  method CollectTags(candidates: seq<Candidate>) returns (tags: seq<Ref>)
    ensures tags == AllTags(candidates)
  {
    tags := [];
    for i := 0 to |candidates|
      invariant tags == AllTags(candidates[..i])
    {
      assert candidates[..i + 1][..i] == candidates[..i];
      tags := tags + candidates[i].tags;
    }
    assert candidates[..|candidates|] == candidates;
  }

  /** What a run has to go by: rows of the repository that are not deleted, and a valid selection among them. */
  ghost predicate Chosen(rows: Rows, keepCount: nat, registryTags: set<Tag>, images: seq<Image>,
                         candidates: seq<Candidate>) {
    && Distinct(images) && Elements(images) <= LiveImages(rows)
    && ValidSelection(images, keepCount, registryTags, candidates)
  }

  /** The tags a run will delete; without a repository row, none. */
  method ChooseTags(db: Database, name: Name, keepCount: nat, registryTags: set<Tag>)
    returns (tags: seq<Ref>, ghost images: seq<Image>, ghost candidates: seq<Candidate>)
    requires keepCount > 0
    modifies db`images, db`faults
    ensures db.images == old(db.images) || db.images == EnsureRepo(old(db.images), name)
    ensures tags == AllTags(candidates)
    ensures Chosen(RowsAt(old(db.images), name), keepCount, registryTags, images, candidates)
    ensures db.breakdown.Only? ==>
              if ResolveRow(name) in db.breakdown.broken then candidates == []
              else ReadImages(name) !in db.breakdown.broken ==>
                     Elements(images) == LiveImages(RowsAt(old(db.images), name))
    ensures db.faults >= old(db.faults)
    ensures db.faults == old(db.faults) ==>
              && Distinct(images) && Elements(images) == LiveImages(RowsAt(old(db.images), name))
              && ValidSelection(images, keepCount, registryTags, candidates)
              && db.images == EnsureRepo(old(db.images), name)
  {
    tags, images, candidates := [], [], [];
    NothingChosen(RowsAt(db.images, name), keepCount, registryTags);
    var known := db.ResolveRepo(name);
    if known {
      assert RowsAt(db.images, name) == RowsAt(old(db.images), name);
      var rows := ListImages(db, name);
      var chosen;
      ghost var order;
      chosen, order := RetentionCandidates(rows, keepCount, registryTags);
      SelectionIsValid(rows, keepCount, registryTags, order);
      tags := CollectTags(chosen);
      images, candidates := rows, chosen;
    }
  }

  lemma NothingChosen(rows: Rows, keepCount: nat, registryTags: set<Tag>)
    ensures Chosen(rows, keepCount, registryTags, [], [])
  {
    SelectionIsValid([], keepCount, registryTags, []);
    assert SelectionFor([], keepCount, registryTags, []) == [];
  }

  /** A retention run, whatever calls fail, is a tag deletion; without failures, that of a valid selection. */
  method RunRetention(client: Upstream, db: Database, name: Name, keepCount: int)
    returns (listed: bool, ghost e: Event, ghost images: seq<Image>, ghost candidates: seq<Candidate>)
    requires client.Valid()
    modifies client, db
    ensures client.Valid()
    ensures Step(old(StateOf(client, db)), e, StateOf(client, db)) && e.TagsDeleted? && e.name == name
    ensures keepCount <= 0 || !listed ==> StateOf(client, db) == old(StateOf(client, db))
    ensures e.selected == Selection(AllTags(candidates))
    ensures if keepCount <= 0 || !listed then candidates == []
            else Chosen(RowsAt(old(db.images), name), keepCount, old(client.At(name)).tags.Keys, images, candidates)
    ensures db.breakdown.Only? && keepCount > 0 && listed ==>
              if ResolveRow(name) in db.breakdown.broken then candidates == []
              else ReadImages(name) !in db.breakdown.broken ==>
                     Elements(images) == LiveImages(RowsAt(old(db.images), name))
    ensures client.outage.Fixed? && keepCount > 0 ==>
              (listed <==> name in old(client.repos) && ListTags(name) !in client.outage.down)
    ensures client.lookupFaults >= old(client.lookupFaults)
    ensures client.lookupFaults == old(client.lookupFaults) ==> e.answered
    ensures Faults(client, db) >= old(Faults(client, db))
    ensures Faults(client, db) == old(Faults(client, db)) ==>
              && listed == (keepCount <= 0 || name in old(client.repos))
              && RetainedClean(old(StateOf(client, db)), name, keepCount, images, candidates, StateOf(client, db))
  {
    ghost var s := StateOf(client, db);
    listed, e, images, candidates := true, NothingDeleted(name), [], [];
    NothingDeletedIsStep(s, name, s);
    if keepCount <= 0 {
      return;
    }
    var listing := client.Tags(name);
    if listing.Failure? {
      listed := false;
      return;
    }
    var tags;
    tags, images, candidates := ChooseTags(db, name, keepCount, Elements(listing.value));
    if |tags| > 0 {
      e := DeleteChosen(client, db, s, name, tags);
    } else {
      NothingDeletedIsStep(s, name, StateOf(client, db));
      NothingSelectedIsClean(s, name);
      assert Selection(tags) == {};
    }
  }

  /** Deletes the chosen tags; that the repository's row exists by now makes no difference. */
  method DeleteChosen(client: Upstream, db: Database, ghost s: State, name: Name, tags: seq<Ref>)
    returns (ghost e: Event)
    requires client.Valid() && name in s.repos
    requires client.repos == s.repos && db.bin == s.bin
    requires db.images == s.images || db.images == EnsureRepo(s.images, name)
    modifies client, db
    ensures client.Valid()
    ensures Step(s, e, StateOf(client, db)) && e.TagsDeleted? && e.name == name && e.selected == Selection(tags)
    ensures client.lookupFaults >= old(client.lookupFaults)
    ensures client.lookupFaults == old(client.lookupFaults) ==> e.answered
    ensures Faults(client, db) >= old(Faults(client, db))
    ensures Faults(client, db) == old(Faults(client, db)) ==>
              StateOf(client, db) == DeleteTagsClean(s, name, Selection(tags))
  {
    e := DeleteSelected(client, db, name, tags);
    FromEnsured(s.images, old(db.images), db.images, name, MarksOf(e.results, e.trace), client.At(name).tags == map[]);
    assert EnsureRepo(EnsureRepo(s.images, name), name) == EnsureRepo(s.images, name);
  }
}
