/** Tag deletion as a step of a run, and its failure-free form. */
module Deleting {
  import opened Registry
  import opened Store
  import opened DeleteSpec
  import opened TagDelete
  import opened Snapshots
  import opened Table
  import opened System
  import opened Runs

  /** The state after a tag-aware delete in which nothing failed. */
  ghost function DeleteTagsClean(s: State, name: Name, selected: set<Ref>): State {
    var r := RepoAt(s.repos, name);
    var trace := CleanTrace(r, selected);
    State(if name in s.repos then s.repos[name := AfterDelete(r, trace.kept)] else s.repos,
          Snapshotted(s.bin, name, r, trace.snapped),
          CleanImages(EnsureRepo(s.images, name), name, r, selected, SelectedDigests(r, selected)))
  }

  method DeleteSelected(client: Upstream, db: Database, name: Name, tags: seq<Ref>) returns (ghost e: Event)
    requires client.Valid()
    modifies client, db
    ensures client.Valid()
    ensures Step(old(StateOf(client, db)), e, StateOf(client, db)) && e.TagsDeleted? && e.name == name
    ensures e.selected == Selection(tags)
    ensures client.lookupFaults >= old(client.lookupFaults)
    ensures client.lookupFaults == old(client.lookupFaults) <==> e.answered
    ensures Faults(client, db) >= old(Faults(client, db))
    ensures Faults(client, db) == old(Faults(client, db)) ==>
              StateOf(client, db) == DeleteTagsClean(old(StateOf(client, db)), name, Selection(tags))
  {
    ghost var s := StateOf(client, db);
    var results, count;
    ghost var trace;
    results, count, trace := DeleteTagsAware(client, db, name, tags);
    e := TagsDeleted(name, Selection(tags), results, trace, client.lookupFaults == old(client.lookupFaults));
    TableStays(db.breakdown, db.faults == old(db.faults), Known(db.breakdown, name), name, s.images, db.images,
               MarksOf(results, trace), client.At(name).tags == map[]);
    ReplacedIsUpdate(s.repos, client.repos, name, AfterDelete(RepoAt(s.repos, name), trace.kept));
  }

  lemma ReplacedIsUpdate(before: Catalog, after: Catalog, name: Name, repo: Repo)
    requires Replaced(before, after, name, repo)
    ensures after == if name in before then before[name := repo] else before
  {}
}
