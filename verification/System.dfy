/** The three stores that every operation must keep in agreement. */
module System {
  import opened Registry
  import opened Store
  import opened DeleteSpec

  datatype State = State(repos: Catalog, bin: Bin, images: Images)

  function StateOf(client: Upstream, db: Database): State
    reads client`repos, db`bin, db`images
  {
    State(client.repos, db.bin, db.images)
  }

  /** The registry is well formed and every bin row stores the manifest its digest names. */
  ghost predicate Sound(s: State) {
    ValidCatalog(s.repos) && BinSound(s.bin)
  }

  /** The row a restore or an overwrite takes of what `reference` points at now. */
  function Displaced(s: State, name: Name, reference: Ref): Bin {
    var r := RepoAt(s.repos, name);
    var d := r.Resolve(reference);
    if d.Some? && d.value in r.manifests
      then AddItem(s.bin, BinKey(name, reference, d.value), r.manifests[d.value])
      else s.bin
  }

  /** The images table after the row of `reference` is synced. */
  function Synced(images: Images, name: Name, reference: Ref, digest: Digest, now: int): Images {
    EnsureRepo(images, name)[name := SyncRow(RowsAt(images, name), reference, digest, now)]
  }

  lemma DisplacedSound(s: State, name: Name, reference: Ref)
    requires Sound(s)
    ensures BinSound(Displaced(s, name, reference))
  {}

  lemma SnapshottedSound(bin: Bin, name: Name, r: Repo, tags: set<Tag>)
    requires r.Valid() && BinSound(bin)
    ensures BinSound(Snapshotted(bin, name, r, tags))
  {}
}
