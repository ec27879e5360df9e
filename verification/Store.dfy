/** The recycle bin and the images table, keyed by their UNIQUE constraints. */
module Store {
  import opened Registry

  // ---- Recycle bin ----

  datatype Status = PendingGC | Restored | GCExpired | GCFailed

  datatype BinKey = BinKey(repo: Name, reference: Ref, digest: Digest)

  datatype BinRow = BinRow(status: Status, manifest: Manifest, attempts: nat)

  type Bin = map<BinKey, BinRow>

  /** Insert or refresh: the row becomes pending again, but keeps the attempts it has used up. */
  function AddItem(bin: Bin, k: BinKey, m: Manifest): Bin {
    bin[k := BinRow(PendingGC, m, if k in bin then bin[k].attempts else 0)]
  }

  function DropPending(bin: Bin, repo: Name, reference: Ref): Bin {
    map k | k in bin && !(k.repo == repo && k.reference == reference && bin[k].status == PendingGC) :: bin[k]
  }

  function SetStatus(bin: Bin, k: BinKey, status: Status): Bin {
    if k in bin then bin[k := bin[k].(status := status)] else bin
  }

  function AddAttempt(bin: Bin, k: BinKey): Bin {
    if k in bin then bin[k := bin[k].(attempts := bin[k].attempts + 1)] else bin
  }

  /** A pending row that has used up its attempts is parked. */
  function Park(bin: Bin, k: BinKey, maxAttempts: nat): Bin {
    if k in bin && bin[k].status == PendingGC && bin[k].attempts >= maxAttempts
      then bin[k := bin[k].(status := GCFailed)]
      else bin
  }

  /** Every row stores a manifest that hashes to the digest the row is about. */
  ghost predicate BinSound(bin: Bin) {
    forall k :: k in bin && k.digest != Empty ==>
      k.digest == DigestOf(bin[k].manifest) && bin[k].manifest.body != "" &&
      (k.reference.ByDigest? ==> k.reference.digest == k.digest)
  }

  // ---- Images table ----

  datatype ImageRow = ImageRow(digest: Digest, deleted: bool, createdAt: int)

  type Rows = map<Ref, ImageRow>

  /** A repository has an entry exactly when its row exists in the repositories table. */
  type Images = map<Name, Rows>

  function RowsAt(images: Images, name: Name): Rows {
    if name in images then images[name] else map[]
  }

  function EnsureRepo(images: Images, name: Name): Images {
    if name in images then images else images[name := map[]]
  }

  /** Upsert: the row now shows `digest` and is not deleted; its creation time is set only once. */
  function SyncRow(rows: Rows, reference: Ref, digest: Digest, now: int): Rows {
    rows[reference := ImageRow(digest, false, if reference in rows then rows[reference].createdAt else now)]
  }

  function SoftDelete(rows: Rows, refs: set<Ref>, digests: set<Digest>): Rows {
    map r | r in rows ::
      rows[r].(deleted := rows[r].deleted || r in refs || rows[r].digest in digests)
  }

  /** Soft-deletes the rows of one repository that carry one of `refs` or show one of `digests`. */
  function SoftDeleteIn(images: Images, name: Name, refs: set<Ref>, digests: set<Digest>): Images {
    if name in images then images[name := SoftDelete(images[name], refs, digests)] else images
  }

  lemma SoftDeleteNothing(images: Images, name: Name)
    ensures SoftDeleteIn(images, name, {}, {}) == images
  {
    if name in images {
      assert SoftDelete(images[name], {}, {}) == images[name];
    }
  }

  lemma SoftDeleteCompose(images: Images, name: Name, a: set<Ref>, d: set<Digest>, b: set<Ref>, e: set<Digest>)
    ensures SoftDeleteIn(SoftDeleteIn(images, name, a, d), name, b, e) == SoftDeleteIn(images, name, a + b, d + e)
  {
    if name in images {
      assert SoftDelete(SoftDelete(images[name], a, d), b, e) == SoftDelete(images[name], a + b, d + e);
    }
  }

  /** The tag map the images table shows to users: rows under a tag that are not deleted. */
  ghost function View(images: Images, name: Name): map<Tag, Digest> {
    map r | r in RowsAt(images, name) && r.Named? && !RowsAt(images, name)[r].deleted
      :: r.tag := RowsAt(images, name)[r].digest
  }

  /** The statements the operations run, by the rows they are about. */
  datatype Statement =
    | UpsertItem(key: BinKey)
    | DropItem(key: BinKey)
    | DropPendingOf(repo: Name, reference: Ref)
    | MarkItem(key: BinKey)
    | CountAttempt(key: BinKey)
    | ParkItem(key: BinKey)
    | ResolveRow(repo: Name)
    | UpsertImage(repo: Name, reference: Ref)
    | StrikeImage(repo: Name, reference: Ref)
    | StrikeImages(repo: Name, digest: Digest)
    | DropRepo(repo: Name)
    | ReadImages(repo: Name)

  /** Which statements fail: any, at any time, or exactly those in a set laid down beforehand. */
  datatype Breakdown = Anytime | Only(broken: set<Statement>)

  /**
   * The SQLite store. Any statement may fail, subject to `breakdown`; a failed one changes nothing and is
   * counted in `faults`.
   */
  class Database {
    const breakdown: Breakdown
    var bin: Bin
    var images: Images
    ghost var faults: nat

    constructor (bin: Bin, images: Images, breakdown: Breakdown)
      ensures this.bin == bin && this.images == images && this.breakdown == breakdown && faults == 0
    {
      this.bin, this.images, this.breakdown, faults := bin, images, breakdown, 0;
    }

    method AddRecycleItem(k: BinKey, m: Manifest) returns (ok: bool)
      modifies `bin, `faults
      ensures bin == if ok then AddItem(old(bin), k, m) else old(bin)
      ensures faults == old(faults) <==> ok
      ensures faults >= old(faults)
      ensures breakdown.Only? ==> (ok <==> UpsertItem(k) !in breakdown.broken)
    {
      ok := Attempt(UpsertItem(k));
      if ok {
        bin := AddItem(bin, k, m);
      }
    }

    method DeleteRecycleItem(k: BinKey) returns (ok: bool)
      modifies `bin, `faults
      ensures bin == if ok then old(bin) - {k} else old(bin)
      ensures faults == old(faults) <==> ok
      ensures faults >= old(faults)
      ensures breakdown.Only? ==> (ok <==> DropItem(k) !in breakdown.broken)
    {
      ok := Attempt(DropItem(k));
      if ok {
        bin := bin - {k};
      }
    }

    method DeletePendingByRepoRef(repo: Name, reference: Ref) returns (ok: bool)
      modifies `bin, `faults
      ensures bin == if ok then DropPending(old(bin), repo, reference) else old(bin)
      ensures faults == old(faults) <==> ok
      ensures faults >= old(faults)
      ensures breakdown.Only? ==> (ok <==> DropPendingOf(repo, reference) !in breakdown.broken)
    {
      ok := Attempt(DropPendingOf(repo, reference));
      if ok {
        bin := DropPending(bin, repo, reference);
      }
    }

    method MarkRecycle(k: BinKey, status: Status) returns (ok: bool)
      modifies `bin, `faults
      ensures bin == if ok then SetStatus(old(bin), k, status) else old(bin)
      ensures faults == old(faults) <==> ok
      ensures faults >= old(faults)
      ensures breakdown.Only? ==> (ok <==> MarkItem(k) !in breakdown.broken)
    {
      ok := Attempt(MarkItem(k));
      if ok {
        bin := SetStatus(bin, k, status);
      }
    }

    /** Counts a failed attempt and parks the row at `maxAttempts`, in two statements that can fail apart. */
    method MarkRecycleGCFailure(k: BinKey, maxAttempts: nat)
      returns (parked: bool, ghost counted: bool, ghost marked: bool)
      modifies `bin, `faults
      ensures marked ==> counted
      ensures bin == if marked then Park(AddAttempt(old(bin), k), k, maxAttempts)
                     else if counted then AddAttempt(old(bin), k)
                     else old(bin)
      ensures parked <==> k in bin && bin[k].status != old(bin)[k].status
      ensures faults == old(faults) <==> marked
      ensures faults >= old(faults)
      ensures breakdown.Only? ==> (counted <==> CountAttempt(k) !in breakdown.broken)
      ensures breakdown.Only? ==> (marked <==> counted && ParkItem(k) !in breakdown.broken)
    {
      parked, marked := false, false;
      var first := Attempt(CountAttempt(k));
      counted := first;
      if !first {
        return;
      }
      bin := AddAttempt(bin, k);
      var second := Attempt(ParkItem(k));
      marked := second;
      if second && k in bin && bin[k].status == PendingGC && bin[k].attempts >= maxAttempts {
        bin := Park(bin, k, maxAttempts);
        parked := true;
      }
    }

    method ResolveRepo(name: Name) returns (ok: bool)
      modifies `images, `faults
      ensures images == if ok then EnsureRepo(old(images), name) else old(images)
      ensures faults == old(faults) <==> ok
      ensures faults >= old(faults)
      ensures breakdown.Only? ==> (ok <==> ResolveRow(name) !in breakdown.broken)
    {
      ok := Attempt(ResolveRow(name));
      if ok {
        images := EnsureRepo(images, name);
      }
    }

    method SyncImage(name: Name, reference: Ref, digest: Digest, now: int) returns (ok: bool)
      requires name in images
      modifies `images, `faults
      ensures images == if ok then old(images)[name := SyncRow(old(images)[name], reference, digest, now)]
                else old(images)
      ensures faults == old(faults) <==> ok
      ensures faults >= old(faults)
      ensures breakdown.Only? ==> (ok <==> UpsertImage(name, reference) !in breakdown.broken)
    {
      ok := Attempt(UpsertImage(name, reference));
      if ok {
        images := images[name := SyncRow(images[name], reference, digest, now)];
      }
    }

    method SoftDeleteImage(name: Name, reference: Ref) returns (ok: bool)
      modifies `images, `faults
      ensures images == if ok
                          then SoftDeleteIn(old(images), name, {reference}, {})
                          else old(images)
      ensures faults == old(faults) <==> ok
      ensures faults >= old(faults)
      ensures breakdown.Only? ==> (ok <==> StrikeImage(name, reference) !in breakdown.broken)
    {
      ok := Attempt(StrikeImage(name, reference));
      if ok {
        images := SoftDeleteIn(images, name, {reference}, {});
      }
    }

    method SoftDeleteImageByDigest(name: Name, digest: Digest) returns (ok: bool)
      modifies `images, `faults
      ensures images == if ok
                          then SoftDeleteIn(old(images), name, {}, {digest})
                          else old(images)
      ensures faults == old(faults) <==> ok
      ensures faults >= old(faults)
      ensures breakdown.Only? ==> (ok <==> StrikeImages(name, digest) !in breakdown.broken)
    {
      ok := Attempt(StrikeImages(name, digest));
      if ok {
        images := SoftDeleteIn(images, name, {}, {digest});
      }
    }

    method DeleteRepository(name: Name) returns (ok: bool)
      modifies `images, `faults
      ensures images == if ok then old(images) - {name} else old(images)
      ensures faults == old(faults) <==> ok
      ensures faults >= old(faults)
      ensures breakdown.Only? ==> (ok <==> DropRepo(name) !in breakdown.broken)
    {
      ok := Attempt(DropRepo(name));
      if ok {
        images := images - {name};
      }
    }

    /** One SQL statement: it takes effect or it does not. */
    method Attempt(s: Statement) returns (ok: bool)
      modifies `faults
      ensures faults == old(faults) <==> ok
      ensures faults >= old(faults)
      ensures breakdown.Only? ==> (ok <==> s !in breakdown.broken)
    {
      ok := *;
      if breakdown.Only? {
        ok := s !in breakdown.broken;
      }
      if !ok {
        faults := faults + 1;
      }
    }
  }
}
