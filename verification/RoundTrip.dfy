/** What restoring undoes: a delete followed by restoring every row it left in the recycle bin. */
module RoundTrip {
  import opened Prelude
  import opened Registry
  import opened Store
  import opened DeleteSpec
  import opened System
  import opened Lifecycle
  import opened Runs
  import opened Deleting

  ghost function RestoreAll(s: State, keys: seq<BinKey>, now: int): State
    decreases |keys|
  {
    if keys == [] then s else RestoreAll(RestoreClean(s, keys[0], now), keys[1..], now)
  }

  /** Each deleted digest with one more tag pointing at it, when that is where the tag was. */
  ghost function GiveBack(r: Repo, kept: map<Digest, set<Tag>>, t: Tag): map<Digest, set<Tag>> {
    if t in r.tags && r.tags[t] in kept then kept[r.tags[t] := kept[r.tags[t]] + {t}] else kept
  }

  ghost function GiveBackAll(r: Repo, kept: map<Digest, set<Tag>>, keys: seq<BinKey>): map<Digest, set<Tag>>
    decreases |keys|
  {
    if keys == [] then kept
    else GiveBackAll(r, if keys[0].reference.Named? then GiveBack(r, kept, keys[0].reference.tag) else kept, keys[1..])
  }

  lemma GiveBackOne(r: Repo, kept: map<Digest, set<Tag>>, t: Tag)
    requires r.Valid() && t in r.tags && r.tags[t] in kept && (forall d :: d in kept ==> kept[d] <= r.TagsOf(d))
    ensures AfterDelete(r, kept).Put(Named(t), r.manifests[r.tags[t]]) == AfterDelete(r, GiveBack(r, kept, t))
  {
    var d := r.tags[t];
    var a, b := AfterDelete(r, kept).Put(Named(t), r.manifests[d]), AfterDelete(r, kept[d := kept[d] + {t}]);
    assert a.tags == b.tags by {
      assert forall u :: u in r.tags && r.tags[u] == d && u != t ==> (u in kept[d] <==> u in kept[d] + {t});
    }
    assert a.manifests == b.manifests;
  }

  /** The row of `k` is pending with the manifest its tag had in `r`, on a digest that was deleted. */
  ghost predicate Awaits(s: State, name: Name, r: Repo, kept: map<Digest, set<Tag>>, k: BinKey) {
    && k.repo == name && k.reference.Named? && k.reference.tag in r.tags
    && k.digest == r.tags[k.reference.tag] && k.digest in kept && k.digest in r.manifests
    && k in s.bin && s.bin[k].status == PendingGC && s.bin[k].manifest == r.manifests[k.digest]
  }

  /** Restoring one such row displaces nothing, and the rows of other tags go on waiting. */
  lemma RestoreOne(s: State, name: Name, r: Repo, kept: map<Digest, set<Tag>>, k: BinKey, now: int)
    requires r.Valid() && RepoAt(s.repos, name) == AfterDelete(r, kept) && Awaits(s, name, r, kept, k)
    requires forall d :: d in kept ==> kept[d] <= r.TagsOf(d)
    ensures RepoAt(RestoreClean(s, k, now).repos, name) == AfterDelete(r, GiveBack(r, kept, k.reference.tag))
    ensures forall n :: n != name ==> RepoAt(RestoreClean(s, k, now).repos, n) == RepoAt(s.repos, n)
    ensures forall j :: j != k && Awaits(s, name, r, kept, j) ==>
              Awaits(RestoreClean(s, k, now), name, r, GiveBack(r, kept, k.reference.tag), j)
  {
    GiveBackOne(r, kept, k.reference.tag);
    assert BeforeRestore(s, k) == s.bin;
  }

  lemma {:induction false} RestoreRest(s: State, name: Name, r: Repo, kept: map<Digest, set<Tag>>, keys: seq<BinKey>,
                                       now: int)
    requires r.Valid() && RepoAt(s.repos, name) == AfterDelete(r, kept)
    requires forall d :: d in kept ==> kept[d] <= r.TagsOf(d)
    requires Distinct(keys) && forall k :: k in keys ==> Awaits(s, name, r, kept, k)
    ensures RepoAt(RestoreAll(s, keys, now).repos, name) == AfterDelete(r, GiveBackAll(r, kept, keys))
    ensures forall n :: n != name ==> RepoAt(RestoreAll(s, keys, now).repos, n) == RepoAt(s.repos, n)
    decreases |keys|
  {
    if keys != [] {
      var k := keys[0];
      assert k in keys;
      RestoreOne(s, name, r, kept, k, now);
      RestoreRest(RestoreClean(s, k, now), name, r, GiveBack(r, kept, k.reference.tag), keys[1..], now);
    }
  }

  /** In whatever order the rows come, each digest gets back exactly the tags among them that it had. */
  lemma {:induction false} GivenBack(r: Repo, kept: map<Digest, set<Tag>>, keys: seq<BinKey>, d: Digest)
    requires d in kept
    ensures d in GiveBackAll(r, kept, keys)
    ensures GiveBackAll(r, kept, keys)[d] ==
            kept[d] + set k | k in keys && k.reference.Named? && k.reference.tag in r.TagsOf(d) :: k.reference.tag
    decreases |keys|
  {
    if keys != [] {
      var k := keys[0];
      var next := if k.reference.Named? then GiveBack(r, kept, k.reference.tag) else kept;
      assert next.Keys == kept.Keys;
      GivenBack(r, next, keys[1..], d);
      assert keys == [k] + keys[1..];
    }
  }

  /** What the registry holds once every row of a failure-free delete has been restored. */
  ghost function Regained(r: Repo, selected: set<Ref>): map<Digest, set<Tag>> {
    map d | d in SelectedDigests(r, selected) ::
      if Survivors(r, selected, d) == {} then r.TagsOf(d) else Survivors(r, selected, d)
  }

  /** Delete, then restore every row it copied in any order: all tags of fully deleted digests are back. */
  lemma DeleteThenRestore(s: State, name: Name, selected: set<Ref>, keys: seq<BinKey>, now: int)
    requires Sound(s) && name in s.repos && Distinct(keys)
    requires Elements(keys) == SnapshotKeys(name, s.repos[name], CleanTrace(s.repos[name], selected).snapped)
    ensures RepoAt(RestoreAll(DeleteTagsClean(s, name, selected), keys, now).repos, name)
         == AfterDelete(s.repos[name], Regained(s.repos[name], selected))
    ensures forall n :: n != name ==>
              RepoAt(RestoreAll(DeleteTagsClean(s, name, selected), keys, now).repos, n) == RepoAt(s.repos, n)
  {
    var r, s' := s.repos[name], DeleteTagsClean(s, name, selected);
    var kept := CleanTrace(r, selected).kept;
    AllAwait(s, name, selected, keys);
    RestoreRest(s', name, r, kept, keys, now);
    AllRegained(name, r, selected, keys);
  }

  lemma AllAwait(s: State, name: Name, selected: set<Ref>, keys: seq<BinKey>)
    requires Sound(s) && name in s.repos
    requires Elements(keys) == SnapshotKeys(name, s.repos[name], CleanTrace(s.repos[name], selected).snapped)
    ensures forall k :: k in keys ==>
              Awaits(DeleteTagsClean(s, name, selected), name, s.repos[name], CleanTrace(s.repos[name], selected).kept,
                     k)
    ensures forall d :: d in CleanTrace(s.repos[name], selected).kept ==>
              CleanTrace(s.repos[name], selected).kept[d] <= s.repos[name].TagsOf(d)
  {
    forall k | k in keys
      ensures Awaits(DeleteTagsClean(s, name, selected), name, s.repos[name], CleanTrace(s.repos[name], selected).kept,
                     k)
    {
      assert k in Elements(keys);
    }
  }

  lemma AllRegained(name: Name, r: Repo, selected: set<Ref>, keys: seq<BinKey>)
    requires r.Valid()
    requires Elements(keys) == SnapshotKeys(name, r, CleanTrace(r, selected).snapped)
    ensures GiveBackAll(r, CleanTrace(r, selected).kept, keys) == Regained(r, selected)
  {
    var kept := CleanTrace(r, selected).kept;
    var all := GiveBackAll(r, kept, keys);
    forall d | d in kept
      ensures d in all && all[d] == Regained(r, selected)[d]
    {
      GivenBack(r, kept, keys, d);
      BackAt(name, r, selected, keys, d);
    }
    GiveBackKeys(r, kept, keys);
  }

  lemma {:induction false} GiveBackKeys(r: Repo, kept: map<Digest, set<Tag>>, keys: seq<BinKey>)
    ensures GiveBackAll(r, kept, keys).Keys == kept.Keys
    decreases |keys|
  {
    if keys != [] {
      GiveBackKeys(r, if keys[0].reference.Named? then GiveBack(r, kept, keys[0].reference.tag) else kept, keys[1..]);
    }
  }

  lemma BackAt(name: Name, r: Repo, selected: set<Ref>, keys: seq<BinKey>, d: Digest)
    requires r.Valid() && d in SelectedDigests(r, selected)
    requires Elements(keys) == SnapshotKeys(name, r, CleanTrace(r, selected).snapped)
    ensures Survivors(r, selected, d) +
              (set k | k in keys && k.reference.Named? && k.reference.tag in r.TagsOf(d) :: k.reference.tag)
         == Regained(r, selected)[d]
  {
    var back := set k | k in keys && k.reference.Named? && k.reference.tag in r.TagsOf(d) :: k.reference.tag;
    assert forall k :: k in keys <==> k in Elements(keys);
    if Survivors(r, selected, d) == {} {
      forall t | t in r.TagsOf(d)
        ensures t in back
      {
        assert BinKey(name, Named(t), d) in SnapshotKeys(name, r, CleanTrace(r, selected).snapped);
      }
    } else {
      assert back == {};
    }
  }

  /** The selection takes every digest it touches either with all of its tags or with none, and each has a tag. */
  ghost predicate WholeDigests(r: Repo, selected: set<Ref>) {
    forall d :: d in SelectedDigests(r, selected) ==>
      && r.TagsOf(d) != {}
      && (Survivors(r, selected, d) == {} || Survivors(r, selected, d) == r.TagsOf(d))
  }

  ghost predicate AllTagsKept(r: Repo, kept: map<Digest, set<Tag>>) {
    forall d :: d in kept ==> kept[d] == r.TagsOf(d) != {}
  }

  lemma RegainedWhole(r: Repo, selected: set<Ref>)
    ensures AllTagsKept(r, Regained(r, selected)) <==> WholeDigests(r, selected)
  {}

  /**
   * The round trip returns the repository to exactly what it was if and only if every digest the
   * selection touched had a tag, and lost either all of its tags or none.
   */
  lemma RoundTripIff(s: State, name: Name, selected: set<Ref>, keys: seq<BinKey>, now: int)
    requires Sound(s) && name in s.repos && Distinct(keys)
    requires Elements(keys) == SnapshotKeys(name, s.repos[name], CleanTrace(s.repos[name], selected).snapped)
    ensures RepoAt(RestoreAll(DeleteTagsClean(s, name, selected), keys, now).repos, name) == s.repos[name]
       <==> WholeDigests(s.repos[name], selected)
  {
    DeleteThenRestore(s, name, selected, keys, now);
    RegainedFits(s.repos[name], selected);
    RegainedWhole(s.repos[name], selected);
    UnchangedIff(s.repos[name], Regained(s.repos[name], selected));
  }

  lemma RegainedFits(r: Repo, selected: set<Ref>)
    requires r.Valid()
    ensures forall d :: d in Regained(r, selected) ==> Regained(r, selected)[d] <= r.TagsOf(d) && d in r.manifests
  {}

  /** Deleting and re-pushing is invisible exactly when every digest involved keeps all its tags and has some. */
  lemma UnchangedIff(r: Repo, kept: map<Digest, set<Tag>>)
    requires r.Valid() && forall d :: d in kept ==> kept[d] <= r.TagsOf(d) && d in r.manifests
    ensures AfterDelete(r, kept) == r <==> AllTagsKept(r, kept)
  {
    var after := AfterDelete(r, kept);
    forall d | d in kept && !(kept[d] == r.TagsOf(d) != {})
      ensures after != r
    {
      if kept[d] == {} {
        assert d !in after.manifests;
      } else {
        assert !(r.TagsOf(d) <= kept[d]);
        var t :| t in r.TagsOf(d) && t !in kept[d];
        assert t !in after.tags;
      }
    }
    if AllTagsKept(r, kept) {
      assert after.tags == r.tags && after.manifests == r.manifests;
    }
  }

  /**
   * Restoring over a tag that points elsewhere by now keeps that manifest: its row is pending, and
   * restoring it in turn points the tag back.
   */
  lemma DisplacedCanComeBack(s: State, k: BinKey, now: int)
    requires Sound(s) && Restorable(s, k) && k.digest != Empty
    requires RepoAt(s.repos, k.repo).Resolve(k.reference).Some?
    requires RepoAt(s.repos, k.repo).Resolve(k.reference).value != k.digest
    ensures var j := BinKey(k.repo, k.reference, RepoAt(s.repos, k.repo).Resolve(k.reference).value);
            var s' := RestoreClean(s, k, now);
            && Held(s', j) && Restorable(s', j)
            && RepoAt(RestoreClean(s', j, now).repos, k.repo).tags == RepoAt(s.repos, k.repo).tags
  {
    var r := RepoAt(s.repos, k.repo);
    var j := BinKey(k.repo, k.reference, r.Resolve(k.reference).value);
    var s' := RestoreClean(s, k, now);
    assert j.digest in r.manifests && j.digest == DigestOf(r.manifests[j.digest]);
    assert s'.bin[j].manifest == r.manifests[j.digest];
    assert RepoAt(RestoreClean(s', j, now).repos, k.repo).tags == r.tags;
  }
}
