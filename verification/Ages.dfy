/** The time in an images row: when its reference was first recorded, and what that means for retention. */
module Ages {
  import opened Prelude
  import opened Registry
  import opened Store
  import opened DeleteSpec
  import opened System
  import opened Sweep
  import opened Deleting
  import opened Server
  import opened IndexFacts
  import opened Retention
  import opened RetentionRun
  import opened RetentionEnd

  ghost predicate HasRow(s: State, name: Name, reference: Ref) {
    name in s.images && reference in s.images[name]
  }

  /** The time at which a request that records an image is handled. */
  function TimeOf(q: Request): Option<int> {
    match q
    case Push(_, _, _, _, now) => Some(now)
    case Restore(_, now) => Some(now)
    case Browse(_, _, now) => Some(now)
    case _ => None
  }

  /** A row that a request in which nothing failed adds carries the time of that request. */
  lemma NewRowDated(s: State, q: Request, s': State, name: Name, reference: Ref)
    requires CleanNext(s, q, s') && !HasRow(s, name, reference) && HasRow(s', name, reference)
    ensures TimeOf(q) == Some(s'.images[name][reference].createdAt)
  {
    match q
    case DeleteTags(n, tags) => DeleteAddsNoRow(s, n, Selection(tags), name, reference);
    case Retain(n, keepCount) =>
      var images, candidates :| RetainedClean(s, n, keepCount, images, candidates, s');
      DeleteAddsNoRow(s, n, Selection(AllTags(candidates)), name, reference);
    case _ =>
  }

  lemma DeleteAddsNoRow(s: State, n: Name, selected: set<Ref>, name: Name, reference: Ref)
    requires !HasRow(s, name, reference)
    ensures !HasRow(DeleteTagsClean(s, n, selected), name, reference)
  {
    var r := RepoAt(s.repos, n);
    CleanImagesFrame(s.images, n, r, selected, SelectedDigests(r, selected));
    if n != name && name in DeleteTagsClean(s, n, selected).images {
      assert name in s.images - {n};
    }
  }

  /**
   * The reference was first recorded at this time: by a request before which it had no row, and since which it has
   * always had one, so its repository has been known.
   */
  ghost predicate FirstRecorded(states: seq<State>, requests: seq<Request>, i: nat, name: Name, reference: Ref,
                                at: int) {
    exists j: nat :: RecordedBy(states, requests, i, name, reference, at, j)
  }

  ghost predicate RecordedBy(states: seq<State>, requests: seq<Request>, i: nat, name: Name, reference: Ref, at: int,
                             j: nat) {
    && j < i < |states| && i <= |requests| && TimeOf(requests[j]) == Some(at) && !HasRow(states[j], name, reference)
    && forall k :: j < k <= i ==> HasRow(states[k], name, reference)
  }

  /** The time a row carries is the time its reference was first recorded, in every state of every clean run. */
  lemma {:induction false} CreatedWhenFirstRecorded(states: seq<State>, requests: seq<Request>, i: nat, name: Name,
                                                    reference: Ref)
    requires IsCleanRun(states, requests) && i < |states|
    requires !HasRow(states[0], name, reference) && HasRow(states[i], name, reference)
    ensures FirstRecorded(states, requests, i, name, reference, states[i].images[name][reference].createdAt)
  {
    var s, q, s' := states[i - 1], requests[i - 1], states[i];
    assert CleanNext(s, q, s');
    var at := s'.images[name][reference].createdAt;
    if HasRow(s, name, reference) {
      CreatedWhenFirstRecorded(states, requests, i - 1, name, reference);
      StepKeepsAges(s, q, s');
      var j: nat :| RecordedBy(states, requests, i - 1, name, reference, at, j);
      assert RecordedBy(states, requests, i, name, reference, at, j);
    } else {
      NewRowDated(s, q, s', name, reference);
      assert RecordedBy(states, requests, i, name, reference, at, i - 1);
    }
  }

  /** There is only one such time. */
  lemma FirstRecordedOnce(states: seq<State>, requests: seq<Request>, i: nat, name: Name, reference: Ref, a: int,
                          b: int)
    requires FirstRecorded(states, requests, i, name, reference, a)
    requires FirstRecorded(states, requests, i, name, reference, b)
    ensures a == b
  {
    var j: nat :| RecordedBy(states, requests, i, name, reference, a, j);
    var k: nat :| RecordedBy(states, requests, i, name, reference, b, k);
    assert !HasRow(states[j], name, reference) && !HasRow(states[k], name, reference);
  }

  /** The time of a row that is there. */
  function Created(s: State, name: Name, reference: Ref): int {
    if name in s.images && reference in s.images[name] then s.images[name][reference].createdAt else 0
  }

  /** The time of a group whose rows agree with the registry is the latest of its tags' times, or zero. */
  lemma LatestOfTags(s: State, name: Name, images: seq<Image>, d: Digest)
    requires Sound(s) && AgreesAt(s, name) && name in s.repos
    requires Elements(images) == LiveImages(RowsAt(s.images, name))
    ensures var tags, at := s.repos[name].TagsOf(d), Latest(images, s.repos[name].tags.Keys, d);
            && (forall t :: t in tags ==> HasRow(s, name, Named(t)) && Created(s, name, Named(t)) <= at)
            && (at == 0 || exists t :: t in tags && HasRow(s, name, Named(t)) && Created(s, name, Named(t)) == at)
  {
    var r, rows, view := s.repos[name], RowsAt(s.images, name), View(s.images, name);
    LatestIsMaximum(images, r.tags.Keys, d);
    assert forall img :: img in images <==> img in Elements(images);
    forall t | t in r.TagsOf(d)
      ensures HasRow(s, name, Named(t)) && rows[Named(t)].createdAt <= Latest(images, r.tags.Keys, d)
    {
      assert t in view;
      assert Image(Named(t), d, rows[Named(t)].createdAt) in images;
    }
    if Latest(images, r.tags.Keys, d) != 0 {
      var img :| img in images && Eligible(img, r.tags.Keys) && img.digest == d &&
        img.createdAt == Latest(images, r.tags.Keys, d);
      assert img.reference.tag in view;
    }
  }

  /** Every tag of `e` was first recorded before some tag of `d`. */
  ghost predicate RecordedLater(states: seq<State>, requests: seq<Request>, i: nat, name: Name, r: Repo, d: Digest,
                                e: Digest) {
    exists t, at :: at > 0 && t in r.TagsOf(d) && FirstRecorded(states, requests, i, name, Named(t), at) &&
                    forall u, b :: u in r.TagsOf(e) && FirstRecorded(states, requests, i, name, Named(u), b) ==> b < at
  }

  /** Of digests first recorded at different positive times, a clean retention run keeps the later ones. */
  lemma LaterDigestsStay(states: seq<State>, requests: seq<Request>, i: nat, name: Name, keepCount: int,
                         images: seq<Image>, candidates: seq<Candidate>, s': State, d: Digest, e: Digest)
    requires IsCleanRun(states, requests) && i < |states| && name !in states[0].images
    requires Sound(states[i]) && AgreesAt(states[i], name) && name in states[i].repos
    requires "" !in states[i].repos[name].tags && keepCount > 0
    requires RetainedClean(states[i], name, keepCount, images, candidates, s')
    requires d in Live(states[i].repos[name]) && RecordedLater(states, requests, i, name, states[i].repos[name], d, e)
    ensures e in Live(RepoAt(s'.repos, name)) ==> d in Live(RepoAt(s'.repos, name))
  {
    var s, r := states[i], states[i].repos[name];
    RetentionEndState(s, name, keepCount, images, candidates, s');
    LatestOfTags(s, name, images, d);
    LatestOfTags(s, name, images, e);
    var t, at :| at > 0 && t in r.TagsOf(d) && FirstRecorded(states, requests, i, name, Named(t), at) &&
      forall u, b :: u in r.TagsOf(e) && FirstRecorded(states, requests, i, name, Named(u), b) ==> b < at;
    CreatedWhenFirstRecorded(states, requests, i, name, Named(t));
    FirstRecordedOnce(states, requests, i, name, Named(t), at, s.images[name][Named(t)].createdAt);
    forall u | u in r.TagsOf(e)
      ensures s.images[name][Named(u)].createdAt < at
    {
      CreatedWhenFirstRecorded(states, requests, i, name, Named(u));
    }
  }
}
