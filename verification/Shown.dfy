/** What users are shown: which steps, failures and all, can take a row of the images table from them. */
module Shown {
  import opened Registry
  import opened Store
  import opened DeleteSpec
  import opened PushHook
  import opened Table
  import opened System
  import opened Lifecycle
  import opened Runs

  ghost predicate IsShown(s: State, name: Name, reference: Ref) {
    reference in RowsAt(s.images, name) && !RowsAt(s.images, name)[reference].deleted
  }

  /**
   * A delete that strikes the row: it untagged the reference and said so, or it deleted the digest that the row
   * shows, or the repository has no tag left.
   */
  ghost predicate Strikes(s: State, e: Event, s': State, name: Name, reference: Ref)
    requires IsShown(s, name, reference)
  {
    && (e.TagsDeleted? || e.DigestDeleted?) && e.name == name
    && var d := RowsAt(s.images, name)[reference].digest;
       || RepoAt(s'.repos, name).tags == map[]
       || (e.TagsDeleted? && (d in e.trace.kept || exists x ::
             x in e.results && x.ok && x.action == UntagAction && x.reference == reference))
       || (e.DigestDeleted? && e.deleted && d == e.digest)
  }

  lemma RecordsKeepShown(before: Images, after: Images, name: Name, reference: Ref, d: Digest, n: Name, ref: Ref)
    requires Records(before, after, name, reference, d)
    requires ref in RowsAt(before, n) && !RowsAt(before, n)[ref].deleted
    ensures ref in RowsAt(after, n) && !RowsAt(after, n)[ref].deleted
    ensures n != name || ref != reference ==> RowsAt(after, n)[ref] == RowsAt(before, n)[ref]
  {
    if after !in {before, EnsureRepo(before, name)} {
      if n != name {
        assert n in before - {name} && n in after - {name};
      } else if ref != reference {
        assert ref in RowsAt(before, name) - {reference} && ref in after[name] - {reference};
      }
    }
  }

  /** Whatever calls and statements fail in a step, a row that was shown still is, unless the step strikes it. */
  lemma StaysShown(s: State, e: Event, s': State, name: Name, reference: Ref)
    requires Step(s, e, s') && IsShown(s, name, reference) && !Strikes(s, e, s', name, reference)
    ensures IsShown(s', name, reference)
  {
    match e
    case Pushed(n, ref, m, accepted) =>
      var filed := FiledUnder(n, ref);
      if accepted && filed.Some? {
        RecordsKeepShown(s.images, s'.images, RowName(filed.value.repo), filed.value.reference, DigestOf(m), name,
                         reference);
      }
    case TagsDeleted(n, selected, results, trace, answered) =>
      ShownStays(s.images, s'.images, n, NO_MARKS, MarksOf(results, trace), RepoAt(s'.repos, n).tags == map[], name,
                 reference);
    case DigestDeleted(n, d, deleted, snapped) =>
      ShownStays(s.images, s'.images, n, NO_MARKS, if deleted then Marks({}, {d}) else NO_MARKS,
                 RepoAt(s'.repos, n).tags == map[], name, reference);
    case RestoreTried(k, outcome) =>
      if outcome == Done {
        RecordsKeepShown(s.images, s'.images, k.repo, k.reference, k.digest, name, reference);
      }
    case Browsed(n, ref, found) =>
      if found {
        RecordsKeepShown(s.images, s'.images, n, ref, RepoAt(s.repos, n).Resolve(ref).value, name, reference);
      }
    case _ =>
  }

  /** So over a run it is shown until a delete strikes it. */
  lemma {:induction false} ShownUntilStruck(states: seq<State>, events: seq<Event>, i: nat, j: nat, name: Name,
                                            reference: Ref)
    requires IsRun(states, events) && i <= j < |states| && IsShown(states[i], name, reference)
    requires forall n :: i <= n < j && IsShown(states[n], name, reference) ==>
               !Strikes(states[n], events[n], states[n + 1], name, reference)
    ensures IsShown(states[j], name, reference)
  {
    if i < j {
      ShownUntilStruck(states, events, i, j - 1, name, reference);
      StaysShown(states[j - 1], events[j - 1], states[j], name, reference);
    }
  }
}
