/** Which steps, failures and all, can take a row of the recycle bin or change it, and what a push takes of them. */
module BinRows {
  import opened Prelude
  import opened Registry
  import opened Store
  import opened PushHook
  import opened System
  import opened Lifecycle
  import opened Runs
  import opened Retries

  /**
   * A row can go when it is discarded or swept, or when a push that is filed under its reference is accepted; but
   * that takes a row which is not pending only if the push has just copied what it overwrites into it.
   */
  ghost predicate CanTake(s: State, e: Event, k: BinKey)
    requires k in s.bin
  {
    match e
    case Discarded(key) => key == k
    case Swept(items, _, _, _) => k in items
    case Pushed(name, reference, _, accepted) =>
      && accepted && FiledUnder(name, reference) == Some(Filing(k.repo, k.reference))
      && (s.bin[k].status == PendingGC || k in CopyKeys(s, e))
    case _ => false
  }

  /** It can change when it can go, when a copy is written into it, and when it is pending and its restore is tried. */
  ghost predicate CanChange(s: State, e: Event, k: BinKey)
    requires k in s.bin
  {
    CanTake(s, e, k) || k in CopyKeys(s, e) || (e.RestoreTried? && e.key == k && s.bin[k].status == PendingGC)
  }

  lemma GoneWasTaken(s: State, e: Event, s': State, k: BinKey)
    requires Step(s, e, s') && k in s.bin && k !in s'.bin
    ensures CanTake(s, e, k)
  {}

  lemma ChangedOnlySo(s: State, e: Event, s': State, k: BinKey)
    requires Step(s, e, s') && k in s.bin && !CanChange(s, e, k)
    ensures k in s'.bin && s'.bin[k] == s.bin[k]
  {
    if k !in s'.bin {
      GoneWasTaken(s, e, s', k);
    } else {
      RowAfterStep(s, e, s', k);
    }
  }

  lemma RowNext(states: seq<State>, events: seq<Event>, i: nat, k: BinKey)
    requires IsRun(states, events) && i < |events| && k in states[i].bin && !CanChange(states[i], events[i], k)
    ensures k in states[i + 1].bin && states[i + 1].bin[k] == states[i].bin[k]
  {
    assert Step(states[i], events[i], states[i + 1]);
    ChangedOnlySo(states[i], events[i], states[i + 1], k);
  }

  /** No step from `i` to `j` can change the row. */
  ghost predicate LeftAlone(states: seq<State>, events: seq<Event>, i: nat, j: nat, k: BinKey) {
    && i <= j < |states| && |states| == |events| + 1
    && forall n :: i <= n < j && k in states[n].bin ==> !CanChange(states[n], events[n], k)
  }

  /** Over a run, a row stays as it is, to the last field, until a step that can change it. */
  lemma {:induction false} RowStays(states: seq<State>, events: seq<Event>, i: nat, j: nat, k: BinKey)
    requires IsRun(states, events) && LeftAlone(states, events, i, j, k) && k in states[i].bin
    ensures k in states[j].bin && states[j].bin[k] == states[i].bin[k]
  {
    if i < j {
      RowStays(states, events, i, j - 1, k);
      RowNext(states, events, j - 1, k);
    }
  }

  /**
   * An accepted push in which nothing failed: of the rows there were, exactly the pending ones of its reference
   * go, and the one of what it overwrites if that is copied first; every other row is as it was.
   */
  lemma PushTakesPending(s: State, name: Name, reference: Ref, m: Manifest, recycle: bool, now: int, k: BinKey)
    requires Sound(s) && RepoAt(s.repos, name).Accepts(reference, m) && k in s.bin
    ensures var bin := PushClean(s, name, reference, m, recycle, now).bin;
            && (k in bin ==> bin[k] == s.bin[k])
            && (k !in bin <==>
                && FiledUnder(name, reference) == Some(Filing(k.repo, k.reference))
                && (s.bin[k].status == PendingGC ||
                    (recycle && RepoAt(s.repos, k.repo).Resolve(k.reference) == Some(k.digest))))
  {}
}
