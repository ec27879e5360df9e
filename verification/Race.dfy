/** A restore from the recycle bin while a collection sweeps the rows of the same repository. */
module Race {
  import opened Prelude
  import opened Registry
  import opened Store
  import opened SweepCalls

  /** How far the restore is, with the manifest it has read. */
  datatype Restorer =
    | Checking
    | Looking(m: Manifest)
    | Fetching(m: Manifest)
    | Copying(m: Manifest, current: Manifest)
    | Putting(m: Manifest)
    | Expiring
    | Marking
    | Finished(through: bool)

  type State = World<Restorer>

  /** The restore of row `k`: one call or statement per step. */
  ghost predicate RestoreStep(k: BinKey, s: State, answered: bool, s': State) {
    var d := s.repo.Resolve(k.reference);
    match s.other
    case Checking =>
      s' == s.(other := if answered && k in s.bin && s.bin[k].status == PendingGC then Looking(s.bin[k].manifest)
                        else Finished(false))
    case Looking(m) =>
      s' == s.(other := if answered && d.Some? && d.value != k.digest then Fetching(m) else Putting(m))
    case Fetching(m) =>
      s' == s.(other := if answered && d.Some? && d.value in s.repo.manifests
                          then Copying(m, s.repo.manifests[d.value]) else Putting(m))
    case Copying(m, current) =>
      s' == s.(bin := if answered then AddItem(s.bin, BinKey(k.repo, k.reference, DigestOf(current)), current)
                      else s.bin,
               other := Putting(m))
    case Putting(m) =>
      if answered && s.repo.Accepts(k.reference, m)
        then s' == s.(repo := s.repo.Put(k.reference, m), other := Marking)
        else s' in {s.(other := Expiring), s.(other := Finished(false))}
    case Expiring => s' == s.(bin := if answered then SetStatus(s.bin, k, GCExpired) else s.bin,
                                 other := Finished(false))
    case Marking => s' == s.(bin := if answered then SetStatus(s.bin, k, Restored) else s.bin,
                                other := Finished(true))
    case Finished(_) => false
  }

  ghost predicate Start(s: State) {
    s.repo.Valid() && BinSound(s.bin) && s.sweeper == Fresh(s.sweeper.rows) && s.other == Checking
  }

  /** The two run against each other, with any calls failing. */
  ghost predicate IsRace(k: BinKey, states: seq<State>, moves: seq<Move>) {
    && IsSweepRun(states, moves) && Start(states[0])
    && forall i :: 0 <= i < |moves| && moves[i].Other? ==>
         RestoreStep(k, states[i], moves[i].answered, states[i + 1])
  }

  // ---- What every call keeps ----

  /** The manifest to push is that of the row, and a copy is only taken of another one. */
  ghost predicate Inv(k: BinKey, s: State) {
    && s.repo.Valid() && BinSound(s.bin)
    && (s.other.Looking? || s.other.Fetching? || s.other.Copying? || s.other.Putting? ==>
          DigestOf(s.other.m) == k.digest && s.other.m.body != "")
    && (s.other.Fetching? ==> s.repo.Resolve(k.reference) != Some(k.digest))
    && (s.other.Copying? ==> DigestOf(s.other.current) != k.digest && s.other.current.body != "")
  }

  lemma SweepKeepsInv(k: BinKey, s: State, answered: bool, s': State)
    requires Inv(k, s) && SweepStep(s, answered, s') && k.reference.Named?
    ensures Inv(k, s')
  {
    if s.sweeper.at.Turn? && !Spared(s.sweeper) && s.sweeper.live.Some? && answered {
      RemoveKeepsValid(s.repo, s.sweeper.NextDigest());
    }
  }

  lemma RestoreKeepsInv(k: BinKey, s: State, answered: bool, s': State)
    requires Inv(k, s) && RestoreStep(k, s, answered, s') && k.digest != Empty && k.reference.Named?
    ensures Inv(k, s')
  {
    if s.other.Putting? && s'.other == Marking {
      PutKeepsValid(s.repo, k.reference, s.other.m);
    }
  }

  lemma {:induction false} InvUpTo(k: BinKey, states: seq<State>, moves: seq<Move>, j: nat)
    requires IsRace(k, states, moves) && k.digest != Empty && k.reference.Named? && j < |states|
    ensures Inv(k, states[j])
  {
    if j > 0 {
      InvUpTo(k, states, moves, j - 1);
      var s, m, s' := states[j - 1], moves[j - 1], states[j];
      assert StepOf(s, m, s');
      if m.Sweep? {
        SweepKeepsInv(k, s, m.answered, s');
      } else {
        RestoreKeepsInv(k, s, m.answered, s');
      }
    }
  }

  // ---- When the restored tag is lost ----

  /** The tag points at the digest of the row, and its manifest is there. */
  ghost predicate Back(k: BinKey, s: State) {
    k.reference.Named? && k.reference.tag in s.repo.TagsOf(k.digest) && k.digest in s.repo.manifests
  }

  /**
   * A row about the digest is still to come, the sweep has not seen the digest and will not see it on
   * another tag, and it will not look at this tag any more.
   */
  ghost predicate InWindow(k: BinKey, s: State) {
    k.reference.Named? && WillDelete(k.digest, s) && PastTag(k.reference.tag, s.sweeper)
  }

  /** The push of the restore, accepted. */
  predicate Pushes(s: State, m: Move, s': State) {
    m == Other(true) && s.other.Putting? && s'.other == Marking
  }

  lemma PushBringsBack(k: BinKey, s: State, s': State)
    requires Inv(k, s) && RestoreStep(k, s, true, s') && Pushes(s, Other(true), s') && k.reference.Named?
    ensures Back(k, s') && s'.sweeper == s.sweeper
    ensures WillDelete(k.digest, s') <==> InWindow(k, s)
  {
    assert s'.repo.TagsOf(k.digest) == s.repo.TagsOf(k.digest) + {k.reference.tag};
    TaggedSeenIff(s, s', k.reference.tag, k.digest);
  }

  lemma {:induction false} DoneAfterPush(k: BinKey, states: seq<State>, moves: seq<Move>, i: nat, j: nat)
    requires IsRace(k, states, moves) && i < j < |states| && Pushes(states[i], moves[i], states[i + 1])
    ensures states[j].other in {Marking, Finished(true)}
  {
    if j > i + 1 {
      DoneAfterPush(k, states, moves, i, j - 1);
      assert StepOf(states[j - 1], moves[j - 1], states[j]);
    }
  }

  /** After its push the restore leaves the registry alone. */
  lemma QuietAfterPush(k: BinKey, states: seq<State>, moves: seq<Move>, i: nat)
    requires IsRace(k, states, moves) && i < |moves| && Pushes(states[i], moves[i], states[i + 1])
    ensures LeftAlone(k.digest, states, moves, i + 1, |moves|)
  {
    forall n | i < n < |moves| && moves[n].Other?
      ensures Keeps(k.digest, states[n], states[n + 1])
    {
      DoneAfterPush(k, states, moves, i, n);
    }
  }

  /**
   * A restore that went through is undone by the sweep exactly if, at its push, the sweep is past the tag, has
   * not seen the digest in use, and has a row about the digest still to come, be it that of another tag. Then
   * every tag of the digest is gone, with the manifest; otherwise the tag is back for good. Calls before the
   * push may have failed.
   */
  lemma RestoreLostIff(k: BinKey, states: seq<State>, moves: seq<Move>, i: nat)
    requires IsRace(k, states, moves) && k.digest != Empty && k.reference.Named?
    requires i < |moves| && Pushes(states[i], moves[i], states[i + 1])
    requires states[|moves|].sweeper.rows == [] && Answered(moves, i + 1, |moves|)
    ensures if InWindow(k, states[i]) then Gone(k.digest, states[|moves|]) else Back(k, states[|moves|])
  {
    InvUpTo(k, states, moves, i);
    assert StepOf(states[i], moves[i], states[i + 1]);
    PushBringsBack(k, states[i], states[i + 1]);
    QuietAfterPush(k, states, moves, i);
    LostIfPlanned(k.digest, states, moves, i + 1);
  }

  /** Whatever calls fail: it is undone exactly if the sweep deletes the digest after the push. */
  lemma RestoreLostIffDeleted(k: BinKey, states: seq<State>, moves: seq<Move>, i: nat)
    requires IsRace(k, states, moves) && k.digest != Empty && k.reference.Named?
    requires i < |moves| && Pushes(states[i], moves[i], states[i + 1])
    ensures if exists n :: i < n < |moves| && Deletes(states[n], moves[n], k.digest)
              then Gone(k.digest, states[|moves|]) else Back(k, states[|moves|])
  {
    InvUpTo(k, states, moves, i);
    assert StepOf(states[i], moves[i], states[i + 1]);
    PushBringsBack(k, states[i], states[i + 1]);
    QuietAfterPush(k, states, moves, i);
    LostIfDeleted(k.digest, states, moves, i + 1, |moves|);
  }

  /** No call brings the row back, so a sweep whose calls are answered takes it, restored or not. */
  lemma {:induction false} RowIsDropped(k: BinKey, states: seq<State>, moves: seq<Move>, j: nat)
    requires IsRace(k, states, moves) && k.digest != Empty && k.reference.Named? && j < |states|
    requires Answered(moves, 0, j)
    ensures k in states[0].sweeper.rows ==> k !in states[j].bin || k in states[j].sweeper.rows
  {
    if j > 0 {
      RowIsDropped(k, states, moves, j - 1);
      InvUpTo(k, states, moves, j - 1);
      var s, m, s' := states[j - 1], moves[j - 1], states[j];
      assert StepOf(s, m, s');
      if m.Sweep? {
        assert s.sweeper.rows == [s.sweeper.rows[0]] + s.sweeper.rows[1..];
      }
    }
  }

  // ---- When a restore is safe ----

  /** Where the two can be when all calls are answered. */
  ghost predicate Reached(k: BinKey, start: State, s: State) {
    exists states, moves :: ReachedBy(k, start, states, moves, s)
  }

  ghost predicate ReachedBy(k: BinKey, start: State, states: seq<State>, moves: seq<Move>, s: State) {
    && IsRace(k, states, moves) && states[0] == start && states[|moves|] == s
    && forall m :: m in moves ==> m.answered
  }

  lemma Begins(k: BinKey, s: State)
    requires Start(s)
    ensures Reached(k, s, s)
  {
    assert ReachedBy(k, s, [s], [], s);
  }

  lemma Goes(k: BinKey, start: State, s: State, m: Move, s': State)
    requires Reached(k, start, s) && m.answered && StepOf(s, m, s') && (m.Other? ==> RestoreStep(k, s, true, s'))
    ensures Reached(k, start, s')
  {
    var states, moves :| ReachedBy(k, start, states, moves, s);
    assert ReachedBy(k, start, states + [s'], moves + [m], s');
  }

  lemma {:induction false} SweepsAlong(k: BinKey, start: State, states: seq<State>, moves: seq<Move>, j: nat)
    requires j < |states| && SweepsOn(states[0], states, moves) && Reached(k, start, states[0])
    ensures Reached(k, start, states[j])
  {
    if j > 0 {
      SweepsAlong(k, start, states, moves, j - 1);
      assert StepOf(states[j - 1], moves[j - 1], states[j]) && moves[j - 1] in moves;
      Goes(k, start, states[j - 1], Sweep(true), states[j]);
    }
  }

  /** Both are through, and the restore has pushed. */
  predicate Ended(s: State) {
    s.sweeper.rows == [] && s.other == Finished(true)
  }

  /** If the sweep is not going to delete the digest, nothing that the two do makes it. */
  ghost predicate StaysSafe(k: BinKey, s: State) {
    !WillDelete(k.digest, s) && (s.other in {Marking, Finished(true)} ==> Back(k, s))
  }

  lemma StaysSafeNext(k: BinKey, s: State, m: Move, s': State)
    requires k.reference.Named? && Inv(k, s) && StaysSafe(k, s) && m.answered && StepOf(s, m, s')
    requires m.Other? ==> RestoreStep(k, s, true, s')
    ensures StaysSafe(k, s')
  {
    if m.Sweep? {
      StepDeletes(s, true, s', k.digest);
      PlanStays(s, s', k.digest);
    } else if Pushes(s, m, s') {
      PushBringsBack(k, s, s');
    } else {
      OthersKeepPlan(s, s', k.digest);
    }
  }

  lemma {:induction false} StaysSafeUpTo(k: BinKey, states: seq<State>, moves: seq<Move>, j: nat)
    requires IsRace(k, states, moves) && k.digest != Empty && k.reference.Named? && j < |states|
    requires !WillDelete(k.digest, states[0]) && forall m :: m in moves ==> m.answered
    ensures StaysSafe(k, states[j])
  {
    if j > 0 {
      StaysSafeUpTo(k, states, moves, j - 1);
      InvUpTo(k, states, moves, j - 1);
      assert StepOf(states[j - 1], moves[j - 1], states[j]) && moves[j - 1] in moves;
      StaysSafeNext(k, states[j - 1], moves[j - 1], states[j]);
    }
  }

  /** The restore can get ready to push before the sweep does anything. */
  lemma ReachesPush(k: BinKey, start: State) returns (ready: State)
    requires Start(start) && k in start.bin && start.bin[k].status == PendingGC
    ensures Reached(k, start, ready) && ready.repo == start.repo && ready.sweeper == start.sweeper
    ensures ready.other == Putting(start.bin[k].manifest)
    ensures start.repo.Resolve(k.reference).None? ==> ready.bin == start.bin
  {
    var m, d := start.bin[k].manifest, start.repo.Resolve(k.reference);
    var looking := start.(other := Looking(m));
    Begins(k, start);
    Goes(k, start, start, Other(true), looking);
    ready := start.(other := Putting(m));
    if d.Some? && d.value != k.digest {
      var fetching := start.(other := Fetching(m));
      Goes(k, start, looking, Other(true), fetching);
      if d.value in start.repo.manifests {
        ready := ReachesCopy(k, start, fetching, m, start.repo.manifests[d.value]);
      } else {
        Goes(k, start, fetching, Other(true), ready);
      }
    } else {
      Goes(k, start, looking, Other(true), ready);
    }
  }

  lemma ReachesCopy(k: BinKey, start: State, s: State, m: Manifest, current: Manifest) returns (ready: State)
    requires Reached(k, start, s) && RestoreStep(k, s, true, s.(other := Copying(m, current)))
    ensures Reached(k, start, ready)
    ensures ready.repo == s.repo && ready.sweeper == s.sweeper && ready.other == Putting(m)
  {
    var copying := s.(other := Copying(m, current));
    Goes(k, start, s, Other(true), copying);
    ready := copying.(bin := AddItem(s.bin, BinKey(k.repo, k.reference, DigestOf(current)), current),
                      other := Putting(m));
    Goes(k, start, copying, Other(true), ready);
  }

  /** From a push in the window on, the sweep can do its work, and what was restored is gone. */
  lemma LosesPush(k: BinKey, start: State, s: State)
    requires Reached(k, start, s) && Inv(k, s) && k.reference.Named? && k.digest != Empty
    requires s.other.Putting? && InWindow(k, s)
    ensures exists end :: Reached(k, start, end) && Ended(end) && Gone(k.digest, end)
  {
    var pushed := s.(repo := s.repo.Put(k.reference, s.other.m), other := Marking);
    Goes(k, start, s, Other(true), pushed);
    PushBringsBack(k, s, pushed);
    var marked := pushed.(bin := SetStatus(s.bin, k, Restored), other := Finished(true));
    Goes(k, start, pushed, Other(true), marked);
    OthersKeepPlan(pushed, marked, k.digest);
    var states, moves := CanFinish(marked);
    SweepsAlong(k, start, states, moves, |moves|);
    assert forall n :: 0 <= n < |moves| ==> moves[n] in moves;
    LostIfPlanned(k.digest, states, moves, 0);
  }

  /**
   * A restore is safe, however the calls of the two fall, exactly if no tag being on the digest and a row
   * about it being among those to be swept do not come together when they start.
   */
  lemma RestoreSafeIff(k: BinKey, start: State)
    requires Start(start) && k.digest != Empty && k.reference.Named?
    requires k in start.bin && start.bin[k].status == PendingGC
    ensures (forall s :: Reached(k, start, s) && Ended(s) ==> Back(k, s)) <==>
            !(start.repo.TagsOf(k.digest) == {} && exists l :: l in start.sweeper.rows && l.digest == k.digest)
  {
    var d := k.digest;
    if WillDelete(d, start) {
      var ready := ReachesPush(k, start);
      var states, moves := CanLookUp(ready, d);
      SweepsAlong(k, start, states, moves, |moves|);
      var late := states[|moves|];
      var run, calls :| ReachedBy(k, start, run, calls, late);
      InvUpTo(k, run, calls, |calls|);
      LosesPush(k, start, late);
    } else {
      forall s | Reached(k, start, s) && Ended(s)
        ensures Back(k, s)
      {
        var states, moves :| ReachedBy(k, start, states, moves, s);
        StaysSafeUpTo(k, states, moves, |moves|);
      }
    }
  }

  // ---- Two runs in which it is lost ----

  /** Both went through, and what was restored is gone, row and all. */
  ghost predicate EndsLost(k: BinKey, s: State) {
    Ended(s) && Gone(k.digest, s) && k !in s.bin
  }

  /** Pending rows of one manifest that the registry does not have. */
  function Opening(rows: seq<BinKey>, m: Manifest): State {
    World(EMPTY_REPO, map k | k in rows :: BinRow(PendingGC, m, 0), Fresh(rows), Checking)
  }

  /** The lookups of the sweep are done, and the restore is about to push. */
  function AboutToPush(rows: seq<BinKey>, m: Manifest): State {
    Opening(rows, m).(sweeper := Sweeper(rows, Some({}), Turn), other := Putting(m))
  }

  lemma ReachesWindow(rows: seq<BinKey>, k: BinKey, m: Manifest)
    requires k in rows && m.body != "" && k.reference.Named?
    requires forall l :: l in rows ==> l.digest == DigestOf(m) && l.reference.Named?
    ensures Reached(k, Opening(rows, m), AboutToPush(rows, m))
  {
    var none: seq<Tag> := [];
    assert Distinct(none) && Elements(none) == EMPTY_REPO.tags.Keys;
    var start, end := Opening(rows, m), AboutToPush(rows, m);
    var ready := ReachesPush(k, start);
    assert ready.bin == start.bin;
    var looked := ready.(sweeper := Sweeper(rows, None, LookingUp([], {})));
    Goes(k, start, ready, Sweep(true), looked);
    Goes(k, start, looked, Sweep(true), end);
  }

  /** If the last row is still to be swept once the push is through, what it brought back goes. */
  lemma LastRowTakesIt(k: BinKey, start: State, s: State, l: BinKey)
    requires Reached(k, start, s) && s.sweeper == Sweeper([l], Some({}), Turn) && s.other == Marking
    requires l.digest == k.digest != Empty && (k == l || k !in s.bin)
    ensures exists end :: Reached(k, start, end) && EndsLost(k, end)
  {
    var s1 := s.(repo := s.repo.Remove(k.digest), sweeper := s.sweeper.(at := Dropping));
    var s2 := s1.(bin := SetStatus(s1.bin, k, Restored), other := Finished(true));
    var s3 := s2.(bin := s2.bin - {l}, sweeper := s2.sweeper.Next());
    Goes(k, start, s, Sweep(true), s1);
    Goes(k, start, s1, Other(true), s2);
    Goes(k, start, s2, Sweep(true), s3);
    assert EndsLost(k, s3);
  }

  /** One row: the restore pushes after the lookups and before the delete. */
  lemma RestoreCanBeLost(k: BinKey, m: Manifest)
    requires m.body != "" && k.digest == DigestOf(m) && k.reference.Named?
    ensures exists s :: Reached(k, Opening([k], m), s) && EndsLost(k, s)
  {
    var start, ready := Opening([k], m), AboutToPush([k], m);
    var pushed := ready.(repo := EMPTY_REPO.Put(k.reference, m), other := Marking);
    ReachesWindow([k], k, m);
    Goes(k, start, ready, Other(true), pushed);
    LastRowTakesIt(k, start, pushed, k);
  }

  /** Two rows: the restore of the first pushes after its own delete, and the delete for the second takes it. */
  lemma SiblingRowCanLoseIt(k: BinKey, l: BinKey, m: Manifest)
    requires m.body != "" && k.digest == DigestOf(m) == l.digest && k.reference.Named? && l.reference.Named? && k != l
    ensures exists s :: Reached(k, Opening([k, l], m), s) && EndsLost(k, s)
  {
    var rows := [k, l];
    var start, ready := Opening(rows, m), AboutToPush(rows, m);
    var deleted := ready.(sweeper := ready.sweeper.(at := Dropping));
    var pushed := deleted.(repo := EMPTY_REPO.Put(k.reference, m), other := Marking);
    var dropped := pushed.(bin := pushed.bin - {k}, sweeper := pushed.sweeper.Next());
    ReachesWindow(rows, k, m);
    assert EMPTY_REPO.Remove(k.digest) == EMPTY_REPO;
    Goes(k, start, ready, Sweep(true), deleted);
    Goes(k, start, deleted, Other(true), pushed);
    Goes(k, start, pushed, Sweep(true), dropped);
    LastRowTakesIt(k, start, dropped, l);
  }
}
