/** Removing some tags of a digest while a collection sweeps the rows of the same repository. */
module UntagRace {
  import opened Prelude
  import opened Registry
  import opened SweepCalls

  /** What is deleted, and the tags to be pushed again, as the delete has looked them up. */
  datatype Job = Job(m: Manifest, survivors: seq<Tag>) {
    function Digest(): Digest {
      DigestOf(m)
    }

    ghost predicate Valid() {
      m.body != "" && Distinct(survivors)
    }
  }

  /** How far it is: before its delete, pushing survivors, or reporting which were pushed and which not. */
  datatype Untagger = Deleting | Repushing(left: seq<Tag>, pushed: set<Tag>, failed: set<Tag>)
    | Reported(pushed: set<Tag>, failed: set<Tag>) | Refused

  type State = World<Untagger>

  ghost predicate UntagStep(job: Job, s: State, answered: bool, s': State) {
    match s.other
    case Deleting =>
      if answered && job.Digest() in s.repo.manifests
        then s' == s.(repo := s.repo.Remove(job.Digest()), other := Repushing(job.survivors, {}, {}))
        else s' == s.(other := Refused)
    case Repushing(left, pushed, failed) =>
      if left == [] then s' == s.(other := Reported(pushed, failed))
      else if answered
        then s' == s.(repo := s.repo.Put(Named(left[0]), job.m),
                      other := Repushing(left[1..], pushed + {left[0]}, failed))
        else s' == s.(other := Repushing(left[1..], pushed, failed + {left[0]}))
    case _ => false
  }

  ghost predicate Start(s: State) {
    s.other == Deleting && s.sweeper == Fresh(s.sweeper.rows)
  }

  /** The two run against each other, with any calls failing. */
  ghost predicate IsRace(job: Job, states: seq<State>, moves: seq<Move>) {
    && IsSweepRun(states, moves) && Start(states[0])
    && forall i :: 0 <= i < |moves| && moves[i].Other? ==>
         UntagStep(job, states[i], moves[i].answered, states[i + 1])
  }

  predicate Pushing(u: Untagger) {
    u.Repushing? || u.Reported?
  }

  // ---- While it pushes ----

  /** Every survivor is pushed, failed or still to come. */
  ghost predicate Accounted(job: Job, u: Untagger) {
    Pushing(u) ==>
      && u.pushed !! u.failed
      && var left := if u.Repushing? then u.left else [];
         && Distinct(left) && Elements(left) !! (u.pushed + u.failed)
         && Elements(job.survivors) == u.pushed + u.failed + Elements(left)
  }

  lemma StepKeepsAccount(job: Job, s: State, answered: bool, s': State)
    requires job.Valid() && Accounted(job, s.other) && UntagStep(job, s, answered, s')
    ensures Accounted(job, s'.other)
  {
    if s.other.Repushing? && s.other.left != [] {
      var left := s.other.left;
      assert left == [left[0]] + left[1..];
      assert Elements(left) == {left[0]} + Elements(left[1..]);
    }
  }

  lemma {:induction false} AccountedUpTo(job: Job, states: seq<State>, moves: seq<Move>, j: nat)
    requires job.Valid() && IsRace(job, states, moves) && j < |states|
    ensures Accounted(job, states[j].other)
  {
    if j > 0 {
      AccountedUpTo(job, states, moves, j - 1);
      assert StepOf(states[j - 1], moves[j - 1], states[j]);
      if moves[j - 1].Other? {
        StepKeepsAccount(job, states[j - 1], moves[j - 1].answered, states[j]);
      }
    }
  }

  /** The sweep deletes the digest after a survivor has been pushed, and before the last has. */
  predicate Interrupted(job: Job, states: seq<State>, moves: seq<Move>, n: nat) {
    && n < |moves| < |states| && Pushing(states[n].other) && states[n].other.pushed != {}
    && Deletes(states[n], moves[n], job.Digest())
  }

  /** The digest has the tags that were pushed, or, after an interruption, not all of them. */
  ghost predicate Tagged(job: Job, s: State, interrupted: bool) {
    Pushing(s.other) ==>
      if interrupted then s.repo.TagsOf(job.Digest()) < s.other.pushed
      else s.repo.TagsOf(job.Digest()) == s.other.pushed
  }

  lemma PushTags(job: Job, s: State, answered: bool, s': State, interrupted: bool)
    requires Tagged(job, s, interrupted) && UntagStep(job, s, answered, s')
    requires Accounted(job, s.other) && (interrupted ==> Pushing(s.other))
    ensures Tagged(job, s', interrupted)
  {
    var d := job.Digest();
    if s.other.Deleting? {
      assert s'.repo.TagsOf(d) == {} || s'.other == Refused;
    } else if s.other.Repushing? && s.other.left != [] && answered {
      var t := s.other.left[0];
      assert s'.repo.TagsOf(d) == s.repo.TagsOf(d) + {t};
      assert t in Elements(s.other.left);
    }
  }

  lemma TaggedNext(job: Job, s: State, m: Move, s': State, before: bool)
    requires StepOf(s, m, s') && (m.Other? ==> UntagStep(job, s, m.answered, s'))
    requires Tagged(job, s, before) && Accounted(job, s.other) && (before ==> Pushing(s.other))
    ensures var after := before || (Pushing(s.other) && s.other.pushed != {} && Deletes(s, m, job.Digest()));
            Tagged(job, s', after) && (after ==> Pushing(s'.other))
  {
    if m.Sweep? {
      StepDeletes(s, m.answered, s', job.Digest());
    } else {
      PushTags(job, s, m.answered, s', before);
    }
  }

  lemma {:induction false} TaggedUpTo(job: Job, states: seq<State>, moves: seq<Move>, j: nat)
    requires job.Valid() && IsRace(job, states, moves) && j < |states|
    ensures Tagged(job, states[j], exists n :: 0 <= n < j && Interrupted(job, states, moves, n))
    ensures (exists n :: 0 <= n < j && Interrupted(job, states, moves, n)) ==> Pushing(states[j].other)
  {
    if j > 0 {
      TaggedUpTo(job, states, moves, j - 1);
      AccountedUpTo(job, states, moves, j - 1);
      var before := exists n :: 0 <= n < j - 1 && Interrupted(job, states, moves, n);
      var after := exists n :: 0 <= n < j && Interrupted(job, states, moves, n);
      assert after <==> before || Interrupted(job, states, moves, j - 1);
      TaggedNext(job, states[j - 1], moves[j - 1], states[j], before);
    }
  }

  // ---- What is left in the end ----

  lemma {:induction false} StaysReported(job: Job, states: seq<State>, moves: seq<Move>, u: nat, j: nat)
    requires IsRace(job, states, moves) && u <= j < |states| && states[u].other.Reported?
    ensures states[j].other == states[u].other
    ensures LeftAlone(job.Digest(), states, moves, u, j)
  {
    if u < j {
      StaysReported(job, states, moves, u, j - 1);
      assert StepOf(states[j - 1], moves[j - 1], states[j]);
    }
  }

  /**
   * The survivors that were pushed still point at the digest in the end exactly if the sweep did not delete it
   * between two of the pushes, and was not still going to when the last was through: past its tags, without
   * having seen it in use, and with a row about it to come. If it was, all of them are gone. The report
   * depends on the pushes alone.
   */
  lemma SurvivorsKeptIff(job: Job, states: seq<State>, moves: seq<Move>, u: nat)
    requires job.Valid() && IsRace(job, states, moves) && u < |states| && states[u].other.Reported?
    requires states[|moves|].sweeper.rows == [] && Answered(moves, u, |moves|)
    ensures var d, end := job.Digest(), states[|moves|];
            && end.other == states[u].other
            && end.other.pushed + end.other.failed == Elements(job.survivors) && end.other.pushed !! end.other.failed
            && (end.repo.TagsOf(d) == end.other.pushed <==>
                || end.other.pushed == {}
                || !(WillDelete(d, states[u]) || exists n :: 0 <= n < u && Interrupted(job, states, moves, n)))
            && (WillDelete(d, states[u]) ==> Gone(d, end))
  {
    AccountedUpTo(job, states, moves, u);
    TaggedUpTo(job, states, moves, u);
    StaysReported(job, states, moves, u, |moves|);
    LostIfPlanned(job.Digest(), states, moves, u);
  }

  // ---- When it is safe ----

  /** Where the two can be when all calls are answered. */
  ghost predicate Reached(job: Job, start: State, s: State) {
    exists states, moves :: ReachedBy(job, start, states, moves, s)
  }

  ghost predicate ReachedBy(job: Job, start: State, states: seq<State>, moves: seq<Move>, s: State) {
    && IsRace(job, states, moves) && states[0] == start && states[|moves|] == s
    && forall m :: m in moves ==> m.answered
  }

  lemma Begins(job: Job, s: State)
    requires Start(s)
    ensures Reached(job, s, s)
  {
    assert ReachedBy(job, s, [s], [], s);
  }

  lemma Goes(job: Job, start: State, s: State, m: Move, s': State)
    requires Reached(job, start, s) && m.answered && StepOf(s, m, s') && (m.Other? ==> UntagStep(job, s, true, s'))
    ensures Reached(job, start, s')
  {
    var states, moves :| ReachedBy(job, start, states, moves, s);
    assert ReachedBy(job, start, states + [s'], moves + [m], s');
  }

  lemma {:induction false} SweepsAlong(job: Job, start: State, states: seq<State>, moves: seq<Move>, j: nat)
    requires j < |states| && SweepsOn(states[0], states, moves) && Reached(job, start, states[0])
    ensures Reached(job, start, states[j])
  {
    if j > 0 {
      SweepsAlong(job, start, states, moves, j - 1);
      assert StepOf(states[j - 1], moves[j - 1], states[j]) && moves[j - 1] in moves;
      Goes(job, start, states[j - 1], Sweep(true), states[j]);
    }
  }

  /** Both are through. */
  predicate Ended(s: State) {
    s.sweeper.rows == [] && s.other.Reported?
  }

  ghost predicate Kept(job: Job, s: State) {
    s.other.Reported? && s.repo.TagsOf(job.Digest()) == s.other.pushed
  }

  /** With its lookups done, the sweep can wait until every survivor is pushed. */
  lemma {:induction false} PushesAll(job: Job, start: State, s: State) returns (s': State)
    requires job.Valid() && Reached(job, start, s) && s.other.Repushing?
    requires s.sweeper.live.Some? && !s.sweeper.at.LookingUp? && WillDelete(job.Digest(), s)
    ensures Reached(job, start, s') && s'.sweeper == s.sweeper && WillDelete(job.Digest(), s')
    ensures s'.other == Reported(s.other.pushed + Elements(s.other.left), s.other.failed)
    decreases |s.other.left|
  {
    var Repushing(left, pushed, failed) := s.other;
    if left == [] {
      s' := s.(other := Reported(pushed, failed));
      Goes(job, start, s, Other(true), s');
      OthersKeepPlan(s, s', job.Digest());
    } else {
      var next := s.(repo := s.repo.Put(Named(left[0]), job.m),
                     other := Repushing(left[1..], pushed + {left[0]}, failed));
      Goes(job, start, s, Other(true), next);
      assert next.repo.TagsOf(job.Digest()) == s.repo.TagsOf(job.Digest()) + {left[0]};
      TaggedSeenIff(s, next, left[0], job.Digest());
      s' := PushesAll(job, start, next);
      assert left == [left[0]] + left[1..];
      assert Elements(left) == {left[0]} + Elements(left[1..]);
    }
  }

  /** The sweep lists right after the delete, and deletes once everything is pushed. */
  lemma LosesSurvivors(job: Job, start: State)
    requires job.Valid() && Start(start) && job.Digest() in start.repo.manifests && job.survivors != []
    requires Ahead(job.Digest(), start.sweeper.rows)
    ensures exists s :: Reached(job, start, s) && Ended(s) && !Kept(job, s)
  {
    var d := job.Digest();
    var deleted := start.(repo := start.repo.Remove(d), other := Repushing(job.survivors, {}, {}));
    Begins(job, start);
    Goes(job, start, start, Other(true), deleted);
    assert deleted.repo.TagsOf(d) == {};
    var states, moves := CanLookUp(deleted, d);
    SweepsAlong(job, start, states, moves, |moves|);
    var pushed := PushesAll(job, start, states[|moves|]);
    states, moves := CanFinish(pushed);
    SweepsAlong(job, start, states, moves, |moves|);
    assert forall n :: 0 <= n < |moves| ==> moves[n] in moves;
    LostIfPlanned(d, states, moves, 0);
    assert job.survivors[0] in Elements(job.survivors);
    assert Ended(states[|moves|]) && !Kept(job, states[|moves|]);
  }

  lemma {:induction false} NeverAhead(job: Job, states: seq<State>, moves: seq<Move>, d: Digest, j: nat)
    requires IsRace(job, states, moves) && !Ahead(d, states[0].sweeper.rows) && j < |states| && d != Empty
    ensures !Ahead(d, states[j].sweeper.rows)
  {
    if j > 0 {
      NeverAhead(job, states, moves, d, j - 1);
      assert StepOf(states[j - 1], moves[j - 1], states[j]);
    }
  }

  /**
   * However the calls of the two fall, the surviving tags keep the digest, exactly if no row about it is among
   * those to be swept; and whatever becomes of them, it is reported without a warning.
   */
  lemma UntagSafeIff(job: Job, start: State)
    requires job.Valid() && Start(start) && job.Digest() in start.repo.manifests && job.survivors != []
    ensures (forall s :: Reached(job, start, s) && Ended(s) ==> Kept(job, s)) <==>
            forall k :: k in start.sweeper.rows ==> k.digest != job.Digest()
    ensures forall s :: Reached(job, start, s) && Ended(s) ==> s.other == Reported(Elements(job.survivors), {})
  {
    var d := job.Digest();
    if Ahead(d, start.sweeper.rows) {
      LosesSurvivors(job, start);
    }
    forall s | Reached(job, start, s) && Ended(s)
      ensures s.other == Reported(Elements(job.survivors), {})
      ensures !Ahead(d, start.sweeper.rows) ==> Kept(job, s)
    {
      var states, moves :| ReachedBy(job, start, states, moves, s);
      AccountedUpTo(job, states, moves, |moves|);
      NoneFailed(job, states, moves, |moves|);
      if !Ahead(d, start.sweeper.rows) {
        forall n | 0 <= n < |moves|
          ensures !Interrupted(job, states, moves, n)
        {
          NeverAhead(job, states, moves, d, n);
        }
        SurvivorsKeptIff(job, states, moves, |moves|);
      }
    }
  }

  lemma {:induction false} NoneFailed(job: Job, states: seq<State>, moves: seq<Move>, j: nat)
    requires IsRace(job, states, moves) && j < |states| && forall m :: m in moves ==> m.answered
    ensures Pushing(states[j].other) ==> states[j].other.failed == {}
  {
    if j > 0 {
      NoneFailed(job, states, moves, j - 1);
      assert StepOf(states[j - 1], moves[j - 1], states[j]) && moves[j - 1] in moves;
    }
  }
}
