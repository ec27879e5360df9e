/**
 * One sweep over the rows of a repository, call by call, while others change the repository in between.
 * The UI's own restores and deletes do not consult the gate, so their calls come between those of a sweep.
 */
module SweepCalls {
  import opened Prelude
  import opened Registry
  import opened Store
  import opened Sweep

  /** Where a sweep is with the first of its rows: before its turn, looking up tags, or about to drop the row. */
  datatype Point = Turn | LookingUp(left: seq<Tag>, seen: set<Digest>) | Dropping

  /** The rows still to do, and the digests in use, which are looked up once for all rows. */
  datatype Sweeper = Sweeper(rows: seq<BinKey>, live: Option<set<Digest>>, at: Point) {
    function Next(): Sweeper {
      Sweeper(if rows == [] then [] else rows[1..], live, Turn)
    }

    function NextDigest(): Digest {
      if rows == [] then Empty else rows[0].digest
    }
  }

  function Fresh(rows: seq<BinKey>): Sweeper {
    Sweeper(rows, None, Turn)
  }

  /** The repository, the bin, the sweep, and how far the other party is. */
  datatype World<T> = World(repo: Repo, bin: Bin, sweeper: Sweeper, other: T)

  /** Whose call is next, and whether it is answered. */
  datatype Move = Sweep(answered: bool) | Other(answered: bool)

  function Seen(r: Repo, t: Tag): set<Digest> {
    if t in r.tags then {r.tags[t]} else {}
  }

  ghost predicate SweepStep<T>(s: World<T>, answered: bool, s': World<T>) {
    && s.sweeper.rows != [] && s'.other == s.other
    && match s.sweeper.at
       case Turn =>
         if Spared(s.sweeper) then DropStep(s, answered, s')
         else if s.sweeper.live.None? then ListStep(s, answered, s')
         else DeleteStep(s, answered, s')
       case LookingUp(left, seen) =>
         s' == s.(sweeper := if left == [] then Sweeper(s.sweeper.rows, Some(seen), Turn)
                             else s.sweeper.(at := LookingUp(left[1..], seen + Answer(s.repo, left[0], answered))))
       case Dropping => DropStep(s, answered, s')
  }

  /** The row goes without a delete: it has no digest, or its digest is in use. */
  predicate Spared(w: Sweeper) {
    w.NextDigest() == Empty || (w.live.Some? && w.NextDigest() in w.live.value)
  }

  function Answer(r: Repo, t: Tag, answered: bool): set<Digest> {
    if answered then Seen(r, t) else {}
  }

  ghost predicate DropStep<T>(s: World<T>, answered: bool, s': World<T>) {
    && s.sweeper.rows != []
    && s' == s.(bin := if answered then s.bin - {s.sweeper.rows[0]} else s.bin, sweeper := s.sweeper.Next())
  }

  /** An unknown repository is listed as an empty one. */
  ghost predicate ListStep<T>(s: World<T>, answered: bool, s': World<T>) {
    if answered
      then exists tags :: Distinct(tags) && Elements(tags) == s.repo.tags.Keys &&
                          s' == s.(sweeper := s.sweeper.(at := LookingUp(tags, {})))
      else FailStep(s, s')
  }

  /** A manifest that is gone already counts as deleted. */
  ghost predicate DeleteStep<T>(s: World<T>, answered: bool, s': World<T>) {
    if answered
      then s' == s.(repo := s.repo.Remove(s.sweeper.NextDigest()), sweeper := s.sweeper.(at := Dropping))
      else FailStep(s, s')
  }

  /** The row stays; its failure is counted in one statement and parked in another, if at all. */
  ghost predicate FailStep<T>(s: World<T>, s': World<T>) {
    s.sweeper.rows != [] &&
    var tried := AddAttempt(s.bin, s.sweeper.rows[0]);
    && s' == s.(bin := s'.bin, sweeper := s.sweeper.Next())
    && s'.bin in {s.bin, tried, Park(tried, s.sweeper.rows[0], GC_MAX_ATTEMPTS)}
  }

  /** A run in which anybody else may do anything, except to the sweep. */
  ghost predicate IsSweepRun<T>(states: seq<World<T>>, moves: seq<Move>) {
    && |states| == |moves| + 1
    && forall i :: 0 <= i < |moves| ==> StepOf(states[i], moves[i], states[i + 1])
  }

  ghost predicate StepOf<T>(s: World<T>, m: Move, s': World<T>) {
    if m.Sweep? then SweepStep(s, m.answered, s') else s'.sweeper == s.sweeper
  }

  // ---- What the sweep is going to delete ----

  /** A row about the digest is still to come. */
  predicate Ahead(d: Digest, rows: seq<BinKey>) {
    d != Empty && exists k :: k in rows && k.digest == d
  }

  /** The sweep has seen the digest in use, or will, on a tag it is still to look at, if tags stay as they are. */
  ghost predicate Sees<T>(d: Digest, s: World<T>) {
    match s.sweeper.at
    case LookingUp(left, seen) => d in seen || exists t :: t in left && t in s.repo.TagsOf(d)
    case _ => if s.sweeper.live.Some? then d in s.sweeper.live.value else s.repo.TagsOf(d) != {}
  }

  /** What the sweep has begun on its first row, it has done to the registry once it is about to drop the row. */
  function ToCome(w: Sweeper): seq<BinKey> {
    if w.at.Dropping? && w.rows != [] then w.rows[1..] else w.rows
  }

  ghost predicate WillDelete<T>(d: Digest, s: World<T>) {
    Ahead(d, ToCome(s.sweeper)) && !Sees(d, s)
  }

  /** The sweep will not look at this tag any more. */
  predicate PastTag(t: Tag, w: Sweeper) {
    if w.at.LookingUp? then t !in w.at.left else w.live.Some?
  }

  /** The call that deletes the digest. */
  predicate Deletes<T>(s: World<T>, m: Move, d: Digest) {
    && m == Sweep(true) && s.sweeper.rows != [] && s.sweeper.at == Turn && s.sweeper.live.Some?
    && !Spared(s.sweeper) && s.sweeper.NextDigest() == d
  }

  /** Nothing points at the digest any more, and its manifest is gone. */
  ghost predicate Gone<T>(d: Digest, s: World<T>) {
    s.repo.TagsOf(d) == {} && d !in s.repo.manifests
  }

  /** The digest has the same tags as before, and its manifest if it had it. */
  ghost predicate Keeps<T>(d: Digest, s: World<T>, s': World<T>) {
    s'.repo.TagsOf(d) == s.repo.TagsOf(d) && (d in s'.repo.manifests <==> d in s.repo.manifests)
  }

  /** From `i` to `j` the others leave the tags and the manifest of the digest alone. */
  ghost predicate LeftAlone<T>(d: Digest, states: seq<World<T>>, moves: seq<Move>, i: nat, j: nat) {
    && i <= j < |states| && |states| == |moves| + 1
    && forall n :: i <= n < j && moves[n].Other? ==> Keeps(d, states[n], states[n + 1])
  }

  /** From `i` to `j` the sweep's calls are answered. */
  ghost predicate Answered(moves: seq<Move>, i: nat, j: nat) {
    i <= j <= |moves| && forall n :: i <= n < j && moves[n].Sweep? ==> moves[n].answered
  }

  /** A call of the sweep wipes the digest or leaves it alone. */
  lemma StepDeletes<T>(s: World<T>, answered: bool, s': World<T>, d: Digest)
    requires SweepStep(s, answered, s')
    ensures if Deletes(s, Sweep(answered), d) then Gone(d, s') else Keeps(d, s, s')
  {}

  /** Pointing one more tag at the digest changes what the sweep will do exactly if it still looks at that tag. */
  lemma TaggedSeenIff<T>(s: World<T>, s': World<T>, t: Tag, d: Digest)
    requires s'.sweeper == s.sweeper && s'.repo.TagsOf(d) == s.repo.TagsOf(d) + {t}
    ensures WillDelete(d, s') <==> WillDelete(d, s) && PastTag(t, s.sweeper)
  {
    assert t in s'.repo.TagsOf(d);
  }

  lemma OthersKeepPlan<T>(s: World<T>, s': World<T>, d: Digest)
    requires s'.sweeper == s.sweeper && Keeps(d, s, s')
    ensures WillDelete(d, s') <==> WillDelete(d, s)
  {}

  /** An answered call carries out the plan, or leaves it as it is. */
  lemma PlanStays<T>(s: World<T>, s': World<T>, d: Digest)
    requires SweepStep(s, true, s')
    ensures Deletes(s, Sweep(true), d) ==> WillDelete(d, s)
    ensures !Deletes(s, Sweep(true), d) ==> (WillDelete(d, s') <==> WillDelete(d, s))
  {
    var w := s.sweeper;
    assert Ahead(d, w.rows) <==> d != Empty && (w.NextDigest() == d || Ahead(d, w.rows[1..])) by {
      assert w.rows == [w.rows[0]] + w.rows[1..];
    }
    match w.at
    case Turn =>
      if !Spared(w) && w.live.None? {
        var left := s'.sweeper.at.left;
        assert forall t :: t in left <==> t in Elements(left);
      }
    case LookingUp(left, seen) =>
      if left != [] {
        assert forall t :: t in left <==> t == left[0] || t in left[1..];
        assert left[0] in s.repo.TagsOf(d) <==> d in Seen(s.repo, left[0]);
        assert Sees(d, s') <==> Sees(d, s);
      }
    case Dropping =>
  }

  /** What is true of the digest from some point on: it is as it was, or it has been deleted as planned. */
  ghost predicate Settled<T>(d: Digest, start: World<T>, s: World<T>) {
    if WillDelete(d, start) then Gone(d, s) || (WillDelete(d, s) && Keeps(d, start, s))
    else !WillDelete(d, s) && Keeps(d, start, s)
  }

  lemma SettledNext<T>(d: Digest, start: World<T>, s: World<T>, m: Move, s': World<T>)
    requires Settled(d, start, s) && StepOf(s, m, s') && if m.Sweep? then m.answered else Keeps(d, s, s')
    ensures Settled(d, start, s')
  {
    if m.Sweep? {
      StepDeletes(s, true, s', d);
      PlanStays(s, s', d);
    } else {
      OthersKeepPlan(s, s', d);
    }
  }

  lemma {:induction false} SettledUpTo<T>(d: Digest, states: seq<World<T>>, moves: seq<Move>, i: nat, j: nat)
    requires IsSweepRun(states, moves) && i <= j < |states|
    requires LeftAlone(d, states, moves, i, j) && Answered(moves, i, j)
    ensures Settled(d, states[i], states[j])
  {
    if i < j {
      SettledUpTo(d, states, moves, i, j - 1);
      SettledNext(d, states[i], states[j - 1], moves[j - 1], states[j]);
    }
  }

  /**
   * What a sweep leaves of a digest that nobody else touches from `i` on: nothing, if at `i` a row about the
   * digest is still to come and the sweep neither has seen the digest nor will see it on a tag it is still to
   * look at; everything otherwise. Calls before `i` may have failed.
   */
  lemma LostIfPlanned<T>(d: Digest, states: seq<World<T>>, moves: seq<Move>, i: nat)
    requires IsSweepRun(states, moves) && i < |states| && states[|moves|].sweeper.rows == []
    requires LeftAlone(d, states, moves, i, |moves|) && Answered(moves, i, |moves|)
    ensures if WillDelete(d, states[i]) then Gone(d, states[|moves|]) else Keeps(d, states[i], states[|moves|])
  {
    SettledUpTo(d, states, moves, i, |moves|);
  }

  /** Whatever calls fail: it is gone if the sweep deletes it from then on, and as it was if not. */
  lemma {:induction false} LostIfDeleted<T>(d: Digest, states: seq<World<T>>, moves: seq<Move>, i: nat, j: nat)
    requires IsSweepRun(states, moves) && i <= j < |states| && LeftAlone(d, states, moves, i, j)
    ensures if exists n :: i <= n < j && Deletes(states[n], moves[n], d)
              then Gone(d, states[j]) else Keeps(d, states[i], states[j])
  {
    if i < j {
      LostIfDeleted(d, states, moves, i, j - 1);
      var s, m, s' := states[j - 1], moves[j - 1], states[j];
      assert StepOf(s, m, s');
      if m.Sweep? {
        StepDeletes(s, m.answered, s', d);
      }
    }
  }

  // ---- Copies taken in the meantime ----

  /** From `i` to `j` the others leave it as it is whether the bin has the row. */
  ghost predicate RowLeftAlone<T>(k: BinKey, states: seq<World<T>>, moves: seq<Move>, i: nat, j: nat) {
    && i <= j < |states| && |states| == |moves| + 1
    && forall n :: i <= n < j && moves[n].Other? ==> (k in states[n + 1].bin <==> k in states[n].bin)
  }

  lemma StepDrops<T>(s: World<T>, s': World<T>, k: BinKey)
    requires SweepStep(s, true, s')
    ensures k in s'.bin || k in s.sweeper.rows <==> k in s.bin || k in s.sweeper.rows
    ensures k in s.sweeper.rows && k !in s'.sweeper.rows ==> k !in s'.bin
    ensures k in s'.sweeper.rows ==> k in s.sweeper.rows
  {
    assert s.sweeper.rows == [s.sweeper.rows[0]] + s.sweeper.rows[1..];
  }

  /**
   * A row that is written or refreshed while the sweep is under way, such as the copy a delete takes, outlives
   * the sweep exactly if it is not among the rows the sweep still has to do: those it drops whether it deletes
   * the manifest or has seen it in use, even if it is not in use any more.
   */
  lemma {:induction false} RowKeptIff<T>(k: BinKey, states: seq<World<T>>, moves: seq<Move>, i: nat, j: nat)
    requires IsSweepRun(states, moves) && i <= j < |states|
    requires RowLeftAlone(k, states, moves, i, j) && Answered(moves, i, j) && k in states[i].bin
    ensures states[j].sweeper.rows == [] ==> (k in states[j].bin <==> k !in states[i].sweeper.rows)
    ensures k !in states[i].sweeper.rows ==> k !in states[j].sweeper.rows && k in states[j].bin
    ensures k in states[i].sweeper.rows ==> k in states[j].sweeper.rows || k !in states[j].bin
  {
    if i < j {
      RowKeptIff(k, states, moves, i, j - 1);
      assert StepOf(states[j - 1], moves[j - 1], states[j]);
      if moves[j - 1].Sweep? {
        StepDrops(states[j - 1], states[j], k);
      }
    }
  }

  // ---- Undisturbed ----

  /** The digests of rows that a sweep deletes if nothing else happens. */
  ghost function Dead(r: Repo, rows: seq<BinKey>): set<Digest> {
    set k | k in rows && k.digest != Empty && k.digest !in Live(r) :: k.digest
  }

  /** Where an undisturbed sweep is after its first `n` rows. */
  ghost predicate Undisturbed<T>(start: World<T>, s: World<T>, n: nat) {
    var rows, w := start.sweeper.rows, s.sweeper;
    && n <= |rows| && w.rows == rows[n..] && s.bin == start.bin - Elements(rows[..n])
    && s.repo == RemoveAll(start.repo,
                           Dead(start.repo, if w.at.Dropping? && n < |rows| then rows[..n + 1] else rows[..n]))
    && (if w.live.Some? then w.live.value == Live(start.repo) && !w.at.LookingUp?
        else !w.at.Dropping? && forall k :: k in rows[..n] ==> k.digest == Empty)
    && (w.at.LookingUp? ==> w.at.seen + Rest(start.repo, w.at.left) == Live(start.repo))
    && (w.at.Dropping? ==> n < |rows| && !Spared(w))
  }

  ghost function Rest(r: Repo, left: seq<Tag>): set<Digest> {
    set t | t in left && t in r.tags :: r.tags[t]
  }

  lemma DeadGrows(r: Repo, rows: seq<BinKey>, n: nat)
    requires n < |rows|
    ensures Elements(rows[..n + 1]) == Elements(rows[..n]) + {rows[n]}
    ensures var d := rows[n].digest;
            Dead(r, rows[..n + 1]) == Dead(r, rows[..n]) + (if d != Empty && d !in Live(r) then {d} else {})
  {
    PrefixStep(rows, n);
  }

  lemma UndisturbedDrop<T>(start: World<T>, s: World<T>, s': World<T>, n: nat)
    requires n < |start.sweeper.rows| && Undisturbed(start, s, n) && DropStep(s, true, s')
    requires if s.sweeper.at.Turn? then Spared(s.sweeper) else s.sweeper.at.Dropping?
    ensures Undisturbed(start, s', n + 1)
  {
    DeadGrows(start.repo, start.sweeper.rows, n);
    assert s.sweeper.rows[1..] == start.sweeper.rows[n + 1..];
  }

  lemma UndisturbedList<T>(start: World<T>, s: World<T>, s': World<T>, n: nat)
    requires n < |start.sweeper.rows| && Undisturbed(start, s, n) && s.sweeper.at.Turn? && s.sweeper.live.None?
    requires ListStep(s, true, s')
    ensures Undisturbed(start, s', n)
  {
    assert Dead(start.repo, start.sweeper.rows[..n]) == {};
    RemoveNone(start.repo);
    assert forall t :: t in s'.sweeper.at.left <==> t in Elements(s'.sweeper.at.left);
    assert Rest(start.repo, s'.sweeper.at.left) == Live(start.repo);
  }

  lemma UndisturbedDelete<T>(start: World<T>, s: World<T>, s': World<T>, n: nat)
    requires start.repo.Valid() && n < |start.sweeper.rows| && Undisturbed(start, s, n) && s.sweeper.at.Turn?
    requires !Spared(s.sweeper) && s.sweeper.live.Some? && DeleteStep(s, true, s')
    ensures Undisturbed(start, s', n)
  {
    var rows := start.sweeper.rows;
    DeadGrows(start.repo, rows, n);
    RemoveOneMore(start.repo, Dead(start.repo, rows[..n]), rows[n].digest);
  }

  lemma UndisturbedLookup<T>(start: World<T>, s: World<T>, s': World<T>, n: nat)
    requires n < |start.sweeper.rows| && Undisturbed(start, s, n) && s.sweeper.at.LookingUp?
    requires SweepStep(s, true, s')
    ensures Undisturbed(start, s', n)
  {
    var left := s.sweeper.at.left;
    assert Dead(start.repo, start.sweeper.rows[..n]) == {};
    RemoveNone(start.repo);
    if left != [] {
      assert left == [left[0]] + left[1..];
      assert Rest(start.repo, left) == Seen(start.repo, left[0]) + Rest(start.repo, left[1..]);
    }
  }

  lemma {:induction false} UndisturbedUpTo<T>(states: seq<World<T>>, moves: seq<Move>, j: nat) returns (n: nat)
    requires IsSweepRun(states, moves) && states[0].repo.Valid() && j < |states|
    requires states[0].sweeper == Fresh(states[0].sweeper.rows)
    requires forall m :: m in moves ==> m == Sweep(true)
    ensures n <= |states[0].sweeper.rows| && Undisturbed(states[0], states[j], n)
  {
    n := 0;
    if j == 0 {
      RemoveNone(states[0].repo);
      assert Dead(states[0].repo, []) == {};
    } else {
      n := UndisturbedUpTo(states, moves, j - 1);
      var s, s' := states[j - 1], states[j];
      assert StepOf(s, moves[j - 1], s') && moves[j - 1] in moves;
      match s.sweeper.at
      case Turn =>
        if Spared(s.sweeper) {
          UndisturbedDrop(states[0], s, s', n);
          n := n + 1;
        } else if s.sweeper.live.None? {
          UndisturbedList(states[0], s, s', n);
        } else {
          UndisturbedDelete(states[0], s, s', n);
        }
      case LookingUp(left, seen) => UndisturbedLookup(states[0], s, s', n);
      case Dropping =>
        UndisturbedDrop(states[0], s, s', n);
        n := n + 1;
    }
  }

  /**
   * Left to itself and with every call answered, this is the sweep of the server: the unreferenced manifests
   * behind the rows go, and the rows.
   */
  lemma AloneIsSweep<T>(states: seq<World<T>>, moves: seq<Move>, name: Name)
    requires IsSweepRun(states, moves) && states[0].repo.Valid()
    requires states[0].sweeper == Fresh(states[0].sweeper.rows) && states[|moves|].sweeper.rows == []
    requires forall k :: k in states[0].sweeper.rows ==> k.repo == name
    requires forall m :: m in moves ==> m == Sweep(true)
    ensures var start, end, repos := states[0], states[|moves|], map[name := states[0].repo];
            && end.bin == start.bin - Elements(start.sweeper.rows)
            && end.repo == SweptRepos(repos, Unreferenced(repos, start.sweeper.rows))[name]
  {
    var start := states[0];
    var rows, repos := start.sweeper.rows, map[name := start.repo];
    var n := UndisturbedUpTo(states, moves, |moves|);
    assert n == |rows| && rows[..n] == rows;
    var unreferenced := Unreferenced(repos, rows);
    assert forall k :: k in rows && k.digest in Dead(start.repo, rows) ==> Spot(name, k.digest) in unreferenced;
    assert DigestsAt(unreferenced, name) == Dead(start.repo, rows);
  }

  // ---- A sweep can always go on ----

  /** Listing, looking up, deleting and dropping come in this order. */
  function Stage(w: Sweeper): nat {
    if w.at.LookingUp? then 2 else if w.at.Dropping? then 0 else if w.live.Some? then 1 else 3
  }

  function Lookups(w: Sweeper): nat {
    if w.at.LookingUp? then |w.at.left| else 0
  }

  predicate Further(w: Sweeper, w': Sweeper) {
    || |w'.rows| < |w.rows|
    || (|w'.rows| == |w.rows| && (Stage(w') < Stage(w) || (Stage(w') == Stage(w) && Lookups(w') < Lookups(w))))
  }

  lemma CanStep<T>(s: World<T>) returns (s': World<T>)
    requires s.sweeper.rows != []
    ensures SweepStep(s, true, s') && Further(s.sweeper, s'.sweeper)
  {
    var w := s.sweeper;
    if w.at.LookingUp? {
      var left, seen := w.at.left, w.at.seen;
      s' := s.(sweeper := if left == [] then Sweeper(w.rows, Some(seen), Turn)
                          else w.(at := LookingUp(left[1..], seen + Seen(s.repo, left[0]))));
    } else if w.at.Dropping? || Spared(w) {
      s' := s.(bin := s.bin - {w.rows[0]}, sweeper := w.Next());
    } else if w.live.None? {
      var tags := SomeOrder(s.repo.tags.Keys);
      s' := s.(sweeper := w.(at := LookingUp(tags, {})));
    } else {
      s' := s.(repo := s.repo.Remove(w.NextDigest()), sweeper := w.(at := Dropping));
    }
  }

  /** The sweep alone, every call answered, from one state to another. */
  ghost predicate SweepsOn<T>(s: World<T>, states: seq<World<T>>, moves: seq<Move>) {
    IsSweepRun(states, moves) && states[0] == s && forall m :: m in moves ==> m == Sweep(true)
  }

  lemma OneMoreFirst<T>(s: World<T>, s': World<T>, states: seq<World<T>>, moves: seq<Move>)
    requires SweepStep(s, true, s') && SweepsOn(s', states, moves)
    ensures SweepsOn(s, [s] + states, [Sweep(true)] + moves)
  {
    forall i | 0 <= i < |moves| + 1
      ensures StepOf(([s] + states)[i], ([Sweep(true)] + moves)[i], ([s] + states)[i + 1])
    {
      if i > 0 {
        assert StepOf(states[i - 1], moves[i - 1], states[i]);
      }
    }
  }

  /** Up to where its lookups are done, with the plan unchanged. */
  lemma {:induction false} CanLookUp<T>(s: World<T>, d: Digest) returns (states: seq<World<T>>, moves: seq<Move>)
    requires WillDelete(d, s)
    ensures SweepsOn(s, states, moves)
    ensures var end := states[|moves|];
            && end.sweeper.live.Some? && !end.sweeper.at.LookingUp? && WillDelete(d, end)
            && end.repo == s.repo && end.other == s.other
    decreases |s.sweeper.rows|, Stage(s.sweeper), Lookups(s.sweeper)
  {
    if s.sweeper.live.Some? && !s.sweeper.at.LookingUp? {
      states, moves := [s], [];
    } else {
      var s' := CanStep(s);
      PlanStays(s, s', d);
      states, moves := CanLookUp(s', d);
      OneMoreFirst(s, s', states, moves);
      states, moves := [s] + states, [Sweep(true)] + moves;
    }
  }

  /** To the end. */
  lemma {:induction false} CanFinish<T>(s: World<T>) returns (states: seq<World<T>>, moves: seq<Move>)
    ensures SweepsOn(s, states, moves)
    ensures states[|moves|].sweeper.rows == [] && states[|moves|].other == s.other
    decreases |s.sweeper.rows|, Stage(s.sweeper), Lookups(s.sweeper)
  {
    if s.sweeper.rows == [] {
      states, moves := [s], [];
    } else {
      var s' := CanStep(s);
      states, moves := CanFinish(s');
      OneMoreFirst(s, s', states, moves);
      states, moves := [s] + states, [Sweep(true)] + moves;
    }
  }
}
