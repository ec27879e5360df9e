/**
 * The gate between garbage collection and pushes: any number of collectors and of writers share two
 * atomic flags, and every load, store and compare-and-swap is a step of its own.
 */
module Gate {
  /** A whole cycle, its metadata half alone, or its blob half alone. */
  datatype Cycle = Full | MetadataOnly | BlobsOnly

  /** Where a thread stands; collectors first, then writers. */
  datatype Thread =
    | Claim(cycle: Cycle)
    | Mark(cycle: Cycle)
    | Drain
    | Sweep(cycle: Cycle)
    | Blobs
    | ClearRunning
    | ClearBusy
    | Finished
    | Refused
    | Enter
    | InFlight
    | Landed
    | TurnedAway

  datatype State = State(busy: bool, running: bool, threads: seq<Thread>)

  predicate Fresh(t: Thread) {
    t.Claim? || t.Enter?
  }

  ghost predicate Init(s: State) {
    !s.busy && !s.running && forall i :: 0 <= i < |s.threads| ==> Fresh(s.threads[i])
  }

  function FirstPhase(cycle: Cycle): Thread {
    match cycle
    case Full => Drain
    case MetadataOnly => Sweep(MetadataOnly)
    case BlobsOnly => Blobs
  }

  /** Thread `i` executes one instruction. Every phase may also end early: the release is deferred. */
  ghost predicate Go(s: State, i: nat, s': State) {
    i < |s.threads| &&
    match s.threads[i]
    case Claim(cycle) =>
      if s.busy then s' == s.(threads := s.threads[i := Refused])
      else s' == s.(busy := true, threads := s.threads[i := Mark(cycle)])
    case Mark(cycle) => s' == s.(running := true, threads := s.threads[i := FirstPhase(cycle)])
    case Drain => s' == s.(threads := s.threads[i := Sweep(Full)]) || s' == s.(threads := s.threads[i := ClearRunning])
    case Sweep(cycle) =>
      s' == s.(threads := s.threads[i := ClearRunning]) || (cycle == Full && s' == s.(threads := s.threads[i := Blobs]))
    case Blobs => s' == s.(threads := s.threads[i := ClearRunning])
    case ClearRunning => s' == s.(running := false, threads := s.threads[i := ClearBusy])
    case ClearBusy => s' == s.(busy := false, threads := s.threads[i := Finished])
    case Enter => s' == s.(threads := s.threads[i := if s.running then TurnedAway else InFlight])
    case InFlight => s' == s.(threads := s.threads[i := Landed])
    case _ => false
  }

  datatype Move = Spawn(thread: Thread) | Run(i: nat)

  ghost predicate Next(s: State, m: Move, s': State) {
    match m
    case Spawn(t) => Fresh(t) && s' == s.(threads := s.threads + [t])
    case Run(i) => Go(s, i, s')
  }

  ghost predicate IsRun(states: seq<State>, moves: seq<Move>) {
    && |states| == |moves| + 1
    && Init(states[0])
    && forall m :: 0 <= m < |moves| ==> Next(states[m], moves[m], states[m + 1])
  }

  // ---- Safety in every reachable state ----

  /** Between winning the slot and giving it back. */
  predicate Holds(t: Thread) {
    t.Mark? || Gated(t) || t.ClearBusy?
  }

  /** Between closing the gate and opening it. */
  predicate Gated(t: Thread) {
    InPhase(t) || t.ClearRunning?
  }

  /** Draining, sweeping metadata or collecting blobs. */
  predicate InPhase(t: Thread) {
    t.Drain? || t.Sweep? || t.Blobs?
  }

  /** The instruction about to close the gate. */
  predicate Closing(t: Thread) {
    t.Mark?
  }

  predicate Active(t: Thread) {
    Rank(t) > 0
  }

  ghost predicate At(s: State, i: nat, p: Thread -> bool) {
    i < |s.threads| && p(s.threads[i])
  }

  ghost predicate Is(s: State, i: nat, t: Thread) {
    i < |s.threads| && s.threads[i] == t
  }

  /** At most one holder; the flags are set exactly while someone holds, respectively closes the gate. */
  ghost predicate Inv(s: State) {
    && (forall i, j :: At(s, i, Holds) && At(s, j, Holds) ==> i == j)
    && (s.busy <==> exists i :: At(s, i, Holds))
    && (s.running <==> exists i :: At(s, i, Gated))
  }

  lemma NextInv(s: State, m: Move, s': State)
    requires Inv(s) && Next(s, m, s')
    ensures Inv(s')
  {
    forall j | m != Run(j)
      ensures At(s', j, Holds) <==> At(s, j, Holds)
      ensures At(s', j, Gated) <==> At(s, j, Gated)
    {}
    if m.Run? {
      assert At(s, m.i, Holds) || !At(s, m.i, Holds);
      assert At(s', m.i, Gated) || !At(s', m.i, Gated);
      HolderMoves(s, m.i, s');
    }
  }

  /** What the moving thread's own step does to the flags. */
  lemma HolderMoves(s: State, i: nat, s': State)
    requires Inv(s) && Go(s, i, s')
    ensures At(s', i, Holds) && !At(s, i, Holds) ==> !s.busy && s'.busy && s'.running == s.running
    ensures At(s, i, Holds) && !At(s', i, Holds) ==> !s'.busy && s'.running == s.running && !At(s, i, Gated)
    ensures At(s', i, Holds) == At(s, i, Holds) ==> s'.busy == s.busy
    ensures At(s', i, Gated) && !At(s, i, Gated) ==> s'.running && At(s, i, Holds)
    ensures At(s, i, Gated) && !At(s', i, Gated) ==> !s'.running && At(s', i, Holds)
    ensures At(s', i, Gated) == At(s, i, Gated) ==> s'.running == s.running
  {}

  lemma {:induction false} RunInv(states: seq<State>, moves: seq<Move>, m: nat)
    requires IsRun(states, moves) && m < |states|
    ensures Inv(states[m])
  {
    if m == 0 {
    } else {
      RunInv(states, moves, m - 1);
      NextInv(states[m - 1], moves[m - 1], states[m]);
    }
  }

  /** What the two flags guarantee in every reachable state, for any number of threads. */
  lemma GateIsSafe(states: seq<State>, moves: seq<Move>, m: nat)
    requires IsRun(states, moves) && m < |states|
    ensures forall i, j :: At(states[m], i, Holds) && At(states[m], j, Holds) ==> i == j
    ensures states[m].running ==> states[m].busy
    ensures forall i :: At(states[m], i, InPhase) ==> states[m].running && states[m].busy
    ensures (forall i :: !At(states[m], i, Holds)) ==> !states[m].busy && !states[m].running
  {
    RunInv(states, moves, m);
    forall i | At(states[m], i, InPhase)
      ensures At(states[m], i, Gated) && At(states[m], i, Holds)
    {}
    forall i | At(states[m], i, Gated)
      ensures At(states[m], i, Holds)
    {}
  }

  // ---- The phases of a collection ----

  /** The thread has been there before step `m`. */
  ghost predicate Passed(states: seq<State>, m: nat, c: nat, t: Thread) {
    exists x :: 0 <= x < m <= |states| && Is(states[x], c, t)
  }

  /**
   * A collector that sweeps metadata in a full cycle has drained before, and one that collects blobs has swept, or
   * runs the blob half alone; that half never sweeps, and the metadata half alone never collects blobs.
   */
  lemma {:induction false} PhasesInOrder(states: seq<State>, moves: seq<Move>, m: nat, c: nat)
    requires IsRun(states, moves) && m < |states|
    ensures Is(states[m], c, Drain) ==> Passed(states, m, c, Mark(Full))
    ensures Is(states[m], c, Sweep(Full)) ==> Passed(states, m, c, Drain)
    ensures Is(states[m], c, Sweep(MetadataOnly)) ==> Passed(states, m, c, Mark(MetadataOnly))
    ensures !Is(states[m], c, Sweep(BlobsOnly))
    ensures Is(states[m], c, Blobs) ==> Passed(states, m, c, Sweep(Full)) || Passed(states, m, c, Mark(BlobsOnly))
  {
    if m > 0 {
      PhasesInOrder(states, moves, m - 1, c);
      assert Next(states[m - 1], moves[m - 1], states[m]);
      forall t | Passed(states, m - 1, c, t) || Is(states[m - 1], c, t)
        ensures Passed(states, m, c, t)
      {}
    }
  }

  // ---- Writes that land during a collection ----

  /** A write in flight read the gate, and found it open, at some earlier step. */
  lemma {:induction false} ReadOpenGate(states: seq<State>, moves: seq<Move>, m: nat, w: nat) returns (read: nat)
    requires IsRun(states, moves) && m < |states| && Is(states[m], w, InFlight)
    ensures read < m && moves[read] == Run(w) && !states[read].running
    ensures Is(states[read], w, Enter)
  {
    var s, s' := states[m - 1], states[m];
    assert Next(s, moves[m - 1], s');
    if moves[m - 1] == Run(w) {
      read := m - 1;
    } else {
      read := ReadOpenGate(states, moves, m - 1, w);
    }
  }

  /** A collector in a phase closed the gate at some earlier step and has kept it closed since. */
  lemma {:induction false} ClosedTheGate(states: seq<State>, moves: seq<Move>, m: nat, c: nat) returns (closed: nat)
    requires IsRun(states, moves) && m < |states| && At(states[m], c, Gated)
    ensures closed < m && moves[closed] == Run(c) && At(states[closed], c, Closing)
    ensures forall x :: closed < x <= m ==> At(states[x], c, Gated)
  {
    if At(states[m - 1], c, Gated) {
      closed := ClosedTheGate(states, moves, m - 1, c);
    } else {
      closed := m - 1;
    }
  }

  /**
   * Every write that lands while a collector is in a phase read the gate before that collector closed
   * it; from the moment it did, the gate has been closed.
   */
  lemma LateWritesReadEarlier(states: seq<State>, moves: seq<Move>, m: nat, w: nat, c: nat)
    returns (read: nat, closed: nat)
    requires IsRun(states, moves) && m < |moves| && moves[m] == Run(w) && Is(states[m], w, InFlight)
    requires At(states[m], c, InPhase)
    ensures read < closed < m
    ensures moves[read] == Run(w) && Is(states[read], w, Enter) && !states[read].running
    ensures moves[closed] == Run(c) && At(states[closed], c, Closing)
    ensures forall x :: closed < x <= m ==> states[x].running && At(states[x], c, Gated)
  {
    read := ReadOpenGate(states, moves, m, w);
    closed := ClosedTheGate(states, moves, m, c);
    forall x | closed < x <= m
      ensures states[x].running
    {
      RunInv(states, moves, x);
      assert At(states[x], c, Gated);
    }
  }

  ghost function Flying(s: State): set<nat> {
    set i | 0 <= i < |s.threads| && s.threads[i].InFlight?
  }

  lemma FlyingMember(s: State, w: nat)
    ensures Is(s, w, InFlight) <==> w in Flying(s)
  {}

  /** While the gate is closed, writes in flight can only become fewer. */
  lemma {:induction false} NoNewWrites(states: seq<State>, moves: seq<Move>, a: nat, b: nat)
    requires IsRun(states, moves) && a <= b < |states|
    requires forall x :: a <= x <= b ==> states[x].running
    ensures Flying(states[b]) <= Flying(states[a])
  {
    if a < b {
      NoNewWrites(states, moves, a, b - 1);
      assert Next(states[b - 1], moves[b - 1], states[b]);
      assert Flying(states[b]) <= Flying(states[b - 1]);
    }
  }

  /** Once the last of them has landed, none lands until the gate opens again: a long enough drain is enough. */
  lemma QuietAfterDrain(states: seq<State>, moves: seq<Move>, a: nat, m: nat, w: nat)
    requires IsRun(states, moves) && a <= m < |moves| && Flying(states[a]) == {}
    requires forall x :: a <= x <= m ==> states[x].running
    ensures moves[m] == Run(w) ==> !Is(states[m], w, InFlight)
  {
    NoNewWrites(states, moves, a, m);
    FlyingMember(states[m], w);
  }

  /** Thread `w` lands at step `m`, while `c` is sweeping. */
  ghost predicate LandsInSweep(states: seq<State>, moves: seq<Move>, m: nat, w: nat, c: nat) {
    m < |moves| <= |states| && moves[m] == Run(w) && Is(states[m], w, InFlight) && Is(states[m], c, Sweep(Full))
  }

  /** The drain delay is not a barrier: a write that passed the gate can land in the middle of the sweep. */
  lemma LateWriteHappens()
    ensures exists states, moves :: IsRun(states, moves) && LandsInSweep(states, moves, 4, 0, 1)
  {
    var s0 := State(false, false, [Enter, Claim(Full)]);
    var s1 := State(false, false, [InFlight, Claim(Full)]);
    var s2 := State(true, false, [InFlight, Mark(Full)]);
    var s3 := State(true, true, [InFlight, Drain]);
    var s4 := State(true, true, [InFlight, Sweep(Full)]);
    var s5 := State(true, true, [Landed, Sweep(Full)]);
    var states, moves := [s0, s1, s2, s3, s4, s5], [Run(0), Run(1), Run(1), Run(1), Run(0)];
    assert Next(s0, Run(0), s1) && Next(s1, Run(1), s2) && Next(s2, Run(1), s3) && Next(s3, Run(1), s4) &&
              Next(s4, Run(0), s5);
    assert IsRun(states, moves);
    assert LandsInSweep(states, moves, 4, 0, 1);
  }

  // ---- Progress ----

  /** How many more instructions a thread can execute. */
  function Rank(t: Thread): nat {
    match t
    case Claim(_) => 7
    case Mark(_) => 6
    case Drain => 5
    case Sweep(_) => 4
    case Blobs => 3
    case ClearRunning => 2
    case ClearBusy => 1
    case Enter => 2
    case InFlight => 1
    case _ => 0
  }

  function TotalRank(threads: seq<Thread>): nat {
    if threads == [] then 0 else Rank(threads[0]) + TotalRank(threads[1..])
  }

  lemma {:induction false} RankOfUpdate(threads: seq<Thread>, i: nat, t: Thread)
    requires i < |threads|
    ensures TotalRank(threads[i := t]) == TotalRank(threads) - Rank(threads[i]) + Rank(t)
  {
    if i > 0 {
      RankOfUpdate(threads[1..], i - 1, t);
      assert threads[i := t][1..] == threads[1..][i - 1 := t];
    } else {
      assert threads[i := t][1..] == threads[1..];
    }
  }

  lemma GoLosesRank(s: State, i: nat, s': State)
    requires Go(s, i, s')
    ensures TotalRank(s'.threads) < TotalRank(s.threads)
  {
    RankOfUpdate(s.threads, i, s'.threads[i]);
    assert s'.threads == s.threads[i := s'.threads[i]];
  }

  /** No thread ever waits for another: each step uses up rank, so threads in hand run out of steps. */
  lemma {:induction false} RunsEnd(states: seq<State>, moves: seq<Move>, a: nat, b: nat)
    requires IsRun(states, moves) && a <= b < |states|
    requires forall m :: a <= m < b ==> moves[m].Run?
    ensures b - a + TotalRank(states[b].threads) <= TotalRank(states[a].threads)
  {
    if a < b {
      RunsEnd(states, moves, a, b - 1);
      assert Next(states[b - 1], moves[b - 1], states[b]);
      GoLosesRank(states[b - 1], moves[b - 1].i, states[b]);
    }
  }

  /**
   * And a thread that has not ended always can take a step, so in the end every thread has ended with the
   * gate open.
   */
  lemma NoDeadlock(states: seq<State>, moves: seq<Move>, m: nat)
    requires IsRun(states, moves) && m < |states|
    ensures forall i :: At(states[m], i, Active) ==> exists s' :: Go(states[m], i, s')
    ensures TotalRank(states[m].threads) == 0 ==> !states[m].busy && !states[m].running
  {
    var s := states[m];
    forall i | At(s, i, Active)
      ensures exists s' :: Go(s, i, s')
    {
      var s' := Successor(s, i);
    }
    if TotalRank(s.threads) == 0 {
      NoRankNoHolder(s.threads);
      GateIsSafe(states, moves, m);
    }
  }

  lemma Successor(s: State, i: nat) returns (s': State)
    requires At(s, i, Active)
    ensures Go(s, i, s')
  {
    match s.threads[i]
    case Claim(cycle) => s' := if s.busy then s.(threads := s.threads[i := Refused])
        else s.(busy := true, threads := s.threads[i := Mark(cycle)]);
    case Mark(cycle) => s' := s.(running := true, threads := s.threads[i := FirstPhase(cycle)]);
    case ClearRunning => s' := s.(running := false, threads := s.threads[i := ClearBusy]);
    case ClearBusy => s' := s.(busy := false, threads := s.threads[i := Finished]);
    case Enter => s' := s.(threads := s.threads[i := if s.running then TurnedAway else InFlight]);
    case InFlight => s' := s.(threads := s.threads[i := Landed]);
    case Drain => s' := s.(threads := s.threads[i := Sweep(Full)]);
    case Sweep(_) => s' := s.(threads := s.threads[i := ClearRunning]);
    case Blobs => s' := s.(threads := s.threads[i := ClearRunning]);
  }

  lemma {:induction false} NoRankNoHolder(threads: seq<Thread>)
    requires TotalRank(threads) == 0
    ensures forall i :: 0 <= i < |threads| ==> Rank(threads[i]) == 0 && !Holds(threads[i])
  {
    if threads != [] {
      NoRankNoHolder(threads[1..]);
      forall i | 0 <= i < |threads|
        ensures Rank(threads[i]) == 0
      {
        assert i > 0 ==> threads[i] == threads[1..][i - 1];
      }
    }
  }
}
