/** How often garbage collection can try to delete a manifest in vain: a budget of attempts, over whole runs. */
module Retries {
  import opened Prelude
  import opened Registry
  import opened Store
  import opened DeleteSpec
  import opened PushHook
  import opened System
  import opened Lifecycle
  import opened Sweep
  import opened Runs

  // ---- What a step does to one row ----

  /** The rows a step may write a fresh copy into. */
  ghost function CopyKeys(s: State, e: Event): set<BinKey> {
    match e
    case TagsDeleted(name, selected, results, trace, answered) =>
        SnapshotKeys(name, RepoAt(s.repos, name), trace.snapped)
    case DigestDeleted(name, digest, deleted, snapped) => SnapshotKeys(name, RepoAt(s.repos, name), snapped)
    case Pushed(name, reference, m, accepted) => FiledKeys(s, FiledUnder(name, reference))
    case RestoreTried(key, outcome) => DisplacedKeys(s, key.repo, key.reference)
    case _ => {}
  }

  ghost function FiledKeys(s: State, filed: Option<Filing>): set<BinKey> {
    if filed.Some? then DisplacedKeys(s, filed.value.repo, filed.value.reference) else {}
  }

  ghost function DisplacedKeys(s: State, name: Name, reference: Ref): set<BinKey> {
    var d := RepoAt(s.repos, name).Resolve(reference);
    if d.Some? then {BinKey(name, reference, d.value)} else {}
  }

  /** The row was there before, and is the same now but for a final status. */
  ghost predicate Settled(bin: Bin, k: BinKey, row: BinRow) {
    k in bin && row == bin[k].(status := row.status) && row.status in {bin[k].status, Restored, GCExpired}
  }

  /** The row is a fresh copy, with the attempts an older copy under its key had. */
  ghost predicate Fresh(bin: Bin, k: BinKey, row: BinRow) {
    row.status == PendingGC && row.attempts == (if k in bin then bin[k].attempts else 0)
  }

  /** A row after a step is one a sweep has tried, one that was there, or a fresh copy. */
  lemma RowAfterStep(s: State, e: Event, s': State, k: BinKey)
    requires Step(s, e, s') && k in s'.bin
    ensures e.Swept? ==> k in s.bin && s'.bin[k] == RowAfter(s.bin[k], k in e.f.counted, k in e.f.marked)
    ensures !e.Swept? ==> Settled(s.bin, k, s'.bin[k]) || (k in CopyKeys(s, e) && Fresh(s.bin, k, s'.bin[k]))
  {
    match e
    case Pushed(name, reference, m, accepted) => RowAfterPush(s, name, reference, m, accepted, s', k);
    case RestoreTried(key, outcome) => RowAfterRestore(s, key, outcome, s', k);
    case _ =>
  }

  lemma RowAfterPush(s: State, name: Name, reference: Ref, m: Manifest, accepted: bool, s': State, k: BinKey)
    requires PushStep(s, name, reference, m, accepted, s') && k in s'.bin
    ensures Settled(s.bin, k, s'.bin[k]) ||
              (k in FiledKeys(s, FiledUnder(name, reference)) && Fresh(s.bin, k, s'.bin[k]))
  {}

  lemma RowAfterRestore(s: State, key: BinKey, outcome: RestoreOutcome, s': State, k: BinKey)
    requires RestoreStep(s, key, outcome, s') && k in s'.bin
    ensures Settled(s.bin, k, s'.bin[k]) ||
              (k in DisplacedKeys(s, key.repo, key.reference) && Fresh(s.bin, k, s'.bin[k]))
  {
    assert k == key ==> BeforeRestore(s, key)[k] == s.bin[k];
  }

  // ---- Five attempts ----

  /** A row after so many deletes that failed for a reason that counts, each recorded in full. */
  function FailedTimes(row: BinRow, n: nat): BinRow {
    if n == 0 then row else RowAfter(FailedTimes(row, n - 1), true, true)
  }

  /** A fresh row is still pending after four of them, and parked after the fifth. */
  lemma {:induction false} FiveFailuresPark(row: BinRow, n: nat)
    requires row.status == PendingGC && row.attempts == 0
    ensures FailedTimes(row, n) == BinRow(if n < 5 then PendingGC else GCFailed, row.manifest, n)
  {
    if n > 0 {
      FiveFailuresPark(row, n - 1);
    }
  }

  // ---- Honest attempts ----

  /** A pending row has attempts left, a parked row has used them up. */
  predicate HonestAt(bin: Bin, k: BinKey) {
    k in bin ==>
      && (bin[k].status == PendingGC ==> bin[k].attempts < GC_MAX_ATTEMPTS)
      && (bin[k].status == GCFailed ==> bin[k].attempts >= GC_MAX_ATTEMPTS)
  }

  ghost predicate AttemptsHonest(bin: Bin) {
    forall k :: HonestAt(bin, k)
  }

  /** A row that has used up its attempts is pending again. */
  ghost predicate Revived(before: Bin, after: Bin, k: BinKey) {
    && k in before && before[k].status != PendingGC && before[k].attempts >= GC_MAX_ATTEMPTS
    && k in after && after[k].status == PendingGC
  }

  /** A row's last attempt is counted, but the statement that would park the row fails. */
  ghost predicate LastHalfRecorded(s: State, e: Event, k: BinKey) {
    e.Swept? && k in s.bin && k in e.f.counted && k !in e.f.marked && s.bin[k].attempts + 1 == GC_MAX_ATTEMPTS
  }

  /** No row is revived without attempts, and no last attempt is only half recorded. */
  ghost predicate KeepsHonest(s: State, e: Event, s': State) {
    (forall k :: !Revived(s.bin, s'.bin, k)) && (forall k :: !LastHalfRecorded(s, e, k))
  }

  /** What breaks it: a copy that revives a row without attempts, or a last attempt only half recorded; nothing else. */
  lemma HonestAfterIff(s: State, e: Event, s': State)
    requires AttemptsHonest(s.bin) && Step(s, e, s')
    ensures AttemptsHonest(s'.bin) <==> KeepsHonest(s, e, s')
  {
    forall k
      ensures HonestAt(s'.bin, k) <==> !Revived(s.bin, s'.bin, k) && !LastHalfRecorded(s, e, k)
    {
      HonestRow(s, e, s', k);
    }
  }

  lemma HonestRow(s: State, e: Event, s': State, k: BinKey)
    requires AttemptsHonest(s.bin) && Step(s, e, s')
    ensures HonestAt(s'.bin, k) <==> !Revived(s.bin, s'.bin, k) && !LastHalfRecorded(s, e, k)
  {
    assert HonestAt(s.bin, k);
    if k in s'.bin {
      RowAfterStep(s, e, s', k);
      assert e.Swept? && k in e.f.counted ==> k in Elements(e.items);
    }
  }

  /** Only the operations that copy manifests to the bin revive rows. */
  lemma RevivedByCopy(s: State, e: Event, s': State, k: BinKey)
    requires Step(s, e, s') && Revived(s.bin, s'.bin, k)
    ensures k in CopyKeys(s, e)
  {
    RowAfterStep(s, e, s', k);
  }

  /** Attempts stay honest throughout a run exactly if no step of it does either. */
  lemma HonestRunIff(states: seq<State>, events: seq<Event>)
    requires IsRun(states, events) && AttemptsHonest(states[0].bin)
    ensures (forall i :: 0 <= i < |states| ==> AttemptsHonest(states[i].bin)) <==>
            (forall i :: 0 <= i < |events| ==> KeepsHonest(states[i], events[i], states[i + 1]))
  {
    if forall i :: 0 <= i < |states| ==> AttemptsHonest(states[i].bin) {
      forall i | 0 <= i < |events|
        ensures KeepsHonest(states[i], events[i], states[i + 1])
      {
        assert Step(states[i], events[i], states[i + 1]);
        HonestAfterIff(states[i], events[i], states[i + 1]);
      }
    }
    if forall i :: 0 <= i < |events| ==> KeepsHonest(states[i], events[i], states[i + 1]) {
      forall i | 0 <= i < |states|
        ensures AttemptsHonest(states[i].bin)
      {
        HonestUpTo(states, events, i);
      }
    }
  }

  lemma {:induction false} HonestUpTo(states: seq<State>, events: seq<Event>, i: nat)
    requires IsRun(states, events) && AttemptsHonest(states[0].bin) && i < |states|
    requires forall j :: 0 <= j < |events| ==> KeepsHonest(states[j], events[j], states[j + 1])
    ensures AttemptsHonest(states[i].bin)
  {
    if i > 0 {
      HonestUpTo(states, events, i - 1);
      assert Step(states[i - 1], events[i - 1], states[i]) && KeepsHonest(states[i - 1], events[i - 1], states[i]);
      HonestAfterIff(states[i - 1], events[i - 1], states[i]);
    }
  }

  // ---- The budget ----

  /** How many recorded failures one row can still take. */
  function RowBudget(row: BinRow): nat {
    if row.status != PendingGC then 0
    else if row.attempts < GC_MAX_ATTEMPTS then GC_MAX_ATTEMPTS - row.attempts
    else 1
  }

  /** A failure both statements record uses up exactly one unit, and parks the row with the last one. */
  lemma RecordedUsesOne(row: BinRow)
    requires row.status == PendingGC
    ensures RowBudget(RowAfter(row, true, true)) == RowBudget(row) - 1
    ensures RowAfter(row, true, true).status == GCFailed <==> RowBudget(row) == 1
    ensures RowBudget(row) > 1 <==> RowBudget(RowAfter(row, true, false)) < RowBudget(row)
  {}

  function BudgetAt(bin: Bin, k: BinKey): nat {
    if k in bin then RowBudget(bin[k]) else 0
  }

  ghost function BudgetOver(bin: Bin, keys: set<BinKey>): nat
    decreases |keys|
  {
    if keys == {} then 0 else
      var k :| k in keys;
      BudgetAt(bin, k) + BudgetOver(bin, keys - {k})
  }

  ghost function Budget(bin: Bin): nat {
    BudgetOver(bin, bin.Keys)
  }

  /** The sum does not depend on the order in which the rows are visited. */
  lemma {:induction false} BudgetSplit(bin: Bin, keys: set<BinKey>, k: BinKey)
    requires k in keys
    ensures BudgetOver(bin, keys) == BudgetAt(bin, k) + BudgetOver(bin, keys - {k})
    decreases |keys|
  {
    var j :| j in keys && BudgetOver(bin, keys) == BudgetAt(bin, j) + BudgetOver(bin, keys - {j});
    if j != k {
      BudgetSplit(bin, keys - {j}, k);
      BudgetSplit(bin, keys - {k}, j);
      assert keys - {j} - {k} == keys - {k} - {j};
    }
  }

  /** Keys without a row add nothing. */
  lemma {:induction false} BudgetBeyond(bin: Bin, keys: set<BinKey>)
    requires bin.Keys <= keys
    ensures BudgetOver(bin, keys) == Budget(bin)
    decreases |keys|
  {
    if keys != bin.Keys {
      var k :| k in keys && k !in bin.Keys;
      BudgetSplit(bin, keys, k);
      BudgetBeyond(bin, keys - {k});
    }
  }

  /** Spending adds up over rows. */
  lemma {:induction false} BudgetSpent(a: Bin, b: Bin, keys: set<BinKey>, gained: set<BinKey>, spent: set<BinKey>)
    requires forall k :: k in keys ==> SpentAt(a, b, gained, spent, k)
    ensures BudgetOver(b, keys) + |spent * keys| <= BudgetOver(a, keys) + GC_MAX_ATTEMPTS * |gained * keys|
    decreases |keys|
  {
    if keys == {} {
      assert spent * keys == {} && gained * keys == {};
    } else {
      var k :| k in keys;
      BudgetSplit(a, keys, k);
      BudgetSplit(b, keys, k);
      BudgetSpent(a, b, keys - {k}, gained, spent);
      OneLess(spent, keys, k);
      OneLess(gained, keys, k);
    }
  }

  lemma OneLess(a: set<BinKey>, keys: set<BinKey>, k: BinKey)
    requires k in keys
    ensures |a * keys| == |a * (keys - {k})| + (if k in a then 1 else 0)
  {
    assert a * keys == a * (keys - {k}) + (if k in a then {k} else {});
  }

  ghost predicate SpentAt(a: Bin, b: Bin, gained: set<BinKey>, spent: set<BinKey>, k: BinKey) {
    BudgetAt(b, k) + (if k in spent then 1 else 0) <= BudgetAt(a, k) + (if k in gained then GC_MAX_ATTEMPTS else 0)
  }

  // ---- What a step spends ----

  /** The registry refused to delete the manifests behind these rows, or to list their repositories. */
  ghost function Doomed(e: Event): nat {
    if e.Swept? then |e.f.doomed| else 0
  }

  /** For these rows both statements that record it took effect. */
  ghost function Recorded(e: Event): nat {
    if e.Swept? then |e.f.marked| else 0
  }

  ghost function Unrecorded(e: Event): nat {
    if e.Swept? then |e.f.doomed - e.f.marked| else 0
  }

  /** The rows that can be tried more often after a step than before it. */
  ghost function Renewed(before: Bin, after: Bin): set<BinKey> {
    set k | k in after && BudgetAt(after, k) > BudgetAt(before, k)
  }

  /** They are among those the step copied a manifest to. */
  lemma RenewedByCopy(s: State, e: Event, s': State)
    requires Step(s, e, s')
    ensures Renewed(s.bin, s'.bin) <= CopyKeys(s, e)
  {
    forall k | k in Renewed(s.bin, s'.bin)
      ensures k in CopyKeys(s, e)
    {
      RowAfterStep(s, e, s', k);
    }
  }

  lemma StepSpends(s: State, e: Event, s': State, k: BinKey)
    requires Step(s, e, s')
    ensures SpentAt(s.bin, s'.bin, Renewed(s.bin, s'.bin), if e.Swept? then e.f.marked else {}, k)
  {
    if k in s'.bin {
      RowAfterStep(s, e, s', k);
      assert e.Swept? && k in e.f.counted ==> k in Elements(e.items);
    }
  }

  /** The budgets of two bins, if each row has spent and gained as said. */
  lemma BudgetsCompare(a: Bin, b: Bin, gained: set<BinKey>, spent: set<BinKey>)
    requires forall k :: SpentAt(a, b, gained, spent, k)
    ensures Budget(b) + |spent| <= Budget(a) + GC_MAX_ATTEMPTS * |gained|
  {
    var keys := a.Keys + b.Keys + gained + spent;
    BudgetSpent(a, b, keys, gained, spent);
    BudgetBeyond(a, keys);
    BudgetBeyond(b, keys);
    assert spent * keys == spent && gained * keys == gained;
  }

  /** Every recorded failure uses up one unit of the budget; only renewals add any, at most five each. */
  lemma BudgetStep(s: State, e: Event, s': State)
    requires Step(s, e, s')
    ensures Budget(s'.bin) + Recorded(e) <= Budget(s.bin) + GC_MAX_ATTEMPTS * |Renewed(s.bin, s'.bin)|
  {
    var spent := if e.Swept? then e.f.marked else {};
    forall k
      ensures SpentAt(s.bin, s'.bin, Renewed(s.bin, s'.bin), spent, k)
    {
      StepSpends(s, e, s', k);
    }
    BudgetsCompare(s.bin, s'.bin, Renewed(s.bin, s'.bin), spent);
  }

  // ---- Runs ----

  /** How often a row was renewed. */
  ghost function RenewedIn(states: seq<State>): nat {
    var n := |states|;
    if n <= 1 then 0 else RenewedIn(states[..n - 1]) + |Renewed(states[n - 2].bin, states[n - 1].bin)|
  }

  ghost function DoomedIn(events: seq<Event>): nat {
    if events == [] then 0 else DoomedIn(events[..|events| - 1]) + Doomed(events[|events| - 1])
  }

  ghost function RecordedIn(events: seq<Event>): nat {
    if events == [] then 0 else RecordedIn(events[..|events| - 1]) + Recorded(events[|events| - 1])
  }

  ghost function UnrecordedIn(events: seq<Event>): nat {
    if events == [] then 0 else UnrecordedIn(events[..|events| - 1]) + Unrecorded(events[|events| - 1])
  }

  lemma RunPrefix(states: seq<State>, events: seq<Event>)
    requires IsRun(states, events) && events != []
    ensures IsRun(states[..|events|], events[..|events| - 1])
    ensures Step(states[|events| - 1], events[|events| - 1], states[|events|])
  {
    var n := |events| - 1;
    assert Step(states[n], events[n], states[n + 1]);
  }

  /** Over any run, recorded failures are bounded by what the bin started with and five per renewal. */
  lemma {:induction false} RecordedAreBounded(states: seq<State>, events: seq<Event>)
    requires IsRun(states, events)
    ensures Budget(states[|events|].bin) + RecordedIn(events) <= Budget(states[0].bin) +
              GC_MAX_ATTEMPTS * RenewedIn(states)
    decreases |events|
  {
    if events != [] {
      var n := |events| - 1;
      RunPrefix(states, events);
      RecordedAreBounded(states[..n + 1], events[..n]);
      BudgetStep(states[n], events[n], states[n + 1]);
    }
  }

  lemma {:induction false} DoomedSplit(states: seq<State>, events: seq<Event>)
    requires IsRun(states, events)
    ensures DoomedIn(events) == RecordedIn(events) + UnrecordedIn(events)
    decreases |events|
  {
    if events != [] {
      var n := |events| - 1;
      RunPrefix(states, events);
      DoomedSplit(states[..n + 1], events[..n]);
      if events[n].Swept? {
        SubsetSize(events[n].f.marked, events[n].f.doomed);
      }
    }
  }

  /**
   * Over any run the deletes that fail are the failures that could not be recorded and at most so many
   * more: as long as failures are recorded, no manifest is tried for ever.
   */
  lemma DoomedWithin(states: seq<State>, events: seq<Event>)
    requires IsRun(states, events)
    ensures UnrecordedIn(events) <= DoomedIn(events)
         <= Budget(states[0].bin) + GC_MAX_ATTEMPTS * RenewedIn(states) + UnrecordedIn(events)
  {
    RecordedAreBounded(states, events);
    DoomedSplit(states, events);
  }

  // ---- Endless runs ----

  ghost predicate IsEndlessRun(states: nat -> State, events: nat -> Event) {
    forall i: nat :: Step(states(i), events(i), states(i + 1))
  }

  function FirstEvents(events: nat -> Event, n: nat): seq<Event> {
    seq(n, i requires 0 <= i < n => events(i))
  }

  function FirstStates(states: nat -> State, n: nat): seq<State> {
    seq(n + 1, i requires 0 <= i <= n => states(i))
  }

  ghost predicate RenewedAtMost(states: nat -> State, bound: nat) {
    forall n: nat :: RenewedIn(FirstStates(states, n)) <= bound
  }

  ghost predicate DoomedAtMost(events: nat -> Event, bound: nat) {
    forall n: nat :: DoomedIn(FirstEvents(events, n)) <= bound
  }

  ghost predicate UnrecordedAtMost(events: nat -> Event, bound: nat) {
    forall n: nat :: UnrecordedIn(FirstEvents(events, n)) <= bound
  }

  /**
   * In a run that never ends and renews rows finitely often, deletes fail finitely often exactly if
   * finitely many of the failures could not be recorded.
   */
  lemma FailuresEndIff(states: nat -> State, events: nat -> Event, renewals: nat)
    requires IsEndlessRun(states, events) && RenewedAtMost(states, renewals)
    ensures (exists bound :: DoomedAtMost(events, bound)) <==> (exists bound :: UnrecordedAtMost(events, bound))
  {
    forall n
      ensures UnrecordedIn(FirstEvents(events, n)) <= DoomedIn(FirstEvents(events, n))
           <= Budget(states(0).bin) + GC_MAX_ATTEMPTS * renewals + UnrecordedIn(FirstEvents(events, n))
    {
      WithinFirst(states, events, renewals, n);
    }
    if bound :| UnrecordedAtMost(events, bound) {
      assert DoomedAtMost(events, Budget(states(0).bin) + GC_MAX_ATTEMPTS * renewals + bound);
    }
    if bound :| DoomedAtMost(events, bound) {
      assert UnrecordedAtMost(events, bound);
    }
  }

  lemma WithinFirst(states: nat -> State, events: nat -> Event, renewals: nat, n: nat)
    requires IsEndlessRun(states, events) && RenewedAtMost(states, renewals)
    ensures UnrecordedIn(FirstEvents(events, n)) <= DoomedIn(FirstEvents(events, n))
         <= Budget(states(0).bin) + GC_MAX_ATTEMPTS * renewals + UnrecordedIn(FirstEvents(events, n))
  {
    assert IsRun(FirstStates(states, n), FirstEvents(events, n));
    assert RenewedIn(FirstStates(states, n)) <= renewals;
    DoomedWithin(FirstStates(states, n), FirstEvents(events, n));
  }

  // ---- One row ----

  /** Among the first `n` steps, those in which the delete behind the row failed. */
  ghost function TimesDoomed(events: nat -> Event, k: BinKey, n: nat): nat {
    if n == 0 then 0
    else TimesDoomed(events, k, n - 1) + if events(n - 1).Swept? && k in events(n - 1).f.doomed then 1 else 0
  }

  /** And those in which that failure was not fully recorded. */
  ghost function TimesUnrecorded(events: nat -> Event, k: BinKey, n: nat): nat {
    if n == 0 then 0
    else TimesUnrecorded(events, k, n - 1) +
         if events(n - 1).Swept? && k in events(n - 1).f.doomed - events(n - 1).f.marked then 1 else 0
  }

  ghost function TimesRenewed(states: nat -> State, k: BinKey, n: nat): nat {
    if n == 0 then 0
    else TimesRenewed(states, k, n - 1) + if k in Renewed(states(n - 1).bin, states(n).bin) then 1 else 0
  }

  lemma {:induction false} RowWithin(states: nat -> State, events: nat -> Event, k: BinKey, n: nat)
    requires IsEndlessRun(states, events)
    ensures TimesUnrecorded(events, k, n) <= TimesDoomed(events, k, n)
    ensures BudgetAt(states(n).bin, k) + TimesDoomed(events, k, n) <=
            BudgetAt(states(0).bin, k) + GC_MAX_ATTEMPTS * TimesRenewed(states, k, n) + TimesUnrecorded(events, k, n)
  {
    if n > 0 {
      RowWithin(states, events, k, n - 1);
      var i: nat := n - 1;
      assert Step(states(i), events(i), states(i + 1));
      RowStep(states(i), events(i), states(n), k);
    }
  }

  lemma RowStep(s: State, e: Event, s': State, k: BinKey)
    requires Step(s, e, s')
    ensures e.Swept? && k in e.f.doomed - e.f.marked ==> k in e.f.doomed
    ensures BudgetAt(s'.bin, k) + (if e.Swept? && k in e.f.doomed then 1 else 0) <=
            BudgetAt(s.bin, k) + (if k in Renewed(s.bin, s'.bin) then GC_MAX_ATTEMPTS else 0) +
            (if e.Swept? && k in e.f.doomed - e.f.marked then 1 else 0)
  {
    StepSpends(s, e, s', k);
  }

  ghost predicate RowRenewedAtMost(states: nat -> State, k: BinKey, bound: nat) {
    forall n: nat :: TimesRenewed(states, k, n) <= bound
  }

  ghost predicate RowDoomedAtMost(events: nat -> Event, k: BinKey, bound: nat) {
    forall n: nat :: TimesDoomed(events, k, n) <= bound
  }

  ghost predicate RowUnrecordedAtMost(events: nat -> Event, k: BinKey, bound: nat) {
    forall n: nat :: TimesUnrecorded(events, k, n) <= bound
  }

  /**
   * The same for one row, whatever happens to the others: if it is not renewed for ever, the delete behind
   * it fails finitely often exactly if finitely many of its failures could not be recorded.
   */
  lemma RowFailuresEndIff(states: nat -> State, events: nat -> Event, k: BinKey, renewals: nat)
    requires IsEndlessRun(states, events) && RowRenewedAtMost(states, k, renewals)
    ensures (exists bound :: RowDoomedAtMost(events, k, bound)) <==>
              (exists bound :: RowUnrecordedAtMost(events, k, bound))
  {
    var most := BudgetAt(states(0).bin, k) + GC_MAX_ATTEMPTS * renewals;
    forall n: nat
      ensures TimesUnrecorded(events, k, n) <= TimesDoomed(events, k, n) <= most + TimesUnrecorded(events, k, n)
    {
      RowWithin(states, events, k, n);
      assert TimesRenewed(states, k, n) <= renewals;
    }
    if bound :| RowUnrecordedAtMost(events, k, bound) {
      assert RowDoomedAtMost(events, k, most + bound);
    }
    if bound :| RowDoomedAtMost(events, k, bound) {
      assert RowUnrecordedAtMost(events, k, bound);
    }
  }

  // ---- No bound ----

  /** A run of sweeps that fails to delete manifests at least `n` times, and counts an attempt each time. */
  ghost predicate FailingRun(s: State, n: nat, states: seq<State>, events: seq<Event>) {
    && IsRun(states, events) && states[0] == s && DoomedIn(events) >= n
    && forall i :: 0 <= i < |events| ==> events[i].Swept? && events[i].f.counted == events[i].f.doomed
  }

  ghost predicate CanFail(s: State, n: nat) {
    exists states, events :: FailingRun(s, n, states, events)
  }

  ghost predicate AwaitsSweep(bin: Bin, k: BinKey) {
    k in bin && bin[k].status == PendingGC && k.digest != Empty
  }

  /**
   * Nothing bounds the failures if the statement that parks a row keeps failing: they can go on for ever,
   * every one of them counted, exactly if a pending row about a digest exists.
   */
  lemma NoBoundIff(s: State)
    ensures (forall n: nat :: CanFail(s, n)) <==> exists k :: AwaitsSweep(s.bin, k)
  {
    if k :| AwaitsSweep(s.bin, k) {
      forall n: nat
        ensures CanFail(s, n)
      {
        HalfFailures(s, k, n);
      }
    } else {
      if CanFail(s, 1) {
        var states, events :| FailingRun(s, 1, states, events);
        NothingToTry(states, events);
      }
    }
  }

  lemma DoomedAwait(s: State, e: Event, s': State)
    requires Step(s, e, s') && e.Swept?
    ensures forall k :: k in e.f.doomed ==> AwaitsSweep(s.bin, k)
    ensures forall k :: AwaitsSweep(s'.bin, k) ==> AwaitsSweep(s.bin, k)
  {
    assert forall k :: k in e.f.doomed ==> k in Elements(e.items);
  }

  lemma {:induction false} NothingToTry(states: seq<State>, events: seq<Event>)
    requires IsRun(states, events) && forall k :: !AwaitsSweep(states[0].bin, k)
    requires forall i :: 0 <= i < |events| ==> events[i].Swept?
    ensures DoomedIn(events) == 0 && forall k :: !AwaitsSweep(states[|events|].bin, k)
    decreases |events|
  {
    if events != [] {
      var n := |events| - 1;
      RunPrefix(states, events);
      NothingToTry(states[..n + 1], events[..n]);
      NothingDoomed(states[n], events[n], states[n + 1]);
    }
  }

  lemma NothingDoomed(s: State, e: Event, s': State)
    requires Step(s, e, s') && e.Swept? && forall k :: !AwaitsSweep(s.bin, k)
    ensures Doomed(e) == 0 && forall k :: !AwaitsSweep(s'.bin, k)
  {
    DoomedAwait(s, e, s');
    assert e.f.doomed == {};
  }

  /** A sweep of one row whose repository cannot be listed, and whose attempt is counted but never acted on. */
  ghost function HalfFailure(k: BinKey): Event {
    Swept([k], {}, Failures({k}, {k}, {}), false)
  }

  ghost function Tried(s: State, k: BinKey, n: nat): State
    requires k in s.bin
  {
    s.(bin := s.bin[k := s.bin[k].(attempts := s.bin[k].attempts + n)])
  }

  lemma HalfFailureStep(s: State, k: BinKey, n: nat)
    requires AwaitsSweep(s.bin, k)
    ensures Step(Tried(s, k, n), HalfFailure(k), Tried(s, k, n + 1))
  {
    SweepNothing(s.repos);
    assert Elements([k]) == {k};
    assert BinAged(Tried(s, k, n).bin, Tried(s, k, n + 1).bin, {k}, HalfFailure(k).f);
  }

  lemma {:induction false} HalfFailureCount(k: BinKey, n: nat)
    ensures DoomedIn(seq(n, i => HalfFailure(k))) == n
  {
    if n > 0 {
      HalfFailureCount(k, n - 1);
      assert seq(n, i => HalfFailure(k))[..n - 1] == seq(n - 1, i => HalfFailure(k));
    }
  }

  lemma HalfFailures(s: State, k: BinKey, n: nat)
    requires AwaitsSweep(s.bin, k)
    ensures CanFail(s, n)
  {
    var states, events := seq(n + 1, i requires 0 <= i <= n => Tried(s, k, i)), seq(n, i => HalfFailure(k));
    forall i | 0 <= i < n
      ensures Step(states[i], events[i], states[i + 1])
    {
      HalfFailureStep(s, k, i);
    }
    HalfFailureCount(k, n);
    assert Tried(s, k, 0) == s;
    assert FailingRun(s, n, states, events);
  }
}
