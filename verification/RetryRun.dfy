/** A run of the server in which garbage collection tries one row again and again. */
module RetryRun {
  import opened Registry
  import opened Store
  import opened System
  import opened Sweep
  import opened Runs
  import opened Retries
  import opened Server

  /**
   * From any state with a pending row about a digest: while its repository cannot be listed and its row
   * cannot be parked, every collection fails on it, counts the attempt, and leaves it pending.
   */
  method ParkingBroken(s: State, k: BinKey, n: nat) returns (ghost states: seq<State>, ghost events: seq<Event>)
    requires ValidCatalog(s.repos) && AwaitsSweep(s.bin, k)
    ensures FailingRun(s, n, states, events)
    ensures |events| == n && AwaitsSweep(states[n].bin, k)
  {
    var client := new Upstream(s.repos, Fixed({ListTags(k.repo)}, call => Rejected(503)));
    var db := new Database(s.bin, s.images, Only({ParkItem(k)}));
    states, events := [s], [];
    for i := 0 to n
      invariant client.Valid() && AwaitsSweep(db.bin, k)
      invariant |events| == i && DoomedIn(events) == i && FailingRun(s, i, states, events)
      invariant states[i] == StateOf(client, db)
    {
      ghost var e := CollectOne(client, db, k);
      FailsAgain(s, i, states, events, e, StateOf(client, db));
      events, states := events + [e], states + [StateOf(client, db)];
    }
  }

  lemma FailsAgain(s: State, n: nat, states: seq<State>, events: seq<Event>, e: Event, s': State)
    requires FailingRun(s, n, states, events) && Step(states[|events|], e, s') && e.Swept? && |e.f.doomed| == 1
    requires e.f.counted == e.f.doomed
    ensures FailingRun(s, n + 1, states + [s'], events + [e])
    ensures DoomedIn(events + [e]) == DoomedIn(events) + 1
  {
    RunGoesOn(states, events, e, s');
    DoomedMore(events, e);
  }

  lemma DoomedMore(events: seq<Event>, e: Event)
    ensures DoomedIn(events + [e]) == DoomedIn(events) + Doomed(e)
  {
    assert (events + [e])[..|events|] == events;
  }

  lemma RunGoesOn(states: seq<State>, events: seq<Event>, e: Event, s': State)
    requires IsRun(states, events) && Step(states[|events|], e, s')
    ensures IsRun(states + [s'], events + [e])
  {
    forall i | 0 <= i <= |events|
      ensures Step((states + [s'])[i], (events + [e])[i], (states + [s'])[i + 1])
    {
      if i < |events| {
        assert Step(states[i], events[i], states[i + 1]);
      }
    }
  }

  /** One such collection. */
  method CollectOne(client: Upstream, db: Database, k: BinKey) returns (ghost e: Event)
    requires client.Valid() && AwaitsSweep(db.bin, k)
    requires client.outage.Fixed? && client.outage.down == {ListTags(k.repo)}
    requires client.outage.cause(ListTags(k.repo)) != Transport && db.breakdown == Only({ParkItem(k)})
    modifies client, db`bin, db`faults
    ensures client.Valid() && AwaitsSweep(db.bin, k)
    ensures Step(old(StateOf(client, db)), e, StateOf(client, db))
    ensures e.Swept? && e.f == Failures({k}, {k}, {})
  {
    e := Collect(client, db, {k});
    assert Due(old(StateOf(client, db)), {k}) == {k};
    assert Dooms(old(client.repos), client.outage, k);
    assert e.f.doomed == {k};
    assert e.f.counted == {k} && e.f.marked == {};
  }
}
