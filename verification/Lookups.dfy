/** The reads of a tag-aware delete: the tag listing, cached digest lookups, and the grouping by digest. */
module Lookups {
  import opened Prelude
  import opened Registry
  import opened DeleteSpec
  import opened Outages

  type Cache = map<Ref, Option<Digest>>

  /**
   * Every answer in the cache is the registry's; a missing one is a failed read, or a reference that does
   * not exist.
   */
  ghost predicate CacheSound(r: Repo, cache: Cache, unseen: set<Ref>) {
    forall s :: s in cache ==>
      (if cache[s].Some? then cache[s] == r.Resolve(s) else r.Resolve(s).None? || s in unseen)
  }

  ghost predicate Extends(small: Cache, large: Cache) {
    forall s :: s in small ==> s in large && large[s] == small[s]
  }

  /** The tag listing names only existing tags; those it misses count as unseen. */
  ghost predicate ListingSound(r: Repo, listing: seq<Tag>, unseen: set<Ref>) {
    && Distinct(listing)
    && (forall t :: t in listing ==> t in r.tags)
    && (forall t :: t in r.tags ==> t in listing || Named(t) in unseen)
  }

  /** A tag that counts as unseen is one the call goes on treating as if it did not exist. */
  ghost predicate MissedNotUsed(listing: seq<Tag>, cache: Cache, unseen: set<Ref>) {
    forall t :: Named(t) in unseen && t in listing ==> Named(t) in cache && cache[Named(t)].None?
  }

  /** What became unseen was looked up without an answer. */
  ghost predicate NewlyMissed(before: set<Ref>, after: set<Ref>, cache: Cache) {
    forall s :: s in after && s !in before ==> s in cache && cache[s].None?
  }

  ghost predicate Visible(r: Repo, listing: seq<Tag>, cache: Cache, unseen: set<Ref>) {
    CacheSound(r, cache, unseen) && ListingSound(r, listing, unseen) && MissedNotUsed(listing, cache, unseen)
  }

  /** Under a fixed outage, the listing and the cached answers are those it leaves. */
  ghost predicate Foreseen(outage: Outage, name: Name, r: Repo, listing: seq<Tag>, cache: Cache) {
    outage.Fixed? ==> ListedUnder(outage.down, name, r, listing) && CachedUnder(outage.down, name, r, cache)
  }

  ghost predicate ListedUnder(down: set<Call>, name: Name, r: Repo, listing: seq<Tag>) {
    forall t :: t in listing <==> t in r.tags && ListTags(name) !in down
  }

  ghost predicate CachedUnder(down: set<Call>, name: Name, r: Repo, cache: Cache) {
    forall s :: s in cache ==> cache[s] == SeenDigest(name, r, s, down)
  }

  ghost predicate AllCached(listing: seq<Tag>, cache: Cache) {
    forall t :: t in listing ==> Named(t) in cache
  }

  /** The repository's tags; an unanswered listing reads as an empty one, and its tags count as unseen. */
  method KnownTags(client: Upstream, name: Name) returns (listing: seq<Tag>, ghost unseen: set<Ref>)
    modifies client`lookupFaults
    ensures ListingSound(client.At(name), listing, unseen) && forall t :: Named(t) in unseen ==> t !in listing
    ensures client.lookupFaults >= old(client.lookupFaults)
    ensures client.lookupFaults == old(client.lookupFaults) ==> unseen == {}
    ensures client.outage.Fixed? ==> ListedUnder(client.outage.down, name, client.At(name), listing)
  {
    listing, unseen := [], {};
    var answer := client.Tags(name);
    if answer.Success? {
      listing := answer.value;
      assert forall t :: t in listing <==> t in Elements(listing);
    } else {
      unseen := set t | t in client.At(name).tags :: Named(t);
    }
  }

  method DigestOf(client: Upstream, name: Name, reference: Ref, cache: Cache, ghost unseen: set<Ref>, ghost r: Repo)
    returns (cache': Cache, ghost unseen': set<Ref>)
    requires CacheSound(r, cache, unseen)
    requires reference in cache || client.At(name) == r
    requires client.outage.Fixed? ==> CachedUnder(client.outage.down, name, r, cache)
    modifies client`lookupFaults
    ensures CacheSound(r, cache', unseen') && Extends(cache, cache')
    ensures cache'.Keys == cache.Keys + {reference}
    ensures unseen <= unseen' && NewlyMissed(unseen, unseen', cache')
    ensures reference in cache ==> unseen' == unseen
    ensures client.outage.Fixed? ==> CachedUnder(client.outage.down, name, r, cache')
    ensures client.lookupFaults >= old(client.lookupFaults)
    ensures client.lookupFaults == old(client.lookupFaults) ==> unseen' == unseen
  {
    cache', unseen' := cache, unseen;
    if reference !in cache {
      var d := client.Digest(name, reference);
      cache' := cache[reference := d];
      if d != r.Resolve(reference) {
        unseen' := unseen + {reference};
      }
    }
  }

  ghost function StillThere(listing: seq<Tag>, removed: set<Ref>, cache: Cache, d: Digest): set<Tag> {
    set t | t in listing && Named(t) !in removed && Named(t) in cache && cache[Named(t)] == Some(d)
  }

  /** What looking references up adds: sound answers, and nothing missed that was known before. */
  ghost predicate Learned(outage: Outage, name: Name, r: Repo, cache: Cache, unseen: set<Ref>, cache': Cache,
                          unseen': set<Ref>) {
    && CacheSound(r, cache', unseen') && Extends(cache, cache')
    && unseen <= unseen' && NewlyMissed(unseen, unseen', cache')
    && (outage.Fixed? ==> CachedUnder(outage.down, name, r, cache'))
  }

  /** The tags of `done` have been sorted into those that remain and the others. */
  ghost predicate Scanned(done: seq<Tag>, removed: set<Ref>, cache: Cache, digest: Digest, remaining: seq<Tag>) {
    && Distinct(remaining) && Elements(remaining) == StillThere(done, removed, cache, digest)
    && forall t :: t in done && Named(t) !in removed ==> Named(t) in cache
  }

  lemma ScannedOne(done: seq<Tag>, t: Tag, removed: set<Ref>, cache: Cache, cache': Cache, digest: Digest,
                   remaining: seq<Tag>)
    requires Scanned(done, removed, cache, digest, remaining) && t !in done && Extends(cache, cache')
    requires Named(t) !in removed ==> Named(t) in cache'
    ensures Scanned(done + [t], removed, cache', digest,
                    if Named(t) !in removed && cache'[Named(t)] == Some(digest) then remaining + [t] else remaining)
  {
    assert StillThere(done, removed, cache', digest) == Elements(remaining);
    assert forall u :: u in done + [t] <==> u in done || u == t;
    assert t !in Elements(remaining);
    assert Elements(remaining + [t]) == Elements(remaining) + {t};
  }

  /** The listed tags that point at `digest` and are not being removed. */
  method SurvivingTags(client: Upstream, name: Name, listing: seq<Tag>, removed: set<Ref>, cache: Cache, digest: Digest,
                       ghost unseen: set<Ref>, ghost r: Repo)
    returns (remaining: seq<Tag>, cache': Cache, ghost unseen': set<Ref>)
    requires CacheSound(r, cache, unseen) && Distinct(listing)
    requires client.At(name) == r || AllCached(listing, cache)
    requires client.outage.Fixed? ==> CachedUnder(client.outage.down, name, r, cache)
    modifies client`lookupFaults
    ensures Learned(client.outage, name, r, cache, unseen, cache', unseen')
    ensures AllCached(listing, cache) ==> unseen' == unseen
    ensures Scanned(listing, removed, cache', digest, remaining)
    ensures client.lookupFaults >= old(client.lookupFaults)
    ensures client.lookupFaults == old(client.lookupFaults) ==> unseen' == unseen
  {
    remaining, cache', unseen' := [], cache, unseen;
    for i := 0 to |listing|
      invariant Learned(client.outage, name, r, cache, unseen, cache', unseen')
      invariant AllCached(listing, cache) ==> unseen' == unseen
      invariant Scanned(listing[..i], removed, cache', digest, remaining)
      invariant client.lookupFaults >= old(client.lookupFaults)
      invariant client.lookupFaults == old(client.lookupFaults) ==> unseen' == unseen
    {
      var t := listing[i];
      assert t !in listing[..i] && listing[..i + 1] == listing[..i] + [t];
      ghost var known := cache';
      if Named(t) !in removed {
        cache', unseen' := DigestOf(client, name, Named(t), cache', unseen', r);
      }
      ScannedOne(listing[..i], t, removed, known, cache', digest, remaining);
      if Named(t) !in removed && cache'[Named(t)] == Some(digest) {
        remaining := remaining + [t];
      }
    }
    assert listing[..|listing|] == listing;
  }

  /** The siblings that were seen are exactly the survivors, up to those that could not be seen. */
  lemma RemainingAreSurvivors(r: Repo, selected: set<Ref>, cache0: Cache, cache: Cache, listing: seq<Tag>,
                              unseen: set<Ref>, digest: Digest, refs: set<Ref>)
    requires Visible(r, listing, cache, unseen) && Extends(cache0, cache) && selected <= cache0.Keys
    requires refs == Group(selected, cache0, digest)
    requires forall t :: t in listing && Named(t) !in refs ==> Named(t) in cache
    ensures AllCached(listing, cache)
    ensures StillThere(listing, refs, cache, digest) <= Survivors(r, selected, digest)
    ensures forall t :: t in StillThere(listing, refs, cache, digest) ==> Named(t) !in unseen
    ensures forall t :: t in Survivors(r, selected, digest) ==>
              t in StillThere(listing, refs, cache, digest) || Named(t) in unseen
  {}

  lemma RemainingAreSeen(down: set<Call>, name: Name, r: Repo, selected: set<Ref>, cache: Cache, listing: seq<Tag>,
                         digest: Digest, refs: set<Ref>)
    requires ListedUnder(down, name, r, listing) && CachedUnder(down, name, r, cache) && AllCached(listing, cache)
    requires selected <= cache.Keys && refs == Group(selected, cache, digest)
    ensures StillThere(listing, refs, cache, digest) == SeenSiblings(name, r, selected, down, digest)
  {}

  /** Finds the siblings of the selected references on `digest`, up to those it cannot see. */
  method Classify(client: Upstream, name: Name, listing: seq<Tag>, refs: seq<Ref>, cache: Cache, digest: Digest,
                  ghost r: Repo, ghost selected: set<Ref>, ghost trace: Trace)
    returns (remaining: seq<Tag>, cache': Cache, ghost unseen: set<Ref>)
    requires Visible(r, listing, cache, trace.unseen) && selected <= cache.Keys
    requires client.At(name) == AfterDelete(r, trace.kept)
    requires trace.kept == map[] || AllCached(listing, cache)
    requires Elements(refs) == Group(selected, cache, digest)
    requires Foreseen(client.outage, name, r, listing, cache)
    modifies client`lookupFaults
    ensures Visible(r, listing, cache', unseen) && Extends(cache, cache') && AllCached(listing, cache')
    ensures Distinct(remaining) && Elements(remaining) <= Survivors(r, selected, digest)
    ensures forall t :: t in Survivors(r, selected, digest) ==> t in Elements(remaining) || Named(t) in unseen
    ensures forall t :: t in Elements(remaining) ==> Named(t) !in unseen
    ensures trace.kept == map[] || unseen == trace.unseen
    ensures unseen == {} ==> Elements(remaining) == Survivors(r, selected, digest)
    ensures |remaining| == 0 <==> Elements(remaining) == {}
    ensures forall s :: s in refs ==> r.Resolve(s) == Some(digest)
    ensures trace.unseen <= unseen
    ensures Foreseen(client.outage, name, r, listing, cache')
    ensures client.outage.Fixed? ==> Elements(remaining) == SeenSiblings(name, r, selected, client.outage.down, digest)
    ensures client.lookupFaults >= old(client.lookupFaults)
    ensures client.lookupFaults == old(client.lookupFaults) ==> unseen == trace.unseen
  {
    AfterDeleteNothing(r);
    remaining, cache', unseen := SurvivingTags(client, name, listing, Elements(refs), cache, digest, trace.unseen, r);
    RemainingAreSurvivors(r, selected, cache, cache', listing, unseen, digest, Elements(refs));
    if client.outage.Fixed? {
      RemainingAreSeen(client.outage.down, name, r, selected, cache', listing, digest, Elements(refs));
    }
    assert forall s :: s in refs ==> s in Elements(refs);
    assert remaining != [] ==> remaining[0] in Elements(remaining);
  }

  // ---- Grouping ----

  /** Each reference that is not empty once, where it is first mentioned. */
  ghost function FirstMentions(tags: seq<Ref>): seq<Ref> {
    if tags == [] then []
    else
      var before, last := FirstMentions(tags[..|tags| - 1]), tags[|tags| - 1];
      if last == Named("") || last in before then before else before + [last]
  }

  /** Of two of them, the one that stands first was mentioned while the other was still to come. */
  lemma {:induction false} MentionedBefore(tags: seq<Ref>, i: nat, j: nat) returns (m: nat)
    requires i < j < |FirstMentions(tags)|
    ensures m < |tags| && tags[m] == FirstMentions(tags)[i] && FirstMentions(tags)[j] !in tags[..m + 1]
  {
    var init, last := tags[..|tags| - 1], tags[|tags| - 1];
    if j < |FirstMentions(init)| {
      m := MentionedBefore(init, i, j);
      assert tags[..m + 1] == init[..m + 1];
    } else {
      AllMentioned(init);
      assert FirstMentions(tags)[i] in init;
      m :| 0 <= m < |init| && init[m] == FirstMentions(tags)[i];
      assert forall k :: 0 <= k <= m ==> init[k] == tags[k];
    }
  }

  lemma {:induction false} AllMentioned(tags: seq<Ref>)
    ensures forall s :: s in FirstMentions(tags) <==> s in tags && s != Named("")
  {
    if tags != [] {
      AllMentioned(tags[..|tags| - 1]);
      assert tags == tags[..|tags| - 1] + [tags[|tags| - 1]];
    }
  }

  method Deduplicate(selectedTags: seq<Ref>) returns (sel: seq<Ref>)
    ensures Distinct(sel) && Elements(sel) == Selection(selectedTags)
    ensures sel == FirstMentions(selectedTags)
  {
    sel := [];
    for i := 0 to |selectedTags|
      invariant Distinct(sel) && Elements(sel) == Selection(selectedTags[..i])
      invariant sel == FirstMentions(selectedTags[..i])
    {
      var s := selectedTags[i];
      assert selectedTags[..i + 1] == selectedTags[..i] + [s] && selectedTags[..i + 1][..i] == selectedTags[..i];
      if s != Named("") && s !in sel {
        assert Elements(sel + [s]) == Elements(sel) + {s};
        sel := sel + [s];
      }
    }
    assert selectedTags[..|selectedTags|] == selectedTags;
  }

  ghost function Group(sel: set<Ref>, cache: Cache, d: Digest): set<Ref> {
    set s | s in sel && s in cache && cache[s] == Some(d)
  }

  ghost function Unresolved(sel: set<Ref>, cache: Cache): set<Ref> {
    set s | s in sel && s in cache && cache[s] == None
  }

  /** The groups partition the references whose digest is known, and `order` lists the groups. */
  ghost predicate Grouped(sel: set<Ref>, cache: Cache, groups: map<Digest, seq<Ref>>, order: seq<Digest>) {
    && Distinct(order) && Elements(order) == groups.Keys
    && (forall d :: d in groups ==>
          groups[d] != [] && Distinct(groups[d]) && Elements(groups[d]) == Group(sel, cache, d))
    && (forall s :: s in sel && s in cache && cache[s].Some? ==> cache[s].value in groups)
  }

  // ---- The order of groups and results ----

  /** The references whose lookup gave this answer, in order. */
  ghost function Having(sel: seq<Ref>, cache: Cache, answer: Option<Digest>): seq<Ref> {
    if sel == [] then []
    else
      var before, last := Having(sel[..|sel| - 1], cache, answer), sel[|sel| - 1];
      if last in cache && cache[last] == answer then before + [last] else before
  }

  /** Their digests, each where it is first seen. */
  ghost function DigestsIn(sel: seq<Ref>, cache: Cache): seq<Digest> {
    if sel == [] then []
    else
      var before, last := DigestsIn(sel[..|sel| - 1], cache), sel[|sel| - 1];
      if last in cache && cache[last].Some? && cache[last].value !in before then before + [cache[last].value]
      else before
  }

  /** Refusals, groups and digests are in the order of the selection. */
  ghost predicate InOrder(sel: seq<Ref>, cache: Cache, groups: map<Digest, seq<Ref>>, order: seq<Digest>,
                          results: seq<TagResult>) {
    && order == DigestsIn(sel, cache) && References(results) == Having(sel, cache, None)
    && forall d :: Having(sel, cache, Some(d)) == if d in groups then groups[d] else []
  }

  lemma {:induction false} OrderFrame(sel: seq<Ref>, cache: Cache, s: Ref, d: Option<Digest>, answer: Option<Digest>)
    requires s !in sel
    ensures Having(sel, cache[s := d], answer) == Having(sel, cache, answer)
    ensures DigestsIn(sel, cache[s := d]) == DigestsIn(sel, cache)
  {
    if sel != [] {
      OrderFrame(sel[..|sel| - 1], cache, s, d, answer);
    }
  }

  lemma HavingNext(sel: seq<Ref>, cache: Cache, s: Ref, d: Option<Digest>, answer: Option<Digest>)
    requires s !in sel
    ensures Having(sel + [s], cache[s := d], answer) ==
              if d == answer then Having(sel, cache, answer) + [s] else Having(sel, cache, answer)
  {
    OrderFrame(sel, cache, s, d, answer);
    assert (sel + [s])[..|sel|] == sel;
  }

  lemma DigestsNext(sel: seq<Ref>, cache: Cache, s: Ref, d: Option<Digest>)
    requires s !in sel
    ensures DigestsIn(sel + [s], cache[s := d]) ==
              if d.Some? then WithDigest(DigestsIn(sel, cache), d.value) else DigestsIn(sel, cache)
  {
    OrderFrame(sel, cache, s, d, None);
    assert (sel + [s])[..|sel|] == sel;
  }

  lemma RefusedNext(results: seq<TagResult>, s: Ref)
    ensures References(results + [TagResult(s, NoAction, false, [])]) == References(results) + [s]
  {}

  lemma RefusedInOrder(sel: seq<Ref>, cache: Cache, groups: map<Digest, seq<Ref>>, order: seq<Digest>,
                       results: seq<TagResult>, s: Ref)
    requires InOrder(sel, cache, groups, order, results) && s !in sel
    ensures InOrder(sel + [s], cache[s := None], groups, order, results + [TagResult(s, NoAction, false, [])])
  {
    DigestsNext(sel, cache, s, None);
    HavingNext(sel, cache, s, None, None);
    RefusedNext(results, s);
    forall e
      ensures Having(sel + [s], cache[s := None], Some(e)) == if e in groups then groups[e] else []
    {
      HavingNext(sel, cache, s, None, Some(e));
    }
  }

  lemma MemberInOrder(sel: seq<Ref>, cache: Cache, groups: map<Digest, seq<Ref>>, order: seq<Digest>,
                      results: seq<TagResult>, s: Ref, d: Digest)
    requires InOrder(sel, cache, groups, order, results) && s !in sel
    ensures InOrder(sel + [s], cache[s := Some(d)], WithMember(groups, d, s), WithDigest(order, d), results)
  {
    DigestsNext(sel, cache, s, Some(d));
    HavingNext(sel, cache, s, Some(d), None);
    forall e
      ensures Having(sel + [s], cache[s := Some(d)], Some(e)) ==
                if e in WithMember(groups, d, s) then WithMember(groups, d, s)[e] else []
    {
      HavingNext(sel, cache, s, Some(d), Some(e));
    }
  }

  function WithMember(groups: map<Digest, seq<Ref>>, d: Digest, s: Ref): map<Digest, seq<Ref>> {
    groups[d := (if d in groups then groups[d] else []) + [s]]
  }

  function WithDigest(order: seq<Digest>, d: Digest): seq<Digest> {
    if d in order then order else order + [d]
  }

  method AddToGroup(groups: map<Digest, seq<Ref>>, order: seq<Digest>, d: Digest, s: Ref, ghost sel: set<Ref>,
                    ghost cache: Cache)
    returns (groups': map<Digest, seq<Ref>>, order': seq<Digest>)
    requires Grouped(sel, cache, groups, order) && s !in sel && cache.Keys == sel
    ensures Grouped(sel + {s}, cache[s := Some(d)], groups', order')
    ensures groups' == WithMember(groups, d, s) && order' == WithDigest(order, d)
  {
    assert d in groups <==> d in Elements(order);
    var members := if d in groups then groups[d] else [];
    order' := if d in groups then order else order + [d];
    groups' := groups[d := members + [s]];
    assert Distinct(order') && Elements(order') == groups'.Keys by {
      assert Elements(order + [d]) == Elements(order) + {d};
    }
    assert Elements(members) == Group(sel, cache, d);
    forall e | e in groups'
      ensures Distinct(groups'[e]) && Elements(groups'[e]) == Group(sel + {s}, cache[s := Some(d)], e)
    {
      assert s !in Elements(members) && Elements(members + [s]) == Elements(members) + {s};
    }
  }

  /** One refused result for each reference of `refs`. */
  ghost predicate AllRefused(results: seq<TagResult>, refs: set<Ref>) {
    && OnePer(results, refs)
    && forall x :: x in results ==> x == TagResult(x.reference, NoAction, false, [])
  }

  lemma RefuseOne(results: seq<TagResult>, refs: set<Ref>, s: Ref)
    requires AllRefused(results, refs) && s !in refs
    ensures AllRefused(results + [TagResult(s, NoAction, false, [])], refs + {s})
  {
    var refusal := [TagResult(s, NoAction, false, [])];
    assert References(refusal) == [s];
    OnePerAppend(results, refs, refusal, {s});
  }

  /** The references in `sel` have been looked up, grouped, or refused. */
  ghost predicate GroupedSoFar(outage: Outage, name: Name, r: Repo, start: set<Ref>, sel: set<Ref>,
                               groups: map<Digest, seq<Ref>>, order: seq<Digest>, results: seq<TagResult>, cache: Cache,
                               unseen: set<Ref>) {
    && CacheSound(r, cache, unseen) && cache.Keys == sel
    && start <= unseen && NewlyMissed(start, unseen, cache)
    && Grouped(sel, cache, groups, order) && AllRefused(results, Unresolved(sel, cache))
    && (outage.Fixed? ==> CachedUnder(outage.down, name, r, cache))
  }

  /** Sorts one more reference in, once it has been looked up. */
  method GroupNext(groups: map<Digest, seq<Ref>>, order: seq<Digest>, results: seq<TagResult>, s: Ref,
                   d: Option<Digest>, ghost sel: set<Ref>, ghost cache: Cache)
    returns (groups': map<Digest, seq<Ref>>, order': seq<Digest>, results': seq<TagResult>)
    requires Grouped(sel, cache, groups, order) && AllRefused(results, Unresolved(sel, cache))
    requires s !in sel && cache.Keys == sel
    ensures Grouped(sel + {s}, cache[s := d], groups', order')
    ensures AllRefused(results', Unresolved(sel + {s}, cache[s := d]))
    ensures if d.None?
              then groups' == groups && order' == order && results' == results + [TagResult(s, NoAction, false, [])]
              else
                && groups' == WithMember(groups, d.value, s) && order' == WithDigest(order, d.value)
                && results' == results
  {
    groups', order', results' := groups, order, results;
    if d.None? {
      RefuseOne(results, Unresolved(sel, cache), s);
      results' := results + [TagResult(s, NoAction, false, [])];
    } else {
      groups', order' := AddToGroup(groups, order, d.value, s, sel, cache);
    }
  }

  /** And that keeps the order. */
  method GroupInOrder(groups: map<Digest, seq<Ref>>, order: seq<Digest>, results: seq<TagResult>, s: Ref,
                      d: Option<Digest>, ghost done: seq<Ref>, ghost cache: Cache)
    returns (groups': map<Digest, seq<Ref>>, order': seq<Digest>, results': seq<TagResult>)
    requires Grouped(Elements(done), cache, groups, order) && AllRefused(results, Unresolved(Elements(done), cache))
    requires InOrder(done, cache, groups, order, results) && s !in done && cache.Keys == Elements(done)
    ensures Grouped(Elements(done) + {s}, cache[s := d], groups', order')
    ensures AllRefused(results', Unresolved(Elements(done) + {s}, cache[s := d]))
    ensures InOrder(done + [s], cache[s := d], groups', order', results')
  {
    if d.None? {
      RefusedInOrder(done, cache, groups, order, results, s);
    } else {
      MemberInOrder(done, cache, groups, order, results, s, d.value);
    }
    groups', order', results' := GroupNext(groups, order, results, s, d, Elements(done), cache);
  }

  /** Looks one more reference up and sorts it in. */
  method GroupOne(client: Upstream, name: Name, s: Ref, groups: map<Digest, seq<Ref>>, order: seq<Digest>,
                  results: seq<TagResult>, cache: Cache, ghost start: set<Ref>, ghost unseen: set<Ref>,
                  ghost done: seq<Ref>)
    returns (groups': map<Digest, seq<Ref>>, order': seq<Digest>, results': seq<TagResult>, cache': Cache,
             ghost unseen': set<Ref>)
    requires GroupedSoFar(client.outage, name, client.At(name), start, Elements(done), groups, order, results, cache,
                          unseen)
    requires InOrder(done, cache, groups, order, results) && s !in done
    modifies client`lookupFaults
    ensures GroupedSoFar(client.outage, name, client.At(name), start, Elements(done + [s]), groups', order', results',
                         cache', unseen')
    ensures InOrder(done + [s], cache', groups', order', results')
    ensures client.lookupFaults >= old(client.lookupFaults)
    ensures client.lookupFaults == old(client.lookupFaults) ==> unseen' == unseen
  {
    cache', unseen' := DigestOf(client, name, s, cache, unseen, client.At(name));
    assert cache' == cache[s := cache'[s]];
    assert Elements(done + [s]) == Elements(done) + {s};
    groups', order', results' := GroupInOrder(groups, order, results, s, cache'[s], done, cache);
  }

  /** The selected references by digest, in first-seen order; those without a digest are refused at once. */
  method GroupByDigest(client: Upstream, name: Name, sel: seq<Ref>, ghost start: set<Ref>)
    returns (groups: map<Digest, seq<Ref>>, order: seq<Digest>, results: seq<TagResult>, cache: Cache,
             ghost unseen: set<Ref>)
    requires Distinct(sel)
    modifies client`lookupFaults
    ensures GroupedSoFar(client.outage, name, client.At(name), start, Elements(sel), groups, order, results, cache,
                         unseen)
    ensures InOrder(sel, cache, groups, order, results)
    ensures client.lookupFaults >= old(client.lookupFaults)
    ensures client.lookupFaults == old(client.lookupFaults) ==> unseen == start
  {
    groups, order, results, cache, unseen := map[], [], [], map[], start;
    assert References(results) == [];
    for i := 0 to |sel|
      invariant GroupedSoFar(client.outage, name, client.At(name), start, Elements(sel[..i]), groups, order, results,
                             cache, unseen)
      invariant InOrder(sel[..i], cache, groups, order, results)
      invariant client.lookupFaults >= old(client.lookupFaults)
      invariant client.lookupFaults == old(client.lookupFaults) ==> unseen == start
    {
      PrefixGrows(sel, i);
      assert sel[..i + 1] == sel[..i] + [sel[i]] && sel[i] !in sel[..i];
      groups, order, results, cache, unseen :=
        GroupOne(client, name, sel[i], groups, order, results, cache, start, unseen, sel[..i]);
    }
    assert sel[..|sel|] == sel;
  }

  /** Every group is about a digest the selection resolves to; if nothing was missed, every such digest has one. */
  lemma GroupsAreSelected(r: Repo, selected: set<Ref>, cache: Cache, unseen: set<Ref>, groups: map<Digest, seq<Ref>>,
                          order: seq<Digest>)
    requires r.Valid() && CacheSound(r, cache, unseen) && cache.Keys == selected
    requires Grouped(selected, cache, groups, order)
    ensures forall d :: d in order ==> d in groups && d in SelectedDigests(r, selected) && d in r.manifests
    ensures unseen == {} ==> Elements(order) == SelectedDigests(r, selected)
  {
    forall d | d in order
      ensures d in groups && d in SelectedDigests(r, selected) && d in r.manifests
    {
      assert d in Elements(order);
      assert groups[d][0] in Elements(groups[d]);
    }
  }

  /** Under a fixed outage the groups are those of the references that can be looked up. */
  lemma GroupsAreSeen(down: set<Call>, name: Name, r: Repo, selected: set<Ref>, cache: Cache,
                      groups: map<Digest, seq<Ref>>, order: seq<Digest>)
    requires CachedUnder(down, name, r, cache) && cache.Keys == selected && Grouped(selected, cache, groups, order)
    ensures Elements(order) == SeenDigests(name, r, selected, down)
  {
    forall d | d in groups
      ensures d in SeenDigests(name, r, selected, down)
    {
      assert groups[d][0] in Elements(groups[d]);
    }
  }
}
