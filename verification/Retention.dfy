/** Which images a retention run removes: groups of tags by digest, newest groups kept. */
module Retention {
  import opened Prelude
  import opened Registry

  datatype Image = Image(reference: Ref, digest: Digest, createdAt: int)

  datatype Candidate = Candidate(digest: Digest, tags: seq<Ref>, createdAt: int)

  // ---- What a selection is ----

  /** Rows without a digest, and rows whose tag the registry no longer has, do not take part. */
  predicate Eligible(img: Image, registryTags: set<Tag>) {
    img.digest != Empty && img.reference.Named? && img.reference.tag in registryTags
  }

  ghost function GroupDigests(images: seq<Image>, registryTags: set<Tag>): set<Digest> {
    set img | img in images && Eligible(img, registryTags) :: img.digest
  }

  /** The references of one group, in row order. */
  ghost function GroupTags(images: seq<Image>, registryTags: set<Tag>, d: Digest): seq<Ref>
    decreases |images|
  {
    if images == [] then []
    else
      var last := images[|images| - 1];
      GroupTags(images[..|images| - 1], registryTags, d) +
      (if Eligible(last, registryTags) && last.digest == d then [last.reference] else [])
  }

  /** The newest creation time in the group; times before the zero time count as the zero time. */
  ghost function Latest(images: seq<Image>, registryTags: set<Tag>, d: Digest): int
    decreases |images|
  {
    if images == [] then 0
    else
      var last := images[|images| - 1];
      var before := Latest(images[..|images| - 1], registryTags, d);
      if Eligible(last, registryTags) && last.digest == d && last.createdAt > before then last.createdAt else before
  }

  /** `Latest` is the maximum of the group's times and the zero time. */
  lemma {:induction false} LatestIsMaximum(images: seq<Image>, registryTags: set<Tag>, d: Digest)
    ensures Latest(images, registryTags, d) >= 0
    ensures forall img :: img in images && Eligible(img, registryTags) && img.digest == d ==>
              img.createdAt <= Latest(images, registryTags, d)
    ensures Latest(images, registryTags, d) == 0 ||
            exists img :: img in images && Eligible(img, registryTags) && img.digest == d &&
                img.createdAt == Latest(images, registryTags, d)
    decreases |images|
  {
    if images != [] {
      var init := images[..|images| - 1];
      LatestIsMaximum(init, registryTags, d);
      assert images == init + [images[|images| - 1]];
    }
  }

  /** The rows that make up a group: those that show the digest, which is not empty, under a tag the registry has. */
  lemma {:induction false} GroupTagsMean(images: seq<Image>, registryTags: set<Tag>, d: Digest, reference: Ref)
    ensures reference in GroupTags(images, registryTags, d) <==>
              && d != Empty && reference.Named? && reference.tag in registryTags
              && exists img :: img in images && img.reference == reference && img.digest == d
    decreases |images|
  {
    if images != [] {
      var init, last := images[..|images| - 1], images[|images| - 1];
      assert images == init + [last];
      GroupTagsMean(init, registryTags, d, reference);
    }
  }

  ghost predicate IsGroup(images: seq<Image>, registryTags: set<Tag>, c: Candidate) {
    && c.digest in GroupDigests(images, registryTags)
    && c.tags == GroupTags(images, registryTags, c.digest)
    && c.createdAt == Latest(images, registryTags, c.digest)
  }

  ghost function Digests(list: seq<Candidate>): set<Digest> {
    set c | c in list :: c.digest
  }

  predicate Descending(list: seq<Candidate>) {
    forall i, j :: 0 <= i < j < |list| ==> list[i].createdAt >= list[j].createdAt
  }

  predicate DistinctDigests(list: seq<Candidate>) {
    forall i, j :: 0 <= i < j < |list| ==> list[i].digest != list[j].digest
  }

  /** No kept group is older than a removed one. */
  ghost predicate KeptAreNewer(images: seq<Image>, registryTags: set<Tag>, out: seq<Candidate>) {
    forall c, d :: c in out && d in GroupDigests(images, registryTags) - Digests(out) ==>
      Latest(images, registryTags, d) >= c.createdAt
  }

  /** What the candidates promise, whatever order the groups were visited in. */
  ghost predicate ValidSelection(images: seq<Image>, keepCount: nat, registryTags: set<Tag>, out: seq<Candidate>) {
    && (forall c :: c in out ==> IsGroup(images, registryTags, c))
    && DistinctDigests(out) && Descending(out)
    && |out| == (if |GroupDigests(images, registryTags)| > keepCount then
                 |GroupDigests(images, registryTags)| - keepCount else 0)
    && KeptAreNewer(images, registryTags, out)
  }

  // ---- Computing one ----

  /** The groups seen so far, keyed by digest. */
  ghost predicate GroupsSoFar(images: seq<Image>, registryTags: set<Tag>, groups: map<Digest, Candidate>) {
    && groups.Keys == GroupDigests(images, registryTags)
    && forall d :: d in groups ==> groups[d].digest == d && IsGroup(images, registryTags, groups[d])
  }

  method GroupImages(images: seq<Image>, registryTags: set<Tag>) returns (groups: map<Digest, Candidate>)
    ensures GroupsSoFar(images, registryTags, groups)
  {
    groups := map[];
    for i := 0 to |images|
      invariant GroupsSoFar(images[..i], registryTags, groups)
    {
      assert images[..i + 1] == images[..i] + [images[i]];
      groups := AddImage(images[..i], registryTags, groups, images[i]);
    }
    assert images[..|images|] == images;
  }

  /** One turn of the grouping loop. */
  method AddImage(ghost images: seq<Image>, registryTags: set<Tag>, groups: map<Digest, Candidate>, img: Image)
    returns (out: map<Digest, Candidate>)
    requires GroupsSoFar(images, registryTags, groups)
    ensures GroupsSoFar(images + [img], registryTags, out)
  {
    forall d | d in groups && (d != img.digest || !Eligible(img, registryTags))
      ensures IsGroup(images + [img], registryTags, groups[d])
    {}
    if !Eligible(img, registryTags) {
      return groups;
    }
    var g := if img.digest in groups then groups[img.digest] else Candidate(img.digest, [], 0);
    if img.digest !in groups {
      NoGroupYet(images, registryTags, img.digest);
    }
    out := groups[img.digest := Candidate(img.digest, g.tags + [img.reference],
                                          if img.createdAt > g.createdAt then img.createdAt else g.createdAt)];
  }

  lemma {:induction false} NoGroupYet(images: seq<Image>, registryTags: set<Tag>, d: Digest)
    requires d !in GroupDigests(images, registryTags)
    ensures GroupTags(images, registryTags, d) == [] && Latest(images, registryTags, d) == 0
    decreases |images|
  {
    if images != [] {
      var init, last := images[..|images| - 1], images[|images| - 1];
      assert images == init + [last];
      NoGroupYet(init, registryTags, d);
    }
  }

  // ---- Sorting ----

  /** The groups of one age, in list order. */
  ghost function OfAge(list: seq<Candidate>, age: int): seq<Candidate> {
    if list == [] then []
    else if list[|list| - 1].createdAt == age then OfAge(list[..|list| - 1], age) + [list[|list| - 1]]
    else OfAge(list[..|list| - 1], age)
  }

  /** Goes behind every group that is at least as new. */
  function Inserted(sorted: seq<Candidate>, c: Candidate): seq<Candidate> {
    if sorted == [] || sorted[|sorted| - 1].createdAt >= c.createdAt then sorted + [c]
    else Inserted(sorted[..|sorted| - 1], c) + [sorted[|sorted| - 1]]
  }

  lemma {:induction false} InsertedMultiset(sorted: seq<Candidate>, c: Candidate)
    ensures multiset(Inserted(sorted, c)) == multiset(sorted) + multiset{c}
  {
    if sorted != [] && sorted[|sorted| - 1].createdAt < c.createdAt {
      InsertedMultiset(sorted[..|sorted| - 1], c);
      assert sorted == sorted[..|sorted| - 1] + [sorted[|sorted| - 1]];
    }
  }

  lemma OfAgeAppend(list: seq<Candidate>, c: Candidate, age: int)
    ensures OfAge(list + [c], age) == if c.createdAt == age then OfAge(list, age) + [c] else OfAge(list, age)
  {
    assert (list + [c])[..|list|] == list;
  }

  lemma {:induction false} InsertedDescending(sorted: seq<Candidate>, c: Candidate)
    requires Descending(sorted)
    ensures Descending(Inserted(sorted, c))
  {
    if sorted != [] && sorted[|sorted| - 1].createdAt < c.createdAt {
      var init, last := sorted[..|sorted| - 1], sorted[|sorted| - 1];
      InsertedDescending(init, c);
      InsertedMultiset(init, c);
      var out := Inserted(init, c);
      forall i | 0 <= i < |out|
        ensures out[i].createdAt >= last.createdAt
      {
        assert out[i] in multiset(out);
        assert out[i] == c || out[i] in multiset(init);
      }
      assert Inserted(sorted, c) == out + [last];
    }
  }

  lemma {:induction false} InsertedOfAge(sorted: seq<Candidate>, c: Candidate, age: int)
    ensures OfAge(Inserted(sorted, c), age) == if c.createdAt == age then OfAge(sorted, age) + [c]
              else OfAge(sorted, age)
  {
    if sorted != [] && sorted[|sorted| - 1].createdAt < c.createdAt {
      var init, last := sorted[..|sorted| - 1], sorted[|sorted| - 1];
      InsertedOfAge(init, c, age);
      OfAgeAppend(Inserted(init, c), last, age);
      assert sorted == init + [last];
      OfAgeAppend(init, last, age);
      assert last.createdAt != age || c.createdAt != age;
    } else {
      OfAgeAppend(sorted, c, age);
    }
  }

  /** Newest first; groups of the same age keep their order. */
  function SortByLatest(list: seq<Candidate>): seq<Candidate> {
    if list == [] then [] else Inserted(SortByLatest(list[..|list| - 1]), list[|list| - 1])
  }

  lemma {:induction false} SortIsStable(list: seq<Candidate>)
    ensures Descending(SortByLatest(list)) && multiset(SortByLatest(list)) == multiset(list)
    ensures forall age :: OfAge(SortByLatest(list), age) == OfAge(list, age)
  {
    if list != [] {
      var init, last := list[..|list| - 1], list[|list| - 1];
      assert list == init + [last];
      SortIsStable(init);
      InsertedDescending(SortByLatest(init), last);
      InsertedMultiset(SortByLatest(init), last);
      forall age
        ensures OfAge(SortByLatest(list), age) == OfAge(list, age)
      {
        InsertedOfAge(SortByLatest(init), last, age);
        OfAgeAppend(init, last, age);
      }
    }
  }

  lemma {:induction false} HasAge(list: seq<Candidate>, age: int)
    ensures OfAge(list, age) != [] <==> exists i :: 0 <= i < |list| && list[i].createdAt == age
  {
    if list != [] {
      var init := list[..|list| - 1];
      HasAge(init, age);
      assert list == init + [list[|list| - 1]];
    }
  }

  lemma SameInit<T>(a: seq<T>, x: T, b: seq<T>, y: T)
    requires a + [x] == b + [y]
    ensures a == b && x == y
  {
    assert (a + [x])[|a|] == x && (b + [y])[|b|] == y;
    assert (a + [x])[..|a|] == a && (b + [y])[..|b|] == b;
  }

  lemma SameLastAge(a: seq<Candidate>, b: seq<Candidate>)
    requires Descending(a) && Descending(b) && forall age :: OfAge(a, age) == OfAge(b, age)
    ensures |a| > 0 <==> |b| > 0
    ensures |a| > 0 ==> a[|a| - 1].createdAt == b[|b| - 1].createdAt
  {
    if a != [] {
      HasAge(a, a[|a| - 1].createdAt);
      HasAge(b, a[|a| - 1].createdAt);
    }
    if b != [] {
      HasAge(a, b[|b| - 1].createdAt);
      HasAge(b, b[|b| - 1].createdAt);
    }
  }

  /** There is only one way to sort a list stably, so it does not matter how it is done. */
  lemma {:induction false} StableSortIsUnique(a: seq<Candidate>, b: seq<Candidate>)
    requires Descending(a) && Descending(b) && forall age :: OfAge(a, age) == OfAge(b, age)
    ensures a == b
  {
    SameLastAge(a, b);
    if a != [] {
      var init, last, init', last' := a[..|a| - 1], a[|a| - 1], b[..|b| - 1], b[|b| - 1];
      assert a == init + [last] && b == init' + [last'];
      OfAgeAppend(init, last, last.createdAt);
      OfAgeAppend(init', last', last.createdAt);
      SameInit(OfAge(init, last.createdAt), last, OfAge(init', last.createdAt), last');
      forall age
        ensures OfAge(init, age) == OfAge(init', age)
      {
        OfAgeAppend(init, last, age);
        OfAgeAppend(init', last, age);
        if age == last.createdAt {
          SameInit(OfAge(init, age), last, OfAge(init', age), last);
        }
      }
      StableSortIsUnique(init, init');
    }
  }

  // ---- The selection for one visiting order ----

  /** The groups in the order they are visited in. */
  ghost function GroupsInOrder(images: seq<Image>, registryTags: set<Tag>, order: seq<Digest>): seq<Candidate> {
    seq(|order|, i requires 0 <= i < |order| =>
      Candidate(order[i], GroupTags(images, registryTags, order[i]), Latest(images, registryTags, order[i])))
  }

  /** An order in which ranging over the map of groups can visit them. */
  ghost predicate Visits(images: seq<Image>, registryTags: set<Tag>, order: seq<Digest>) {
    Distinct(order) && Elements(order) == GroupDigests(images, registryTags)
  }

  /** What is removed when the groups are visited in that order. */
  ghost function SelectionFor(images: seq<Image>, keepCount: nat, registryTags: set<Tag>,
                              order: seq<Digest>): seq<Candidate> {
    var sorted := SortByLatest(GroupsInOrder(images, registryTags, order));
    if |sorted| <= keepCount then [] else sorted[keepCount..]
  }

  method RetentionCandidates(images: seq<Image>, keepCount: int, registryTags: set<Tag>)
    returns (out: seq<Candidate>, ghost order: seq<Digest>)
    ensures keepCount <= 0 ==> out == []
    ensures keepCount > 0 ==>
              && Visits(images, registryTags, order) && out == SelectionFor(images, keepCount, registryTags, order)
  {
    out, order := [], [];
    if keepCount <= 0 {
      return;
    }
    var groups := GroupImages(images, registryTags);
    if |groups| <= keepCount {
      order := SomeOrder(groups.Keys);
      SortedSize(images, registryTags, order);
      return;
    }
    var list;
    list, order := ListGroups(groups, images, registryTags);
    SortedSize(images, registryTags, order);
    out := SortByLatest(list)[keepCount..];
  }

  /** The groups in some order, as ranging over the map gives them. */
  method ListGroups(groups: map<Digest, Candidate>, ghost images: seq<Image>, ghost registryTags: set<Tag>)
    returns (list: seq<Candidate>, ghost order: seq<Digest>)
    requires GroupsSoFar(images, registryTags, groups)
    ensures Visits(images, registryTags, order) && list == GroupsInOrder(images, registryTags, order)
  {
    list := [];
    var visited := Enumerate(groups.Keys);
    for i := 0 to |visited|
      invariant |list| == i && forall j :: 0 <= j < i ==> visited[j] in groups && list[j] == groups[visited[j]]
    {
      assert visited[i] in Elements(visited);
      list := list + [groups[visited[i]]];
    }
    order := visited;
  }

  lemma SortedSize(images: seq<Image>, registryTags: set<Tag>, order: seq<Digest>)
    requires Visits(images, registryTags, order)
    ensures |SortByLatest(GroupsInOrder(images, registryTags, order))| == |GroupDigests(images, registryTags)|
  {
    DistinctSize(order);
    var list := GroupsInOrder(images, registryTags, order);
    SortIsStable(list);
    assert |multiset(SortByLatest(list))| == |multiset(list)| == |list|;
  }

  /** Everything past the first `keepCount` groups of a descending list is a valid selection. */
  lemma LastAreOldest(images: seq<Image>, registryTags: set<Tag>, keepCount: nat, list: seq<Candidate>)
    requires ListsAllGroups(images, registryTags, list) && Descending(list) && keepCount < |list|
    ensures ValidSelection(images, keepCount, registryTags, list[keepCount..])
  {}

  /** Whatever the order, exactly the groups beyond the first `keepCount` go, none newer than one that stays. */
  lemma SelectionIsValid(images: seq<Image>, keepCount: nat, registryTags: set<Tag>, order: seq<Digest>)
    requires Visits(images, registryTags, order)
    ensures ValidSelection(images, keepCount, registryTags, SelectionFor(images, keepCount, registryTags, order))
  {
    var list := GroupsInOrder(images, registryTags, order);
    AllGroupsListed(images, registryTags, order, list);
    SortIsStable(list);
    SortedListsAll(list, SortByLatest(list));
    if keepCount < |list| {
      LastAreOldest(images, registryTags, keepCount, SortByLatest(list));
    }
  }

  ghost predicate ListsAllGroups(images: seq<Image>, registryTags: set<Tag>, list: seq<Candidate>) {
    && DistinctDigests(list) && Digests(list) == GroupDigests(images, registryTags)
    && |list| == |GroupDigests(images, registryTags)|
    && forall c :: c in list ==> IsGroup(images, registryTags, c)
  }

  lemma AllGroupsListed(images: seq<Image>, registryTags: set<Tag>, order: seq<Digest>, list: seq<Candidate>)
    requires Visits(images, registryTags, order) && list == GroupsInOrder(images, registryTags, order)
    ensures ListsAllGroups(images, registryTags, list)
  {
    DistinctSize(order);
    forall d | d in GroupDigests(images, registryTags)
      ensures d in Digests(list)
    {
      assert d in Elements(order);
      var j :| 0 <= j < |order| && order[j] == d;
      assert list[j] in list;
    }
    forall c | c in list
      ensures IsGroup(images, registryTags, c)
    {
      var j :| 0 <= j < |order| && list[j] == c;
      assert order[j] in Elements(order);
    }
  }

  lemma SortedListsAll(list: seq<Candidate>, sorted: seq<Candidate>)
    requires DistinctDigests(list) && multiset(sorted) == multiset(list)
    ensures DistinctDigests(sorted) && |sorted| == |list| && Digests(sorted) == Digests(list)
    ensures forall c :: c in sorted <==> c in list
  {
    assert forall c :: c in sorted <==> c in multiset(sorted);
    assert forall c :: c in list <==> c in multiset(list);
    assert |multiset(sorted)| == |sorted| && |multiset(list)| == |list|;
    forall i, j | 0 <= i < j < |sorted|
      ensures sorted[i].digest != sorted[j].digest
    {
      if sorted[i].digest == sorted[j].digest {
        SameDigestSame(list, sorted[i], sorted[j]);
        TwiceInMultiset(sorted, i, j);
        OnceInMultiset(list, sorted[i]);
      }
    }
  }

  lemma SameDigestSame(list: seq<Candidate>, a: Candidate, b: Candidate)
    requires DistinctDigests(list) && a in list && b in list && a.digest == b.digest
    ensures a == b
  {}

  lemma TwiceInMultiset<T>(s: seq<T>, i: nat, j: nat)
    requires i < j < |s| && s[i] == s[j]
    ensures multiset(s)[s[i]] >= 2
  {
    assert s == s[..j] + [s[j]] + s[j + 1..];
    assert s[i] in s[..j];
    assert multiset(s) == multiset(s[..j]) + multiset{s[j]} + multiset(s[j + 1..]);
  }

  lemma OnceInMultiset(list: seq<Candidate>, c: Candidate)
    requires DistinctDigests(list) && c in list
    ensures multiset(list)[c] == 1
  {
    var i :| 0 <= i < |list| && list[i] == c;
    assert list == list[..i] + [list[i]] + list[i + 1..];
    assert c !in list[..i] && c !in list[i + 1..];
    assert multiset(list) == multiset(list[..i]) + multiset{c} + multiset(list[i + 1..]);
  }
}
