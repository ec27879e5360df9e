/** Which retention selections depend on the order groups are visited in, and which do not. */
module RetentionFacts {
  import opened Prelude
  import opened Registry
  import opened Retention

  // ---- Every valid selection is reached ----

  lemma InsertedLast(list: seq<Candidate>, c: Candidate)
    requires forall i :: 0 <= i < |list| ==> list[i].createdAt >= c.createdAt
    ensures Inserted(list, c) == list + [c]
  {}

  lemma {:induction false} SortedIsItself(list: seq<Candidate>)
    requires Descending(list)
    ensures SortByLatest(list) == list
  {
    if list != [] {
      var init, last := list[..|list| - 1], list[|list| - 1];
      assert Descending(init);
      SortedIsItself(init);
      InsertedLast(init, last);
      assert SortByLatest(list) == Inserted(init, last);
      assert init + [last] == list;
    }
  }

  /** The groups that stay, newest first, followed by those that go. */
  lemma KeptThenRemoved(images: seq<Image>, registryTags: set<Tag>, kept: seq<Candidate>, out: seq<Candidate>)
    requires Descending(kept) && Descending(out) && KeptAreNewer(images, registryTags, out)
    requires forall c :: c in kept ==> IsGroup(images, registryTags, c) && c.digest !in Digests(out)
    ensures Descending(kept + out)
  {
    forall i, j | 0 <= i < |kept| && 0 <= j < |out|
      ensures kept[i].createdAt >= out[j].createdAt
    {
      assert kept[i] in kept && out[j] in out;
    }
  }

  function DigestsOf(list: seq<Candidate>): seq<Digest> {
    seq(|list|, i requires 0 <= i < |list| => list[i].digest)
  }

  lemma DigestsListed(list: seq<Candidate>)
    requires DistinctDigests(list)
    ensures Distinct(DigestsOf(list)) && Elements(DigestsOf(list)) == Digests(list)
  {
    forall d | d in Digests(list)
      ensures d in DigestsOf(list)
    {
      var c :| c in list && c.digest == d;
      var i :| 0 <= i < |list| && list[i] == c;
      assert DigestsOf(list)[i] == d;
    }
    forall d | d in DigestsOf(list)
      ensures d in Digests(list)
    {
      var i :| 0 <= i < |list| && DigestsOf(list)[i] == d;
      assert list[i] in list;
    }
  }

  lemma GroupsAgain(images: seq<Image>, registryTags: set<Tag>, list: seq<Candidate>)
    requires forall c :: c in list ==> IsGroup(images, registryTags, c)
    ensures GroupsInOrder(images, registryTags, DigestsOf(list)) == list
  {
    forall i | 0 <= i < |list|
      ensures GroupsInOrder(images, registryTags, DigestsOf(list))[i] == list[i]
    {
      assert list[i] in list;
    }
  }

  /** The groups outside `out`, newest first. */
  lemma KeptSorted(images: seq<Image>, registryTags: set<Tag>, gone: set<Digest>) returns (kept: seq<Candidate>)
    ensures Descending(kept) && DistinctDigests(kept) && Digests(kept) == GroupDigests(images, registryTags) - gone
    ensures forall c :: c in kept ==> IsGroup(images, registryTags, c)
    ensures |kept| == |GroupDigests(images, registryTags) - gone|
  {
    var order := SomeOrder(GroupDigests(images, registryTags) - gone);
    var list := GroupsInOrder(images, registryTags, order);
    forall c | c in list
      ensures IsGroup(images, registryTags, c)
    {
      var i :| 0 <= i < |list| && list[i] == c;
      assert order[i] in Elements(order);
    }
    assert DigestsOf(list) == order;
    DigestsListed(list);
    kept := SortByLatest(list);
    SortIsStable(list);
    SortedListsAll(list, kept);
    DistinctSize(order);
  }

  /**
   * The conditions on a valid selection leave no freedom the visiting order does not have: each is the
   * outcome of one.
   */
  lemma EveryValidSelectionIsReached(images: seq<Image>, keepCount: nat, registryTags: set<Tag>, out: seq<Candidate>)
    returns (order: seq<Digest>)
    requires ValidSelection(images, keepCount, registryTags, out)
    ensures Visits(images, registryTags, order) && SelectionFor(images, keepCount, registryTags, order) == out
  {
    var list := KeptFirst(images, keepCount, registryTags, out);
    order := DigestsOf(list);
    DigestsListed(list);
    SortedGroups(images, registryTags, list);
  }

  lemma KeptFirst(images: seq<Image>, keepCount: nat, registryTags: set<Tag>, out: seq<Candidate>)
    returns (list: seq<Candidate>)
    requires ValidSelection(images, keepCount, registryTags, out)
    ensures Descending(list) && DistinctDigests(list) && Digests(list) == GroupDigests(images, registryTags)
    ensures forall c :: c in list ==> IsGroup(images, registryTags, c)
    ensures out == if |list| <= keepCount then [] else list[keepCount..]
  {
    var kept := KeptSorted(images, registryTags, Digests(out));
    KeptSize(images, keepCount, registryTags, out);
    KeptThenRemoved(images, registryTags, kept, out);
    RestOf(Digests(out), GroupDigests(images, registryTags));
    BothListed(kept, out);
    list := kept + out;
  }

  lemma RestOf<T>(a: set<T>, b: set<T>)
    requires a <= b
    ensures (b - a) + a == b && (b - a) !! a
  {}

  lemma SortedGroups(images: seq<Image>, registryTags: set<Tag>, list: seq<Candidate>)
    requires Descending(list) && forall c :: c in list ==> IsGroup(images, registryTags, c)
    ensures SortByLatest(GroupsInOrder(images, registryTags, DigestsOf(list))) == list
  {
    GroupsAgain(images, registryTags, list);
    SortedIsItself(list);
  }

  lemma BothListed(a: seq<Candidate>, b: seq<Candidate>)
    requires DistinctDigests(a) && DistinctDigests(b) && Digests(a) !! Digests(b)
    ensures DistinctDigests(a + b) && Digests(a + b) == Digests(a) + Digests(b)
  {
    forall i, j | 0 <= i < |a| && 0 <= j < |b|
      ensures a[i].digest != b[j].digest
    {
      assert a[i] in a && b[j] in b;
      assert a[i].digest in Digests(a) && b[j].digest in Digests(b);
    }
    assert forall c :: c in a + b <==> c in a || c in b;
  }

  // ---- When the order does not matter ----

  ghost function Newer(images: seq<Image>, registryTags: set<Tag>, age: int): set<Digest> {
    set d | d in GroupDigests(images, registryTags) && Latest(images, registryTags, d) > age
  }

  ghost function AtLeast(images: seq<Image>, registryTags: set<Tag>, age: int): set<Digest> {
    set d | d in GroupDigests(images, registryTags) && Latest(images, registryTags, d) >= age
  }

  /** The cut falls inside the groups of one age: some of them stay and some go. */
  ghost predicate CutThrough(images: seq<Image>, keepCount: nat, registryTags: set<Tag>, age: int) {
    |Newer(images, registryTags, age)| < keepCount < |AtLeast(images, registryTags, age)|
  }

  /**
   * The removed digests are the same for every order the groups are visited in exactly if the cut goes
   * through no age.
   */
  lemma SameDigestsIffNoTie(images: seq<Image>, keepCount: nat, registryTags: set<Tag>)
    ensures (forall o, p :: Visits(images, registryTags, o) && Visits(images, registryTags, p) ==>
               Digests(SelectionFor(images, keepCount, registryTags, o)) ==
                   Digests(SelectionFor(images, keepCount, registryTags, p)))
       <==> (forall age :: !CutThrough(images, keepCount, registryTags, age))
  {
    if age :| CutThrough(images, keepCount, registryTags, age) {
      var o, p := EitherMayGo(images, keepCount, registryTags, age);
    } else {
      forall o, p | Visits(images, registryTags, o) && Visits(images, registryTags, p)
        ensures Digests(SelectionFor(images, keepCount, registryTags, o)) ==
                  Digests(SelectionFor(images, keepCount, registryTags, p))
      {
        var out, other := SelectionFor(images, keepCount, registryTags, o),
            SelectionFor(images, keepCount, registryTags, p);
        SelectionIsValid(images, keepCount, registryTags, o);
        SelectionIsValid(images, keepCount, registryTags, p);
        NoCutNoTie(images, keepCount, registryTags, out);
        NoTieSameDigests(images, keepCount, registryTags, out, other);
      }
    }
  }

  /** A kept group is exactly as old as a removed one. */
  ghost predicate TiedAtCut(images: seq<Image>, registryTags: set<Tag>, out: seq<Candidate>) {
    exists c, d :: c in out && d in GroupDigests(images, registryTags) - Digests(out) &&
        Latest(images, registryTags, d) == c.createdAt
  }

  /** How many groups stay. */
  lemma KeptSize(images: seq<Image>, keepCount: nat, registryTags: set<Tag>, out: seq<Candidate>)
    requires ValidSelection(images, keepCount, registryTags, out)
    ensures Digests(out) <= GroupDigests(images, registryTags)
    ensures out != [] ==> |GroupDigests(images, registryTags) - Digests(out)| == keepCount
    ensures |GroupDigests(images, registryTags)| > keepCount <==> out != []
  {
    SelectionSize(out);
    SubsetSize(Digests(out), GroupDigests(images, registryTags));
  }

  lemma NoCutNoTie(images: seq<Image>, keepCount: nat, registryTags: set<Tag>, out: seq<Candidate>)
    requires ValidSelection(images, keepCount, registryTags, out)
    requires forall age :: !CutThrough(images, keepCount, registryTags, age)
    ensures !TiedAtCut(images, registryTags, out)
  {
    if TiedAtCut(images, registryTags, out) {
      var c, d :| c in out && d in GroupDigests(images, registryTags) - Digests(out) &&
          Latest(images, registryTags, d) == c.createdAt;
      var kept, age := GroupDigests(images, registryTags) - Digests(out), c.createdAt;
      KeptSize(images, keepCount, registryTags, out);
      NewerStay(images, registryTags, out, c);
      SubsetSize(Newer(images, registryTags, age), kept - {d});
      SubsetSize(kept + {c.digest}, AtLeast(images, registryTags, age));
      assert CutThrough(images, keepCount, registryTags, age);
    }
  }

  /** Groups newer than a removed one stay; those that stay are at least as new as it. */
  lemma NewerStay(images: seq<Image>, registryTags: set<Tag>, out: seq<Candidate>, c: Candidate)
    requires c in out && KeptAreNewer(images, registryTags, out) && forall x :: x in out ==>
              IsGroup(images, registryTags, x)
    requires exists d :: d in GroupDigests(images, registryTags) - Digests(out) &&
              Latest(images, registryTags, d) == c.createdAt
    ensures var kept := GroupDigests(images, registryTags) - Digests(out);
            Newer(images, registryTags, c.createdAt) <= kept &&
                kept + {c.digest} <= AtLeast(images, registryTags, c.createdAt)
  {
    var d :| d in GroupDigests(images, registryTags) - Digests(out) && Latest(images, registryTags, d) == c.createdAt;
    assert forall x :: x in out ==> x.createdAt <= c.createdAt;
  }

  /** Where the cut goes through an age, two orders remove different digests. */
  lemma EitherMayGo(images: seq<Image>, keepCount: nat, registryTags: set<Tag>, age: int)
    returns (o: seq<Digest>, p: seq<Digest>)
    requires CutThrough(images, keepCount, registryTags, age)
    ensures Visits(images, registryTags, o) && Visits(images, registryTags, p)
    ensures Digests(SelectionFor(images, keepCount, registryTags, o)) !=
            Digests(SelectionFor(images, keepCount, registryTags, p))
  {
    o := SomeOrder(GroupDigests(images, registryTags));
    SelectionIsValid(images, keepCount, registryTags, o);
    var out := SelectionFor(images, keepCount, registryTags, o);
    var c, d := TiedPair(images, keepCount, registryTags, age, out);
    var other := SwapTied(images, keepCount, registryTags, out, c, d);
    p := EveryValidSelectionIsReached(images, keepCount, registryTags, other);
  }

  lemma TiedPair(images: seq<Image>, keepCount: nat, registryTags: set<Tag>, age: int, out: seq<Candidate>)
    returns (c: Candidate, d: Digest)
    requires CutThrough(images, keepCount, registryTags, age) && ValidSelection(images, keepCount, registryTags, out)
    ensures c in out && d in GroupDigests(images, registryTags) - Digests(out)
    ensures Latest(images, registryTags, d) == c.createdAt
  {
    var all := GroupDigests(images, registryTags);
    var kept := all - Digests(out);
    SubsetSize(AtLeast(images, registryTags, age), all);
    KeptSize(images, keepCount, registryTags, out);
    var e := Beyond(AtLeast(images, registryTags, age), kept);
    d := Beyond(kept, Newer(images, registryTags, age));
    c :| c in out && c.digest == e;
  }

  lemma Beyond(a: set<Digest>, b: set<Digest>) returns (d: Digest)
    requires |a| > |b|
    ensures d in a && d !in b
  {
    if a <= b {
      SubsetSize(a, b);
    }
    d :| d in a && d !in b;
  }

  /** Of two groups of the same age on either side of the cut, either may be the one removed. */
  lemma SwapTied(images: seq<Image>, keepCount: nat, registryTags: set<Tag>, out: seq<Candidate>, c: Candidate,
                 d: Digest)
    returns (other: seq<Candidate>)
    requires ValidSelection(images, keepCount, registryTags, out)
    requires c in out && d in GroupDigests(images, registryTags) - Digests(out)
    requires Latest(images, registryTags, d) == c.createdAt
    ensures ValidSelection(images, keepCount, registryTags, other)
    ensures d in Digests(other) && c.digest !in Digests(other)
  {
    var i :| 0 <= i < |out| && out[i] == c;
    var x := Candidate(d, GroupTags(images, registryTags, d), c.createdAt);
    other := out[i := x];
    SwapMembers(out, i, x);
  }

  lemma SwapMembers(out: seq<Candidate>, i: nat, x: Candidate)
    requires i < |out| && DistinctDigests(out) && x.digest !in Digests(out)
    ensures Digests(out[i := x]) == Digests(out) - {out[i].digest} + {x.digest}
    ensures DistinctDigests(out[i := x])
    ensures forall y :: y in out[i := x] <==> y == x || (y in out && y != out[i])
  {
    var other := out[i := x];
    assert forall j :: 0 <= j < |out| ==> out[j] in out && out[j].digest in Digests(out);
    forall y | y in out && y != out[i]
      ensures y in other && y.digest != out[i].digest
    {
      var j :| 0 <= j < |out| && out[j] == y;
      assert other[j] == y;
    }
    assert other[i] == x && x in other;
  }

  lemma NoTieSameDigests(images: seq<Image>, keepCount: nat, registryTags: set<Tag>, out: seq<Candidate>,
                         other: seq<Candidate>)
    requires ValidSelection(images, keepCount, registryTags, out)
    requires ValidSelection(images, keepCount, registryTags, other)
    requires !TiedAtCut(images, registryTags, out)
    ensures Digests(other) == Digests(out)
  {
    SelectionSize(out);
    SelectionSize(other);
    if !(Digests(other) <= Digests(out)) {
      var d :| d in Digests(other) && d !in Digests(out);
      var e := LeftOver(Digests(out), Digests(other), d);
    }
    SubsetSize(Digests(other), Digests(out));
  }

  /** Sets of one size: if one has a member the other lacks, so has the other. */
  lemma LeftOver(a: set<Digest>, b: set<Digest>, d: Digest) returns (e: Digest)
    requires |a| == |b| && d in b && d !in a
    ensures e in a && e !in b
  {
    if a <= b {
      SubsetSize(a, b);
    }
    e :| e in a && e !in b;
  }

  lemma {:induction false} SelectionSize(out: seq<Candidate>)
    requires DistinctDigests(out)
    ensures |Digests(out)| == |out|
  {
    if out != [] {
      var init, last := out[..|out| - 1], out[|out| - 1];
      SelectionSize(init);
      assert out == init + [last];
      assert Digests(out) == Digests(init) + {last.digest};
    }
  }

  // ---- Reordering the rows ----

  ghost predicate DistinctTimes(images: seq<Image>, registryTags: set<Tag>) {
    forall d, e :: d in GroupDigests(images, registryTags) && e in GroupDigests(images, registryTags) && d != e ==>
      Latest(images, registryTags, d) != Latest(images, registryTags, e)
  }

  /** The groups, and their ages, do not depend on the order of the rows. */
  lemma ShuffledGroups(images: seq<Image>, shuffled: seq<Image>, registryTags: set<Tag>)
    requires multiset(images) == multiset(shuffled)
    ensures GroupDigests(images, registryTags) == GroupDigests(shuffled, registryTags)
    ensures forall d :: Latest(images, registryTags, d) == Latest(shuffled, registryTags, d)
    ensures forall d :: multiset(GroupTags(images, registryTags, d)) == multiset(GroupTags(shuffled, registryTags, d))
  {
    assert forall i :: i in images <==> i in multiset(images);
    assert forall i :: i in shuffled <==> i in multiset(shuffled);
    forall d
      ensures Latest(images, registryTags, d) == Latest(shuffled, registryTags, d)
      ensures multiset(GroupTags(images, registryTags, d)) == multiset(GroupTags(shuffled, registryTags, d))
    {
      LatestIsMaximum(images, registryTags, d);
      LatestIsMaximum(shuffled, registryTags, d);
      ShuffledTags(images, shuffled, registryTags, d);
    }
  }

  lemma {:induction false} ShuffledTags(images: seq<Image>, shuffled: seq<Image>, registryTags: set<Tag>, d: Digest)
    requires multiset(images) == multiset(shuffled)
    ensures multiset(GroupTags(images, registryTags, d)) == multiset(GroupTags(shuffled, registryTags, d))
    decreases |images|
  {
    if images == [] {
      assert |multiset(shuffled)| == |shuffled|;
    } else {
      var n := |images| - 1;
      assert images[n] in multiset(images) && images[n] in multiset(shuffled);
      var i :| 0 <= i < |shuffled| && shuffled[i] == images[n];
      DropOneMultiset(images, n);
      DropOneMultiset(shuffled, i);
      assert images[..n] + images[n + 1..] == images[..n];
      Cancel(multiset(images[..n]), multiset(shuffled[..i] + shuffled[i + 1..]), images[n]);
      ShuffledTags(images[..n], shuffled[..i] + shuffled[i + 1..], registryTags, d);
      DropOne(images, n, registryTags, d);
      DropOne(shuffled, i, registryTags, d);
    }
  }

  lemma DropOneMultiset<T>(s: seq<T>, i: nat)
    requires i < |s|
    ensures multiset(s) == multiset(s[..i] + s[i + 1..]) + multiset{s[i]}
  {
    assert s == s[..i] + [s[i]] + s[i + 1..];
  }

  lemma Cancel<T>(a: multiset<T>, b: multiset<T>, x: T)
    requires a + multiset{x} == b + multiset{x}
    ensures a == b
  {
    assert a == a + multiset{x} - multiset{x};
    assert b == b + multiset{x} - multiset{x};
  }

  /** What one row contributes to its group. */
  ghost function Mine(img: Image, registryTags: set<Tag>, d: Digest): multiset<Ref> {
    if Eligible(img, registryTags) && img.digest == d then multiset{img.reference} else multiset{}
  }

  lemma {:induction false} DropOne(images: seq<Image>, i: nat, registryTags: set<Tag>, d: Digest)
    requires i < |images|
    ensures multiset(GroupTags(images, registryTags, d))
         == multiset(GroupTags(images[..i] + images[i + 1..], registryTags, d)) + Mine(images[i], registryTags, d)
    decreases |images|
  {
    var n := |images| - 1;
    if i == n {
      assert images == images[..n] + [images[n]];
      assert images[..i] + images[i + 1..] == images[..n];
    } else {
      DropOne(images[..n], i, registryTags, d);
      DropBeforeLast(images, i, registryTags, d);
    }
  }

  lemma DropBeforeLast(images: seq<Image>, i: nat, registryTags: set<Tag>, d: Digest)
    requires i < |images| - 1
    ensures var init, last := images[..|images| - 1], images[|images| - 1];
            && init[i] == images[i]
            && multiset(GroupTags(images, registryTags, d)) ==
                multiset(GroupTags(init, registryTags, d)) + Mine(last, registryTags, d)
            && multiset(GroupTags(images[..i] + images[i + 1..], registryTags, d))
            == multiset(GroupTags(init[..i] + init[i + 1..], registryTags, d)) + Mine(last, registryTags, d)
  {
    var init, last := images[..|images| - 1], images[|images| - 1];
    assert images == init + [last];
    assert images[..i] + images[i + 1..] == init[..i] + init[i + 1..] + [last];
  }

  function Ages(list: seq<Candidate>): seq<(Digest, int)> {
    seq(|list|, i requires 0 <= i < |list| => (list[i].digest, list[i].createdAt))
  }

  predicate StrictlyDescending(ages: seq<(Digest, int)>) {
    forall i, j :: 0 <= i < j < |ages| ==> ages[i].1 > ages[j].1
  }

  lemma HeadIsElement<T>(s: seq<T>)
    ensures s != [] ==> s[0] in Elements(s)
  {}

  lemma TailElements(ages: seq<(Digest, int)>)
    requires StrictlyDescending(ages) && ages != []
    ensures ages[0] in Elements(ages) && Elements(ages[1..]) == Elements(ages) - {ages[0]}
    ensures forall x :: x in Elements(ages) && x != ages[0] ==> x.1 < ages[0].1
  {}

  /** Two strictly descending lists of the same entries are the same list. */
  lemma {:induction false} OneOrderOnly(a: seq<(Digest, int)>, b: seq<(Digest, int)>)
    requires StrictlyDescending(a) && StrictlyDescending(b) && Elements(a) == Elements(b)
    ensures a == b
  {
    if a == [] {
      HeadIsElement(b);
    } else {
      assert a[0] in Elements(b);
      TailElements(a);
      TailElements(b);
      OneOrderOnly(a[1..], b[1..]);
      assert a == [a[0]] + a[1..] && b == [b[0]] + b[1..];
    }
  }

  /**
   * With distinct group ages the selection is the same for every order of the rows and every order
   * the groups are visited in: the same digests and times in the same places, with the same tags.
   */
  lemma SameForEveryOrder(images: seq<Image>, shuffled: seq<Image>, keepCount: nat, registryTags: set<Tag>,
                          o: seq<Digest>, p: seq<Digest>)
    requires multiset(images) == multiset(shuffled) && DistinctTimes(images, registryTags)
    requires Visits(images, registryTags, o) && Visits(shuffled, registryTags, p)
    ensures var out, other :=
              SelectionFor(images, keepCount, registryTags, o), SelectionFor(shuffled, keepCount, registryTags, p);
            && Ages(out) == Ages(other)
            && forall i :: 0 <= i < |out| ==> multiset(out[i].tags) == multiset(other[i].tags)
  {
    SelectionIsValid(images, keepCount, registryTags, o);
    SelectionIsValid(shuffled, keepCount, registryTags, p);
    SameForEveryShuffle(images, shuffled, keepCount, registryTags, SelectionFor(images, keepCount, registryTags, o),
                        SelectionFor(shuffled, keepCount, registryTags, p));
  }

  lemma SameForEveryShuffle(images: seq<Image>, shuffled: seq<Image>, keepCount: nat, registryTags: set<Tag>,
                            out: seq<Candidate>, other: seq<Candidate>)
    requires multiset(images) == multiset(shuffled) && DistinctTimes(images, registryTags)
    requires ValidSelection(images, keepCount, registryTags, out)
    requires ValidSelection(shuffled, keepCount, registryTags, other)
    ensures Ages(out) == Ages(other)
    ensures forall i :: 0 <= i < |out| ==> multiset(out[i].tags) == multiset(other[i].tags)
  {
    ShuffledGroups(images, shuffled, registryTags);
    var moved := seq(|other|, i requires 0 <= i < |other| =>
                     other[i].(tags := GroupTags(images, registryTags, other[i].digest)));
    MovedIsValid(images, shuffled, keepCount, registryTags, other, moved);
    NoTieSameDigests(images, keepCount, registryTags, out, moved);
    AgesStrict(images, registryTags, out);
    AgesStrict(images, registryTags, moved);
    AgesFromDigests(images, registryTags, out, moved);
    AgesFromDigests(images, registryTags, moved, out);
    OneOrderOnly(Ages(out), Ages(moved));
    assert Ages(moved) == Ages(other);
    assert |Ages(out)| == |out| && |Ages(other)| == |other|;
    forall i | 0 <= i < |out|
      ensures multiset(out[i].tags) == multiset(other[i].tags)
    {
      assert Ages(out)[i] == Ages(other)[i];
      assert out[i] in out && other[i] in other;
    }
  }

  lemma MovedIsValid(images: seq<Image>, shuffled: seq<Image>, keepCount: nat, registryTags: set<Tag>,
                     other: seq<Candidate>, moved: seq<Candidate>)
    requires GroupDigests(images, registryTags) == GroupDigests(shuffled, registryTags)
    requires forall d :: Latest(images, registryTags, d) == Latest(shuffled, registryTags, d)
    requires ValidSelection(shuffled, keepCount, registryTags, other)
    requires |moved| == |other| && forall i :: 0 <= i < |other| ==>
              moved[i] == other[i].(tags := GroupTags(images, registryTags, other[i].digest))
    ensures ValidSelection(images, keepCount, registryTags, moved)
  {
    forall c | c in moved
      ensures exists o :: o in other && o.digest == c.digest && o.createdAt == c.createdAt
      ensures IsGroup(images, registryTags, c)
    {
      var i :| 0 <= i < |moved| && moved[i] == c;
      assert other[i] in other;
    }
    forall o | o in other
      ensures o.digest in Digests(moved)
    {
      var i :| 0 <= i < |other| && other[i] == o;
      assert moved[i] in moved;
    }
    assert Digests(moved) == Digests(other);
    forall c, d | c in moved && d in GroupDigests(images, registryTags) - Digests(moved)
      ensures Latest(images, registryTags, d) >= c.createdAt
    {
      var o :| o in other && o.digest == c.digest && o.createdAt == c.createdAt;
    }
  }

  lemma AgesStrict(images: seq<Image>, registryTags: set<Tag>, out: seq<Candidate>)
    requires DistinctTimes(images, registryTags) && Descending(out) && DistinctDigests(out)
    requires forall c :: c in out ==> IsGroup(images, registryTags, c)
    ensures StrictlyDescending(Ages(out))
  {
    forall i, j | 0 <= i < j < |out|
      ensures out[i].createdAt > out[j].createdAt
    {
      assert out[i] in out && out[j] in out;
    }
  }

  lemma AgesFromDigests(images: seq<Image>, registryTags: set<Tag>, a: seq<Candidate>, b: seq<Candidate>)
    requires Digests(a) <= Digests(b)
    requires forall c :: c in a || c in b ==> IsGroup(images, registryTags, c)
    ensures Elements(Ages(a)) <= Elements(Ages(b))
  {
    forall x | x in Ages(a)
      ensures x in Ages(b)
    {
      var i :| 0 <= i < |a| && Ages(a)[i] == x;
      assert a[i] in a && a[i].digest in Digests(a);
      var c :| c in b && c.digest == a[i].digest;
      var j :| 0 <= j < |b| && b[j] == c;
      assert Ages(b)[j] == x;
    }
  }

  /** A tie: two groups of the same age, one to be kept. Whichever the map gives first stays. */
  lemma TieIsAmbiguous()
    ensures var d, e := Sha256("1"), Sha256("2");
            var images, tags := [Image(Named("a"), d, 5), Image(Named("b"), e, 5)], {"a", "b"};
            && Visits(images, tags, [d, e]) && Visits(images, tags, [e, d])
            && Digests(SelectionFor(images, 1, tags, [d, e])) == {e}
            && Digests(SelectionFor(images, 1, tags, [e, d])) == {d}
  {
    var d, e := Sha256("1"), Sha256("2");
    var images, tags := [Image(Named("a"), d, 5), Image(Named("b"), e, 5)], {"a", "b"};
    assert images[0] in images && images[1] in images;
    assert GroupDigests(images, tags) == {d, e};
    LatestIsMaximum(images, tags, d);
    LatestIsMaximum(images, tags, e);
    FirstStays(images, tags, d, e);
    FirstStays(images, tags, e, d);
  }

  lemma TwoInOrder(images: seq<Image>, registryTags: set<Tag>, d: Digest, e: Digest)
    requires Latest(images, registryTags, d) == Latest(images, registryTags, e)
    ensures var list := GroupsInOrder(images, registryTags, [d, e]);
            |list| == 2 && list[1].digest == e && SelectionFor(images, 1, registryTags, [d, e]) == [list[1]]
  {
    var list := GroupsInOrder(images, registryTags, [d, e]);
    SortedIsItself(list);
  }

  lemma FirstStays(images: seq<Image>, registryTags: set<Tag>, d: Digest, e: Digest)
    requires d != e && GroupDigests(images, registryTags) == {d, e}
    requires Latest(images, registryTags, d) == Latest(images, registryTags, e)
    ensures Visits(images, registryTags, [d, e])
    ensures Digests(SelectionFor(images, 1, registryTags, [d, e])) == {e}
  {
    var list := GroupsInOrder(images, registryTags, [d, e]);
    TwoInOrder(images, registryTags, d, e);
    assert list[1] in [list[1]];
  }
}
