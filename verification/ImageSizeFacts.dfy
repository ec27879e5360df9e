/** What an image size means: a sum over a set of blobs, found with a bounded number of fetches. */
module ImageSizeFacts {
  import opened Prelude
  import opened ImageSize

  // ---- Cost ----

  /** How many manifests can be fetched below a document at `depth`. */
  function Budget(depth: nat): nat
    decreases MAX_DEPTH + 1 - depth
  {
    if depth > MAX_DEPTH then 0 else MAX_CHILDREN * (1 + Budget(depth + 1))
  }

  /** No digest is fetched twice, nor one that was seen before, and everything fetched is deeper than `depth`. */
  ghost predicate FetchedOnce(trail: seq<Visit>, seen: set<string>, depth: nat) {
    && (forall i, j :: 0 <= i < j < |trail| ==> trail[i].digest != trail[j].digest)
    && (forall v :: v in trail ==> v.digest !in seen && v.depth > depth)
  }

  lemma {:induction false} WalkCost(fetch: Fetch, doc: Doc, seen: set<string>, depth: nat)
    ensures |Walk(fetch, doc, seen, depth)| <= Budget(depth) && FetchedOnce(Walk(fetch, doc, seen, depth), seen, depth)
    decreases MAX_DEPTH + 1 - depth, 1, 0
  {
    if doc.Manifest? && depth <= MAX_DEPTH {
      ChildrenCost(fetch, doc.children, seen, depth);
      var n := WalkChildren(fetch, doc.children, seen, depth).resolved;
      assert n * (1 + Budget(depth + 1)) <= MAX_CHILDREN * (1 + Budget(depth + 1));
    }
  }

  lemma FetchedOnceMore(a: seq<Visit>, b: seq<Visit>, seen: set<string>, depth: nat)
    requires FetchedOnce(a, seen, depth) && FetchedOnce(b, seen + Visited(a), depth)
    ensures FetchedOnce(a + b, seen, depth)
  {}

  lemma OneMore(n: nat, c: nat)
    ensures n * c + c == (n + 1) * c
  {}

  lemma {:induction false} ChildrenCost(fetch: Fetch, children: seq<string>, seen: set<string>, depth: nat)
    requires depth <= MAX_DEPTH
    ensures var p := WalkChildren(fetch, children, seen, depth);
            p.resolved <= MAX_CHILDREN && |p.trail| <= p.resolved * (1 + Budget(depth + 1)) &&
                FetchedOnce(p.trail, seen, depth)
    decreases MAX_DEPTH + 1 - depth, 0, |children|
  {
    if children != [] {
      var init, child := children[..|children| - 1], children[|children| - 1];
      var before := WalkChildren(fetch, init, seen, depth);
      ChildrenCost(fetch, init, seen, depth);
      if !Skipped(before, child, seen) {
        var sub := WalkChild(fetch, child, seen + Visited(before.trail), depth);
        ChildCost(fetch, child, seen + Visited(before.trail), depth);
        FetchedOnceMore(before.trail, sub, seen, depth);
        OneMore(before.resolved, 1 + Budget(depth + 1));
      }
    }
  }

  lemma {:induction false} ChildCost(fetch: Fetch, child: string, seen: set<string>, depth: nat)
    requires depth <= MAX_DEPTH && child !in seen
    ensures |WalkChild(fetch, child, seen, depth)| <= 1 + Budget(depth + 1)
    ensures FetchedOnce(WalkChild(fetch, child, seen, depth), seen, depth)
    decreases MAX_DEPTH - depth, 2, 0
  {
    if fetch(child).Some? {
      var rest := Walk(fetch, fetch(child).value, seen + {child}, depth + 1);
      WalkCost(fetch, fetch(child).value, seen + {child}, depth + 1);
      assert Visited([Visit(child, depth + 1)]) == {child};
      FetchedOnceMore([Visit(child, depth + 1)], rest, seen, depth);
    }
  }

  /** On every document graph, cyclic ones included: at most 4368 fetches, no digest twice. */
  lemma CostBound(fetch: Fetch, doc: Doc)
    ensures |Walk(fetch, doc, {}, 0)| <= 4368
    ensures forall i, j :: 0 <= i < j < |Walk(fetch, doc, {}, 0)| ==>
              Walk(fetch, doc, {}, 0)[i].digest != Walk(fetch, doc, {}, 0)[j].digest
  {
    WalkCost(fetch, doc, {}, 0);
    assert Budget(0) == 16 * (1 + 16 * (1 + 16));
  }

  // ---- Coverage ----

  ghost function KidsAt(fetch: Fetch, d: string): set<string> {
    if fetch(d).Some? then fetch(d).value.Kids() else {}
  }

  ghost function KidsOfAll(fetch: Fetch, digests: set<string>): set<string> {
    set d, e | d in digests && e in KidsAt(fetch, d) :: e
  }

  /** The digests at the end of a path of one, two or three steps below the root. */
  ghost function Levels(fetch: Fetch, root: Doc): (levels: seq<set<string>>)
    ensures |levels| == MAX_DEPTH + 1
  {
    var second := KidsOfAll(fetch, root.Kids());
    [root.Kids(), second, KidsOfAll(fetch, second)]
  }

  /** Everything within the depth limit. */
  ghost function Reach(fetch: Fetch, root: Doc): set<string> {
    Levels(fetch, root)[0] + Levels(fetch, root)[1] + Levels(fetch, root)[2]
  }

  /** Every manifest that can be fetched is reached within the depth limit. */
  ghost predicate Shallow(fetch: Fetch, root: Doc) {
    forall d :: d in Levels(fetch, root)[2] ==> fetch(d).None?
  }

  /** No index has more children than the limit. */
  ghost predicate Narrow(fetch: Fetch, root: Doc) {
    && |root.Kids()| <= MAX_CHILDREN
    && (forall d :: d in Levels(fetch, root)[0] + Levels(fetch, root)[1] ==> |KidsAt(fetch, d)| <= MAX_CHILDREN)
  }

  /** What was fetched directly below a document at `depth`. */
  ghost function FetchedAt(trail: seq<Visit>, depth: nat): set<string> {
    set v | v in trail && v.depth == depth + 1 :: v.digest
  }

  /** What the limits say about the levels, as far down as the traversal goes. */
  ghost predicate Limited(fetch: Fetch, levels: seq<set<string>>) {
    && |levels| == MAX_DEPTH + 1
    && (forall n, d :: 0 <= n < MAX_DEPTH && d in levels[n] ==> Descends(fetch, d, levels[n + 1]))
    && (forall d :: d in levels[MAX_DEPTH] ==> fetch(d).None?)
  }

  ghost predicate Descends(fetch: Fetch, d: string, below: set<string>) {
    KidsAt(fetch, d) <= below && |KidsAt(fetch, d)| <= MAX_CHILDREN
  }

  /** Each visit is where its level says, and the children of what was fetched have been seen. */
  ghost predicate Closed(fetch: Fetch, levels: seq<set<string>>, trail: seq<Visit>, after: set<string>)
    requires |levels| == MAX_DEPTH + 1
  {
    forall v :: v in trail ==>
      0 < v.depth <= MAX_DEPTH + 1 && v.digest in levels[v.depth - 1] && KidsAt(fetch, v.digest) <= after
  }

  lemma {:induction false} WalkCovers(fetch: Fetch, levels: seq<set<string>>, doc: Doc, seen: set<string>, depth: nat)
    requires Limited(fetch, levels)
    requires depth <= MAX_DEPTH && doc.Kids() <= levels[depth] && |doc.Kids()| <= MAX_CHILDREN
    ensures var trail := Walk(fetch, doc, seen, depth);
            doc.Kids() <= seen + Visited(trail) && Closed(fetch, levels, trail, seen + Visited(trail))
    decreases MAX_DEPTH + 1 - depth, 1, 0
  {
    if doc.Manifest? {
      ChildrenCovered(fetch, levels, doc.Kids(), doc.children, seen, depth);
    }
  }

  ghost predicate CoveredChildren(kids: set<string>, children: seq<string>, seen: set<string>, depth: nat,
                                  p: Progress) {
    && (forall c :: c in children ==> c == "" || c in seen + Visited(p.trail))
    && |FetchedAt(p.trail, depth)| == p.resolved && FetchedAt(p.trail, depth) <= kids
  }

  lemma {:induction false} ChildrenCovered(fetch: Fetch, levels: seq<set<string>>, kids: set<string>,
                                           children: seq<string>, seen: set<string>, depth: nat)
    requires Limited(fetch, levels)
    requires depth <= MAX_DEPTH && kids <= levels[depth] && |kids| <= MAX_CHILDREN
    requires forall c :: c in children && c != "" ==> c in kids
    ensures var p := WalkChildren(fetch, children, seen, depth);
            CoveredChildren(kids, children, seen, depth, p) && Closed(fetch, levels, p.trail, seen + Visited(p.trail))
    decreases MAX_DEPTH + 1 - depth, 0, |children|
  {
    if children != [] {
      var init, child := children[..|children| - 1], children[|children| - 1];
      assert children == init + [child];
      ChildrenCovered(fetch, levels, kids, init, seen, depth);
      var before := WalkChildren(fetch, init, seen, depth);
      if child != "" && child !in seen + Visited(before.trail) {
        RoomLeft(before, child, kids, depth);
        ChildCovered(fetch, levels, child, seen + Visited(before.trail), depth);
        ChildAdded(fetch, levels, kids, init, child, seen, depth, before,
                   WalkChild(fetch, child, seen + Visited(before.trail), depth));
      }
    }
  }

  lemma ChildAdded(fetch: Fetch, levels: seq<set<string>>, kids: set<string>, init: seq<string>, child: string,
                   seen: set<string>, depth: nat, before: Progress, sub: seq<Visit>)
    requires |levels| == MAX_DEPTH + 1 && child in kids && child !in Visited(before.trail)
    requires CoveredChildren(kids, init, seen, depth, before)
    requires Closed(fetch, levels, before.trail, seen + Visited(before.trail))
    requires FetchedAt(sub, depth) == {child} && child in Visited(sub)
    requires Closed(fetch, levels, sub, seen + Visited(before.trail) + Visited(sub))
    ensures var p := Progress(before.trail + sub, before.resolved + 1);
            CoveredChildren(kids, init + [child], seen, depth, p) &&
                Closed(fetch, levels, p.trail, seen + Visited(p.trail))
  {
    TrailGrows(before.trail, sub, child, depth);
  }

  /** As long as a child is missing, fewer than the limit have been resolved. */
  lemma RoomLeft(before: Progress, child: string, kids: set<string>, depth: nat)
    requires |FetchedAt(before.trail, depth)| == before.resolved && FetchedAt(before.trail, depth) <= kids
    requires child in kids && child !in Visited(before.trail) && |kids| <= MAX_CHILDREN
    ensures before.resolved < MAX_CHILDREN
  {
    assert child !in FetchedAt(before.trail, depth);
    SubsetSize(FetchedAt(before.trail, depth) + {child}, kids);
  }

  lemma TrailGrows(a: seq<Visit>, sub: seq<Visit>, child: string, depth: nat)
    requires child !in Visited(a) && FetchedAt(sub, depth) == {child} && child in Visited(sub)
    ensures Visited(a + sub) == Visited(a) + Visited(sub)
    ensures FetchedAt(a + sub, depth) == FetchedAt(a, depth) + {child}
    ensures |FetchedAt(a + sub, depth)| == |FetchedAt(a, depth)| + 1
  {}

  lemma {:induction false} ChildCovered(fetch: Fetch, levels: seq<set<string>>, child: string, seen: set<string>,
                                        depth: nat)
    requires Limited(fetch, levels)
    requires depth <= MAX_DEPTH && child in levels[depth] && child !in seen
    ensures var sub := WalkChild(fetch, child, seen, depth);
            FetchedAt(sub, depth) == {child} && child in Visited(sub) && Closed(fetch, levels, sub, seen + Visited(sub))
    decreases MAX_DEPTH - depth, 2, 0
  {
    var v := Visit(child, depth + 1);
    if fetch(child).Some? {
      assert depth < MAX_DEPTH && Descends(fetch, child, levels[depth + 1]);
      var next := fetch(child).value;
      WalkCovers(fetch, levels, next, seen + {child}, depth + 1);
      WalkCost(fetch, next, seen + {child}, depth + 1);
      ConsTrail(fetch, levels, v, Walk(fetch, next, seen + {child}, depth + 1), seen, depth);
    } else {
      assert v in [v] && WalkChild(fetch, child, seen, depth) == [v];
    }
  }

  lemma ConsTrail(fetch: Fetch, levels: seq<set<string>>, v: Visit, rest: seq<Visit>, seen: set<string>, depth: nat)
    requires |levels| == MAX_DEPTH + 1 && depth <= MAX_DEPTH
    requires v.depth == depth + 1 && (forall w :: w in rest ==> w.depth > depth + 1)
    requires v.digest in levels[depth] && KidsAt(fetch, v.digest) <= seen + {v.digest} + Visited(rest)
    requires Closed(fetch, levels, rest, seen + {v.digest} + Visited(rest))
    ensures var sub := [v] + rest;
            FetchedAt(sub, depth) == {v.digest} && v.digest in Visited(sub) &&
                Closed(fetch, levels, sub, seen + Visited(sub))
  {
    assert v in [v] + rest;
    assert Visited([v] + rest) == {v.digest} + Visited(rest);
    assert seen + {v.digest} + Visited(rest) == seen + Visited([v] + rest);
  }

  ghost predicate AllCounted(fetch: Fetch, trail: seq<Visit>) {
    forall v :: v in trail && fetch(v.digest).Some? ==> v.depth <= MAX_DEPTH
  }

  /** Within the limits the traversal fetches exactly what is reachable, and counts all of it. */
  lemma FetchesExactlyTheReachable(fetch: Fetch, root: Doc)
    requires Shallow(fetch, root) && Narrow(fetch, root)
    ensures Visited(Walk(fetch, root, {}, 0)) == Reach(fetch, root)
    ensures AllCounted(fetch, Walk(fetch, root, {}, 0))
  {
    var trail := Walk(fetch, root, {}, 0);
    WalkCovers(fetch, Levels(fetch, root), root, {}, 0);
    VisitedIsReach(fetch, root, trail);
  }

  /** A closed set that holds the root's children holds all that is reachable. */
  lemma VisitedIsReach(fetch: Fetch, root: Doc, trail: seq<Visit>)
    requires root.Kids() <= Visited(trail) && Closed(fetch, Levels(fetch, root), trail, Visited(trail))
    ensures Visited(trail) == Reach(fetch, root)
  {
    forall d | d in Visited(trail)
      ensures KidsAt(fetch, d) <= Visited(trail) && d in Reach(fetch, root)
    {
      var v :| v in trail && v.digest == d;
    }
    var levels := Levels(fetch, root);
    assert levels[1] == KidsOfAll(fetch, levels[0]) <= Visited(trail);
    assert levels[2] == KidsOfAll(fetch, levels[1]) <= Visited(trail);
  }

  // ---- The sum ----

  ghost function Sum(m: map<string, nat>): nat
    decreases |m|
  {
    if m == map[] then 0 else
      assert m.Keys != {} by { EmptyMap(m); }
      var k :| k in m;
      m[k] + Sum(m - {k})
  }

  lemma EmptyMap(m: map<string, nat>)
    requires m != map[]
    ensures m.Keys != {}
  {}

  /** Any entry can be taken out first. */
  lemma {:induction false} SumPick(m: map<string, nat>, k: string)
    requires k in m
    ensures Sum(m) == m[k] + Sum(m - {k})
    decreases |m|
  {
    var j :| j in m && Sum(m) == m[j] + Sum(m - {j});
    if j != k {
      SumPick(m - {j}, k);
      SumPick(m - {k}, j);
      assert m - {j} - {k} == m - {k} - {j};
    }
  }

  lemma SumAdd(m: map<string, nat>, k: string, n: nat)
    requires k !in m
    ensures Sum(m[k := n]) == Sum(m) + n
  {
    SumPick(m[k := n], k);
    assert m[k := n] - {k} == m;
  }

  /** Blobs that count and share a digest have one size. */
  ghost predicate Agree(blobs: set<Blob>) {
    forall a, b :: a in blobs && b in blobs ==> SameSize(a, b)
  }

  predicate SameSize(a: Blob, b: Blob) {
    a.Size() > 0 && b.Size() > 0 && a.digest == b.digest != "" ==> a.Size() == b.Size()
  }

  ghost function Digested(blobs: set<Blob>): set<string> {
    set b | b in blobs && b.Size() > 0 && b.digest != "" :: b.digest
  }

  /** The size of each distinct digest among `blobs`. */
  ghost function SizeTable(blobs: set<Blob>): map<string, nat> {
    map g | g in Digested(blobs) :: SizeOf(blobs, g)
  }

  ghost function SizeOf(blobs: set<Blob>, g: string): nat
    requires g in Digested(blobs)
  {
    var b :| b in blobs && b.Size() > 0 && b.digest == g;
    b.Size()
  }

  /** Descriptors without a digest count every time. */
  ghost function Loose(blobs: seq<Blob>): nat {
    if blobs == [] then 0
    else
      var init, last := blobs[..|blobs| - 1], blobs[|blobs| - 1];
      Loose(init) + (if last.Size() > 0 && last.digest == "" then last.Size() else 0)
  }

  lemma CountedIsDigested(blobs: seq<Blob>)
    ensures Counted(blobs, {}) == Digested(Elements(blobs))
  {}

  lemma {:induction false} UniqueIsSum(blobs: seq<Blob>)
    requires Agree(Elements(blobs))
    ensures Unique(blobs, {}) == SumOfBlobs(blobs)
  {
    if blobs == [] {
      assert SizeTable(Elements(blobs)) == map[];
    } else {
      var init, last := blobs[..|blobs| - 1], blobs[|blobs| - 1];
      assert blobs == init + [last];
      assert Elements(blobs) == Elements(init) + {last};
      UniqueIsSum(init);
      TableGrows(Elements(init), last);
      CountedIsDigested(init);
      if last.Size() > 0 && last.digest != "" && last.digest !in Digested(Elements(init)) {
        SumAdd(SizeTable(Elements(init)), last.digest, last.Size());
      }
    }
  }

  lemma TableGrows(blobs: set<Blob>, b: Blob)
    requires Agree(blobs + {b})
    ensures SizeTable(blobs + {b})
         == if b.Size() > 0 && b.digest != "" && b.digest !in Digested(blobs) then
             SizeTable(blobs)[b.digest := b.Size()] else SizeTable(blobs)
  {
    SizesStay(blobs, b);
  }

  lemma SizesStay(blobs: set<Blob>, b: Blob)
    requires Agree(blobs + {b})
    ensures forall g :: g in Digested(blobs) ==>
              g in Digested(blobs + {b}) && SizeOf(blobs + {b}, g) == SizeOf(blobs, g)
  {
    forall g | g in Digested(blobs)
      ensures g in Digested(blobs + {b}) && SizeOf(blobs + {b}, g) == SizeOf(blobs, g)
    {
      var x :| x in blobs && x.Size() > 0 && x.digest == g;
    }
  }

  /** All blobs of the manifests in `digests`. */
  ghost function BlobsIn(fetch: Fetch, digests: set<string>): set<Blob> {
    set d, b | d in digests && fetch(d).Some? && b in fetch(d).value.Blobs() :: b
  }

  ghost function LooseTable(fetch: Fetch, digests: set<string>): map<string, nat> {
    map d | d in digests && fetch(d).Some? :: Loose(fetch(d).value.Blobs())
  }

  /** Each distinct blob of the manifests in `digests` once, undigested descriptors each time. */
  ghost function SumOver(fetch: Fetch, digests: set<string>): nat {
    Sum(SizeTable(BlobsIn(fetch, digests))) + Sum(LooseTable(fetch, digests))
  }

  ghost function SumOfBlobs(blobs: seq<Blob>): nat {
    Sum(SizeTable(Elements(blobs))) + Loose(blobs)
  }

  /** The size of a document: that of its own blobs, or of all images an index reaches. */
  ghost function SetSum(fetch: Fetch, doc: Doc): nat {
    if doc.IsIndex() then SumOver(fetch, Reach(fetch, doc)) else SumOfBlobs(doc.Blobs())
  }

  ghost predicate SizesAgree(fetch: Fetch, doc: Doc) {
    Agree(if doc.IsIndex() then BlobsIn(fetch, Reach(fetch, doc)) else Elements(doc.Blobs()))
  }

  lemma {:induction false} TrailBlobs(fetch: Fetch, trail: seq<Visit>)
    requires AllCounted(fetch, trail)
    ensures Elements(AllBlobs(fetch, trail)) == BlobsIn(fetch, Visited(trail))
  {
    if trail != [] {
      var init, last := trail[..|trail| - 1], trail[|trail| - 1];
      assert trail == init + [last];
      TrailBlobs(fetch, init);
      assert Visited(trail) == Visited(init) + {last.digest};
      assert Elements(AllBlobs(fetch, trail)) == Elements(AllBlobs(fetch, init)) + Elements(BlobsOf(fetch, last));
    }
  }

  lemma {:induction false} LooseConcat(a: seq<Blob>, b: seq<Blob>)
    ensures Loose(a + b) == Loose(a) + Loose(b)
  {
    if b == [] {
      assert a + b == a;
    } else {
      assert (a + b)[..|a + b| - 1] == a + b[..|b| - 1];
      LooseConcat(a, b[..|b| - 1]);
    }
  }

  lemma LooseTableGrows(fetch: Fetch, digests: set<string>, v: Visit)
    requires v.digest !in digests && (fetch(v.digest).Some? ==> v.depth <= MAX_DEPTH)
    ensures Sum(LooseTable(fetch, digests + {v.digest})) == Sum(LooseTable(fetch, digests)) + Loose(BlobsOf(fetch, v))
  {
    var before, after, n := LooseTable(fetch, digests), LooseTable(fetch, digests + {v.digest}),
        Loose(BlobsOf(fetch, v));
    if fetch(v.digest).Some? {
      assert after == before[v.digest := n];
      SumAdd(before, v.digest, n);
    } else {
      assert after == before && n == 0;
    }
  }

  lemma LastVisited(init: seq<Visit>, last: Visit)
    requires FetchedOnce(init + [last], {}, 0)
    ensures Visited(init + [last]) == Visited(init) + {last.digest} && last.digest !in Visited(init)
  {
    var trail := init + [last];
    assert forall i :: 0 <= i < |init| ==> trail[i] == init[i];
    assert trail[|init|] == last;
  }

  lemma {:induction false} TrailLoose(fetch: Fetch, trail: seq<Visit>)
    requires AllCounted(fetch, trail) && FetchedOnce(trail, {}, 0)
    ensures Loose(AllBlobs(fetch, trail)) == Sum(LooseTable(fetch, Visited(trail)))
  {
    if trail == [] {
      assert LooseTable(fetch, Visited(trail)) == map[];
    } else {
      var init, last := trail[..|trail| - 1], trail[|trail| - 1];
      assert trail == init + [last];
      TrailLoose(fetch, init);
      LooseConcat(AllBlobs(fetch, init), BlobsOf(fetch, last));
      LastVisited(init, last);
      LooseTableGrows(fetch, Visited(init), last);
    }
  }

  lemma TrailIsSetSum(fetch: Fetch, trail: seq<Visit>, reach: set<string>)
    requires AllCounted(fetch, trail) && FetchedOnce(trail, {}, 0) && Visited(trail) == reach
    requires Agree(BlobsIn(fetch, reach))
    ensures Unique(AllBlobs(fetch, trail), {}) == SumOver(fetch, reach)
  {
    TrailBlobs(fetch, trail);
    TrailLoose(fetch, trail);
    UniqueIsSum(AllBlobs(fetch, trail));
  }

  lemma IndexIsSetSum(fetch: Fetch, doc: Doc)
    requires Shallow(fetch, doc) && Narrow(fetch, doc) && Agree(BlobsIn(fetch, Reach(fetch, doc)))
    ensures Unique(AllBlobs(fetch, Walk(fetch, doc, {}, 0)), {}) == SumOver(fetch, Reach(fetch, doc))
  {
    FetchesExactlyTheReachable(fetch, doc);
    WalkCost(fetch, doc, {}, 0);
    TrailIsSetSum(fetch, Walk(fetch, doc, {}, 0), Reach(fetch, doc));
  }

  /**
   * Within the limits, and with one size for each digest, the traversal adds up exactly the set of
   * reachable blobs, and the size reported is that sum exactly if it fits in 64 bits.
   */
  lemma SizeIsSetSum(fetch: Fetch, doc: Doc)
    requires Shallow(fetch, doc) && Narrow(fetch, doc) && SizesAgree(fetch, doc)
    ensures Unique(Contents(fetch, doc, {}, 0), {}) == SetSum(fetch, doc)
    ensures Wrap(Unique(Contents(fetch, doc, {}, 0), {})) == SetSum(fetch, doc) <==> SetSum(fetch, doc) <= MAX_INT64
  {
    if doc.IsIndex() {
      IndexIsSetSum(fetch, doc);
    } else {
      UniqueIsSum(doc.Blobs());
    }
  }

  // ---- Order of children ----

  /** The same document with its children listed in another order, or some of them repeated. */
  ghost predicate Reordered(a: Doc, b: Doc) {
    a.Kids() == b.Kids() && a.Blobs() == b.Blobs() && (a.IsIndex() <==> b.IsIndex())
  }

  ghost predicate ReorderedAll(fetch: Fetch, other: Fetch) {
    forall d :: ReorderedAt(fetch, other, d)
  }

  ghost predicate ReorderedAt(fetch: Fetch, other: Fetch, d: string) {
    (fetch(d).Some? <==> other(d).Some?) && (fetch(d).Some? ==> Reordered(fetch(d).value, other(d).value))
  }

  lemma SameKids(fetch: Fetch, other: Fetch, d: string)
    requires ReorderedAll(fetch, other)
    ensures KidsAt(fetch, d) == KidsAt(other, d) && (fetch(d).None? <==> other(d).None?)
  {
    assert ReorderedAt(fetch, other, d);
  }

  lemma SameKidsOfAll(fetch: Fetch, other: Fetch, digests: set<string>)
    requires ReorderedAll(fetch, other)
    ensures KidsOfAll(fetch, digests) == KidsOfAll(other, digests)
  {
    forall d | d in digests
      ensures KidsAt(fetch, d) == KidsAt(other, d)
    {
      SameKids(fetch, other, d);
    }
  }

  lemma ReorderedReach(fetch: Fetch, other: Fetch, a: Doc, b: Doc)
    requires ReorderedAll(fetch, other) && Reordered(a, b)
    ensures Levels(fetch, a) == Levels(other, b)
  {
    SameKidsOfAll(fetch, other, a.Kids());
    SameKidsOfAll(fetch, other, KidsOfAll(fetch, a.Kids()));
  }

  lemma ReorderedLimits(fetch: Fetch, other: Fetch, a: Doc, b: Doc)
    requires ReorderedAll(fetch, other) && a.Kids() == b.Kids() && Levels(fetch, a) == Levels(other, b)
    requires Shallow(fetch, a) && Narrow(fetch, a)
    ensures Shallow(other, b) && Narrow(other, b)
  {
    var levels := Levels(fetch, a);
    forall d | d in levels[2]
      ensures other(d).None?
    {
      SameKids(fetch, other, d);
    }
    forall d | d in levels[0] + levels[1]
      ensures |KidsAt(other, d)| <= MAX_CHILDREN
    {
      SameKids(fetch, other, d);
    }
  }

  lemma ReorderedBlobs(fetch: Fetch, other: Fetch, digests: set<string>)
    requires ReorderedAll(fetch, other)
    ensures BlobsIn(fetch, digests) == BlobsIn(other, digests)
    ensures LooseTable(fetch, digests) == LooseTable(other, digests)
  {
    forall d
      ensures fetch(d).None? <==> other(d).None?
      ensures fetch(d).Some? ==> fetch(d).value.Blobs() == other(d).value.Blobs()
    {
      assert ReorderedAt(fetch, other, d);
    }
  }

  /** The order in which indexes list their children makes no difference. */
  lemma ChildOrderIrrelevant(fetch: Fetch, other: Fetch, a: Doc, b: Doc)
    requires Shallow(fetch, a) && Narrow(fetch, a) && SizesAgree(fetch, a)
    requires ReorderedAll(fetch, other) && Reordered(a, b)
    ensures Unique(Contents(fetch, a, {}, 0), {}) == Unique(Contents(other, b, {}, 0), {})
  {
    ReorderedReach(fetch, other, a, b);
    ReorderedLimits(fetch, other, a, b);
    ReorderedBlobs(fetch, other, Reach(fetch, a));
    SizeIsSetSum(fetch, a);
    SizeIsSetSum(other, b);
  }
}
