/** The size reported for an image: its blobs, each counted once, through at most two levels of indexes. */
module ImageSize {
  import opened Prelude

  const MAX_CHILDREN: nat := 16
  const MAX_DEPTH: nat := 2
  const MAX_INT64 := 0x7FFF_FFFF_FFFF_FFFF
  const TWO_TO_THE_63 := 0x8000_0000_0000_0000
  const TWO_TO_THE_64 := 0x1_0000_0000_0000_0000

  // ---- Size fields ----

  /** A float, and for finite ones what converting it to int64 gives on the platform. */
  datatype Float = NaN | Infinite | Finite(value: real, converted: int)

  /**
   * A JSON value: a number decoded to a float, a number kept as text with what its two readings give, or
   * anything else.
   */
  datatype SizeValue = FloatValue(f: Float) | NumberText(asInt: Option<int>, asFloat: Option<Float>) | NoNumber

  predicate FitsInt64(n: int) {
    -TWO_TO_THE_63 <= n <= MAX_INT64
  }

  /** The number without its fraction. */
  function Truncated(x: real): int {
    if x >= 0.0 then x.Floor else -((-x).Floor)
  }

  /** Converting truncates what fits; for what does not fit, it is up to the platform. */
  predicate Converts(f: Float) {
    f.Finite? ==> FitsInt64(f.converted) && (FitsInt64(Truncated(f.value)) ==> f.converted == Truncated(f.value))
  }

  predicate Readable(v: SizeValue) {
    match v
    case FloatValue(f) => Converts(f)
    case NumberText(asInt, asFloat) =>
        (asInt.Some? ==> FitsInt64(asInt.value)) && (asFloat.Some? ==> Converts(asFloat.value))
    case NoNumber => true
  }

  type SizeField = v: SizeValue | Readable(v) witness NoNumber

  function FloatSize(f: Float): int {
    match f
    case Finite(x, converted) => if x > TWO_TO_THE_63 as real then MAX_INT64 else if x < 0.0 then 0 else converted
    case _ => 0
  }

  function ParseSize(v: SizeField): (size: int)
    ensures FitsInt64(size)
    ensures size < 0 ==> exists f ::
              v in {FloatValue(f), NumberText(None, Some(f))} && f.Finite? && f.value == TWO_TO_THE_63 as real
  {
    match v
    case FloatValue(f) => FloatSize(f)
    case NumberText(asInt, asFloat) =>
      if asInt.Some? then (if asInt.value < 0 then 0 else asInt.value)
      else if asFloat.Some? then FloatSize(asFloat.value) else 0
    case NoNumber => 0
  }

  /** What the size is meant to be: the whole part of the number, held between zero and the largest int64. */
  function Clamped(x: real): int {
    if x < 0.0 then 0 else if x.Floor > MAX_INT64 then MAX_INT64 else x.Floor
  }

  /** Clamping fails for exactly one float, 2^63, unless the platform's conversion saturates. */
  lemma ClampsIff(f: Float)
    requires f.Finite? && Converts(f)
    ensures FloatSize(f) == Clamped(f.value) <==> f.value != TWO_TO_THE_63 as real || f.converted == MAX_INT64
  {}

  /** The integer that a field's text reads as, and the float it gives. */
  function IntegerIn(v: SizeField): Option<int> {
    if v.NumberText? then v.asInt else None
  }

  function FloatIn(v: SizeField): Option<Float> {
    match v
    case FloatValue(f) => Some(f)
    case NumberText(_, asFloat) => asFloat
    case NoNumber => None
  }

  /**
   * Every field: an integer gives itself, but zero for negative ones; without an integer reading, a finite float
   * gives the number clamped, exactly unless it is 2^63 and its conversion does not saturate; all else gives zero.
   */
  lemma ParseSizeMeans(v: SizeField)
    ensures IntegerIn(v).Some? ==> var n := IntegerIn(v).value; ParseSize(v) == if n >= 0 then n else 0
    ensures IntegerIn(v).None? && FloatIn(v).Some? && FloatIn(v).value.Finite? ==>
              var f := FloatIn(v).value;
              ParseSize(v) == Clamped(f.value) <==> f.value != TWO_TO_THE_63 as real || f.converted == MAX_INT64
    ensures IntegerIn(v).None? && (FloatIn(v).None? || !FloatIn(v).value.Finite?) ==> ParseSize(v) == 0
  {
    if IntegerIn(v).None? && FloatIn(v).Some? && FloatIn(v).value.Finite? {
      ClampsIff(FloatIn(v).value);
    }
  }

  // ---- Documents ----

  /** A descriptor: its digest, empty if it has none, and its size field as decoded. */
  datatype Blob = Blob(digest: string, field: SizeField) {
    function Size(): int {
      ParseSize(field)
    }
  }

  /** A decoded document; children without a digest are empty strings. With children it is an index. */
  datatype Doc = NotAnObject | Manifest(children: seq<string>, config: Option<Blob>, layers: seq<Blob>) {
    predicate IsIndex() {
      Manifest? && children != []
    }

    function Blobs(): seq<Blob> {
      if NotAnObject? || children != [] then [] else (if config.Some? then [config.value] else []) + layers
    }

    ghost function Kids(): set<string> {
      if Manifest? then Elements(children) - {""} else {}
    }
  }

  /** The blobs of an image are its config and its layers, each as often as it is listed; an index has none. */
  lemma BlobsOfImage(doc: Doc, b: Blob)
    ensures multiset(doc.Blobs())[b] ==
            if doc.IsIndex() || doc.NotAnObject? then 0
            else (if doc.config == Some(b) then 1 else 0) + multiset(doc.layers)[b]
  {}

  /** What the registry answers for each digest; no digest is asked for twice. */
  type Fetch = string -> Option<Doc>

  // ---- The order of the traversal ----

  datatype Visit = Visit(digest: string, depth: nat)

  ghost function Visited(trail: seq<Visit>): set<string> {
    set v | v in trail :: v.digest
  }

  /** The manifests fetched below a document at `depth`, in order. */
  ghost function Walk(fetch: Fetch, doc: Doc, seen: set<string>, depth: nat): seq<Visit>
    decreases MAX_DEPTH + 1 - depth, 1, 0
  {
    if doc.NotAnObject? || depth > MAX_DEPTH then [] else WalkChildren(fetch, doc.children, seen, depth).trail
  }

  /** How far an index has been followed: the visits below it, and how many of its children were resolved. */
  datatype Progress = Progress(trail: seq<Visit>, resolved: nat)

  ghost predicate Skipped(p: Progress, child: string, seen: set<string>) {
    p.resolved >= MAX_CHILDREN || child == "" || child in seen + Visited(p.trail)
  }

  ghost function WalkChildren(fetch: Fetch, children: seq<string>, seen: set<string>, depth: nat): Progress
    requires depth <= MAX_DEPTH
    decreases MAX_DEPTH + 1 - depth, 0, |children|
  {
    if children == [] then Progress([], 0)
    else
      var before := WalkChildren(fetch, children[..|children| - 1], seen, depth);
      var child := children[|children| - 1];
      if Skipped(before, child, seen) then before
      else Progress(before.trail + WalkChild(fetch, child, seen + Visited(before.trail), depth), before.resolved + 1)
  }

  ghost function WalkChild(fetch: Fetch, child: string, seen: set<string>, depth: nat): seq<Visit>
    requires depth <= MAX_DEPTH
    decreases MAX_DEPTH - depth, 2, 0
  {
    [Visit(child, depth + 1)] + if fetch(child).Some? then Walk(fetch, fetch(child).value, seen + {child}, depth + 1)
        else []
  }

  /** Once enough children are resolved, the rest of the list does not matter. */
  lemma {:induction false} EnoughResolved(fetch: Fetch, children: seq<string>, seen: set<string>, depth: nat, i: nat)
    requires depth <= MAX_DEPTH && i <= |children|
    requires WalkChildren(fetch, children[..i], seen, depth).resolved >= MAX_CHILDREN
    ensures WalkChildren(fetch, children, seen, depth) == WalkChildren(fetch, children[..i], seen, depth)
    decreases |children|
  {
    if i == |children| {
      assert children[..i] == children;
    } else {
      var init := children[..|children| - 1];
      assert init[..i] == children[..i];
      EnoughResolved(fetch, init, seen, depth, i);
    }
  }

  /** The blobs that a visit contributes: those of an image that was not too deep. */
  ghost function BlobsOf(fetch: Fetch, v: Visit): seq<Blob> {
    if fetch(v.digest).Some? && v.depth <= MAX_DEPTH then fetch(v.digest).value.Blobs() else []
  }

  ghost function AllBlobs(fetch: Fetch, trail: seq<Visit>): seq<Blob> {
    if trail == [] then [] else AllBlobs(fetch, trail[..|trail| - 1]) + BlobsOf(fetch, trail[|trail| - 1])
  }

  lemma Associative<T>(a: seq<T>, b: seq<T>, c: seq<T>)
    ensures a + b + c == a + (b + c)
  {}

  lemma AllBlobsAppend(fetch: Fetch, trail: seq<Visit>, v: Visit)
    ensures AllBlobs(fetch, trail + [v]) == AllBlobs(fetch, trail) + BlobsOf(fetch, v)
  {
    assert (trail + [v])[..|trail|] == trail;
  }

  lemma SplitLast<T>(a: seq<T>, b: seq<T>)
    requires b != []
    ensures b == b[..|b| - 1] + [b[|b| - 1]] && a + b == a + b[..|b| - 1] + [b[|b| - 1]]
  {}

  lemma {:induction false} AllBlobsConcat(fetch: Fetch, a: seq<Visit>, b: seq<Visit>)
    ensures AllBlobs(fetch, a + b) == AllBlobs(fetch, a) + AllBlobs(fetch, b)
    decreases |b|
  {
    if b == [] {
      assert a + b == a;
    } else {
      var init, last := b[..|b| - 1], b[|b| - 1];
      AllBlobsConcat(fetch, a, init);
      SplitLast(a, b);
      AllBlobsAppend(fetch, a + init, last);
      AllBlobsAppend(fetch, init, last);
      Associative(AllBlobs(fetch, a), AllBlobs(fetch, init), BlobsOf(fetch, last));
    }
  }

  // ---- Counting blobs once ----

  /** The digests that have been counted after `blobs`. */
  ghost function Counted(blobs: seq<Blob>, seen: set<string>): set<string> {
    seen + set b | b in blobs && b.Size() > 0 && b.digest != "" :: b.digest
  }

  /** What `blobs` adds to the total when the digests in `seen` were counted before. */
  ghost function Unique(blobs: seq<Blob>, seen: set<string>): nat
    decreases |blobs|
  {
    if blobs == [] then 0
    else
      var init, last := blobs[..|blobs| - 1], blobs[|blobs| - 1];
      Unique(init, seen) + (if last.Size() > 0 && last.digest !in Counted(init, seen) then last.Size() else 0)
  }

  lemma {:induction false} UniqueConcat(a: seq<Blob>, b: seq<Blob>, seen: set<string>)
    requires "" !in seen
    ensures Counted(a + b, seen) == Counted(b, Counted(a, seen))
    ensures Unique(a + b, seen) == Unique(a, seen) + Unique(b, Counted(a, seen))
    decreases |b|
  {
    assert forall x :: x in a + b <==> x in a || x in b;
    if b == [] {
      assert a + b == a;
    } else {
      var init := b[..|b| - 1];
      UniqueConcat(a, init, seen);
      assert (a + b)[..|a + b| - 1] == a + init;
    }
  }

  /** Adding in 64 bits wraps around. */
  function Wrap(x: int): (r: int)
    ensures -TWO_TO_THE_63 <= r <= MAX_INT64
    decreases if x > MAX_INT64 then x - MAX_INT64 else if x < -TWO_TO_THE_63 then -TWO_TO_THE_63 - x else 0
  {
    if x > MAX_INT64 then Wrap(x - TWO_TO_THE_64) else if x < -TWO_TO_THE_63 then Wrap(x + TWO_TO_THE_64) else x
  }

  /** Where a sum wraps does not matter. */
  lemma {:induction false} WrapPlus(x: int, y: int)
    ensures Wrap(Wrap(x) + y) == Wrap(x + y)
    decreases if x > MAX_INT64 then x - MAX_INT64 else if x < -TWO_TO_THE_63 then -TWO_TO_THE_63 - x else 0
  {
    if x > MAX_INT64 {
      WrapPlus(x - TWO_TO_THE_64, y);
    } else if x < -TWO_TO_THE_63 {
      WrapPlus(x + TWO_TO_THE_64, y);
    }
  }

  lemma WrapSum(x: int, y: int)
    ensures Wrap(Wrap(x) + Wrap(y)) == Wrap(x + y)
  {
    WrapPlus(x, Wrap(y));
    WrapPlus(y, x);
  }

  /** Counting `blobs` gave `total` and took the set of counted digests from `before` to `after`. */
  ghost predicate Tallied(blobs: seq<Blob>, before: set<string>, total: int, after: set<string>) {
    "" !in before && total == Wrap(Unique(blobs, before)) && after == Counted(blobs, before)
  }

  lemma WrappedTotals(u: int, x: int, v: int, y: int, sum: int)
    requires x == Wrap(u) && y == Wrap(v) && sum == u + v
    ensures Wrap(x + y) == Wrap(sum)
  {
    WrapSum(u, v);
  }

  lemma TalliedMore(a: seq<Blob>, x: int, b: seq<Blob>, y: int, first: set<string>, second: set<string>,
                    third: set<string>)
    requires Tallied(a, first, x, second) && Tallied(b, second, y, third)
    ensures Tallied(a + b, first, Wrap(x + y), third)
  {
    UniqueConcat(a, b, first);
    WrappedTotals(Unique(a, first), x, Unique(b, second), y, Unique(a + b, first));
  }

  // ---- The traversal ----

  /** The sets that all levels of the recursion share. */
  class Seen {
    var blobs: set<string>
    var manifests: set<string>
    ghost var trail: seq<Visit>

    constructor ()
      ensures blobs == {} && manifests == {} && trail == []
    {
      blobs, manifests, trail := {}, {}, [];
    }

    ghost function Now(): Sets
      reads this
    {
      Sets(blobs, manifests, trail)
    }

    method UniqueBlobSize(b: Blob) returns (size: int)
      requires "" !in blobs
      modifies `blobs
      ensures Tallied([b], old(blobs), size, blobs)
    {
      assert Counted([], blobs) == blobs;
      assert [b][..0] == [];
      if b.Size() <= 0 {
        return 0;
      }
      if b.digest != "" {
        if b.digest in blobs {
          return 0;
        }
        blobs := blobs + {b.digest};
      }
      size := b.Size();
    }
  }

  /** The blobs a document at `depth` contributes. */
  ghost function Contents(fetch: Fetch, doc: Doc, seen: set<string>, depth: nat): seq<Blob> {
    if doc.NotAnObject? || depth > MAX_DEPTH then []
    else if doc.IsIndex() then AllBlobs(fetch, Walk(fetch, doc, seen, depth))
    else doc.Blobs()
  }

  method SumBlobs(blobs: seq<Blob>, seen: Seen) returns (total: int)
    requires "" !in seen.blobs
    modifies seen`blobs
    ensures Tallied(blobs, old(seen.blobs), total, seen.blobs)
  {
    total := 0;
    assert blobs[..0] == [];
    for i := 0 to |blobs|
      invariant Tallied(blobs[..i], old(seen.blobs), total, seen.blobs)
    {
      ghost var before := seen.blobs;
      var size := seen.UniqueBlobSize(blobs[i]);
      TalliedMore(blobs[..i], total, [blobs[i]], size, old(seen.blobs), before, seen.blobs);
      assert blobs[..i] + [blobs[i]] == blobs[..i + 1];
      total := Wrap(total + size);
    }
    assert blobs[..|blobs|] == blobs;
  }

  method ImageSizeInto(fetch: Fetch, doc: Doc, seen: Seen, depth: nat) returns (total: int)
    requires "" !in seen.blobs
    modifies seen
    ensures seen.trail == old(seen.trail) + Walk(fetch, doc, old(seen.manifests), depth)
    ensures seen.manifests == old(seen.manifests) + Visited(Walk(fetch, doc, old(seen.manifests), depth))
    ensures Tallied(Contents(fetch, doc, old(seen.manifests), depth), old(seen.blobs), total, seen.blobs)
    decreases MAX_DEPTH + 1 - depth, 1
  {
    if doc.NotAnObject? || depth > MAX_DEPTH {
      return 0;
    }
    if doc.IsIndex() {
      total := SumChildren(fetch, doc.children, seen, depth);
    } else {
      total := SumBlobs(doc.Blobs(), seen);
    }
  }

  lemma TalliedTrail(fetch: Fetch, a: seq<Visit>, x: int, b: seq<Visit>, y: int, first: set<string>,
                     second: set<string>, third: set<string>)
    requires Tallied(AllBlobs(fetch, a), first, x, second) && Tallied(AllBlobs(fetch, b), second, y, third)
    ensures Tallied(AllBlobs(fetch, a + b), first, Wrap(x + y), third)
    ensures Visited(a + b) == Visited(a) + Visited(b)
  {
    AllBlobsConcat(fetch, a, b);
    TalliedMore(AllBlobs(fetch, a), x, AllBlobs(fetch, b), y, first, second, third);
    assert forall v :: v in a + b <==> v in a || v in b;
  }

  datatype Sets = Sets(blobs: set<string>, manifests: set<string>, trail: seq<Visit>)

  /** The children listed so far have been followed: `p` is their walk, and the shared sets and the total reflect it. */
  ghost predicate Followed(fetch: Fetch, children: seq<string>, depth: nat, first: Sets, p: Progress, total: int,
                           now: Sets)
    requires depth <= MAX_DEPTH
  {
    && p == WalkChildren(fetch, children, first.manifests, depth)
    && now.trail == first.trail + p.trail && now.manifests == first.manifests + Visited(p.trail)
    && Tallied(AllBlobs(fetch, p.trail), first.blobs, total, now.blobs)
  }

  method SumChildren(fetch: Fetch, children: seq<string>, seen: Seen, depth: nat) returns (total: int)
    requires "" !in seen.blobs && depth <= MAX_DEPTH
    modifies seen
    ensures Followed(fetch, children, depth, old(seen.Now()), WalkChildren(fetch, children, old(seen.manifests), depth),
                     total, seen.Now())
    decreases MAX_DEPTH + 1 - depth, 0, 1
  {
    total := 0;
    var resolved := 0;
    ghost var first, p := seen.Now(), Progress([], 0);
    var i := 0;
    assert children[..0] == [];
    while i < |children| && resolved < MAX_CHILDREN
      invariant 0 <= i <= |children| && resolved == p.resolved
      invariant Followed(fetch, children[..i], depth, first, p, total, seen.Now())
    {
      PrefixStep(children, i);
      total, resolved, p := SumNext(fetch, children[..i], children[i], seen, depth, total, resolved, first, p);
      i := i + 1;
    }
    FollowedEnough(fetch, children, depth, first, p, total, seen.Now(), i);
  }

  /** Follows one more child, unless it has no digest or was met before. */
  method SumNext(fetch: Fetch, ghost done: seq<string>, child: string, seen: Seen, depth: nat, total: int,
                 resolved: nat, ghost first: Sets, ghost p: Progress)
    returns (total': int, resolved': nat, ghost p': Progress)
    requires depth <= MAX_DEPTH && resolved == p.resolved < MAX_CHILDREN
    requires Followed(fetch, done, depth, first, p, total, seen.Now())
    modifies seen
    ensures resolved' == p'.resolved
    ensures Followed(fetch, done + [child], depth, first, p', total', seen.Now())
    decreases MAX_DEPTH + 1 - depth, 0, 0
  {
    total', resolved', p' := total, resolved, p;
    assert (done + [child])[..|done|] == done;
    if child == "" || child in seen.manifests {
      return;
    }
    ghost var sub, before := WalkChild(fetch, child, seen.manifests, depth), seen.blobs;
    var size := SumChild(fetch, child, seen, depth);
    TalliedTrail(fetch, p.trail, total, sub, size, first.blobs, before, seen.blobs);
    Associative(first.trail, p.trail, sub);
    total' := Wrap(total + size);
    resolved' := resolved + 1;
    p' := Progress(p.trail + sub, resolved');
  }

  lemma FollowedEnough(fetch: Fetch, children: seq<string>, depth: nat, first: Sets, p: Progress, total: int, now: Sets,
                       i: nat)
    requires depth <= MAX_DEPTH && i <= |children| && Followed(fetch, children[..i], depth, first, p, total, now)
    requires i == |children| || p.resolved >= MAX_CHILDREN
    ensures Followed(fetch, children, depth, first, WalkChildren(fetch, children, first.manifests, depth), total, now)
  {
    if i == |children| {
      assert children[..i] == children;
    } else {
      EnoughResolved(fetch, children, first.manifests, depth, i);
    }
  }

  /** Fetches one child, once, and adds what it contributes. */
  method SumChild(fetch: Fetch, child: string, seen: Seen, depth: nat) returns (size: int)
    requires "" !in seen.blobs && depth <= MAX_DEPTH && child !in seen.manifests
    modifies seen
    ensures seen.trail == old(seen.trail) + WalkChild(fetch, child, old(seen.manifests), depth)
    ensures seen.manifests == old(seen.manifests) + Visited(WalkChild(fetch, child, old(seen.manifests), depth))
    ensures Tallied(AllBlobs(fetch, WalkChild(fetch, child, old(seen.manifests), depth)), old(seen.blobs), size,
                    seen.blobs)
    decreases MAX_DEPTH - depth, 2
  {
    ChildContents(fetch, child, seen.manifests, depth);
    seen.manifests := seen.manifests + {child};
    seen.trail := seen.trail + [Visit(child, depth + 1)];
    var answer := fetch(child);
    if answer.None? {
      return 0;
    }
    size := ImageSizeInto(fetch, answer.value, seen, depth + 1);
    Associative(old(seen.trail), [Visit(child, depth + 1)],
                Walk(fetch, answer.value, old(seen.manifests) + {child}, depth + 1));
  }

  /** What a fetched child contributes is what its part of the trail does. */
  lemma ChildContents(fetch: Fetch, child: string, seen: set<string>, depth: nat)
    requires depth <= MAX_DEPTH
    ensures AllBlobs(fetch, WalkChild(fetch, child, seen, depth))
         == if fetch(child).Some? then Contents(fetch, fetch(child).value, seen + {child}, depth + 1) else []
  {
    var v := Visit(child, depth + 1);
    assert AllBlobs(fetch, [v]) == BlobsOf(fetch, v) by { assert [v][..0] == []; }
    if fetch(child).Some? {
      var doc := fetch(child).value;
      var rest := Walk(fetch, doc, seen + {child}, depth + 1);
      AllBlobsConcat(fetch, [v], rest);
      if doc.Manifest? && doc.children == [] && depth < MAX_DEPTH {
        assert WalkChildren(fetch, doc.children, seen + {child}, depth + 1).trail == [];
      }
    }
  }

  method ImageSize(fetch: Fetch, doc: Doc) returns (size: int, ghost trail: seq<Visit>)
    ensures trail == Walk(fetch, doc, {}, 0)
    ensures size == Wrap(Unique(Contents(fetch, doc, {}, 0), {}))
  {
    var seen := new Seen();
    size := ImageSizeInto(fetch, doc, seen, 0);
    trail := seen.trail;
  }
}
