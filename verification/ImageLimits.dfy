/** How far an image size looks: at most sixteen children of an index, and no deeper than two indexes. */
module ImageLimits {
  import opened Prelude
  import opened ImageSize

  // ---- Width ----

  /** The digests that are listed, each once, in the order in which they are first listed. */
  ghost function Listed(children: seq<string>): seq<string> {
    if children == [] then []
    else
      var before, last := Listed(children[..|children| - 1]), children[|children| - 1];
      if last == "" || last in before then before else before + [last]
  }

  /** No child is an index itself. */
  ghost predicate Flat(fetch: Fetch, children: seq<string>) {
    forall c :: c in children && c != "" && fetch(c).Some? ==> !fetch(c).value.IsIndex()
  }

  /** The visits to children of the outermost index. */
  ghost function Outermost(digests: seq<string>): seq<Visit> {
    seq(|digests|, i requires 0 <= i < |digests| => Visit(digests[i], 1))
  }

  ghost function First(digests: seq<string>, n: nat): seq<string> {
    if |digests| <= n then digests else digests[..n]
  }

  lemma FlatChild(fetch: Fetch, child: string, seen: set<string>)
    requires Flat(fetch, [child]) && child != ""
    ensures WalkChild(fetch, child, seen, 0) == [Visit(child, 1)]
  {
    assert child in [child];
    if fetch(child).Some? {
      assert Walk(fetch, fetch(child).value, seen + {child}, 1) == [];
    }
  }

  lemma {:induction false} FlatChildren(fetch: Fetch, children: seq<string>)
    requires Flat(fetch, children)
    ensures WalkChildren(fetch, children, {}, 0) ==
              Progress(Outermost(First(Listed(children), 16)), |First(Listed(children), 16)|)
  {
    if children != [] {
      var init, last := children[..|children| - 1], children[|children| - 1];
      FlatChildren(fetch, init);
      var p, before := WalkChildren(fetch, init, {}, 0), Listed(init);
      VisitedOutermost(First(before, 16));
      if p.resolved < 16 && last != "" && last !in before {
        FlatChild(fetch, last, {} + Visited(p.trail));
        assert Outermost(before) + [Visit(last, 1)] == Outermost(before + [last]);
      }
    }
  }

  lemma VisitedOutermost(digests: seq<string>)
    ensures forall d :: d in Visited(Outermost(digests)) <==> d in digests
  {
    forall d | d in digests
      ensures d in Visited(Outermost(digests))
    {
      var i :| 0 <= i < |digests| && digests[i] == d;
      assert Outermost(digests)[i] == Visit(d, 1);
    }
  }

  /** Of an index of images, exactly the first sixteen are fetched, in the order in which they are first listed. */
  lemma FirstSixteen(fetch: Fetch, doc: Doc)
    requires doc.IsIndex() && Flat(fetch, doc.children)
    ensures Walk(fetch, doc, {}, 0) == Outermost(First(Listed(doc.children), 16))
  {
    FlatChildren(fetch, doc.children);
  }

  // ---- Depth ----

  /** Index within index, each with one child, down to an image. */
  ghost predicate Nested(fetch: Fetch, doc: Doc, path: seq<string>, image: Doc)
    decreases |path|
  {
    if path == [] then doc == image && image.Manifest? && !image.IsIndex()
    else
      && doc == Manifest([path[0]], None, []) && path[0] != "" && fetch(path[0]).Some?
      && Nested(fetch, fetch(path[0]).value, path[1..], image)
  }

  lemma OnlyChildWalk(fetch: Fetch, c: string, seen: set<string>, depth: nat)
    requires c != "" && c !in seen && depth <= 2
    ensures WalkChildren(fetch, [c], seen, depth).trail == WalkChild(fetch, c, seen, depth)
  {
    assert [c][..0] == [] && seen + Visited([]) == seen;
    assert [] + WalkChild(fetch, c, seen, depth) == WalkChild(fetch, c, seen, depth);
  }

  /** An index with one child, not met before, contributes what the child does. */
  lemma OnlyChild(fetch: Fetch, c: string, seen: set<string>, depth: nat)
    requires c != "" && c !in seen && fetch(c).Some? && depth <= 2
    ensures Contents(fetch, Manifest([c], None, []), seen, depth) ==
              Contents(fetch, fetch(c).value, seen + {c}, depth + 1)
  {
    ChildContents(fetch, c, seen, depth);
    OnlyChildWalk(fetch, c, seen, depth);
    assert Walk(fetch, Manifest([c], None, []), seen, depth) == WalkChild(fetch, c, seen, depth);
  }

  lemma TooDeep(fetch: Fetch, doc: Doc, seen: set<string>, depth: nat)
    requires depth > 2
    ensures Contents(fetch, doc, seen, depth) == []
  {}

  lemma {:induction false} NestedContents(fetch: Fetch, doc: Doc, path: seq<string>, image: Doc, seen: set<string>,
                                          depth: nat)
    requires Nested(fetch, doc, path, image) && Distinct(path) && forall d :: d in path ==> d !in seen
    ensures Contents(fetch, doc, seen, depth) == if depth + |path| <= 2 then image.Blobs() else []
    decreases |path|
  {
    if depth > 2 {
      TooDeep(fetch, doc, seen, depth);
    } else if path != [] {
      var c, rest := path[0], path[1..];
      assert c in path && forall d :: d in rest ==> d != c;
      OnlyChild(fetch, c, seen, depth);
      NestedContents(fetch, fetch(c).value, rest, image, seen + {c}, depth + 1);
    }
  }

  /** An image counts exactly if it is at most two indexes deep. */
  lemma TwoIndexesDeep(fetch: Fetch, doc: Doc, path: seq<string>, image: Doc)
    requires Nested(fetch, doc, path, image) && Distinct(path)
    ensures Contents(fetch, doc, {}, 0) == if |path| <= 2 then image.Blobs() else []
  {
    NestedContents(fetch, doc, path, image, {}, 0);
  }
}
