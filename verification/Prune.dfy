/** Removing the empty directories that garbage collection leaves behind. */
module Prune {
  import opened Prelude

  /** The names from the repositories directory down; that directory itself is the empty path. */
  type Path = seq<string>

  const BASE: Path := []

  datatype Tree = Tree(dirs: set<Path>, files: set<Path>) {
    ghost predicate Valid() {
      && BASE in dirs && BASE !in files && dirs !! files
      && forall p :: p in dirs + files && p != BASE ==> p[..|p| - 1] in dirs
    }

    ghost function Entries(p: Path): set<Path> {
      set e | e in dirs + files && |e| == |p| + 1 && p <= e
    }

    ghost function Below(p: Path): set<Path> {
      set d | d in dirs && p < d
    }
  }

  lemma Prefixes(a: Path, b: Path)
    requires a <= b
    ensures b[..|a|] == a && (a == b || a < b)
    ensures |a| < |b| ==> a <= b[..|a| + 1] <= b
  {}

  lemma {:induction false} AncestorsAreDirs(t: Tree, p: Path, n: nat)
    requires t.Valid() && p in t.dirs + t.files && n < |p|
    ensures p[..n] in t.dirs
    decreases |p|
  {
    if n < |p| - 1 {
      AncestorsAreDirs(t, p[..|p| - 1], n);
      assert p[..|p| - 1][..n] == p[..n];
    }
  }

  /** A call that failed: its path and, if it was to list it, the directories there that it did not return. */
  datatype Fault = Fault(path: Path, missed: set<Path>)

  ghost function PathsSince(before: seq<Fault>, now: seq<Fault>): set<Path> {
    if before <= now then set f | f in now[|before|..] :: f.path else {}
  }

  ghost function MissedSince(before: seq<Fault>, now: seq<Fault>): set<Path> {
    if before <= now then set f, d | f in now[|before|..] && d in f.missed :: d else {}
  }

  lemma SinceNothing(log: seq<Fault>)
    ensures PathsSince(log, log) == {} && MissedSince(log, log) == {}
  {}

  lemma SinceOne(before: seq<Fault>, now: seq<Fault>, f: Fault)
    requires before <= now
    ensures before <= now + [f]
    ensures PathsSince(before, now + [f]) == PathsSince(before, now) + {f.path}
    ensures MissedSince(before, now + [f]) == MissedSince(before, now) + f.missed
  {
    assert (now + [f])[|before|..] == now[|before|..] + [f];
    assert forall g :: g in now[|before|..] + [f] <==> g in now[|before|..] || g == f;
  }

  lemma SinceJoin(a: seq<Fault>, b: seq<Fault>, c: seq<Fault>)
    requires a <= b && b <= c
    ensures a <= c && MissedSince(a, c) == MissedSince(a, b) + MissedSince(b, c)
  {
    assert c[|a|..] == b[|a|..] + c[|b|..];
    assert forall g :: g in b[|a|..] + c[|b|..] <==> g in b[|a|..] || g in c[|b|..];
  }

  /**
   * A directory tree on disk. Listing and removing may fail. A listing that fails still returns the entries
   * read until then, a removal that fails changes nothing, and `failed` logs every such call.
   */
  class Disk {
    var dirs: set<Path>
    var files: set<Path>
    ghost var failed: seq<Fault>

    ghost function Now(): Tree
      reads this
    {
      Tree(dirs, files)
    }

    method ReadDir(p: Path) returns (entries: set<Path>, ok: bool)
      requires Now().Valid() && p in dirs
      modifies `failed
      ensures entries <= Now().Entries(p) && (ok ==> entries == Now().Entries(p))
      ensures failed == if ok then old(failed) else old(failed) + [Fault(p, (Now().Entries(p) - entries) * dirs)]
      ensures old(failed) <= failed && MissedSince(old(failed), failed) == (Now().Entries(p) - entries) * dirs
    {
      SinceNothing(failed);
      var all := set e | e in dirs + files && |e| == |p| + 1 && p <= e;
      entries, ok := all, true;
      if * {
        var read: set<Path> :| read <= all;
        SinceOne(failed, failed, Fault(p, (all - read) * dirs));
        failed := failed + [Fault(p, (all - read) * dirs)];
        entries, ok := read, false;
      }
    }

    /** Removes an empty directory; a directory with entries is refused. */
    method Remove(p: Path) returns (ok: bool)
      requires Now().Valid() && p in dirs && p != BASE && Now().Entries(p) == {}
      modifies `dirs, `failed
      ensures Now().Valid()
      ensures dirs == if ok then old(dirs) - {p} else old(dirs)
      ensures failed == if ok then old(failed) else old(failed) + [Fault(p, {})]
    {
      if * {
        failed := failed + [Fault(p, {})];
        return false;
      }
      forall q | q in dirs + files && q != BASE
        ensures q[..|q| - 1] != p
      {
        assert q[..|q| - 1] == p ==> q in Now().Entries(p);
      }
      dirs := dirs - {p};
      ok := true;
    }

    // ---- Collecting ----

    /**
     * The directories below `path`, each after those that contain it, but for those at or below one that a
     * failed listing did not return.
     */
    method Walk(path: Path) returns (list: seq<Path>, ghost unlisted: set<Path>)
      requires Now().Valid() && path in dirs
      modifies `failed
      ensures Listing(Now().Below(path), list, unlisted)
      ensures old(failed) <= failed && MissedSince(old(failed), failed) <= Now().Below(path)
      ensures unlisted == Hidden(Now().Below(path), MissedSince(old(failed), failed))
      decreases |Now().Below(path)|, 2
    {
      list, unlisted := [], {};
      var entries, ok := ReadDir(path);
      ghost var missed, log := (Now().Entries(path) - entries) * dirs, failed;
      list, unlisted := WalkEach(path, entries);
      WalkEnd(Now(), path, entries, missed, list, unlisted, MissedSince(log, failed));
      unlisted := unlisted + Under(Now(), path, missed);
      SinceJoin(old(failed), log, failed);
    }

    /** Collects what is below the entries that were read. */
    method WalkEach(path: Path, entries: set<Path>) returns (list: seq<Path>, ghost unlisted: set<Path>)
      requires Now().Valid() && path in dirs && entries <= Now().Entries(path)
      modifies `failed
      ensures Collected(Now(), path, entries, list, unlisted, old(failed), failed)
      decreases |Now().Below(path)|, 1
    {
      list, unlisted := [], {};
      SinceNothing(failed);
      var children := Enumerate(entries);
      for i := 0 to |children|
        invariant Collected(Now(), path, Elements(children[..i]), list, unlisted, old(failed), failed)
      {
        PrefixGrows(children, i);
        assert children[i] in Elements(children);
        list, unlisted := WalkNext(path, Elements(children[..i]), children[i], list, unlisted, old(failed));
      }
      assert children[..|children|] == children;
    }

    /** Collects what is below one more child. */
    method WalkNext(path: Path, ghost done: set<Path>, c: Path, list: seq<Path>, ghost unlisted: set<Path>,
                    ghost log: seq<Fault>)
      returns (list': seq<Path>, ghost unlisted': set<Path>)
      requires Now().Valid() && path in dirs && c in Now().Entries(path) && c !in done
      requires Collected(Now(), path, done, list, unlisted, log, failed)
      modifies `failed
      ensures Collected(Now(), path, done + {c}, list', unlisted', log, failed)
      decreases |Now().Below(path)|, 0
    {
      list', unlisted' := list, unlisted;
      if c in dirs {
        SmallerBelow(Now(), path, c);
        var sub;
        ghost var hidden;
        sub, hidden := Walk(c);
        AddChild(Now(), path, done, c, list, unlisted, sub, hidden);
        SinceJoin(log, old(failed), failed);
        HiddenJoin(Now(), path, done, c, MissedSince(log, old(failed)), MissedSince(old(failed), failed));
        list', unlisted' := list + ([c] + sub), unlisted + hidden;
      } else {
        FileHasNone(Now(), path, c);
        assert Under(Now(), path, done + {c}) == Under(Now(), path, done) + Under(Now(), path, {c});
      }
    }

    // ---- Removing ----

    /**
     * Removes empty directories from the deepest up. A directory is left exactly if it is, or contains, a
     * file, a directory that the walk's failed listings missed, or one that a later call failed on. The
     * ghost result is the log at the end of the walk.
     */
    method CleanupEmptyDirs() returns (ghost walked: seq<Fault>)
      requires Now().Valid()
      modifies `dirs, `failed
      ensures Now().Valid() && dirs <= old(dirs)
      ensures old(failed) <= walked <= failed
      ensures var hidden := Hidden(old(Now()).Below(BASE), MissedSince(old(failed), walked));
              forall d :: d in old(dirs) && d != BASE ==>
                (d in dirs <==> Needed(d, files + (hidden + PathsSince(walked, failed))))
    {
      var list;
      ghost var t0, unlisted := Now(), {};
      list, unlisted := Walk(BASE);
      walked := failed;
      SinceNothing(walked);
      assert forall d :: d in t0.dirs <==> d == BASE || d in t0.Below(BASE);
      var i := |list|;
      while i > 0
        invariant 0 <= i <= |list| && walked <= failed
        invariant Now().Valid() && Swept(t0, Now(), list, i, unlisted + PathsSince(walked, failed))
      {
        i := i - 1;
        CleanupNext(t0, list, i, unlisted, walked);
      }
    }

    /** One directory at its turn. */
    method CleanupNext(ghost t0: Tree, list: seq<Path>, i: nat, ghost unlisted: set<Path>, ghost log: seq<Fault>)
      requires t0.Valid() && Now().Valid() && i < |list| && Listing(t0.Below(BASE), list, unlisted)
      requires log <= failed && Swept(t0, Now(), list, i + 1, unlisted + PathsSince(log, failed))
      modifies `dirs, `failed
      ensures Now().Valid() && list[i] in t0.dirs
      ensures log <= failed && Swept(t0, Now(), list, i, unlisted + PathsSince(log, failed))
    {
      var p := list[i];
      ghost var before, refused := Now(), PathsSince(log, failed);
      assert p in Elements(list);
      EmptyIff(t0, before, list, i, unlisted, unlisted + refused);
      var entries, ok := ReadDir(p);
      SinceOne(log, old(failed), Fault(p, (before.Entries(p) - entries) * before.dirs));
      SinceOne(log, old(failed), Fault(p, {}));
      if ok && entries == {} {
        var removed := Remove(p);
      }
      assert unlisted + (refused + {p}) == unlisted + refused + {p};
      SweptOne(t0, before, Now(), list, i, unlisted, unlisted + refused, unlisted + PathsSince(log, failed));
    }
  }

  /** The directories at or below a missed one. */
  ghost function Hidden(all: set<Path>, missed: set<Path>): set<Path> {
    set d | d in all && Contained(d, missed)
  }

  ghost predicate Contained(d: Path, paths: set<Path>) {
    exists p :: p in paths && p <= d
  }

  /** What has been collected below some of the children, given the log before and now. */
  ghost predicate Collected(t: Tree, path: Path, done: set<Path>, list: seq<Path>, unlisted: set<Path>,
                            before: seq<Fault>, now: seq<Fault>) {
    && Listing(Under(t, path, done), list, unlisted)
    && before <= now && MissedSince(before, now) <= Under(t, path, done)
    && unlisted == Hidden(Under(t, path, done), MissedSince(before, now))
  }

  /** A failed listing hides directories in its own subtree only. */
  lemma HiddenJoin(t: Tree, path: Path, done: set<Path>, c: Path, f: set<Path>, g: set<Path>)
    requires t.Valid() && c in t.Entries(path) && c in t.dirs && c !in done
    requires f <= Under(t, path, done) && g <= t.Below(c)
    ensures f + g <= Under(t, path, done + {c})
    ensures Hidden(Under(t, path, done + {c}), f + g) == Hidden(Under(t, path, done), f) + Hidden(t.Below(c), g)
  {
    SubtreeOf(t, path, c);
    SubtreesApart(t, path, done, c);
    HiddenApart(Under(t, path, done), {c} + t.Below(c), f, g);
    assert !Contained(c, g);
    assert Hidden({c} + t.Below(c), g) == Hidden(t.Below(c), g);
  }

  lemma HiddenApart(x: set<Path>, y: set<Path>, f: set<Path>, g: set<Path>)
    requires f <= x && g <= y && forall a, b :: a in x && b in y ==> a != b && !(a < b) && !(b < a)
    ensures Hidden(x + y, f + g) == Hidden(x, f) + Hidden(y, g)
  {
    assert forall a, b :: a in x && b in y ==> !(a <= b) && !(b <= a);
    forall d | d in x
      ensures Contained(d, f + g) <==> Contained(d, f)
    {}
    forall d | d in y
      ensures Contained(d, f + g) <==> Contained(d, g)
    {}
  }

  /** What the children that were not returned would have added counts as unlisted. */
  lemma WalkEnd(t: Tree, path: Path, entries: set<Path>, missed: set<Path>, list: seq<Path>, unlisted: set<Path>,
                gaps: set<Path>)
    requires t.Valid() && path in t.dirs && entries <= t.Entries(path) && missed == (t.Entries(path) - entries) * t.dirs
    requires Listing(Under(t, path, entries), list, unlisted)
    requires gaps <= Under(t, path, entries) && unlisted == Hidden(Under(t, path, entries), gaps)
    ensures Listing(t.Below(path), list, unlisted + Under(t, path, missed))
    ensures missed + gaps <= t.Below(path)
    ensures unlisted + Under(t, path, missed) == Hidden(t.Below(path), missed + gaps)
  {
    AllUnder(t, path);
    var x, y := Under(t, path, entries), Under(t, path, missed);
    UnderMissed(t, path, entries, missed);
    EntriesApart(t, path, entries, missed);
    HiddenApart(x, y, gaps, missed);
    assert Hidden(y, missed) == y by {
      forall d | d in y
        ensures Contained(d, missed)
      {
        Prefixes(path, d);
      }
    }
  }

  lemma UnderMissed(t: Tree, path: Path, entries: set<Path>, missed: set<Path>)
    requires t.Valid() && path in t.dirs && entries <= t.Entries(path) && missed == (t.Entries(path) - entries) * t.dirs
    ensures Under(t, path, entries) + Under(t, path, missed) == Under(t, path, t.Entries(path))
    ensures missed <= Under(t, path, missed)
  {
    forall d | d in Under(t, path, t.Entries(path)) && d[..|path| + 1] !in entries
      ensures d[..|path| + 1] in missed
    {
      OnTheWay(t, path, d);
    }
    forall d | d in missed
      ensures d in Under(t, path, missed)
    {
      assert d[..|d|] == d;
    }
  }

  lemma EntriesApart(t: Tree, path: Path, a: set<Path>, b: set<Path>)
    requires a !! b
    ensures forall x, y :: x in Under(t, path, a) && y in Under(t, path, b) ==> x != y && !(x < y) && !(y < x)
  {
    forall x, y | x in Under(t, path, a) && y in Under(t, path, b)
      ensures x != y && !(x < y) && !(y < x)
    {
      Apart(x, y, |path| + 1);
    }
  }

  /** The list and the rest are the whole set, and no directory comes after one it contains. */
  ghost predicate Listing(all: set<Path>, list: seq<Path>, unlisted: set<Path>) {
    && Distinct(list) && Elements(list) + unlisted == all && Elements(list) !! unlisted
    && forall i, j :: 0 <= i < j < |list| ==> !(list[j] < list[i])
  }

  /** The directories in the subtrees of some of the children. */
  ghost function Under(t: Tree, path: Path, children: set<Path>): set<Path> {
    set d | d in t.dirs && path < d && d[..|path| + 1] in children
  }

  lemma SmallerBelow(t: Tree, path: Path, c: Path)
    requires c in t.dirs && path < c
    ensures t.Below(c) < t.Below(path) && |t.Below(c)| < |t.Below(path)|
  {
    assert c in t.Below(path) && c !in t.Below(c);
    SubsetSize(t.Below(c) + {c}, t.Below(path));
  }

  /** The first step towards `x` from a directory that contains it. */
  lemma OnTheWay(t: Tree, p: Path, x: Path)
    requires t.Valid() && x in t.dirs + t.files && p < x
    ensures x[..|p| + 1] in t.dirs + t.files && (x[..|p| + 1] == x || x[..|p| + 1] in t.dirs)
  {
    if |x| > |p| + 1 {
      AncestorsAreDirs(t, x, |p| + 1);
    } else {
      assert x[..|x|] == x;
    }
  }

  lemma FileHasNone(t: Tree, path: Path, c: Path)
    requires t.Valid() && c !in t.dirs
    ensures Under(t, path, {c}) == {}
  {
    forall d | d in t.dirs && path < d
      ensures d[..|path| + 1] != c
    {
      OnTheWay(t, path, d);
    }
  }

  lemma AllUnder(t: Tree, path: Path)
    requires t.Valid() && path in t.dirs
    ensures Under(t, path, t.Entries(path)) == t.Below(path)
  {
    forall d | d in t.Below(path)
      ensures d[..|path| + 1] in t.Entries(path)
    {
      Prefixes(path, d);
      OnTheWay(t, path, d);
    }
  }

  lemma AddChild(t: Tree, path: Path, done: set<Path>, c: Path, list: seq<Path>, unlisted: set<Path>, sub: seq<Path>,
                 hidden: set<Path>)
    requires t.Valid() && c in t.Entries(path) && c in t.dirs && c !in done
    requires Listing(Under(t, path, done), list, unlisted) && Listing(t.Below(c), sub, hidden)
    ensures Listing(Under(t, path, done + {c}), list + ([c] + sub), unlisted + hidden)
  {
    SubtreeOf(t, path, c);
    SubtreesApart(t, path, done, c);
    ChildFirst(t, c, sub, hidden);
    ListingsJoin(Under(t, path, done), list, unlisted, {c} + t.Below(c), [c] + sub, hidden);
  }

  lemma SubtreesApart(t: Tree, path: Path, done: set<Path>, c: Path)
    requires c !in done && Under(t, path, {c}) == {c} + t.Below(c)
    ensures Under(t, path, done + {c}) == Under(t, path, done) + ({c} + t.Below(c))
    ensures forall a, b :: a in Under(t, path, done) && b in {c} + t.Below(c) ==> a != b && !(a < b) && !(b < a)
  {
    assert Under(t, path, done + {c}) == Under(t, path, done) + Under(t, path, {c});
    forall a, b | a in Under(t, path, done) && b in Under(t, path, {c})
      ensures a != b && !(a < b) && !(b < a)
    {
      Apart(a, b, |path| + 1);
    }
  }

  lemma SubtreeOf(t: Tree, path: Path, c: Path)
    requires c in t.Entries(path) && c in t.dirs
    ensures Under(t, path, {c}) == {c} + t.Below(c)
  {
    assert c[..|c|] == c;
    forall d | d in t.dirs
      ensures path < d && d[..|path| + 1] == c <==> d == c || c < d
    {
      if path < d && d[..|path| + 1] == c && |d| == |c| {
        assert d[..|d|] == d;
      }
    }
  }

  /** Paths that differ within their first `n` names are not in each other's subtrees. */
  lemma Apart(a: Path, b: Path, n: nat)
    requires n <= |a| && n <= |b| && a[..n] != b[..n]
    ensures a != b && !(a < b) && !(b < a)
  {}

  lemma ChildFirst(t: Tree, c: Path, sub: seq<Path>, hidden: set<Path>)
    requires Listing(t.Below(c), sub, hidden)
    ensures Listing({c} + t.Below(c), [c] + sub, hidden)
  {
    assert forall i :: 0 <= i < |sub| ==> sub[i] in Elements(sub);
    assert Elements([c] + sub) == {c} + Elements(sub);
  }

  lemma ListingsJoin(x: set<Path>, a: seq<Path>, u: set<Path>, y: set<Path>, b: seq<Path>, v: set<Path>)
    requires Listing(x, a, u) && Listing(y, b, v)
    requires forall p, q :: p in x && q in y ==> p != q && !(p < q) && !(q < p)
    ensures Listing(x + y, a + b, u + v)
  {
    assert forall i :: 0 <= i < |a| ==> a[i] in Elements(a);
    assert forall i :: 0 <= i < |b| ==> b[i] in Elements(b);
    assert Elements(a + b) == Elements(a) + Elements(b);
  }

  /** Something to keep is at `d` or below it. */
  ghost predicate Needed(d: Path, keep: set<Path>) {
    exists x :: x in keep && d <= x
  }

  /** From position `i` on, exactly the needed directories are left; everything else is as it was. */
  ghost predicate Swept(t0: Tree, t: Tree, list: seq<Path>, i: nat, stuck: set<Path>) {
    && t.files == t0.files && t.dirs <= t0.dirs && stuck <= t0.dirs && i <= |list|
    && (forall d :: d in t0.dirs && d !in list[i..] ==> d in t.dirs)
    && (forall j :: 0 <= j < i ==> list[j] !in stuck)
    && (forall j :: i <= j < |list| ==> (list[j] in t.dirs <==> Needed(list[j], t.files + stuck)))
  }

  /** At its turn a directory is empty exactly if nothing is needed below it. */
  lemma EmptyIff(t0: Tree, t: Tree, list: seq<Path>, i: nat, unlisted: set<Path>, stuck: set<Path>)
    requires t0.Valid() && t.Valid() && i < |list| && unlisted <= stuck
    requires Listing(t0.Below(BASE), list, unlisted) && Swept(t0, t, list, i + 1, stuck)
    ensures list[i] in t.dirs && list[i] in t0.Below(BASE)
    ensures t.Entries(list[i]) == {} <==> !Needed(list[i], t.files + stuck)
  {
    var p := list[i];
    assert p in Elements(list);
    if x :| x in t.files + stuck && p <= x {
      NeededEntry(t0, t, list, i, unlisted, stuck, x);
    }
    if e :| e in t.Entries(p) {
      EntryNeeded(t0, t, list, i, unlisted, stuck, e);
    }
  }

  /** The entry of a directory on the way to something that is kept is still there. */
  lemma NeededEntry(t0: Tree, t: Tree, list: seq<Path>, i: nat, unlisted: set<Path>, stuck: set<Path>, x: Path)
    requires t0.Valid() && i < |list| && unlisted <= stuck
    requires Listing(t0.Below(BASE), list, unlisted) && Swept(t0, t, list, i + 1, stuck)
    requires x in t.files + stuck && list[i] <= x
    ensures t.Entries(list[i]) != {}
  {
    var p := list[i];
    assert p in Elements(list) && x != p;
    Prefixes(p, x);
    var c := x[..|p| + 1];
    OnTheWay(t0, p, x);
    if c in t0.dirs {
      StillThere(t0, t, list, i, unlisted, stuck, c, x);
    }
    assert c in t.Entries(p);
  }

  lemma StillThere(t0: Tree, t: Tree, list: seq<Path>, i: nat, unlisted: set<Path>, stuck: set<Path>, c: Path, x: Path)
    requires i < |list| && unlisted <= stuck
    requires Listing(t0.Below(BASE), list, unlisted) && Swept(t0, t, list, i + 1, stuck)
    requires c in t0.dirs && list[i] < c && c <= x && x in t.files + stuck
    ensures c in t.dirs
  {}

  lemma EntryNeeded(t0: Tree, t: Tree, list: seq<Path>, i: nat, unlisted: set<Path>, stuck: set<Path>, e: Path)
    requires i < |list| && unlisted <= stuck
    requires Listing(t0.Below(BASE), list, unlisted) && Swept(t0, t, list, i + 1, stuck)
    requires e in t.Entries(list[i])
    ensures Needed(list[i], t.files + stuck)
  {
    var p := list[i];
    if e in t.files {
      assert e in t.files + stuck;
    } else {
      assert e in t0.Below(BASE);
      if e in Elements(list) {
        var j :| 0 <= j < |list| && list[j] == e;
        assert j > i;
        var x :| x in t.files + stuck && e <= x;
        assert p <= x;
      } else {
        assert e in t.files + stuck;
      }
    }
  }

  lemma SweptOne(t0: Tree, before: Tree, t: Tree, list: seq<Path>, i: nat, unlisted: set<Path>, stuck: set<Path>,
                 after: set<Path>)
    requires i < |list| && Listing(t0.Below(BASE), list, unlisted) && Swept(t0, before, list, i + 1, stuck)
    requires t.files == before.files && before.dirs - {list[i]} <= t.dirs <= before.dirs
    requires after == stuck || after == stuck + {list[i]}
    requires list[i] in before.dirs && (list[i] in t.dirs <==> Needed(list[i], t.files + after))
    ensures Swept(t0, t, list, i, after)
  {
    var p := list[i];
    assert list[i..] == [p] + list[i + 1..];
    forall j | i < j < |list|
      ensures Needed(list[j], t.files + after) <==> Needed(list[j], t.files + stuck)
    {
      if list[j] <= p {
        Prefixes(list[j], p);
        assert false;
      }
    }
  }
}
