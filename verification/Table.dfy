/** What a delete may do to the images table and what it must, whichever statements fail. */
module Table {
  import opened Registry
  import opened Store
  import opened DeleteSpec

  /** Rows of one repository, by their references or by the digests they show. */
  datatype Marks = Marks(refs: set<Ref>, digests: set<Digest>) {
    predicate Has(reference: Ref, row: ImageRow) {
      reference in refs || row.digest in digests
    }

    function Plus(more: Marks): Marks {
      Marks(refs + more.refs, digests + more.digests)
    }
  }

  const NO_MARKS := Marks({}, {})

  /** The references that the results call untagged. */
  ghost function Untagged(results: seq<TagResult>): set<Ref> {
    set x | x in results && x.ok && x.action == UntagAction :: x.reference
  }

  /** The rows a tag-aware delete asks to strike: those of untagged references, and of digests it deleted for good. */
  ghost function MarksOf(results: seq<TagResult>, trace: Trace): Marks {
    Marks(Untagged(results), trace.full * trace.kept.Keys)
  }

  /** The rows in `must` are marked deleted, no row outside `may` is, and nothing else happens to any row. */
  ghost predicate RowsFit(before: Rows, after: Rows, must: Marks, may: Marks) {
    && after.Keys == before.Keys
    && forall ref :: ref in before ==>
         && after[ref] == before[ref].(deleted := after[ref].deleted)
         && (before[ref].deleted || must.Has(ref, before[ref]) ==> after[ref].deleted)
         && (after[ref].deleted ==> before[ref].deleted || may.Has(ref, before[ref]))
  }

  /**
   * Only the rows of one repository change, and in this way; or they are all dropped, which takes a
   * repository without tags and a safe name.
   */
  ghost predicate TableFits(before: Images, after: Images, name: Name, must: Marks, may: Marks, noTags: bool) {
    && after - {name} == before - {name}
    && (name in before && name !in after ==> noTags && Cleanable(name))
    && (RowsFit(RowsAt(before, name), RowsAt(after, name), must, may) ||
        (noTags && Cleanable(name) && RowsAt(after, name) == map[]))
  }

  // ---- Which statements take effect ----

  /** The marks whose statements are not broken. */
  function Working(broken: set<Statement>, name: Name, m: Marks): Marks {
    Marks(set r | r in m.refs && StrikeImage(name, r) !in broken,
          set d | d in m.digests && StrikeImages(name, d) !in broken)
  }

  /** The marks that are sure to be made: those that work if it is known which do, and all if none has failed. */
  function Sure(b: Breakdown, clean: bool, known: bool, name: Name, m: Marks): Marks {
    if !known then NO_MARKS
    else if b.Only? then Working(b.broken, name, m)
    else if clean then m
    else NO_MARKS
  }

  /** The marks that can be made at all. */
  function Possible(b: Breakdown, known: bool, name: Name, m: Marks): Marks {
    if !known then NO_MARKS else if b.Only? then Working(b.broken, name, m) else m
  }

  /** The table after some marks were asked for; `clean` says that no statement failed meanwhile. */
  ghost predicate TableAfter(b: Breakdown, clean: bool, known: bool, name: Name, before: Images, after: Images,
                             m: Marks, noTags: bool) {
    TableFits(before, after, name, Sure(b, clean, known, name, m), Possible(b, known, name, m), noTags)
  }

  /** As far as is known which statements are broken, the repository's row can be found or made. */
  predicate Known(b: Breakdown, name: Name) {
    b.Only? ==> ResolveRow(name) !in b.broken
  }

  // ---- Steps ----

  lemma Untouched(images: Images, name: Name, noTags: bool)
    ensures TableFits(images, images, name, NO_MARKS, NO_MARKS, noTags)
    ensures TableFits(images, EnsureRepo(images, name), name, NO_MARKS, NO_MARKS, noTags)
  {
    assert EnsureRepo(images, name) - {name} == images - {name};
  }

  lemma StruckFits(images: Images, name: Name, m: Marks, noTags: bool)
    ensures TableFits(images, SoftDeleteIn(images, name, m.refs, m.digests), name, m, m, noTags)
  {
    assert SoftDeleteIn(images, name, m.refs, m.digests) - {name} == images - {name};
  }

  lemma DroppedFits(images: Images, name: Name)
    requires Cleanable(name)
    ensures TableFits(images, images - {name}, name, NO_MARKS, NO_MARKS, true)
  {
    assert images - {name} - {name} == images - {name};
  }

  /** One after the other; a repository without tags stays without. */
  lemma FitsCompose(a: Images, b: Images, c: Images, name: Name, must: Marks, may: Marks, noTags: bool, must': Marks,
                    may': Marks, noTags': bool)
    requires TableFits(a, b, name, must, may, noTags) && TableFits(b, c, name, must', may', noTags')
    requires noTags ==> noTags'
    ensures TableFits(a, c, name, must.Plus(must'), may.Plus(may'), noTags')
  {}

  /** Less is demanded and more allowed. */
  lemma FitsWeaker(a: Images, b: Images, name: Name, must: Marks, may: Marks, noTags: bool, must': Marks, may': Marks)
    requires TableFits(a, b, name, must, may, noTags)
    requires must'.refs <= must.refs && must'.digests <= must.digests
    requires may.refs <= may'.refs && may.digests <= may'.digests
    ensures TableFits(a, b, name, must', may', noTags)
  {}

  lemma AfterCompose(bd: Breakdown, known: bool, name: Name, a: Images, b: Images, c: Images, clean: bool, m: Marks,
                     noTags: bool, clean': bool, m': Marks, noTags': bool)
    requires TableAfter(bd, clean, known, name, a, b, m, noTags)
    requires TableAfter(bd, clean', known, name, b, c, m', noTags') && (noTags ==> noTags')
    ensures TableAfter(bd, clean && clean', known, name, a, c, m.Plus(m'), noTags')
  {
    var sure, sure' := Sure(bd, clean, known, name, m), Sure(bd, clean', known, name, m');
    var can, can' := Possible(bd, known, name, m), Possible(bd, known, name, m');
    FitsCompose(a, b, c, name, sure, can, noTags, sure', can', noTags');
    FitsWeaker(a, c, name, sure.Plus(sure'), can.Plus(can'), noTags',
               Sure(bd, clean && clean', known, name, m.Plus(m')), Possible(bd, known, name, m.Plus(m')));
  }

  /** Without the repository's row, nothing is struck. */
  lemma NoneKnown(bd: Breakdown, clean: bool, name: Name, a: Images, b: Images, m: Marks, noTags: bool)
    requires b in {a, EnsureRepo(a, name)}
    ensures TableAfter(bd, clean, false, name, a, b, m, noTags)
  {
    Untouched(a, name, noTags);
  }

  /** And then the repository may have been dropped. */
  lemma AfterCleanup(bd: Breakdown, clean: bool, clean': bool, known: bool, name: Name, a: Images, b: Images, c: Images,
                     m: Marks, noTags: bool)
    requires TableAfter(bd, clean, known, name, a, b, m, noTags) && (clean' ==> clean)
    requires c == b || (c == b - {name} && noTags && Cleanable(name))
    ensures TableAfter(bd, clean', known, name, a, c, m, noTags)
  {
    var sure, can := Sure(bd, clean, known, name, m), Possible(bd, known, name, m);
    if c == b {
      Untouched(b, name, noTags);
    } else {
      DroppedFits(b, name);
    }
    FitsCompose(a, b, c, name, sure, can, noTags, NO_MARKS, NO_MARKS, noTags);
    FitsWeaker(a, c, name, sure.Plus(NO_MARKS), can.Plus(NO_MARKS), noTags, Sure(bd, clean', known, name, m), can);
  }

  /** Before, the repository's row may have been made. */
  lemma AfterEnsured(bd: Breakdown, clean: bool, clean': bool, known: bool, name: Name, a: Images, b: Images, c: Images,
                     m: Marks, noTags: bool)
    requires b in {a, EnsureRepo(a, name)} && TableAfter(bd, clean, known, name, b, c, m, noTags) && (clean' ==> clean)
    ensures TableAfter(bd, clean', known, name, a, c, m, noTags)
  {
    AfterNothing(bd, clean, known, name, a, b, noTags);
    AfterCompose(bd, known, name, a, b, c, clean, NO_MARKS, noTags, clean, m, noTags);
    var more := NO_MARKS.Plus(m);
    assert more == m;
    FitsWeaker(a, c, name, Sure(bd, clean, known, name, m), Possible(bd, known, name, m), noTags,
               Sure(bd, clean', known, name, m), Possible(bd, known, name, m));
  }

  /** The table after marks were asked for that depended on whether the repository's row could be found or made. */
  lemma FromStart(bd: Breakdown, ok: bool, clean: bool, clean': bool, name: Name, a: Images, b: Images, c: Images,
                  m: Marks, noTags: bool)
    requires b == (if ok then EnsureRepo(a, name) else a) && (clean <==> ok)
    requires bd.Only? ==> (ok <==> ResolveRow(name) !in bd.broken)
    requires TableAfter(bd, clean', ok, name, b, c, m, noTags)
    ensures TableAfter(bd, clean && clean', Known(bd, name), name, a, c, m, noTags)
  {
    AfterEnsured(bd, clean', clean', ok, name, a, b, c, m, noTags);
    FitsWeaker(a, c, name, Sure(bd, clean', ok, name, m), Possible(bd, ok, name, m), noTags,
               Sure(bd, clean && clean', Known(bd, name), name, m), Possible(bd, Known(bd, name), name, m));
  }

  /** Nothing was asked for. */
  lemma AfterNothing(bd: Breakdown, clean: bool, known: bool, name: Name, images: Images, after: Images, noTags: bool)
    requires after in {images, EnsureRepo(images, name)}
    ensures TableAfter(bd, clean, known, name, images, after, NO_MARKS, noTags)
  {
    Untouched(images, name, noTags);
    FitsWeaker(images, after, name, NO_MARKS, NO_MARKS, noTags, Sure(bd, clean, known, name, NO_MARKS),
               Possible(bd, known, name, NO_MARKS));
  }

  /** One statement was run. */
  lemma AfterStatement(bd: Breakdown, ok: bool, name: Name, images: Images, m: Marks, noTags: bool)
    requires bd.Only? ==> Working(bd.broken, name, m) == if ok then m else NO_MARKS
    ensures TableAfter(bd, ok, true, name, images,
                       if ok then SoftDeleteIn(images, name, m.refs, m.digests) else images, m, noTags)
  {
    StruckFits(images, name, m, noTags);
    Untouched(images, name, noTags);
    if !ok && bd.Anytime? {
      FitsWeaker(images, images, name, NO_MARKS, NO_MARKS, noTags, NO_MARKS, m);
    }
  }

  lemma TableStays(bd: Breakdown, clean: bool, known: bool, name: Name, a: Images, b: Images, m: Marks, noTags: bool)
    requires TableAfter(bd, clean, known, name, a, b, m, noTags)
    ensures TableFits(a, b, name, NO_MARKS, m, noTags)
  {
    FitsWeaker(a, b, name, Sure(bd, clean, known, name, m), Possible(bd, known, name, m), noTags, NO_MARKS, m);
  }

  lemma FromEnsured(a: Images, b: Images, c: Images, name: Name, m: Marks, noTags: bool)
    requires b in {a, EnsureRepo(a, name)} && TableFits(b, c, name, NO_MARKS, m, noTags)
    ensures TableFits(a, c, name, NO_MARKS, m, noTags)
  {
    Untouched(a, name, noTags);
    FitsCompose(a, b, c, name, NO_MARKS, NO_MARKS, noTags, NO_MARKS, m, noTags);
    assert NO_MARKS.Plus(m) == m && NO_MARKS.Plus(NO_MARKS) == NO_MARKS;
  }

  // ---- What that means for a row ----

  /** A row that was shown is still shown unless it is marked, or the repository has no tag left. */
  lemma ShownStays(before: Images, after: Images, name: Name, must: Marks, may: Marks, noTags: bool, n: Name, ref: Ref)
    requires TableFits(before, after, name, must, may, noTags)
    requires ref in RowsAt(before, n) && !RowsAt(before, n)[ref].deleted
    ensures (ref in RowsAt(after, n) && RowsAt(after, n)[ref] == RowsAt(before, n)[ref]) ||
            (n == name && (noTags || may.Has(ref, RowsAt(before, n)[ref])))
  {
    if n != name {
      assert n in before - {name} && n in after - {name};
    }
  }
}
