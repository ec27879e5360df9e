/** Stock types and the few facts about sets and sequences that every other module uses. */
module Prelude {
  datatype Option<+T> = None | Some(value: T)

  datatype Result<+T, +E> = Success(value: T) | Failure(error: E)

  predicate Distinct<T(==)>(s: seq<T>) {
    forall i, j :: 0 <= i < j < |s| ==> s[i] != s[j]
  }

  function Elements<T(==)>(s: seq<T>): set<T> {
    set x | x in s
  }

  /** Walking one position further adds exactly one new member. */
  lemma PrefixGrows<T>(s: seq<T>, i: nat)
    requires Distinct(s) && i < |s|
    ensures Elements(s[..i + 1]) == Elements(s[..i]) + {s[i]}
    ensures s[i] !in Elements(s[..i])
  {}

  lemma PrefixStep<T>(s: seq<T>, i: nat)
    requires i < |s|
    ensures s[..i + 1] == s[..i] + [s[i]] && s[..i + 1][..i] == s[..i]
  {}

  /** A sequence without repetitions has as many positions as it has members. */
  lemma {:induction false} DistinctSize<T>(s: seq<T>)
    requires Distinct(s)
    ensures |Elements(s)| == |s|
  {
    if s != [] {
      var init, last := s[..|s| - 1], s[|s| - 1];
      DistinctSize(init);
      assert Elements(s) == Elements(init) + {last};
    }
  }

  /** Removing the members of a subset removes exactly that many. */
  lemma SubsetSize<T>(a: set<T>, b: set<T>)
    requires a <= b
    ensures |b - a| == |b| - |a|
    ensures |a| <= |b|
    ensures |a| == |b| ==> a == b
  {}

  /** A finite set can be listed. */
  lemma {:induction false} SomeOrder<T>(s: set<T>) returns (order: seq<T>)
    ensures Distinct(order) && Elements(order) == s
    decreases |s|
  {
    order := [];
    if s != {} {
      var x :| x in s;
      var rest := SomeOrder(s - {x});
      order := rest + [x];
      assert x !in Elements(rest) && Elements(order) == Elements(rest) + {x};
    }
  }

  /** Lists a finite set in some order, as ranging over a Go map does. */
  method Enumerate<T(==)>(s: set<T>) returns (out: seq<T>)
    ensures Distinct(out)
    ensures Elements(out) == s
  {
    out := [];
    var rest := s;
    while rest != {}
      invariant Distinct(out)
      invariant rest <= s && Elements(out) == s - rest
      decreases |rest|
    {
      var x :| x in rest;
      assert x !in Elements(out);
      assert Elements(out + [x]) == Elements(out) + {x};
      out := out + [x];
      rest := rest - {x};
    }
  }
}
