/** Order-preserving selection over the rows of a table: the `.eq(...)`
    filters of the store client and `Array.prototype.filter` both reduce
    to `Filter`. */
module Seqs {

  /** The elements of `xs` that satisfy `p`, in their original order. */
  function Filter<T>(xs: seq<T>, p: T -> bool): (r: seq<T>)
    ensures |r| <= |xs|
    ensures forall i :: 0 <= i < |r| ==> r[i] in xs && p(r[i])
    ensures forall i :: 0 <= i < |xs| && p(xs[i]) ==> xs[i] in r
  {
    if xs == [] then []
    else
      var init := Filter(xs[..|xs| - 1], p);
      assert xs == xs[..|xs| - 1] + [xs[|xs| - 1]];
      if p(xs[|xs| - 1]) then init + [xs[|xs| - 1]] else init
  }

  /** `a` is obtained from `b` by deleting elements (greedy match from the back). */
  predicate IsSubsequence<T(==)>(a: seq<T>, b: seq<T>)
    decreases |b|
  {
    if a == [] then true
    else if b == [] then false
    else if a[|a| - 1] == b[|b| - 1] then IsSubsequence(a[..|a| - 1], b[..|b| - 1])
    else IsSubsequence(a, b[..|b| - 1])
  }

  /** The positions of `xs` whose element satisfies `p`: an index-based
      reference for what a count query counts. */
  ghost function Positions<T>(xs: seq<T>, p: T -> bool): set<nat>
  {
    set i: nat | i < |xs| && p(xs[i])
  }

  /** The filtered rows keep their relative order. */
  lemma {:induction false} FilterIsSubsequence<T>(xs: seq<T>, p: T -> bool)
    ensures IsSubsequence(Filter(xs, p), xs)
  {
    if xs != [] {
      var init := xs[..|xs| - 1];
      FilterIsSubsequence(init, p);
      if p(xs[|xs| - 1]) {
        var r := Filter(xs, p);
        assert r[..|r| - 1] == Filter(init, p);
      } else {
        var r := Filter(xs, p);
        if r != [] {
          assert r == Filter(init, p);
        }
      }
    }
  }

  /** Filtering is the identity exactly when every element passes. */
  lemma {:induction false} FilterKeepsAll<T>(xs: seq<T>, p: T -> bool)
    requires forall i :: 0 <= i < |xs| ==> p(xs[i])
    ensures Filter(xs, p) == xs
  {
    if xs != [] {
      FilterKeepsAll(xs[..|xs| - 1], p);
      assert xs == xs[..|xs| - 1] + [xs[|xs| - 1]];
    }
  }

  /** Filtering by a stronger predicate after a weaker one is filtering by the
      stronger one alone; with `q == p` this is idempotence. */
  lemma {:induction false} FilterNarrows<T>(xs: seq<T>, p: T -> bool, q: T -> bool)
    requires forall x :: q(x) ==> p(x)
    ensures Filter(Filter(xs, p), q) == Filter(xs, q)
  {
    if xs != [] {
      var init := xs[..|xs| - 1];
      var x := xs[|xs| - 1];
      FilterNarrows(init, p, q);
      if p(x) {
        var fp := Filter(xs, p);
        assert fp == Filter(init, p) + [x];
        assert fp[..|fp| - 1] == Filter(init, p);
      }
    }
  }

  /** Filtering twice with the same predicate changes nothing. */
  lemma FilterIdempotent<T>(xs: seq<T>, p: T -> bool)
    ensures Filter(Filter(xs, p), p) == Filter(xs, p)
  {
    FilterNarrows(xs, p, p);
  }

  /** A stronger predicate selects a subsequence of what a weaker one selects. */
  lemma FilterMonotone<T>(xs: seq<T>, p: T -> bool, q: T -> bool)
    requires forall x :: q(x) ==> p(x)
    ensures IsSubsequence(Filter(xs, q), Filter(xs, p))
  {
    FilterNarrows(xs, p, q);
    FilterIsSubsequence(Filter(xs, p), q);
  }

  /** Appending one element adds its position when it matches. */
  lemma PositionsOfSnoc<T>(xs: seq<T>, p: T -> bool)
    requires xs != []
    ensures var n := |xs| - 1;
            Positions(xs, p) == Positions(xs[..n], p) + (if p(xs[n]) then {n} else {})
  {
    var n := |xs| - 1;
    var init := xs[..n];
    var after := Positions(xs, p);
    var before := Positions(init, p);
    var extra: set<nat> := if p(xs[n]) then {n} else {};
    forall i | i in after ensures i in before + extra {
      if i < n {
        assert xs[i] == init[i];
      }
    }
    forall i | i in before + extra ensures i in after {
      if i in before {
        assert xs[i] == init[i];
      }
    }
  }

  /** The number of filtered rows is the number of matching positions. */
  lemma {:induction false} FilterCountsPositions<T>(xs: seq<T>, p: T -> bool)
    ensures |Filter(xs, p)| == |Positions(xs, p)|
  {
    if xs == [] {
      assert Positions(xs, p) == {};
    } else {
      var n := |xs| - 1;
      FilterCountsPositions(xs[..n], p);
      PositionsOfSnoc(xs, p);
      assert n !in Positions(xs[..n], p);
    }
  }
}
