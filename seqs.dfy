/**
 * Sequence helpers behind the client's collections: `Array.prototype.filter`,
 * and the duplicate-free list `Array.from(new Set(xs))` (first occurrences, in order).
 */
module Seqs {

  /** `s.filter(f)`: the elements satisfying `f`, in their order in `s`. */
  function Filter<T>(s: seq<T>, f: T -> bool): (r: seq<T>)
    ensures |r| <= |s|
    decreases |s|
  {
    if s == [] then [] else Filter(s[..|s| - 1], f) + (if f(s[|s| - 1]) then [s[|s| - 1]] else [])
  }

  lemma {:induction false} FilterMembership<T>(s: seq<T>, f: T -> bool)
    ensures forall x :: x in Filter(s, f) <==> x in s && f(x)
    decreases |s|
  {
    if s != [] {
      FilterMembership(s[..|s| - 1], f);
      assert s == s[..|s| - 1] + [s[|s| - 1]];
    }
  }

  /** Filtering twice is filtering once by the conjunction. */
  lemma {:induction false} FilterTwice<T>(s: seq<T>, f: T -> bool, g: T -> bool, h: T -> bool)
    requires forall x :: h(x) == (f(x) && g(x))
    ensures Filter(Filter(s, f), g) == Filter(s, h)
    decreases |s|
  {
    if s != [] {
      var init, last := s[..|s| - 1], s[|s| - 1];
      FilterTwice(init, f, g, h);
      var r := Filter(init, f);
      assert h(last) == (f(last) && g(last));
      assert Filter(s, h) == Filter(init, h) + (if h(last) then [last] else []);
      if f(last) {
        assert Filter(s, f) == r + [last];
        assert (r + [last])[..|r|] == r;
        assert Filter(r + [last], g) == Filter(r, g) + (if g(last) then [last] else []);
      } else {
        assert Filter(s, f) == r;
      }
    }
  }

  /** Filters by pointwise-equal predicates agree. */
  lemma {:induction false} FilterSame<T>(s: seq<T>, f: T -> bool, g: T -> bool)
    requires forall x :: f(x) == g(x)
    ensures Filter(s, f) == Filter(s, g)
    decreases |s|
  {
    if s != [] {
      FilterSame(s[..|s| - 1], f, g);
    }
  }

  /** A filter that keeps everything is the identity. */
  lemma {:induction false} FilterAll<T>(s: seq<T>, f: T -> bool)
    requires forall x :: f(x)
    ensures Filter(s, f) == s
    decreases |s|
  {
    if s != [] {
      FilterAll(s[..|s| - 1], f);
      assert s == s[..|s| - 1] + [s[|s| - 1]];
    }
  }

  /** `s` back to front. */
  function Reverse<T>(s: seq<T>): (r: seq<T>)
    ensures |r| == |s|
    ensures forall i :: 0 <= i < |s| ==> r[i] == s[|s| - 1 - i]
    decreases |s|
  {
    if s == [] then [] else [s[|s| - 1]] + Reverse(s[..|s| - 1])
  }

  predicate Distinct<T(==)>(s: seq<T>) {
    forall i, j :: 0 <= i < j < |s| ==> s[i] != s[j]
  }

  /** A list without repeats has as many distinct elements as entries. */
  lemma {:induction false} DistinctCardinality<T>(s: seq<T>)
    requires Distinct(s)
    ensures |set x | x in s| == |s|
    decreases |s|
  {
    if s != [] {
      var init, last := s[..|s| - 1], s[|s| - 1];
      assert Distinct(init) by {
        forall i, j | 0 <= i < j < |init| ensures init[i] != init[j] {
          assert init[i] == s[i] && init[j] == s[j];
        }
      }
      DistinctCardinality(init);
      assert s == init + [last];
      assert (set x | x in s) == (set x | x in init) + {last};
      assert last !in (set x | x in init) by {
        forall k | 0 <= k < |init| ensures init[k] != last {
          assert s[k] != s[|s| - 1];
        }
      }
    }
  }

  /** Appends `x` unless it is already present (`Set.prototype.add` on an insertion-ordered set). */
  function AddNew<T(==,!new)>(s: seq<T>, x: T): (r: seq<T>)
    ensures Distinct(s) ==> Distinct(r)
    ensures x in r && s <= r
    ensures forall y :: y in r <==> y in s || y == x
    ensures x !in s ==> r == s + [x]
  {
    if x in s then s else s + [x]
  }

  /** `Array.from(new Set(xs))`: the first occurrence of each element, in order. */
  function Dedup<T(==,!new)>(xs: seq<T>): seq<T>
    decreases |xs|
  {
    if xs == [] then [] else AddNew(Dedup(xs[..|xs| - 1]), xs[|xs| - 1])
  }

  /** The deduplicated list has no repeats and the same elements as the input. */
  lemma {:induction false} DedupCorrect<T(!new)>(xs: seq<T>)
    ensures Distinct(Dedup(xs))
    ensures forall x :: x in Dedup(xs) <==> x in xs
    ensures |Dedup(xs)| <= |xs|
    decreases |xs|
  {
    if xs != [] {
      DedupCorrect(xs[..|xs| - 1]);
      assert xs == xs[..|xs| - 1] + [xs[|xs| - 1]];
    }
  }

  /** Removing duplicates from a list without any leaves it as it is. */
  lemma {:induction false} DedupOfDistinct<T(!new)>(xs: seq<T>)
    requires Distinct(xs)
    ensures Dedup(xs) == xs
    decreases |xs|
  {
    if xs != [] {
      var init, last := xs[..|xs| - 1], xs[|xs| - 1];
      assert Distinct(init) by {
        forall i, j | 0 <= i < j < |init| ensures init[i] != init[j] {
          assert init[i] == xs[i] && init[j] == xs[j];
        }
      }
      DedupOfDistinct(init);
      forall k | 0 <= k < |init| ensures init[k] != last {
        assert xs[k] != xs[|xs| - 1];
      }
      assert xs == init + [last];
    }
  }

  /** Builds `Array.from(new Set(xs))` by adding the elements one by one. */
  method DistinctInOrder<T(==,!new)>(xs: seq<T>) returns (ids: seq<T>)
    ensures ids == Dedup(xs)
    ensures Distinct(ids)
    ensures forall x :: x in ids <==> x in xs
  {
    ids := [];
    var i := 0;
    while i < |xs|
      invariant 0 <= i <= |xs|
      invariant ids == Dedup(xs[..i])
    {
      assert xs[..i + 1][..i] == xs[..i];
      if xs[i] !in ids {
        ids := ids + [xs[i]];
      }
      i := i + 1;
    }
    assert xs[..|xs|] == xs;
    DedupCorrect(xs);
  }
}
