/**
 * The ordering of the displayed listings. The source calls `Array.prototype.sort`
 * with a comparator returning a difference of numbers; that sort is stable, so
 * its result is the stable sort by that comparator. It is specified here by a
 * functional insertion sort and carried out in place on an array.
 */
module Sorting {
  import opened Listings

  /** The sort keys the source recognises; any other value of `sortBy` sorts newest first. */
  datatype SortOrder = PriceAsc | PriceDesc | Closing | Newest

  /** Reads the `sortBy` selection. */
  function OrderOf(sortBy: string): (o: SortOrder)
    ensures o == PriceAsc <==> sortBy == "price_asc"
    ensures o == PriceDesc <==> sortBy == "price_desc"
    ensures o == Closing <==> sortBy == "closing"
  {
    if sortBy == "price_asc" then PriceAsc
    else if sortBy == "price_desc" then PriceDesc
    else if sortBy == "closing" then Closing
    else Newest
  }

  /** The comparator passed to `sort`: negative when `a` goes first, positive when `b` does. */
  function Compare(order: SortOrder, a: Listing, b: Listing): int {
    match order
    case PriceAsc => a.currentPrice - b.currentPrice
    case PriceDesc => b.currentPrice - a.currentPrice
    case Closing => a.endTime - b.endTime
    case Newest => b.createdAt - a.createdAt
  }

  /** The number the comparator compares: `Compare(o, a, b) == Key(o, a) - Key(o, b)`. */
  function Key(order: SortOrder, p: Listing): int {
    match order
    case PriceAsc => p.currentPrice
    case PriceDesc => -p.currentPrice
    case Closing => p.endTime
    case Newest => -p.createdAt
  }

  lemma CompareIsKeyDifference(order: SortOrder, a: Listing, b: Listing)
    ensures Compare(order, a, b) == Key(order, a) - Key(order, b)
  {
  }

  ghost predicate Sorted(order: SortOrder, s: seq<Listing>) {
    forall i, j :: 0 <= i < j < |s| ==> Compare(order, s[i], s[j]) <= 0
  }

  /** Places `x` after every element of `t` that does not compare above it. */
  function Insert(order: SortOrder, t: seq<Listing>, x: Listing): seq<Listing>
    decreases |t|
  {
    if t == [] || Compare(order, t[|t| - 1], x) <= 0 then t + [x]
    else Insert(order, t[..|t| - 1], x) + [t[|t| - 1]]
  }

  /** The stable sort of `s` by `order`. */
  function SortBy(order: SortOrder, s: seq<Listing>): seq<Listing>
    decreases |s|
  {
    if s == [] then [] else Insert(order, SortBy(order, s[..|s| - 1]), s[|s| - 1])
  }

  /** The elements of `s` whose key is `k`, in their order in `s`. */
  function SameKey(order: SortOrder, s: seq<Listing>, k: int): seq<Listing>
    decreases |s|
  {
    if s == [] then []
    else SameKey(order, s[..|s| - 1], k) + (if Key(order, s[|s| - 1]) == k then [s[|s| - 1]] else [])
  }

  lemma {:induction false} InsertPermutes(order: SortOrder, t: seq<Listing>, x: Listing)
    ensures multiset(Insert(order, t, x)) == multiset(t) + multiset{x}
    decreases |t|
  {
    if t != [] && Compare(order, t[|t| - 1], x) > 0 {
      var init, last := t[..|t| - 1], t[|t| - 1];
      InsertPermutes(order, init, x);
      assert t == init + [last];
    }
  }

  /** Appending an element that no earlier element compares above keeps a sequence sorted. */
  lemma SortedSnoc(order: SortOrder, r: seq<Listing>, z: Listing)
    requires Sorted(order, r)
    requires forall y :: y in r ==> Compare(order, y, z) <= 0
    ensures Sorted(order, r + [z])
  {
    var s := r + [z];
    forall i, j | 0 <= i < j < |s| ensures Compare(order, s[i], s[j]) <= 0 {
      if j == |r| {
        assert s[i] in r;
      }
    }
  }

  lemma {:induction false} InsertSorted(order: SortOrder, t: seq<Listing>, x: Listing)
    requires Sorted(order, t)
    ensures Sorted(order, Insert(order, t, x))
    decreases |t|
  {
    if t == [] {
    } else if Compare(order, t[|t| - 1], x) <= 0 {
      var last := t[|t| - 1];
      forall y | y in t ensures Compare(order, y, x) <= 0 {
        var i :| 0 <= i < |t| && t[i] == y;
        if i < |t| - 1 {
          assert Compare(order, t[i], last) <= 0;
        }
      }
      SortedSnoc(order, t, x);
    } else {
      var init, last := t[..|t| - 1], t[|t| - 1];
      assert Sorted(order, init);
      InsertSorted(order, init, x);
      InsertPermutes(order, init, x);
      var r := Insert(order, init, x);
      forall y | y in r ensures Compare(order, y, last) <= 0 {
        assert y in multiset(r);
        if y != x {
          assert y in multiset(init);
          var i :| 0 <= i < |init| && init[i] == y;
          assert t[i] == y;
        }
      }
      SortedSnoc(order, r, last);
    }
  }

  /** Inserting keeps the relative order of the elements that share a key: `x` comes after its equals. */
  lemma {:induction false} InsertStable(order: SortOrder, t: seq<Listing>, x: Listing, k: int)
    ensures SameKey(order, Insert(order, t, x), k)
         == SameKey(order, t, k) + (if Key(order, x) == k then [x] else [])
    decreases |t|
  {
    var withX := if Key(order, x) == k then [x] else [];
    if t == [] || Compare(order, t[|t| - 1], x) <= 0 {
      assert Insert(order, t, x) == t + [x];
      assert (t + [x])[..|t|] == t;
      assert SameKey(order, t + [x], k) == SameKey(order, t, k) + withX;
    } else {
      var init, last := t[..|t| - 1], t[|t| - 1];
      var r := Insert(order, init, x);
      assert Insert(order, t, x) == r + [last];
      InsertStable(order, init, x, k);
      assert SameKey(order, r, k) == SameKey(order, init, k) + withX;
      var withLast := if Key(order, last) == k then [last] else [];
      assert (r + [last])[..|r|] == r;
      assert SameKey(order, r + [last], k) == SameKey(order, r, k) + withLast;
      assert SameKey(order, t, k) == SameKey(order, init, k) + withLast;
      CompareIsKeyDifference(order, last, x);
      if Key(order, x) == k {
        assert withLast == [];
        assert SameKey(order, t, k) == SameKey(order, init, k);
        assert SameKey(order, r + [last], k) == SameKey(order, init, k) + withX;
      } else {
        assert withX == [];
        assert SameKey(order, r, k) == SameKey(order, init, k);
        assert SameKey(order, t, k) + withX == SameKey(order, t, k);
      }
    }
  }

  /** The specification sort is sorted, a permutation of its input, and stable. */
  lemma {:induction false} SortByCorrect(order: SortOrder, s: seq<Listing>)
    ensures Sorted(order, SortBy(order, s))
    ensures multiset(SortBy(order, s)) == multiset(s)
    ensures forall k :: SameKey(order, SortBy(order, s), k) == SameKey(order, s, k)
    decreases |s|
  {
    if s != [] {
      var init, last := s[..|s| - 1], s[|s| - 1];
      SortByCorrect(order, init);
      InsertSorted(order, SortBy(order, init), last);
      InsertPermutes(order, SortBy(order, init), last);
      assert s == init + [last];
      forall k ensures SameKey(order, SortBy(order, s), k) == SameKey(order, s, k) {
        InsertStable(order, SortBy(order, init), last, k);
      }
    }
  }

  /** Sorting neither adds nor drops listings. */
  lemma SortByMembers(order: SortOrder, s: seq<Listing>)
    ensures forall p :: p in SortBy(order, s) <==> p in s
  {
    SortByCorrect(order, s);
    forall p ensures p in SortBy(order, s) <==> p in s {
      assert p in SortBy(order, s) <==> p in multiset(SortBy(order, s));
      assert p in s <==> p in multiset(s);
    }
  }

  /**
   * Where insertion puts `x`: right after the last element that does not
   * compare above it, so every element after `x` compares above it.
   */
  lemma {:induction false} InsertAt(order: SortOrder, t: seq<Listing>, j: nat, x: Listing)
    requires j <= |t|
    requires j == 0 || Compare(order, t[j - 1], x) <= 0
    requires forall k :: j <= k < |t| ==> Compare(order, t[k], x) > 0
    ensures Insert(order, t, x) == t[..j] + [x] + t[j..]
    decreases |t|
  {
    if j == |t| {
      assert Insert(order, t, x) == t + [x];
      assert t[..j] == t && t[j..] == [];
    } else {
      var init, last := t[..|t| - 1], t[|t| - 1];
      assert Compare(order, last, x) > 0;
      assert Insert(order, t, x) == Insert(order, init, x) + [last];
      assert j == 0 || init[j - 1] == t[j - 1];
      InsertAt(order, init, j, x);
      assert t[..j] == init[..j];
      assert t[j..] == init[j..] + [last];
    }
  }

  /** Moves `a[i]` left into the sorted prefix `a[..i]`, past every element that compares above it. */
  method InsertInPlace(a: array<Listing>, i: nat, order: SortOrder)
    requires i < a.Length
    modifies a
    ensures a[..i + 1] == Insert(order, old(a[..i]), old(a[i]))
    ensures a[i + 1..] == old(a[i + 1..])
  {
    ghost var t, rest := a[..i], a[i + 1..];
    var x := a[i];
    var j := i;
    while j > 0 && Compare(order, a[j - 1], x) > 0
      invariant 0 <= j <= i
      invariant forall k :: 0 <= k < j ==> a[k] == t[k]
      invariant forall k :: j < k <= i ==> a[k] == t[k - 1]
      invariant a[i + 1..] == rest
      invariant forall k :: j <= k < i ==> Compare(order, t[k], x) > 0
    {
      a[j] := a[j - 1];
      j := j - 1;
    }
    a[j] := x;
    assert a[..i + 1] == t[..j] + [x] + t[j..] by {
      ghost var placed := t[..j] + [x] + t[j..];
      forall k | 0 <= k <= i ensures a[k] == placed[k] {
        if k < j {
          assert placed[k] == t[k];
        } else if k > j {
          assert placed[k] == t[k - 1];
        }
      }
    }
    InsertAt(order, t, j, x);
  }

  /** The source's in-place `sort`, as a stable insertion sort on the array. */
  method SortInPlace(a: array<Listing>, order: SortOrder)
    modifies a
    ensures a[..] == SortBy(order, old(a[..]))
  {
    ghost var input := a[..];
    var i := 0;
    while i < a.Length
      invariant 0 <= i <= a.Length
      invariant a[..i] == SortBy(order, input[..i])
      invariant a[i..] == input[i..]
    {
      ghost var sorted, rest := a[..i], a[i + 1..];
      assert a[i] == input[i] && rest == input[i + 1..] by {
        assert a[i..][0] == input[i..][0];
        assert rest == a[i..][1..] && input[i + 1..] == input[i..][1..];
      }
      InsertInPlace(a, i, order);
      assert a[..i + 1] == SortBy(order, input[..i + 1]) by {
        assert input[..i + 1][..i] == input[..i];
        assert a[..i + 1] == Insert(order, sorted, input[i]);
      }
      i := i + 1;
    }
    assert input[..a.Length] == input;
  }
}
