/** The library sorts the source calls (`qsort` in the store sorters,
    `std::sort` in the Gaussian detectors), modelled by an insertion sort driven
    by the same "less than" comparator.  For any asymmetric comparator the
    result is a permutation with no adjacent inversion; for a comparator that is
    also transitive in its negation (such as `strcmp`), no inversion at all. */
module Sorting {

  ghost predicate Asymmetric<T(!new)>(less: (T, T) -> bool)
  {
    forall x, y :: less(x, y) ==> !less(y, x)
  }

  /** No element is "less" than the one just before it. */
  ghost predicate LocallySorted<T>(s: seq<T>, less: (T, T) -> bool)
  {
    forall i :: 0 <= i < |s| - 1 ==> !less(s[i + 1], s[i])
  }

  /** No element is "less" than any element before it. */
  ghost predicate Sorted<T>(s: seq<T>, less: (T, T) -> bool)
  {
    forall i, j :: 0 <= i < j < |s| ==> !less(s[j], s[i])
  }

  /** Puts x just before the first element it is less than. */
  function Insert<T>(x: T, s: seq<T>, less: (T, T) -> bool): (r: seq<T>)
    ensures multiset(r) == multiset(s) + multiset{x}
    ensures |r| == |s| + 1
    ensures r[0] == x || (|s| > 0 && r[0] == s[0])
  {
    if s == [] then [x]
    else if less(x, s[0]) then [x] + s
    else
      assert s == [s[0]] + s[1..];
      [s[0]] + Insert(x, s[1..], less)
  }

  function Sort<T>(s: seq<T>, less: (T, T) -> bool): (r: seq<T>)
    ensures multiset(r) == multiset(s)
    ensures |r| == |s|
  {
    if s == [] then []
    else
      assert s == [s[0]] + s[1..];
      Insert(s[0], Sort(s[1..], less), less)
  }

  lemma {:induction false} InsertLocallySorted<T(!new)>(x: T, s: seq<T>, less: (T, T) -> bool)
    requires Asymmetric(less)
    requires LocallySorted(s, less)
    ensures LocallySorted(Insert(x, s, less), less)
  {
    if s != [] && !less(x, s[0]) {
      var rest := Insert(x, s[1..], less);
      InsertLocallySorted(x, s[1..], less);
      assert Insert(x, s, less) == [s[0]] + rest;
    }
  }

  lemma {:induction false} SortLocallySorted<T(!new)>(s: seq<T>, less: (T, T) -> bool)
    requires Asymmetric(less)
    ensures LocallySorted(Sort(s, less), less)
  {
    if s != [] {
      SortLocallySorted(s[1..], less);
      InsertLocallySorted(s[0], Sort(s[1..], less), less);
    }
  }

  /** Locally sorted means sorted when "not less" is transitive. */
  lemma {:induction false} LocallySortedIsSorted<T(!new)>(s: seq<T>, less: (T, T) -> bool)
    requires forall x, y, z :: !less(y, x) && !less(z, y) ==> !less(z, x)
    requires LocallySorted(s, less)
    ensures Sorted(s, less)
  {
    forall i, j | 0 <= i < j < |s|
      ensures !less(s[j], s[i])
    {
      var k := i + 1;
      while k < j
        invariant i < k <= j
        invariant !less(s[k], s[i])
      {
        assert !less(s[k + 1], s[k]);
        k := k + 1;
      }
    }
  }

  ghost predicate NoDuplicates<T>(s: seq<T>)
  {
    forall i, j :: 0 <= i < j < |s| ==> s[i] != s[j]
  }

  lemma {:induction false} InsertNoDuplicates<T>(x: T, s: seq<T>, less: (T, T) -> bool)
    requires NoDuplicates(s) && x !in s
    ensures NoDuplicates(Insert(x, s, less))
  {
    if s != [] && !less(x, s[0]) {
      InsertNoDuplicates(x, s[1..], less);
      var rest := Insert(x, s[1..], less);
      assert s[0] !in multiset(rest) by {
        assert s[0] !in s[1..];
        assert s[0] != x;
      }
      assert Insert(x, s, less) == [s[0]] + rest;
    }
  }

  /** Sorting distinct elements yields distinct elements. */
  lemma {:induction false} SortNoDuplicates<T>(s: seq<T>, less: (T, T) -> bool)
    requires NoDuplicates(s)
    ensures NoDuplicates(Sort(s, less))
  {
    if s != [] {
      SortNoDuplicates(s[1..], less);
      assert s[0] !in multiset(Sort(s[1..], less)) by {
        assert s[0] !in s[1..];
      }
      InsertNoDuplicates(s[0], Sort(s[1..], less), less);
    }
  }
}
