/**
 * The stream stages of the card pipelines: `filter` by a predicate and
 * `sorted` by a key in descending order.
 */
module Sorting {

  /** The elements of s whose test equals keep, in their original order. */
  function Filter<T(!new)>(s: seq<T>, test: T -> bool, keep: bool): (r: seq<T>)
    ensures forall x :: x in r <==> x in s && test(x) == keep
    ensures forall i :: 0 <= i < |r| ==> test(r[i]) == keep
    ensures multiset(r) <= multiset(s)
  {
    if s == [] then []
    else
      var rest := Filter(s[1..], test, keep);
      assert s == [s[0]] + s[1..];
      if test(s[0]) == keep then [s[0]] + rest else rest
  }

  /** Filtering by a test and by its negation splits a sequence into two parts. */
  lemma {:induction false} FilterPartition<T(!new)>(s: seq<T>, test: T -> bool)
    ensures multiset(Filter(s, test, true)) + multiset(Filter(s, test, false)) == multiset(s)
  {
    if s != [] {
      FilterPartition(s[1..], test);
      assert s == [s[0]] + s[1..];
    }
  }

  /** No element is ranked above an earlier one. */
  ghost predicate SortedDescending<T>(s: seq<T>, key: T -> int) {
    forall i, j :: 0 <= i < j < |s| ==> key(s[i]) >= key(s[j])
  }

  /** Puts x in front of the first element whose key does not exceed x's. */
  function Insert<T>(x: T, s: seq<T>, key: T -> int): (r: seq<T>)
    requires SortedDescending(s, key)
    ensures SortedDescending(r, key)
    ensures multiset(r) == multiset(s) + multiset{x}
  {
    if s == [] || key(x) >= key(s[0]) then [x] + s
    else
      var rest := Insert(x, s[1..], key);
      assert s == [s[0]] + s[1..];
      BoundedBy(rest, key, key(s[0]), x, s[1..]);
      [s[0]] + rest
  }

  /** Every element of r comes from s or is x, so none has a key above a bound they all respect. */
  lemma BoundedBy<T>(r: seq<T>, key: T -> int, bound: int, x: T, s: seq<T>)
    requires multiset(r) == multiset(s) + multiset{x}
    requires key(x) <= bound
    requires forall i :: 0 <= i < |s| ==> key(s[i]) <= bound
    ensures forall i :: 0 <= i < |r| ==> key(r[i]) <= bound
  {
    forall i | 0 <= i < |r|
      ensures key(r[i]) <= bound
    {
      assert r[i] in multiset(r);
      if r[i] != x {
        assert r[i] in multiset(s);
        assert r[i] in s;
      }
    }
  }

  /** Insertion sort: the same elements, ranked by key from highest to lowest. */
  function SortDescending<T>(s: seq<T>, key: T -> int): (r: seq<T>)
    ensures SortedDescending(r, key)
    ensures multiset(r) == multiset(s)
  {
    if s == [] then []
    else
      assert s == [s[0]] + s[1..];
      Insert(s[0], SortDescending(s[1..], key), key)
  }

  /** The head of a sequence ranked by key has the largest key of all its elements. */
  lemma HeadIsLargest<T>(s: seq<T>, key: T -> int, x: T)
    requires SortedDescending(s, key) && x in s
    ensures key(s[0]) >= key(x)
  {
    var i :| 0 <= i < |s| && s[i] == x;
    if i > 0 {
      assert key(s[0]) >= key(s[i]);
    }
  }

  /** Dropping the head of a ranked sequence leaves it ranked. */
  lemma TailStaysSorted<T>(s: seq<T>, key: T -> int)
    requires SortedDescending(s, key) && s != []
    ensures SortedDescending(s[1..], key)
  {
    var t := s[1..];
    forall i, j | 0 <= i < j < |t| ensures key(t[i]) >= key(t[j]) {
      assert t[i] == s[i + 1] && t[j] == s[j + 1];
    }
  }
}
