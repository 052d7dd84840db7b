/**
  Ordering helpers shared by the sector queries: a stable insertion sort by an
  integer key (Python's `sorted` on a list of integers and pandas'
  `sort_values` on an integer column), and the order-preserving removal of
  duplicates done by pandas' `unique`.
 */
module Sorting {

  /** The identity key, used to sort plain integers. */
  function Id(x: int): int { x }

  /** `s` is in non-decreasing order of `key`. */
  ghost predicate SortedBy<T>(s: seq<T>, key: T -> int) {
    forall i, j :: 0 <= i < j < |s| ==> key(s[i]) <= key(s[j])
  }

  /** `s` is in strictly ascending order (sorted and free of duplicates). */
  ghost predicate StrictlyIncreasing(s: seq<int>) {
    forall i, j :: 0 <= i < j < |s| ==> s[i] < s[j]
  }

  /** No element of `s` occurs twice. */
  ghost predicate Distinct(s: seq<int>) {
    forall i, j :: 0 <= i < j < |s| ==> s[i] != s[j]
  }

  /** Inserts `x` into sorted `s`, in front of the elements whose key equals its own. */
  function InsertBy<T>(x: T, s: seq<T>, key: T -> int): (r: seq<T>)
    requires SortedBy(s, key)
    ensures SortedBy(r, key)
    ensures multiset(r) == multiset(s) + multiset{x}
  {
    if s == [] || key(x) <= key(s[0]) then
      [x] + s
    else
      var rest := InsertBy(x, s[1..], key);
      assert s == [s[0]] + s[1..];
      forall j | 0 <= j < |rest| ensures key(s[0]) <= key(rest[j]) {
        assert rest[j] in multiset(rest);
        if rest[j] != x {
          assert rest[j] in multiset(s[1..]);
          var k :| 0 <= k < |s[1..]| && s[1..][k] == rest[j];
          assert s[k + 1] == rest[j];
        }
      }
      [s[0]] + rest
  }

  /** A stable sort of `s` by `key`: a permutation of `s` in non-decreasing key order. */
  function SortBy<T>(s: seq<T>, key: T -> int): (r: seq<T>)
    ensures SortedBy(r, key)
    ensures multiset(r) == multiset(s)
    ensures |r| == |s|
  {
    if s == [] then
      []
    else
      assert s == [s[0]] + s[1..];
      InsertBy(s[0], SortBy(s[1..], key), key)
  }

  /** Inserting a new integer into a strictly ascending sequence keeps it strictly ascending. */
  lemma {:induction false} InsertKeepsStrict(x: int, s: seq<int>)
    requires StrictlyIncreasing(s)
    requires x !in s
    ensures SortedBy(s, Id)
    ensures StrictlyIncreasing(InsertBy(x, s, Id))
  {
    assert SortedBy(s, Id);
    if s == [] || x <= s[0] {
    } else {
      InsertKeepsStrict(x, s[1..]);
      var rest := InsertBy(x, s[1..], Id);
      assert s == [s[0]] + s[1..];
      forall j | 0 <= j < |rest| ensures s[0] < rest[j] {
        assert rest[j] in multiset(rest);
        if rest[j] != x {
          assert rest[j] in multiset(s[1..]);
          var k :| 0 <= k < |s[1..]| && s[1..][k] == rest[j];
          assert s[k + 1] == rest[j];
        }
      }
    }
  }

  /** Sorting a duplicate-free sequence of integers gives a strictly ascending one. */
  lemma {:induction false} SortDistinctIsStrict(s: seq<int>)
    requires Distinct(s)
    ensures StrictlyIncreasing(SortBy(s, Id))
  {
    if s != [] {
      SortDistinctIsStrict(s[1..]);
      var sorted := SortBy(s[1..], Id);
      assert s[0] !in s[1..];
      assert s[0] !in multiset(sorted);
      InsertKeepsStrict(s[0], sorted);
    }
  }

  /** The first occurrence of each element of `s`, in the order of first appearance. */
  function Dedup(s: seq<int>): (r: seq<int>)
    ensures Distinct(r)
    ensures forall x :: x in r <==> x in s
  {
    if s == [] then
      []
    else
      var last := s[|s| - 1];
      var rest := Dedup(s[..|s| - 1]);
      assert s == s[..|s| - 1] + [last];
      if last in rest then rest else rest + [last]
  }
}
