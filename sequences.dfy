/**
 * The column operations of the data-frame library that the app relies on,
 * stated over sequences: `Series.unique()` (distinct values in order of first
 * occurrence), `sorted(Series.unique())` (the distinct values in ascending
 * order) and `Series.min()` / `Series.max()`.
 */
module Sequences {

  /** The set of values occurring in `s`. */
  function Elements<T>(s: seq<T>): set<T> {
    set x | x in s
  }

  predicate NoDuplicates<T(==,!new)>(s: seq<T>) {
    forall i, j :: 0 <= i < j < |s| ==> s[i] != s[j]
  }

  predicate StrictlyAscending(s: seq<int>) {
    forall i, j :: 0 <= i < j < |s| ==> s[i] < s[j]
  }

  /** The position at which `x` occurs in `s` for the first time. */
  function FirstIndex<T(==,!new)>(s: seq<T>, x: T): (i: nat)
    requires x in s
    ensures i < |s| && s[i] == x
    ensures forall j :: 0 <= j < i ==> s[j] != x
  {
    if x in s[..|s| - 1] then FirstIndex(s[..|s| - 1], x) else |s| - 1
  }

  /** `Series.unique()`: each value of `s` once, in order of first occurrence. */
  function Distinct<T(==,!new)>(s: seq<T>): (r: seq<T>)
    ensures NoDuplicates(r)
    ensures forall x :: x in r <==> x in s
    ensures |r| <= |s|
  {
    if s == [] then []
    else
      var init := s[..|s| - 1];
      var d := Distinct(init);
      assert forall x :: x in s <==> x in init || x == s[|s| - 1];
      if s[|s| - 1] in d then d else d + [s[|s| - 1]]
  }

  /** The distinct values appear in the order in which they first occur in `s`. */
  lemma {:induction false} DistinctFirstOccurrence<T(!new)>(s: seq<T>, i: nat, j: nat)
    requires i < j < |Distinct(s)|
    ensures FirstIndex(s, Distinct(s)[i]) < FirstIndex(s, Distinct(s)[j])
  {
    var init := s[..|s| - 1];
    var d := Distinct(init);
    var last := s[|s| - 1];
    assert init == s[..|s| - 1];
    if last in d {
      assert Distinct(s) == d;
      DistinctFirstOccurrence(init, i, j);
      FirstIndexOfPrefix(s, d[i]);
      FirstIndexOfPrefix(s, d[j]);
    } else {
      assert Distinct(s) == d + [last];
      if j < |d| {
        DistinctFirstOccurrence(init, i, j);
        FirstIndexOfPrefix(s, d[i]);
        FirstIndexOfPrefix(s, d[j]);
      } else {
        assert Distinct(s)[j] == last && last !in init;
        FirstIndexOfPrefix(s, d[i]);
      }
    }
  }

  /**
   * `u` lists the values of `s`, each once, in order of first occurrence: the
   * reference meaning of `Series.unique()`.
   */
  ghost predicate UniqueInOrder<T(!new)>(u: seq<T>, s: seq<T>) {
    && NoDuplicates(u)
    && (forall x :: x in u <==> x in s)
    && (forall i, j :: 0 <= i < j < |u| ==> FirstIndex(s, u[i]) < FirstIndex(s, u[j]))
  }

  lemma DistinctIsUniqueInOrder<T(!new)>(s: seq<T>)
    ensures UniqueInOrder(Distinct(s), s)
  {
    forall i, j | 0 <= i < j < |Distinct(s)|
      ensures FirstIndex(s, Distinct(s)[i]) < FirstIndex(s, Distinct(s)[j])
    {
      DistinctFirstOccurrence(s, i, j);
    }
  }

  /** A value already present before the last position keeps its first index. */
  lemma FirstIndexOfPrefix<T(!new)>(s: seq<T>, x: T)
    requires |s| > 0 && x in s[..|s| - 1]
    ensures FirstIndex(s, x) == FirstIndex(s[..|s| - 1], x)
  {
  }

  /** A sequence without duplicates has as many elements as values. */
  lemma {:induction false} NoDuplicatesCardinality<T(!new)>(s: seq<T>)
    requires NoDuplicates(s)
    ensures |Elements(s)| == |s|
  {
    if s != [] {
      var init := s[..|s| - 1];
      assert NoDuplicates(init);
      NoDuplicatesCardinality(init);
      assert Elements(s) == Elements(init) + {s[|s| - 1]};
      assert s[|s| - 1] !in Elements(init);
    }
  }

  /** A subset has no more elements than its superset. */
  lemma {:induction false} SubsetCardinality<T>(a: set<T>, b: set<T>)
    requires a <= b
    ensures |a| <= |b|
  {
    if a != {} {
      var x :| x in a;
      SubsetCardinality(a - {x}, b - {x});
    }
  }

  /** `unique()` yields exactly as many entries as the column has distinct values. */
  lemma DistinctCount<T(!new)>(s: seq<T>)
    ensures |Distinct(s)| == |Elements(s)|
  {
    NoDuplicatesCardinality(Distinct(s));
    assert Elements(Distinct(s)) == Elements(s);
  }

  /** `u` lists the values of `s`, each once, in ascending order. */
  ghost predicate AscendingValuesOf(u: seq<int>, s: seq<int>) {
    StrictlyAscending(u) && forall x :: x in u <==> x in s
  }

  /** `lo` and `hi` are the least and the greatest value of `s`. */
  predicate IntBounds(lo: int, hi: int, s: seq<int>) {
    lo in s && hi in s && forall x :: x in s ==> lo <= x <= hi
  }

  /** `lo` and `hi` are the least and the greatest value of `s`. */
  predicate RealBounds(lo: real, hi: real, s: seq<real>) {
    lo in s && hi in s && forall x :: x in s ==> lo <= x <= hi
  }

  /** Inserts `x` into a strictly ascending sequence, leaving it unchanged if `x` is present. */
  function InsertAscending(s: seq<int>, x: int): (r: seq<int>)
    requires StrictlyAscending(s)
    ensures StrictlyAscending(r)
    ensures forall y :: y in r <==> y in s || y == x
  {
    if s == [] then [x]
    else if x < s[0] then
      assert forall y :: y in s ==> s[0] <= y;
      ConsAscending(x, s);
      [x] + s
    else if x == s[0] then s
    else
      var tail := InsertAscending(s[1..], x);
      assert forall y :: y in s[1..] ==> s[0] < y;
      assert forall y :: y in tail ==> s[0] < y;
      assert forall y :: y in s <==> y == s[0] || y in s[1..];
      ConsAscending(s[0], tail);
      [s[0]] + tail
  }

  /** A value below every element of an ascending sequence can be put in front of it. */
  lemma ConsAscending(h: int, t: seq<int>)
    requires StrictlyAscending(t)
    requires forall y :: y in t ==> h < y
    ensures StrictlyAscending([h] + t)
  {
    var r := [h] + t;
    forall i, j | 0 <= i < j < |r| ensures r[i] < r[j] {
      assert r[j] == t[j - 1];
      if i > 0 {
        assert r[i] == t[i - 1];
      } else {
        assert t[j - 1] in t;
      }
    }
  }

  /** `sorted(Series.unique())`: the distinct values of `s` in ascending order. */
  function SortedDistinct(s: seq<int>): (r: seq<int>)
    ensures StrictlyAscending(r)
    ensures forall x :: x in r <==> x in s
  {
    if s == [] then []
    else
      var init := s[..|s| - 1];
      assert forall x :: x in s <==> x in init || x == s[|s| - 1];
      InsertAscending(SortedDistinct(init), s[|s| - 1])
  }

  /** Two strictly ascending sequences holding the same values are equal. */
  lemma {:induction false} AscendingUnique(a: seq<int>, b: seq<int>)
    requires StrictlyAscending(a) && StrictlyAscending(b)
    requires forall x :: x in a <==> x in b
    ensures a == b
  {
    assert a != [] ==> a[0] in a && a[0] in b;
    assert b != [] ==> b[0] in b && b[0] in a;
    if a != [] && b != [] {
      assert a[0] <= b[0] by { assert b[0] in b; }
      assert b[0] <= a[0] by { assert a[0] in a; }
      assert forall x :: x in a[1..] <==> x in a && x != a[0];
      assert forall x :: x in b[1..] <==> x in b && x != b[0];
      AscendingUnique(a[1..], b[1..]);
      assert a == [a[0]] + a[1..];
      assert b == [b[0]] + b[1..];
    }
  }

  /** The choice list depends only on which values the column holds. */
  lemma SortedDistinctCanonical(s: seq<int>, t: seq<int>)
    requires Elements(s) == Elements(t)
    ensures SortedDistinct(s) == SortedDistinct(t)
  {
    assert forall x :: x in s <==> x in Elements(s);
    assert forall x :: x in t <==> x in Elements(t);
    AscendingUnique(SortedDistinct(s), SortedDistinct(t));
  }

  /** The sorted choice list has exactly as many entries as the column has distinct values. */
  lemma SortedDistinctCount(s: seq<int>)
    ensures |SortedDistinct(s)| == |Elements(s)|
  {
    NoDuplicatesCardinality(SortedDistinct(s));
    assert Elements(SortedDistinct(s)) == Elements(s);
  }

  /** `Series.min()` of an integer column. */
  function MinInt(s: seq<int>): (m: int)
    requires |s| > 0
    ensures m in s
    ensures forall x :: x in s ==> m <= x
  {
    if |s| == 1 then s[0]
    else
      var rest := MinInt(s[1..]);
      assert forall x :: x in s ==> x == s[0] || x in s[1..];
      if s[0] <= rest then s[0] else rest
  }

  /** `Series.max()` of an integer column. */
  function MaxInt(s: seq<int>): (m: int)
    requires |s| > 0
    ensures m in s
    ensures forall x :: x in s ==> x <= m
  {
    if |s| == 1 then s[0]
    else
      var rest := MaxInt(s[1..]);
      assert forall x :: x in s ==> x == s[0] || x in s[1..];
      if rest <= s[0] then s[0] else rest
  }

  /** `Series.min()` of a real-valued column. */
  function MinReal(s: seq<real>): (m: real)
    requires |s| > 0
    ensures m in s
    ensures forall x :: x in s ==> m <= x
  {
    if |s| == 1 then s[0]
    else
      var rest := MinReal(s[1..]);
      assert forall x :: x in s ==> x == s[0] || x in s[1..];
      if s[0] <= rest then s[0] else rest
  }

  /** `Series.max()` of a real-valued column. */
  function MaxReal(s: seq<real>): (m: real)
    requires |s| > 0
    ensures m in s
    ensures forall x :: x in s ==> x <= m
  {
    if |s| == 1 then s[0]
    else
      var rest := MaxReal(s[1..]);
      assert forall x :: x in s ==> x == s[0] || x in s[1..];
      if rest <= s[0] then s[0] else rest
  }
}
