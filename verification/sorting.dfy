/**
 * Sorting of integer sequences, standing in for `Vec::sort`. The library's
 * algorithm is not modelled; `Sort` is a reference insertion sort whose
 * contract (ascending and a permutation) is all the puzzles rely on.
 */
module Sorting {

  predicate Sorted(s: seq<int>) {
    forall i, j :: 0 <= i < j < |s| ==> s[i] <= s[j]
  }

  function Insert(x: int, t: seq<int>): (r: seq<int>)
    requires Sorted(t)
    ensures Sorted(r)
    ensures multiset(r) == multiset(t) + multiset{x}
    ensures |r| == |t| + 1
    ensures r[0] == if t == [] || x <= t[0] then x else t[0]
  {
    if t == [] || x <= t[0] then [x] + t
    else
      var rest := Insert(x, t[1..]);
      assert t == [t[0]] + t[1..];
      [t[0]] + rest
  }

  /** An ascending permutation of `s`. */
  function Sort(s: seq<int>): (t: seq<int>)
    ensures Sorted(t)
    ensures multiset(t) == multiset(s)
    ensures |t| == |s|
  {
    if s == [] then []
    else
      assert s == s[..|s| - 1] + [s[|s| - 1]];
      Insert(s[|s| - 1], Sort(s[..|s| - 1]))
  }

  /** An ascending sequence is determined by its elements: `Sort` has exactly one possible result. */
  lemma {:induction false} SortedUnique(a: seq<int>, b: seq<int>)
    requires Sorted(a) && Sorted(b) && multiset(a) == multiset(b)
    ensures a == b
  {
    assert |a| == |multiset(a)| == |multiset(b)| == |b|;
    if a != [] {
      assert a[0] in multiset(b) && b[0] in multiset(a);
      SortedFirstLeast(b, a[0]);
      SortedFirstLeast(a, b[0]);
      assert a[0] == b[0];
      MultisetTail(a);
      MultisetTail(b);
      assert multiset(a[1..]) == multiset(b[1..]);
      SortedTail(a);
      SortedTail(b);
      SortedUnique(a[1..], b[1..]);
      assert a == [a[0]] + a[1..] && b == [b[0]] + b[1..];
    }
  }

  lemma SortedFirstLeast(a: seq<int>, x: int)
    requires Sorted(a) && x in a
    ensures a[0] <= x
  {
    var i :| 0 <= i < |a| && a[i] == x;
  }

  lemma SortedTail(a: seq<int>)
    requires Sorted(a) && a != []
    ensures Sorted(a[1..])
  {
  }

  lemma MultisetTail(a: seq<int>)
    requires a != []
    ensures multiset(a[1..]) == multiset(a) - multiset{a[0]}
  {
    assert a == [a[0]] + a[1..];
  }

  /** Any ascending arrangement of the same elements is what `Sort` returns. */
  lemma SortIsUnique(s: seq<int>, t: seq<int>)
    requires Sorted(t) && multiset(s) == multiset(t)
    ensures Sort(s) == t
  {
    SortedUnique(Sort(s), t);
  }

  function Sum(s: seq<int>): int {
    if s == [] then 0 else Sum(s[..|s| - 1]) + s[|s| - 1]
  }

  lemma {:induction false} SumAppend(a: seq<int>, b: seq<int>)
    ensures Sum(a + b) == Sum(a) + Sum(b)
    decreases |b|
  {
    if b == [] {
      assert a + b == a;
    } else {
      assert (a + b)[..|a + b| - 1] == a + b[..|b| - 1];
      SumAppend(a, b[..|b| - 1]);
    }
  }

  lemma SumSnoc(a: seq<int>, x: int)
    ensures Sum(a + [x]) == Sum(a) + x
  {
    assert (a + [x])[..|a|] == a;
  }

  /** `iter().rev().take(k)`: the last `k` elements (all of them when there are fewer), largest first. */
  function TakeLargest(t: seq<int>, k: nat): (r: seq<int>)
    ensures |r| == if |t| < k then |t| else k
    ensures forall i :: 0 <= i < |r| ==> r[i] == t[|t| - 1 - i]
  {
    if k == 0 || t == [] then [] else [t[|t| - 1]] + TakeLargest(t[..|t| - 1], k - 1)
  }

  /** The last element of the ascending sort: an element of `s`, and none is larger. */
  function Max(s: seq<int>): (m: int)
    requires |s| >= 1
    ensures m in s && forall i :: 0 <= i < |s| ==> s[i] <= m
  {
    var t := Sort(s);
    LastIsMax(s, t);
    t[|t| - 1]
  }

  lemma LastIsMax(s: seq<int>, t: seq<int>)
    requires Sorted(t) && multiset(t) == multiset(s) && |t| >= 1
    ensures t[|t| - 1] in s && forall i :: 0 <= i < |s| ==> s[i] <= t[|t| - 1]
  {
    assert t[|t| - 1] in multiset(s);
    forall i | 0 <= i < |s| ensures s[i] <= t[|t| - 1] {
      assert s[i] in multiset(t);
      var j :| 0 <= j < |t| && t[j] == s[i];
      assert t[j] <= t[|t| - 1];
    }
  }

  /**
   * In an ascending sequence of at least three elements, no three distinct
   * positions sum to more than the last three.
   */
  lemma TopThreeIsLargest(t: seq<int>, i: int, j: int, k: int)
    requires Sorted(t) && |t| >= 3
    requires 0 <= i < j < k < |t|
    ensures t[i] + t[j] + t[k] <= Sum(TakeLargest(t, 3))
  {
    var n := |t|;
    LargestThree(t);
    assert t[i] <= t[n - 3] && t[j] <= t[n - 2] && t[k] <= t[n - 1];
  }

  lemma LargestThree(t: seq<int>)
    requires |t| >= 3
    ensures Sum(TakeLargest(t, 3)) == t[|t| - 1] + t[|t| - 2] + t[|t| - 3]
  {
    var r := TakeLargest(t, 3);
    SumOfThree(r);
  }

  lemma SumOfThree(r: seq<int>)
    requires |r| == 3
    ensures Sum(r) == r[0] + r[1] + r[2]
  {
    assert r[..2][..1][..0] == [];
    assert Sum(r[..2][..1]) == r[0];
    assert Sum(r[..2]) == r[0] + r[1];
  }

  /** `x` occurs in `m` and nothing in `m` exceeds it. */
  predicate Largest(x: int, m: multiset<int>) {
    x in m && forall c :: c in m ==> c <= x
  }

  /** A multiset with one occurrence of `x` removed. */
  function Without(m: multiset<int>, x: int): multiset<int> {
    m - multiset{x}
  }

  /**
   * The last two elements of an ascending sequence are its largest element
   * and the largest of what is left once one occurrence of it is removed.
   */
  lemma SortedTopTwo(t: seq<int>, m: multiset<int>)
    requires Sorted(t) && |t| >= 2 && multiset(t) == m
    ensures Largest(t[|t| - 1], m)
    ensures Largest(t[|t| - 2], Without(m, t[|t| - 1]))
  {
    var n := |t|;
    var init := t[..n - 1];
    DropLast(t);
    assert init[n - 2] == t[n - 2];
    LastIsLargest(t);
    LastIsLargest(init);
  }

  /** Dropping the last element of an ascending sequence removes one occurrence of it. */
  lemma DropLast(t: seq<int>)
    requires Sorted(t) && |t| >= 1
    ensures Sorted(t[..|t| - 1])
    ensures Without(multiset(t), t[|t| - 1]) == multiset(t[..|t| - 1])
  {
    assert t == t[..|t| - 1] + [t[|t| - 1]];
  }

  lemma LastIsLargest(t: seq<int>)
    requires Sorted(t) && |t| >= 1
    ensures Largest(t[|t| - 1], multiset(t))
  {
    forall c | c in multiset(t)
      ensures c <= t[|t| - 1]
    {
      var i :| 0 <= i < |t| && t[i] == c;
    }
  }
}
