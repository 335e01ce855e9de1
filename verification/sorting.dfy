/** Sorting used as the reference for the median: an insertion sort over
    sequences, and the fact that a sequence has exactly one sorted permutation. */
module Sorting {

  /** Ascending (non-decreasing) order. */
  ghost predicate Sorted(t: seq<int>) {
    forall i, j :: 0 <= i < j < |t| ==> t[i] <= t[j]
  }

  /** A sorted sequence stays sorted when a lower bound of it is put in front. */
  lemma PrependSorted(y: int, t: seq<int>)
    requires Sorted(t)
    requires forall k :: 0 <= k < |t| ==> y <= t[k]
    ensures Sorted([y] + t)
  {
    var r := [y] + t;
    forall i, j | 0 <= i < j < |r|
      ensures r[i] <= r[j]
    {
      assert r[j] == t[j - 1];
      if i > 0 {
        assert r[i] == t[i - 1];
      }
    }
  }

  /** Insert `x` into the sorted sequence `t`, keeping it sorted. */
  function Insert(x: int, t: seq<int>): (r: seq<int>)
    requires Sorted(t)
    ensures Sorted(r)
    ensures multiset(r) == multiset(t) + multiset{x}
    ensures |r| == |t| + 1
  {
    if |t| == 0 then [x]
    else if x <= t[0] then
      PrependSorted(x, t);
      [x] + t
    else
      var rest := Insert(x, t[1..]);
      assert t == [t[0]] + t[1..];
      assert forall k :: 0 <= k < |rest| ==> t[0] <= rest[k] by {
        forall k | 0 <= k < |rest|
          ensures t[0] <= rest[k]
        {
          assert rest[k] in multiset(rest);
        }
      }
      PrependSorted(t[0], rest);
      [t[0]] + rest
  }

  /** The ascending permutation of `s`. */
  function Sort(s: seq<int>): (r: seq<int>)
    ensures Sorted(r)
    ensures multiset(r) == multiset(s)
    ensures |r| == |s|
  {
    if |s| == 0 then []
    else
      assert s == [s[0]] + s[1..];
      Insert(s[0], Sort(s[1..]))
  }

  /** The head of a sorted sequence is no larger than anything in it. */
  lemma SortedHeadIsLeast(t: seq<int>, x: int)
    requires Sorted(t) && x in multiset(t)
    ensures |t| > 0 && t[0] <= x
  {
    assert x in t;
  }

  /** Two sorted sequences holding the same elements are equal. */
  lemma {:induction false} SortedPermutationUnique(a: seq<int>, b: seq<int>)
    requires Sorted(a) && Sorted(b)
    requires multiset(a) == multiset(b)
    ensures a == b
  {
    if |a| == 0 {
      assert |multiset(b)| == 0;
    } else {
      assert a[0] in multiset(a);
      SortedHeadIsLeast(b, a[0]);
      assert b[0] in multiset(b);
      SortedHeadIsLeast(a, b[0]);
      assert a == [a[0]] + a[1..];
      assert b == [b[0]] + b[1..];
      assert a[0] == b[0];
      assert multiset(a[1..]) == multiset(a) - multiset{a[0]};
      assert multiset(b[1..]) == multiset(b) - multiset{b[0]};
      assert multiset(a[1..]) == multiset(b[1..]);
      SortedPermutationUnique(a[1..], b[1..]);
    }
  }

  /** Sorting depends only on which elements occur, not on their order. */
  lemma {:induction false} SortPermutation(s: seq<int>, t: seq<int>)
    requires multiset(s) == multiset(t)
    ensures Sort(s) == Sort(t)
  {
    SortedPermutationUnique(Sort(s), Sort(t));
  }

  /** A sequence that is already sorted is its own sort. */
  lemma {:induction false} SortOfSorted(t: seq<int>)
    requires Sorted(t)
    ensures Sort(t) == t
  {
    SortedPermutationUnique(Sort(t), t);
  }
}
