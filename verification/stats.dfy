/** The integer fields of `calculate_stats`: count, minimum, maximum, median
    and total of a non-empty list of panelist scores. */
module Stats {
  import opened Sorting

  /** The integer part of the statistics record the source builds. */
  datatype Summary = Summary(count: nat, minimum: int, maximum: int, median: int, total: int)

  /** The total accumulated from the back, one score at a time: the
      reference the front-first `Sum` is checked against. */
  ghost function SumFromBack(s: seq<int>): int
  {
    if |s| == 0 then 0 else SumFromBack(s[..|s| - 1]) + s[|s| - 1]
  }

  /** Accumulating from the back also peels off the first score. */
  lemma {:induction false} SumFromBackFront(s: seq<int>)
    requires |s| > 0
    ensures SumFromBack(s) == s[0] + SumFromBack(s[1..])
    decreases |s|
  {
    if |s| > 1 {
      var init := s[..|s| - 1];
      SumFromBackFront(init);
      assert init[1..] == s[1..][..|s| - 2];
    }
  }

  /** Sum of the scores (numpy.sum), accumulated from the front; the total
      is the same as accumulated from the back. */
  function Sum(s: seq<int>): (r: int)
    ensures r == SumFromBack(s)
  {
    if |s| == 0 then 0
    else
      SumFromBackFront(s);
      s[0] + Sum(s[1..])
  }

  /** The smallest score (numpy.amin). */
  function Minimum(s: seq<int>): (r: int)
    requires |s| > 0
    ensures r in s
    ensures forall i :: 0 <= i < |s| ==> r <= s[i]
  {
    if |s| == 1 then s[0]
    else
      var m := Minimum(s[1..]);
      if s[0] <= m then s[0] else m
  }

  /** The largest score (numpy.amax). */
  function Maximum(s: seq<int>): (r: int)
    requires |s| > 0
    ensures r in s
    ensures forall i :: 0 <= i < |s| ==> s[i] <= r
  {
    if |s| == 1 then s[0]
    else
      var m := Maximum(s[1..]);
      if s[0] >= m then s[0] else m
  }

  /** Python's `int(x / 2)`: half of `x`, truncated toward zero. Dafny's own
      `/` floors, which differs for odd negative `x`. */
  function TruncHalf(x: int): (r: int)
    ensures x - 1 <= 2 * r <= x + 1
    ensures x >= 0 ==> 0 <= 2 * r <= x
    ensures x < 0 ==> x <= 2 * r <= 0
  {
    if x >= 0 then x / 2 else -((-x) / 2)
  }

  /** The numpy median of an already sorted sequence, as an integer: the middle
      element for odd length, otherwise the truncated mean of the two middle ones. */
  function MiddleOf(t: seq<int>): (r: int)
    requires |t| > 0 && Sorted(t)
    ensures t[0] <= r <= t[|t| - 1]
  {
    var n := |t|;
    if n % 2 == 1 then t[n / 2] else TruncHalf(t[n / 2 - 1] + t[n / 2])
  }

  /** `int(numpy.median(s))`: the middle of the sorted scores. */
  function Median(s: seq<int>): (r: int)
    requires |s| > 0
    ensures Minimum(s) <= r <= Maximum(s)
    ensures |s| % 2 == 1 ==> r in s
  {
    var t := Sort(s);
    MinimumIsSortedHead(s, t);
    MaximumIsSortedLast(s, t);
    assert t[|t| / 2] in multiset(s);
    MiddleOf(t)
  }

  /** `calculate_stats` restricted to its integer fields. The source requires
      a non-empty list: numpy.amin raises on an empty one. */
  function CalculateStats(s: seq<int>): (r: Summary)
    requires |s| > 0
    ensures r.count == |s|
    ensures r.minimum in s && r.maximum in s
    ensures forall i :: 0 <= i < |s| ==> r.minimum <= s[i] <= r.maximum
    ensures r.minimum <= r.median <= r.maximum
    ensures r.total == Sum(s)
  {
    Summary(|s|, Minimum(s), Maximum(s), Median(s), Sum(s))
  }

  /** Removing the element at `i` takes exactly `t[i]` off the sum. */
  lemma {:induction false} SumRemove(t: seq<int>, i: int)
    requires 0 <= i < |t|
    ensures Sum(t) == t[i] + Sum(t[..i] + t[i + 1..])
  {
    if i == 0 {
      assert t[..0] + t[1..] == t[1..];
    } else {
      SumRemove(t[1..], i - 1);
      assert t[..i] + t[i + 1..] == [t[0]] + (t[1..][..i - 1] + t[1..][i..]);
    }
  }

  /** Removing the element at `i` removes one copy of it from the multiset. */
  lemma MultisetRemove(t: seq<int>, i: int)
    requires 0 <= i < |t|
    ensures multiset(t[..i] + t[i + 1..]) == multiset(t) - multiset{t[i]}
  {
    assert t == t[..i] + [t[i]] + t[i + 1..];
  }

  /** The total does not depend on the order of the scores. */
  lemma {:induction false} SumPermutation(s: seq<int>, t: seq<int>)
    requires multiset(s) == multiset(t)
    ensures Sum(s) == Sum(t)
  {
    if |s| == 0 {
      assert |multiset(t)| == 0;
    } else {
      assert s[0] in multiset(t);
      var i :| 0 <= i < |t| && t[i] == s[0];
      MultisetRemove(t, i);
      MultisetRemove(s, 0);
      assert s[..0] + s[1..] == s[1..];
      SumPermutation(s[1..], t[..i] + t[i + 1..]);
      SumRemove(t, i);
    }
  }

  /** The smallest score heads every sorted arrangement of the scores. */
  lemma {:induction false} MinimumIsSortedHead(s: seq<int>, t: seq<int>)
    requires |s| > 0 && Sorted(t) && multiset(t) == multiset(s)
    ensures |t| > 0 && Minimum(s) == t[0]
  {
    var lo := Minimum(s);
    assert lo in multiset(t);
    var j :| 0 <= j < |t| && t[j] == lo;
    assert t[0] in multiset(s);
    var j' :| 0 <= j' < |s| && s[j'] == t[0];
    assert t[0] <= t[j] && lo <= s[j'];
  }

  /** The largest score ends every sorted arrangement of the scores. */
  lemma {:induction false} MaximumIsSortedLast(s: seq<int>, t: seq<int>)
    requires |s| > 0 && Sorted(t) && multiset(t) == multiset(s)
    ensures |t| > 0 && Maximum(s) == t[|t| - 1]
  {
    var hi := Maximum(s);
    assert hi in multiset(t);
    var k :| 0 <= k < |t| && t[k] == hi;
    assert t[|t| - 1] in multiset(s);
    var k' :| 0 <= k' < |s| && s[k'] == t[|t| - 1];
    assert t[k] <= t[|t| - 1] && s[k'] <= hi;
  }

  /** The median is read off ANY sorted arrangement of the scores: its middle
      element for odd length, the truncated mean of its two middle elements
      for even length. */
  lemma {:induction false} MedianOfSortedPermutation(s: seq<int>, t: seq<int>)
    requires |s| > 0
    requires Sorted(t) && multiset(t) == multiset(s)
    ensures |t| == |s|
    ensures |s| % 2 == 1 ==> Median(s) == t[|t| / 2]
    ensures |s| % 2 == 0 ==> Median(s) == TruncHalf(t[|t| / 2 - 1] + t[|t| / 2])
  {
    SortedPermutationUnique(Sort(s), t);
  }

  /** The median does not depend on the order of the scores. */
  lemma {:induction false} MedianPermutation(s: seq<int>, t: seq<int>)
    requires |s| > 0 && |t| > 0
    requires multiset(s) == multiset(t)
    ensures Median(s) == Median(t)
  {
    SortPermutation(s, t);
  }

  /** Minimum and maximum do not depend on the order of the scores. */
  lemma {:induction false} ExtremesPermutation(s: seq<int>, t: seq<int>)
    requires |s| > 0 && |t| > 0
    requires multiset(s) == multiset(t)
    ensures Minimum(s) == Minimum(t) && Maximum(s) == Maximum(t)
  {
    var lo, hi := Minimum(s), Maximum(s);
    var lo', hi' := Minimum(t), Maximum(t);
    assert lo in multiset(t) && hi in multiset(t);
    assert lo' in multiset(s) && hi' in multiset(s);
    var i :| 0 <= i < |t| && t[i] == lo;
    var j :| 0 <= j < |t| && t[j] == hi;
    var i' :| 0 <= i' < |s| && s[i'] == lo';
    var j' :| 0 <= j' < |s| && s[j'] == hi';
    assert lo' <= t[i] && t[j] <= hi' && lo <= s[i'] && s[j'] <= hi;
  }

  /** Every field of the summary is unchanged when the scores are permuted. */
  lemma {:induction false} CalculateStatsPermutation(s: seq<int>, t: seq<int>)
    requires |s| > 0
    requires multiset(s) == multiset(t)
    ensures |t| > 0
    ensures CalculateStats(s) == CalculateStats(t)
  {
    assert |s| == |t| by {
      assert |s| == |multiset(s)| && |t| == |multiset(t)|;
    }
    MedianPermutation(s, t);
    ExtremesPermutation(s, t);
    SumPermutation(s, t);
  }

  /** The total lies between count times the minimum and count times the maximum. */
  lemma {:induction false} SumBounds(s: seq<int>, lo: int, hi: int)
    requires forall i :: 0 <= i < |s| ==> lo <= s[i] <= hi
    ensures |s| * lo <= Sum(s) <= |s| * hi
  {
    if |s| > 0 {
      SumBounds(s[1..], lo, hi);
      assert |s| * lo == lo + (|s| - 1) * lo;
      assert |s| * hi == hi + (|s| - 1) * hi;
    }
  }

  /** The summary's total is bounded by its count and extremes. */
  lemma {:induction false} TotalBetweenExtremes(s: seq<int>)
    requires |s| > 0
    ensures |s| * Minimum(s) <= Sum(s) <= |s| * Maximum(s)
  {
    SumBounds(s, Minimum(s), Maximum(s));
  }

  /** A sorted sequence's median is its own middle. */
  lemma {:induction false} MedianOfSorted(t: seq<int>)
    requires |t| > 0 && Sorted(t)
    ensures Median(t) == MiddleOf(t)
  {
    MedianOfSortedPermutation(t, t);
  }

  /** The worked example: scores 2, 4, 4, 6, 8 give count 5, minimum 2,
      maximum 8, median 4 and total 24. The scores come in as a parameter
      fixed by the precondition rather than as a literal argument, because
      Dafny unfolds the recursive Sort without bound on a literal sequence. */
  lemma WorkedExample(s: seq<int>)
    requires s == [2, 4, 4, 6, 8]
    ensures CalculateStats(s) == Summary(5, 2, 8, 4, 24)
  {
    assert Sorted(s) by {
      assert forall i, j :: 0 <= i < j < 5 ==> s[i] <= s[j];
    }
    MedianOfSorted(s);
    assert Minimum(s) <= s[0];
    assert Maximum(s) >= s[4];
    assert Sum(s[4..]) == 8;
    assert Sum(s[3..]) == 14;
    assert Sum(s[2..]) == 18;
    assert Sum(s[1..]) == 22;
  }

  /** The same scores in another order give the same summary (a parameter
      again, for the same reason). */
  lemma WorkedExamplePermuted(s: seq<int>)
    requires s == [8, 4, 2, 6, 4]
    ensures CalculateStats(s) == Summary(5, 2, 8, 4, 24)
  {
    var t := [2, 4, 4, 6, 8];
    assert s == [t[4], t[1], t[0], t[3], t[2]];
    assert multiset(s) == multiset(t);
    CalculateStatsPermutation(t, s);
    WorkedExample(t);
  }
}
