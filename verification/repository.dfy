/** The row shaping of `retrieve_all_scores` and `retrieve_grouped_scores`.
    The SQL queries run in the database; here a result set is the sequence of
    rows the cursor's `fetchall` returned. */
module Repository {
  import opened Wrappers
  import opened Sorting
  import Stats

  /** One row of a result set: its column values in SELECT-list order. */
  type Row = seq<int>

  /** One line of the score spread: a score value and how often it occurs. */
  datatype ScoreCount = ScoreCount(score: int, count: int)

  /** Every row has at least `width` columns, as the query's SELECT list fixes. */
  ghost predicate HasWidth(rows: seq<Row>, width: nat)
  {
    forall i :: 0 <= i < |rows| ==> |rows[i]| >= width
  }

  /** `scores` lists the first column of `rows`, row by row. */
  ghost predicate IsFirstColumn(rows: seq<Row>, scores: seq<int>)
    requires HasWidth(rows, 1)
  {
    |scores| == |rows| && forall i :: 0 <= i < |rows| ==> scores[i] == rows[i][0]
  }

  /** `retrieve_all_scores` after the query: no rows gives None, otherwise
      the first column of every row, in the order the rows came. */
  method RetrieveAllScores(rows: seq<Row>) returns (r: Option<seq<int>>)
    requires HasWidth(rows, 1)
    ensures r.None? <==> |rows| == 0
    ensures r.Some? ==> |r.value| == |rows|
    ensures r.Some? ==> forall i :: 0 <= i < |rows| ==> r.value[i] == rows[i][0]
  {
    if |rows| == 0 {
      return None;
    }
    var scores: seq<int> := [];
    for k := 0 to |rows|
      invariant |scores| == k
      invariant forall i :: 0 <= i < k ==> scores[i] == rows[i][0]
    {
      scores := scores + [rows[k][0]];
    }
    return Some(scores);
  }

  /** `retrieve_grouped_scores` after the query: no rows gives None, otherwise
      one (score, count) record per row, in the order the rows came. */
  method RetrieveGroupedScores(rows: seq<Row>) returns (r: Option<seq<ScoreCount>>)
    requires HasWidth(rows, 2)
    ensures r.None? <==> |rows| == 0
    ensures r.Some? ==> |r.value| == |rows|
    ensures r.Some? ==> forall i :: 0 <= i < |rows| ==>
      r.value[i].score == rows[i][0] && r.value[i].count == rows[i][1]
  {
    if |rows| == 0 {
      return None;
    }
    var scores: seq<ScoreCount> := [];
    for k := 0 to |rows|
      invariant |scores| == k
      invariant forall i :: 0 <= i < k ==> scores[i] == ScoreCount(rows[i][0], rows[i][1])
    {
      scores := scores + [ScoreCount(rows[k][0], rows[k][1])];
    }
    return Some(scores);
  }

  /** Rows in ascending order of their first column (the query's ORDER BY). */
  ghost predicate AscendingByFirst(rows: seq<Row>)
    requires HasWidth(rows, 1)
  {
    forall i, j :: 0 <= i < j < |rows| ==> rows[i][0] <= rows[j][0]
  }

  /** Scores taken from ascending rows are already sorted, so the statistics
      can be read off directly: the first score is the minimum, the last the
      maximum, and the median is the middle of the list as it stands. */
  lemma {:induction false} AscendingRowsGiveSortedStats(rows: seq<Row>, scores: seq<int>)
    requires HasWidth(rows, 1) && AscendingByFirst(rows)
    requires IsFirstColumn(rows, scores) && |scores| > 0
    ensures Sorted(scores)
    ensures Stats.CalculateStats(scores).minimum == scores[0]
    ensures Stats.CalculateStats(scores).maximum == scores[|scores| - 1]
    ensures Stats.CalculateStats(scores).median == Stats.MiddleOf(scores)
  {
    assert Sorted(scores) by {
      forall i, j | 0 <= i < j < |scores|
        ensures scores[i] <= scores[j]
      {
        assert scores[i] == rows[i][0] && scores[j] == rows[j][0];
      }
    }
    SortOfSorted(scores);
    Stats.MinimumIsSortedHead(scores, scores);
    Stats.MaximumIsSortedLast(scores, scores);
  }

  /** Total of the count column of a score spread. */
  function CountTotal(entries: seq<ScoreCount>): int
  {
    if |entries| == 0 then 0 else entries[0].count + CountTotal(entries[1..])
  }

  /** `entries` is the grouping of the multiset `m` that the GROUP BY query
      returns: distinct scores, each with its number of occurrences in `m`,
      and every score of `m` listed. */
  ghost predicate IsSpreadOf(entries: seq<ScoreCount>, m: multiset<int>)
  {
    && (forall i, j :: 0 <= i < j < |entries| ==> entries[i].score != entries[j].score)
    && (forall i :: 0 <= i < |entries| ==> entries[i].count == m[entries[i].score])
    && (forall v :: v in m ==> exists i :: 0 <= i < |entries| && entries[i].score == v)
  }

  /** Dropping every copy of `x` from `m` removes `m[x]` elements. */
  lemma {:induction false} RemoveAllCopies(m: multiset<int>, x: int, k: nat)
    requires k <= m[x]
    ensures |m[x := k]| == |m[x := 0]| + k
    decreases k
  {
    if k > 0 {
      RemoveAllCopies(m, x, k - 1);
      assert m[x := k] == m[x := k - 1] + multiset{x};
    }
  }

  /** The counts of a spread add up to the number of scores it groups. */
  lemma {:induction false} SpreadCountsSumToSize(entries: seq<ScoreCount>, m: multiset<int>)
    requires IsSpreadOf(entries, m)
    ensures CountTotal(entries) == |m|
    decreases |entries|
  {
    if |entries| == 0 {
      if |m| > 0 {
        var v :| v in m;
        assert false;
      }
    } else {
      var x := entries[0].score;
      var m' := m[x := 0];
      var rest := entries[1..];
      assert IsSpreadOf(rest, m') by {
        forall i | 0 <= i < |rest|
          ensures rest[i].count == m'[rest[i].score]
        {
          assert rest[i] == entries[i + 1];
        }
        forall v | v in m'
          ensures exists i :: 0 <= i < |rest| && rest[i].score == v
        {
          var i :| 0 <= i < |entries| && entries[i].score == v;
          assert i != 0;
          assert rest[i - 1].score == v;
        }
      }
      SpreadCountsSumToSize(rest, m');
      RemoveAllCopies(m, x, m[x]);
      assert m[x := m[x]] == m;
    }
  }

  /** The grouped result and the raw result agree: for a spread of the raw
      scores, the counts add up to the number of raw scores. */
  lemma {:induction false} SpreadMatchesRawCount(entries: seq<ScoreCount>, scores: seq<int>)
    requires IsSpreadOf(entries, multiset(scores))
    ensures CountTotal(entries) == |scores|
  {
    SpreadCountsSumToSize(entries, multiset(scores));
  }
}
