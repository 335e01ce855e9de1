# Panelist score statistics — verified model

The repository is a small reporting script for the "Wait Wait... Don't Tell Me!"
statistics database. It loads a configuration section chosen by the deployment
environment, fetches every qualifying panelist score (and the scores grouped with
their occurrence counts), computes summary statistics and prints two reports.

This project models the pure logic of that script in Dafny:

- **Stats** (`stats.dfy`): the integer fields of `calculate_stats` — `count`,
  `minimum`, `maximum`, `median` and `total` of a non-empty score list. The median
  follows numpy: sort, take the middle element, or for even length the average of
  the two middle elements converted by Python `int()`, which truncates toward zero
  (`TruncHalf`; Dafny's own `/` floors).
- **Sorting** (`sorting.dfy`): an insertion sort used as the reference ordering
  for the median, and the uniqueness of a sorted permutation, from which the
  order-independence of every statistic follows.
- **Config** (`config.dfy`): the section choice of `load_config`. The environment
  string is matched by prefix: "develop" first, then "prod", else "local". A
  missing selected section is a `Failure(MissingSection(key))`, never another
  section.
- **Repository** (`repository.dfy`): the row shaping after each query. An empty
  result set becomes `None`; otherwise the first column of each row (raw scores),
  or one `ScoreCount(score, count)` record per row (grouped scores), in row order.
  It also relates the two queries: ascending rows give an already-sorted score
  list, and a spread's counts add up to the number of raw scores.
- **Wrappers** (`wrappers.dfy`): `Option` for Python's `None` and `Result` for a
  raised exception.

The SQL runs in the database. The model's input is the sequence of rows that
`fetchall` returns, each row being the sequence of its column values.
`RetrieveAllScores` requires at least one column per row and `RetrieveGroupedScores`
at least two. The queries' SELECT lists guarantee this.

## Model

| member | source | states |
|---|---|---|
| Stats.Sum | app.py:74 | the total accumulated from the front equals the total accumulated from the back, one score at a time (`SumFromBack`) |
| Stats.Minimum | app.py:69 | the minimum is an element of the scores and no score is smaller |
| Stats.Maximum | app.py:70 | the maximum is an element of the scores and no score is larger |
| Stats.TruncHalf | app.py:72 | `int()` of half an integer: within one half of `x / 2`, rounded toward zero (never below `x / 2` for negative `x`, never above it for non-negative `x`) |
| Stats.MiddleOf | app.py:72 | the median read off a sorted list lies between its first and last element |
| Stats.Median | app.py:72 | the median lies between the minimum and the maximum, and for odd length it is one of the scores |
| Stats.CalculateStats | app.py:65-75 | count is the length; minimum and maximum are scores bounding every score; minimum <= median <= maximum; total is the sum |
| Stats.SumPermutation | app.py:74 | the total is the same for any permutation of the scores |
| Stats.MinimumIsSortedHead | app.py:69 | the minimum is the first element of every sorted arrangement of the scores |
| Stats.MaximumIsSortedLast | app.py:70 | the maximum is the last element of every sorted arrangement of the scores |
| Stats.MedianOfSortedPermutation | app.py:72 | for any sorted permutation t of the scores, the median is t's middle element (odd length) or the truncated average of t's two middle elements (even length) |
| Stats.MedianOfSorted | app.py:72 | on an already sorted list the median is read off the list as it stands |
| Stats.MedianPermutation | app.py:72 | the median is the same for any permutation of the scores |
| Stats.ExtremesPermutation | app.py:69-70 | minimum and maximum are the same for any permutation of the scores |
| Stats.CalculateStatsPermutation | app.py:65-75 | the whole integer summary is unchanged when the scores are permuted |
| Stats.SumBounds | app.py:74 | for scores within [lo, hi], the total lies between length * lo and length * hi |
| Stats.TotalBetweenExtremes | app.py:68-74 | count * minimum <= total <= count * maximum, with count the length, minimum, total and maximum as the summary computes them |
| Stats.WorkedExample | app.py:65-75 | scores 2, 4, 4, 6, 8 give count 5, minimum 2, maximum 8, median 4, total 24 |
| Stats.WorkedExamplePermuted | app.py:65-75 | scores 8, 4, 2, 6, 4 give the same summary as 2, 4, 4, 6, 8 |
| Sorting.Sort | app.py:72 | the result is sorted ascending and is a permutation of the input |
| Sorting.SortedPermutationUnique | app.py:72 | two sorted sequences with the same elements are equal |
| Sorting.SortPermutation | app.py:72 | permuting the input does not change the sorted result |
| Sorting.SortOfSorted | app.py:72 | an already sorted list is its own sorted permutation |
| Config.StartsWith | app.py:106-111 | `str.startswith`: holds exactly when the prefix is a prefix of the string in Dafny's sense, and then the string agrees with it character by character |
| Config.PrefixesExclusive | app.py:106-111 | no string starts with both "develop" and "prod" |
| Config.SelectSection | app.py:106-116 | development is selected exactly for strings starting with "develop", production exactly for strings starting with "prod", local exactly for the rest, so the order of the two checks does not matter |
| Config.Message | app.py:110-120 | the exception text is "Missing '", then the missing key, then "' section in config file" (so 33 characters longer than the key) |
| Config.MessageNamesKey | app.py:110-120 | two missing-section errors with the same text name the same key |
| Config.PrefixExtensions | app.py:106-111 | every string extending "develop" selects development; every string extending "prod" selects production |
| Config.SelectionExamples | app.py:106-120 | "development" and "develop-x" select development; "production" and "prod2" select production; "", "staging", "local" and "dev" select local |
| Config.LoadConfig | app.py:101-122 | success exactly when the selected section's key (`Key`: "development", "production" or "local", app.py:107, 112, 117) is present, returning that key's value; otherwise the missing-section error naming that key |
| Config.LoadConfigReadsOnlySelected | app.py:106-120 | two configurations that agree on the selected key give the same result, whatever their other sections hold |
| Repository.RetrieveAllScores | app.py:29-36 | None exactly for an empty result set; otherwise a list as long as the rows whose i-th score is the first column of the i-th row |
| Repository.RetrieveGroupedScores | app.py:53-63 | None exactly for an empty result set; otherwise one record per row, in order, with score = first column and count = second column |
| Repository.AscendingRowsGiveSortedStats | app.py:21-36 | the scores of rows ordered ascending are sorted; their minimum is the first score, the maximum the last, the median the middle of the list as returned |
| Repository.SpreadCountsSumToSize | app.py:43-63 | when the grouped rows are the spread of a multiset of scores (distinct scores, each with its number of occurrences, every score listed), the counts add up to the multiset's size |
| Repository.SpreadMatchesRawCount | app.py:21-63 | for a spread of the raw score list, the grouped counts add up to the number of raw scores |

## Left out

- `mean` and `standard_deviation` (app.py:71, 73): numpy floating-point arithmetic with `round(..., 4)`; floating point is not modelled.
- Stats.Median: models the median with exact integer arithmetic. numpy converts each middle score to 64-bit floating point before averaging, so the model differs only when a middle score, or the sum of the two middle scores, exceeds 2^53 in magnitude.
- Stats.CalculateStats: does not model numpy's 64-bit integer sum. Its total is the exact sum, which differs from numpy's only on overflow.
- The empty list: `calculate_stats` requires a non-empty list. The source has no guard, and `main` (app.py:130-131) passes the possibly-`None` result of `retrieve_all_scores` straight in, which raises. The model makes non-emptiness a precondition, and `RetrieveAllScores` returns `None` exactly when there are no rows.
- The SQL queries, the connection and the cursor (app.py:20-27, 42-51, 128) belong to an external database. Filtering, GROUP BY and ORDER BY happen there. The grouping and the ordering appear only as hypotheses of `AscendingRowsGiveSortedStats` and `SpreadCountsSumToSize`.
- The JSON file read in `load_config` (app.py:103-104) is file I/O. The model starts from the parsed top-level map, with section values of any type `T`.
- `print_stats` and `print_score_spread` (app.py:77-99) only format console output.
- `main`'s `os.getenv("APP_ENV", "local").strip().lower()` (app.py:126) is an environment read plus Unicode whitespace and case handling. The selection is stated over an already-normalised string, and `SelectionExamples` covers the default "local".
- Row width: a row shorter than the columns it is indexed at would raise `IndexError` in the source. The queries' SELECT lists rule this out, so the model states it as a precondition.
