# Ad-campaign aggregation and ranking, modelled in Dafny

This project models the core of an ad-performance report pipeline. The pipeline reads a CSV
of daily campaign rows and does two things with it:

- it aggregates the rows into one row per campaign, with summed measures, a row count and
  two derived ratios: CTR (click-through rate) and CPA (cost per acquisition);
- it produces two top-10 views: the highest CTR, and the lowest CPA among campaigns with
  conversions.

Before the scan, the input file is validated and its header is checked against the required
columns.

The project has six modules:

- `Wrappers` (`wrappers.dfy`): `Option` and `Result`.
- `Relations` (`relations.dfy`): total preorders and order-preserving maps, the properties
  of the comparison predicates that both sorts use.
- `Text` (`text.dfy`): code-point lexicographic order on strings, which is what Python's
  `sorted` uses on column names, and ASCII lower-casing.
- `Ranking` (`ranking.dfy`): the "sort, then `head(k)`" step that both rankers share. It is an
  insertion sort under a total preorder, with a top-k contract. It is proved to commute with
  any order-preserving map, which is how the final column `select` is related to the sort.
- `Reader` (`reader.dfy`):
  - `validate_file`, over a `FileInfo` record of file-system metadata;
  - the missing-column check and the sorted column projection of `load_csv_lazy`, over the
    header names;
  - `EXPECTED_COLUMNS`.
- `Aggregator` (`aggregator.dfy`):
  - `aggregate_campaigns`, as a left-to-right group-by over `seq<Row>` followed by the derived
    columns;
  - `get_total_row_count`;
  - `get_top10_ctr` and `get_top10_cpa`.

The group-by is checked against an independent reference. For each key `k`, the reference
value is `Sum(Matching(rows, k))`: the column sums over exactly the input rows with key `k`,
where a missing cell counts as 0, together with the number of those rows.

Where the documented behaviour and the code differ, the model follows the code:

- CTR is a true division of two integer sums. When the impression total is 0, the data-frame
  library produces +inf, -inf or NaN, not a missing value. The model's `Ratio` type has these
  three outcomes, and it ranks them the way the library sorts floats: -inf, then finite
  values, then +inf, then NaN. The CTR ranking therefore needs no precondition.
- A row whose `campaign_id` cell is empty is grouped under a null key of its own. This is why
  the key is an `Option<string>`.
- `get_top10_cpa` sorts a nullable column with nulls first. After the filter on
  `total_conversions > 0` no CPA is null, and `Aggregator.Top10CpaHasNoNull` proves this.

## Model

| member | source | states |
|---|---|---|
| Reader.ValidateFile | src/reader.py:41-55 | The checks run in order: exists, is a regular file, non-empty, suffix lower-cases to ".csv". Each error kind occurs exactly when every earlier check passes and its own check fails. A missing path is the not-found kind; the other three failures are the invalid-input kind. Success occurs exactly when all four checks pass, and it returns the same path. |
| Reader.SuffixTestIsCaseInsensitive | src/reader.py:52-53 | A suffix lower-cases to ".csv" exactly when it is a dot followed by c, s, v in either case. |
| Reader.ValidateFileExamples | tests/test_reader.py:12-28 | ".CSV" is accepted. An empty ".txt" file reports "empty", because size is checked before the suffix. A 12-byte ".txt" file reports the wrong suffix. A missing path reports not-found, whatever its other attributes. |
| Reader.SelectedColumnsAreSortedExpected | src/reader.py:9-16 | The projected column list has the same names as `EXPECTED_COLUMNS`, in sorted order, with no repeats. |
| Reader.SortedSetOrderIsUnique | src/reader.py:92 | Two sorted, repeat-free lists with the same names are equal, so sorting a set has exactly one outcome. |
| Reader.Absent | src/reader.py:84 | The missing names are exactly the required names absent from the header. They stay sorted and repeat-free when the required list is. |
| Reader.CheckColumns | src/reader.py:83-92 | The check fails exactly when a required column is absent from the header. On failure the error names exactly the missing columns, sorted and repeat-free, together with the header names as a sorted rearrangement. On success the projection is the six required names, sorted, and every one of them is in the header. |
| Reader.LoadCsvLazy | src/reader.py:74-94 | The load succeeds exactly when all file checks pass and every required column is present. Any file error is returned unchanged, before the header is looked at. The not-found error occurs exactly when the path is missing. An existing path that fails a file check gives an invalid-input error that is not a missing-column one. A missing-column error implies that the file checks passed and names exactly the absent columns. On success the projection is exactly the six required names in sorted order. |
| Reader.MissingColumnsExample | tests/test_reader.py:52-56 | The header `id,value` fails the check, and all six required names are reported missing, in sorted order. |
| Ranking.Insert | src/aggregator.py:75 | Inserting into a sorted list gives a sorted list that is the old list plus the element, as a multiset. |
| Ranking.SortBy | src/aggregator.py:75 | The result is a sorted permutation of the input. |
| Ranking.TopK | src/aggregator.py:75-76 | The result has min(k, n) elements and is sorted. It is a sub-multiset of the input. Every element left out comes no earlier than the last one kept. |
| Ranking.TopKCommutes | src/aggregator.py:73-86 | For an order-preserving map, mapping the top k gives the same result as taking the top k of the mapped list, so selecting columns after the sort equals ranking the selected rows. |
| Aggregator.Sum | src/aggregator.py:31-35 | The reference totals of a set of rows count exactly those rows. |
| Aggregator.Matching | src/aggregator.py:29 | The rows with key `k` are, as a multiset, exactly the input rows whose campaign_id is `k`. |
| Aggregator.Fold | src/aggregator.py:29-36 | Adding one row changes only its own key's totals, by that row's cells. Keys stay distinct, the group count grows only for a new key, and the counted rows grow by one. |
| Aggregator.GroupRows | src/aggregator.py:27-36 | The group-by keeps its keys distinct, and its row counts add up to the number of input rows. |
| Aggregator.GroupRowsGroups | src/aggregator.py:27-36 | The single pass yields distinct keys and one group per distinct campaign_id of the input. Each group's totals are the reference sums and row count over exactly the rows with its key. The row counts add up to the input length. |
| Aggregator.Divide | src/aggregator.py:38 | The quotient is finite exactly when the divisor is non-zero, and then quotient times divisor is the dividend. |
| Aggregator.Derive | src/aggregator.py:37-43 | Key and totals are carried over unchanged. CTR is finite exactly when impressions are non-zero, and then CTR times impressions equals clicks. CPA is null exactly when conversions are not positive, and otherwise CPA times conversions equals spend. |
| Aggregator.Aggregate | src/aggregator.py:10-47 | The table has distinct campaign ids and one row per distinct id of the input. Each row's totals and row count are the reference sums over exactly the input rows with its id. Each row's CTR and CPA agree with its totals as described for `Derive`. |
| Aggregator.TotalRowCount | src/aggregator.py:50-61 | The total is at least every row's count, and it is 0 exactly when every row's count is 0. |
| Aggregator.TotalRowCountIsInputLength | src/aggregator.py:50-61 | The row counts of the aggregated table sum to the number of input rows. |
| Aggregator.CtrIsAFraction | src/aggregator.py:38 | When clicks do not exceed a positive impression total, CTR is a finite value in [0, 1]. |
| Aggregator.SampleGroups | tests/conftest.py:12-17 | The four sample rows of CMP001 and CMP003 form two groups, in order of first appearance. CMP001 has 22000 impressions, 1100 clicks, 220.0 spend and 45 conversions over 2 rows. CMP003 has 31000, 620, 410.0 and 0 over 2 rows. |
| Aggregator.SampleAggregation | tests/test_aggregator.py:28-59 | CMP001 aggregates to 22000 impressions, 1100 clicks, 220.0 spend and 45 conversions, with CTR 0.05 and CPA 220/45. CMP003, which has no conversions, gets CTR 0.02 and a null CPA. |
| Aggregator.ProjectDropsOnlyRowCount | src/aggregator.py:77-85 | The column `select` of the rankers (also src/aggregator.py:105-113) drops the row count and nothing else: two aggregated rows project to the same output row exactly when they differ at most in their row counts. |
| Aggregator.RatioLe | src/aggregator.py:75 | The float order the CTR sort uses: -inf before everything, NaN after everything, finite values by value, finite values before +inf, and +inf before only +inf and NaN. |
| Aggregator.NullableLe | src/aggregator.py:103 | The CPA sort puts nulls first: a null comes before everything, nothing but a null comes before a null, and two values compare by value. |
| Aggregator.Top10Ctr | src/aggregator.py:64-86 | The result has min(10, table size) rows, drawn as a sub-multiset from the projected table with no filter. CTR is non-increasing. Every row left out has a CTR no higher than the last one kept. |
| Aggregator.Top10CtrKeepsSmallTables | tests/test_integration.py:29 | A table of at most ten campaigns is returned whole, as a multiset of projected rows. |
| Aggregator.Converting | src/aggregator.py:102 | The filter keeps exactly the rows with positive conversions, with their multiplicities. |
| Aggregator.Top10Cpa | src/aggregator.py:89-114 | Every row kept has positive conversions, and CPA is non-decreasing. There are min(10, number of converting rows) rows, drawn from the projected converting rows. Every converting row left out has a CPA no lower than the last one kept. |
| Aggregator.ConvertingRowsKept | src/aggregator.py:102 | Rows drawn from the filtered table have positive conversions and come from the table. |
| Aggregator.Top10CpaHasNoNull | src/aggregator.py:102-103 | If every row of a table with positive conversions has a CPA, its CPA ranking has no null CPA. This covers aggregated tables and tables whose ratios were rounded afterwards. |
| Aggregator.AggregatedCpaRanking | tests/test_integration.py:55-68 | In the CPA ranking of any aggregated input, every row has positive conversions and a non-null CPA. |

## Left out

- File-system access is not modelled. The existence, regular-file flag, size and suffix that `validate_file` queries arrive as a `FileInfo` record.
- Deriving the suffix from the path string is not modelled. The suffix is a field of `FileInfo`.
- The header that the CSV scan reports arrives as a list of names. The column names of a scanned schema are distinct, so a header with repeated names is not considered.
- CSV parsing is not modelled: type overrides, `ignore_errors`, and the lazy plan with its `collect` and internal parallelism. The scan result is a `seq<Row>` whose cells are `None` where a value was empty or failed to parse.
- Aggregator.Aggregate: Int64 overflow of the integer sums and Float64 rounding of spend, CTR and CPA are not modelled. Sums are unbounded integers and exact reals.
- Reader.IsCsvSuffix: lower-casing is ASCII only. Python's full Unicode `lower()` also maps a few non-ASCII characters onto ASCII letters, for example KELVIN SIGN to 'k', but none of them onto 'c', 's' or 'v', so the test is unaffected.
- Aggregator.Top10Ctr: does not fix the order among rows with equal CTR, which depends on the library's sort. The contract states sortedness, top-k and membership instead of one exact sequence. Aggregator.Top10Cpa is stated the same way.
- The group order of the aggregated table is not promised, because the library does not promise it either. The model builds groups in first-appearance order.
- Error messages are modelled as structured causes (`NotAFile`, `EmptyFile`, `WrongSuffix`, `MissingColumns`), not as formatted text.
- Aggregator.CtrIsAFraction: requires clicks between 0 and impressions. The source does not enforce this on its input; for other inputs only `Derive`'s contract holds.
- `get_file_size_mb` is a float conversion of a file-system query, so it is left out.
- `src/cli.py`, `src/benchmarker.py`, `src/writer.py` and the root `aggregator.py` are not part of this model. They handle command-line handling, timing, output files and the entry point.
