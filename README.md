# Sales ranking: incremental multi-year merge

This project models the table logic of a sales-ranking pipeline, and proves
properties of that model. The pipeline has four parts.

- `01_create_data.py` reads the year's sales CSV. It narrows the data to the
  configured columns and renames the four metrics (quantity, area, sales,
  gross profit) to year-prefixed names such as `2025売上`. It then sums them
  per corporation, per client and per client–product.
- `02_merge_past_data.py` merges the current tables with the previous
  years' tables. Each historical table gets a `_past` suffix and is fully
  joined to its current table. A reconciliation pass repairs the joined
  columns, then the shadows are dropped. After that come:
  - the corporation-master join and the product re-aggregation;
  - filling missing index codes from history;
  - the column reordering, the sort, and the code-to-text cast;
  - the total checks before and after the merge.
- `02_merge_past_data_2Q.py` is the quarterly variant, a `DataProcessor`
  class. Its suffixing marks every column, keys included. Its
  reconciliation lets the historical value overwrite the current one. It
  also:
  - zero-fills and filters empty rows;
  - compares per-year snapshots of the totals before and after the merge,
    and again at the end.
- `config.py` holds the fiscal-year rule and the file paths.

## How tables are modelled

- A table is a list of column names plus a list of rows.
- A row maps each column name to a cell: null, an integer or a text.
- `Tables.WellFormed` says the column names are distinct and that every
  row has exactly those columns.
- polars operations are modelled as total functions:
  - `select`, `rename`, `drop`, `with_columns`, `coalesce`;
  - full and left joins, `group_by().agg(sum)`, `unique`, `sort`, `filter`.
- Where polars raises an error, the function returns `None`.
- The yearly merge and the quarterly class share one reconciliation,
  `Reconcile.FixFullJoinNulls`. Its `Policy` parameter is:
  - `Protective` for the yearly script: a historical value only fills a
    null;
  - `Authoritative` for the quarterly class: the historical value wins.
- Loops that the scripts write out become methods with loop invariants,
  each proved equal to a specification function, for example:
  - the reconciliation loops;
  - the suffix-map loop;
  - the cast loop;
  - the snapshot loops of the quarterly class.
- The quarterly class is `QuarterProcessor.DataProcessor`. Its fields are
  the year labels fixed by its constructor.

## Model

Members without a contract of their own (the reference definitions such as
`QuarterLayout.ReorderColumns`, `QuarterLayout.KeepRow` and
`Integrity.IsConflict`) have no row: what they mean is stated by the
lemmas and methods that use them.

| member | source | states |
|---|---|---|
| Text.NatToString | 02_merge_past_data.py:333 | `str(n)` of a natural number is a non-empty digit string with no leading zero (except for 0) |
| Text.NatRoundTrip | 02_merge_past_data.py:333 | parsing the decimal form of a natural number gives the number back |
| Text.IntRoundTrip | 02_merge_past_data.py:699 | `int(str(i)) == i` for every integer, so `int(year)` reads back a year written by `str` |
| Text.IntToStringInjective | 02_merge_past_data.py:333 | different years get different labels |
| Text.DigitPrefixUnique | 02_merge_past_data.py:476 | two names made of a year label followed by the same kind of metric text are equal only when the years are |
| Text.RemoveMarkerFromSuffixed | 02_merge_past_data.py:480 | `replace('_past', '')` on `b + "_past"` gives `b` back when `b` holds no marker of its own |
| Text.EndsWithContains | 02_merge_past_data.py:476 | a name that ends with the marker contains it, so the shadow list only holds marked names |
| Config.GetFiscalYears | config.py:41-61 | from April on, the fiscal year is the base year; before April it is the year before; the previous year is one less |
| Config.ExcelOutputPath | config.py:63-73 | the output workbook is `EXCEL/累計/<term>_ランキング（得意先）.xlsx` under the base path |
| Config.PastExcelPath | config.py:76-87 | the previous year's workbook lies under `EXCEL/<last_year>/累計` |
| Config.PastExcelPathInsertsYear | config.py:76-87 | the previous year's path is the output path with the year folder inserted right after the Excel directory |
| Config.PastParquetDir | config.py:90-97 | the past-parquet directory is `PG/累計/昨年度データ/parquet` under the base path |
| Config.PastParquetPath | config.py:100-114 | the past parquet file lies directly in that directory and is named after the term and data type |
| Config.PastParquetPathIgnoresYear | config.py:100-114 | the path does not depend on `last_year` |
| Config.PastParquetPathInjective | config.py:100-114 | different data types get different files |
| Tables.Column | 02_merge_past_data.py:88 | the column's cells, one per row, in row order |
| Tables.Nulls | 02_merge_past_data.py:511 | `pl.lit(None)` is a column of nulls, one per row |
| Tables.Coalesce | 02_merge_past_data.py:630-635 | each cell is the first one that is not null, taken from the target and then from the helper, row by row |
| Tables.WithColumn | 02_merge_past_data.py:485-493 | an existing column is replaced in place and a new one is appended last; the other columns and the row count are kept |
| Tables.RemoveName | 02_merge_past_data.py:534-536 | the list without the name, in the same order, with no other change |
| Tables.DropColumn | 02_merge_past_data.py:534-536 | `drop(c)` removes exactly column `c`; every other cell stays where it was |
| Tables.Select | 02_merge_past_data.py:708-710 | `select(cols)` has exactly those columns in that order, and each row keeps its cells |
| Tables.Present | 02_merge_past_data.py:703-705 | the filter keeps exactly the listed names that are present |
| Tables.PresentFirst | 02_merge_past_data.py:925-928 | the first kept name is the first listed name that is present |
| Tables.PresentConcat | 02_merge_past_data.py:712-716 | filtering a concatenation filters each part |
| Tables.PresentAll | 02_merge_past_data.py:708-710 | filtering by a list that has every entry keeps the list as it is |
| Tables.PresentIdempotent | 02_merge_past_data.py:703-705 | filtering twice by the same list is the same as filtering once |
| Tables.PresentOrdered | 02_merge_past_data.py:708-710 | the filter keeps the order of the list it filters |
| Tables.SubsequenceSnoc | 02_merge_past_data_2Q.py:816-818 | appending an entry to a sequence keeps a subsequence one, with or without the entry appended to it too |
| Tables.SubsequenceRefl | 02_merge_past_data_2Q.py:824-827 | every sequence is a subsequence of itself |
| Tables.IndexOf | 02_merge_past_data.py:485-493 | the position of the first occurrence of the name |
| Tables.RenamedNames | 02_merge_past_data.py:415-418 | each column name is sent through the mapping, position by position |
| Tables.RenameRow | 02_merge_past_data.py:415-418 | a renamed row has exactly the new names |
| Tables.RenameRowCell | 02_merge_past_data.py:415-418 | the renamed row holds each old cell under its new name |
| Tables.Rename | 02_merge_past_data.py:415-418 | strict `rename` fails exactly when a source name is missing or the new names clash; otherwise each column carries its cells under its new name |
| Tables.RenamedTable | 02_merge_past_data.py:454-455 | the table with its columns renamed position by position keeps every cell and the row count |
| Tables.RenameDistinctIff | 02_merge_past_data.py:454-455 | with an injective mapping, the new names are distinct exactly when no kept column already has a name that the mapping gives |
| Tables.RenameOneDefined | 02_merge_past_data_2Q.py:583-590 | renaming a column to a name the table lacks always succeeds |
| Tables.RenameOneColumns | 02_merge_past_data_2Q.py:583-590 | that rename puts `dst` in place of `src` |
| Tables.RenameOneCells | 02_merge_past_data_2Q.py:583-590 | the renamed column carries the old cells |
| Tables.RenameOne | 02_merge_past_data_2Q.py:583-590 | the one-column rename is well formed, with `dst` in `src`'s place and the same cells |
| Tables.SumValuesUpdate | 02_merge_past_data.py:88 | replacing one cell changes the column sum by the difference |
| Tables.SumValuesAppend | 02_merge_past_data.py:88 | the sum over a concatenation is the sum of the parts |
| Joins.Missing | 02_merge_past_data.py:571 | the right table's columns that the left lacks, in the right table's order |
| Joins.JoinColumns | 02_merge_past_data.py:571 | the join output has the left columns, then the right-only columns, with no repeat |
| Joins.Matches | 02_merge_past_data.py:571 | the right rows that match a left row are those whose keys equal its non-null keys, in order |
| Joins.JoinRow | 02_merge_past_data.py:571 | an output row has exactly the output columns, each cell taken from the left side, else the right side, else null |
| Joins.LeftBlock | 02_merge_past_data.py:571 | a left row gives one output row per match, or one row with nulls when nothing matches |
| Joins.LeftPart | 02_merge_past_data.py:571 | the left part has at least one row per left row, all with the output columns |
| Joins.RightOnly | 02_merge_past_data.py:571 | each right row that no left row matches appears once, on its own |
| Joins.FullJoin | 02_merge_past_data.py:571 | `how="full"` fails exactly when the keys are unusable; otherwise it gives the left part followed by the unmatched right rows, well formed |
| Joins.InLeftBlock | 02_merge_past_data.py:571 | the block of a left row holds that row with each partner, or alone when it has none |
| Joins.InLeftPart | 02_merge_past_data.py:571 | every left row appears in the left part with each of its partners |
| Joins.LeftRowKept | 02_merge_past_data.py:571 | a full join keeps every left row: some output row holds all of its cells |
| Joins.RightRowKept | 02_merge_past_data.py:571 | a full join keeps every right row: some output row holds its cells in the columns the left lacks |
| Joins.LeftJoin | 02_merge_past_data.py:627 | `how="left"` is the left part of the full join alone |
| Joins.NoMatches | 02_merge_past_data.py:627 | a left row that nothing matches has no partner |
| Joins.MatchesAtMostOne | 02_merge_past_data.py:627 | a left row that no two right rows both match has at most one partner |
| Joins.LeftPartOneToOne | 02_merge_past_data.py:627 | when each left row has at most one partner, the left join keeps the rows one for one, in order, with their cells |
| Aggregation.KeyOf | 02_merge_past_data.py:661-667 | a row's key tuple lists its cells in the key columns, in order |
| Aggregation.OccursPointwise | 02_merge_past_data.py:661-667 | rows with the same key tuples at each position have the same key tuples overall |
| Aggregation.GroupKeys | 02_merge_past_data.py:661-667 | the distinct key tuples, each tuple exactly once, each one the key of some row |
| Aggregation.GroupRow | 02_merge_past_data.py:661-667 | a group's output row holds the group's keys and, in each summed column, the sum over the group |
| Aggregation.GroupRows | 02_merge_past_data.py:661-667 | there is one output row per group, in the same order |
| Aggregation.SumColumnsPresent | 02_merge_past_data.py:661-667 | the summed columns exist in the grouped table |
| Aggregation.GroupSum | 02_merge_past_data.py:661-667 | `group_by(keys).agg(sum)` fails exactly when a column is missing or an output name repeats; otherwise it has the keys and then the sums as columns |
| Aggregation.GroupSumKeys | 02_merge_past_data.py:661-667 | one output row per distinct key tuple of the input: output keys are pairwise different, and a tuple is an output key exactly when some input row has it |
| Aggregation.GroupTotalPointwise | 02_merge_past_data.py:661-667 | inputs that agree row by row on the key cells and the summed cell have the same group totals |
| Aggregation.GroupSumRowKey | 02_merge_past_data.py:661-667 | the key tuple of an output row is the group it stands for |
| Aggregation.SumOverStep | 02_merge_past_data.py:661-667 | adding a row raises the group totals of a list of distinct tuples by the row's amount when its key is among them |
| Aggregation.GroupTotalAbsent | 02_merge_past_data.py:661-667 | a tuple that no row carries has group total 0 |
| Aggregation.GroupTotalsConserve | 02_merge_past_data.py:661-667 | the group totals over all groups add up to the column total |
| Aggregation.SumOfTotals | 02_merge_past_data.py:661-667 | the summed column of the output adds up to the group totals |
| Aggregation.TotalIsColumnSum | 02_merge_past_data.py:88 | a column's `sum()` is the sum of its cells, row by row |
| Aggregation.GroupSumConserves | 02_merge_past_data.py:661-667 | grouping conserves totals: each summed column has the same total before and after |
| Aggregation.GroupingsAgree | 02_merge_past_data.py:173-194 | two groupings of the same rows by different keys agree on every summed column, which is the cross-dimension equality the consistency check expects |
| Reconcile.PastColumns | 02_merge_past_data.py:476 | the shadow list holds exactly the columns ending in `_past`, in table order |
| Reconcile.IdStep | 02_merge_past_data.py:480-493 | one identity step keeps the row count and every column |
| Reconcile.IdFold | 02_merge_past_data.py:479-493 | the identity loop over the shadows keeps the row count and every column |
| Reconcile.TaskColumns | 02_merge_past_data.py:496-531 | the columns written by the year–suffix combinations, in order |
| Reconcile.YearStep | 02_merge_past_data.py:496-531 | one combination adds at most its own column and keeps the row count |
| Reconcile.TaskColumnsInit | 02_merge_past_data.py:496-531 | the columns of every combination except the last, then the last one's |
| Reconcile.TaskFold | 02_merge_past_data.py:496-531 | the year loop adds exactly its combinations' columns and keeps the row count |
| Reconcile.SuffixTasks | 02_merge_past_data.py:503-505 | one year's combinations pair the year with each suffix, in order |
| Reconcile.YearTasks | 02_merge_past_data.py:496-503 | the loop visits, year by year, four suffixes for the current year and three for the others, and nothing else |
| Reconcile.YearTasksStep | 02_merge_past_data.py:496-503 | one more year appends that year's combinations |
| Reconcile.YearTasksDistinct | 02_merge_past_data.py:496-503 | with distinct years, each combination is visited once |
| Reconcile.DropAll | 02_merge_past_data.py:534-536 | dropping the shadows removes exactly those columns and keeps every other cell |
| Reconcile.FixSpec | 02_merge_past_data.py:462-537 | the reconciliation runs the identity columns, then the year columns, then drops the shadows found at the start |
| Reconcile.FillIdentityColumns | 02_merge_past_data.py:479-493 | the identity loop method computes the identity fold |
| Reconcile.FillYearColumn | 02_merge_past_data.py:503-530 | the year-loop body for one combination computes that combination's step |
| Reconcile.TaskFoldAppend | 02_merge_past_data.py:496-531 | folding two combination lists one after the other is folding their concatenation |
| Reconcile.FillYear | 02_merge_past_data.py:498-530 | the inner loop method computes the fold over one year's suffixes |
| Reconcile.FillYearColumns | 02_merge_past_data.py:496-531 | the year loop method computes the fold over every combination |
| Reconcile.DropShadows | 02_merge_past_data.py:534-536 | the final loop method drops exactly the shadows that are still present |
| Reconcile.FixFullJoinNulls | 02_merge_past_data.py:462-537 | the reconciliation method computes the reconciliation function, under either policy |
| ReconcileProperties.SameColumnTrans | 02_merge_past_data.py:462-537 | keeping a column unchanged across two steps keeps it across both |
| ReconcileProperties.DropAllFrame | 02_merge_past_data.py:534-536 | dropping shadows keeps every other column as it was |
| ReconcileProperties.MetricMentionsYear | 02_merge_past_data.py:483 | a metric column and its shadow both start with their year, so they count as year data |
| ReconcileProperties.MetricNotShadow | 02_merge_past_data.py:476 | no metric column ends with `_past` |
| ReconcileProperties.MetricInjective | 02_merge_past_data.py:504 | with digit-only year labels, a metric column name determines its year and suffix |
| ReconcileProperties.BaseNameIsStem | 02_merge_past_data.py:480 | for a marker-free name plus the marker, `replace('_past','')` cuts the marker off the end |
| ReconcileProperties.IdFoldFrame | 02_merge_past_data.py:479-493 | the identity loop writes only marker-free base names that mention no year |
| ReconcileProperties.IdStepFrame | 02_merge_past_data.py:479-493 | one identity step writes only its shadow's base name |
| ReconcileProperties.IdStepFill | 02_merge_past_data.py:484-493 | an identity step adds a missing base column from its shadow and otherwise fills only the nulls |
| ReconcileProperties.IdFoldIdentity | 02_merge_past_data.py:479-493 | after the identity loop, an identity column keeps its non-null cells and takes the shadow's cell elsewhere; the shadow itself is untouched |
| ReconcileProperties.YearStepFrame | 02_merge_past_data.py:503-530 | one combination writes only its own column |
| ReconcileProperties.YearStepCurrent | 02_merge_past_data.py:507-511 | a current-year combination keeps its column, or creates it all null |
| ReconcileProperties.TaskFoldFrame | 02_merge_past_data.py:496-531 | the year loop writes only its combinations' columns |
| ReconcileProperties.TaskFoldCurrent | 02_merge_past_data.py:507-511 | over the whole loop, a current-year column is kept when present and is all null when created |
| ReconcileProperties.PriorValueFrame | 02_merge_past_data.py:513-530 | the prior-year rule reads only the column and its shadow |
| ReconcileProperties.YearStepPrior | 02_merge_past_data.py:513-530 | a prior-year combination sets its column by the policy and leaves the shadow alone |
| ReconcileProperties.TaskFoldPrior | 02_merge_past_data.py:513-530 | over the whole loop, a visited prior-year column follows the policy, an unvisited one is unchanged, and the shadow is untouched |
| ReconcileProperties.YearStepPriorFacts | 02_merge_past_data.py:513-530 | one more combination keeps these facts, and marks the combination done when it is the one |
| ReconcileProperties.PriorValueSame | 02_merge_past_data.py:513-530 | tables that agree on a column and its shadow give the same prior value |
| ReconcileProperties.TaskYears | 02_merge_past_data.py:496 | every combination's year is one of the listed labels |
| ReconcileProperties.FixRemovesShadows | 02_merge_past_data.py:534-536 | no shadow column of the joined table survives the reconciliation |
| ReconcileProperties.FixKeepsOthers | 02_merge_past_data.py:462-537 | a column that is not a shadow and that no step writes passes through unchanged |
| ReconcileProperties.TaskFoldHas | 02_merge_past_data.py:496-531 | the year loop leaves every combination's column in place |
| ReconcileProperties.FixHasExpectedColumns | 02_merge_past_data.py:496-531 | afterwards every listed year has all its metric columns: four for the current year, three for the others |
| ReconcileProperties.YearLoopCurrent | 02_merge_past_data.py:507-511 | the whole loop keeps a current-year column, or creates it all null |
| ReconcileProperties.YearLoopPrior | 02_merge_past_data.py:513-530 | the whole loop sets a prior-year column by the policy |
| ReconcileProperties.FixCurrentYear | 02_merge_past_data.py:507-511 | current-year metrics never come from a shadow: a present column keeps every cell and a missing one is all null |
| ReconcileProperties.FixPriorYear | 02_merge_past_data.py:513-530 | a prior year's area, sales and profit follow the policy: with a shadow, Protective fills only nulls and Authoritative takes the shadow; without one, the shadow's null or the column as it was |
| ReconcileProperties.NoPriorQuantityTask | 02_merge_past_data.py:497-501 | no combination writes a prior year's quantity |
| ReconcileProperties.FixPriorQuantity | 02_merge_past_data.py:497-501 | a prior year's quantity is passed through as the join left it, and its shadow is dropped |
| ReconcileProperties.FixIdentity | 02_merge_past_data.py:479-493 | for column names where every `_past` name ends in the marker exactly once, an identity column keeps its non-null cells and takes the shadow's cell where it is null or missing, and the shadow is dropped |
| MergePast.YearsDescending | 02_merge_past_data.py:323-335 | the labels of the years from `end` down to `start`, one per year |
| MergePast.Reverse | 02_merge_past_data.py:334 | `list.reverse()` on an array leaves the array reversed in place |
| MergePast.GenerateYearsList | 02_merge_past_data.py:323-335 | the method returns the years from `end` down to `start` |
| MergePast.YearsDescendingParse | 02_merge_past_data.py:323-335 | every entry reads back by `int` as its year, so the list is strictly descending |
| MergePast.YearsDescendingDistinct | 02_merge_past_data.py:323-335 | no year appears twice |
| MergePast.YearsDescendingMembers | 02_merge_past_data.py:323-335 | a label is in the list exactly when its year lies between `start` and `end` |
| MergePast.YearsDescendingLabels | 02_merge_past_data.py:323-335 | every label is a digit string |
| MergePast.RenameClient | 02_merge_past_data.py:415-416 | the client table's 取引先コード/取引先名 become 得意先コード/得意先名, or fail when a source is missing or a target exists; cells move with their columns |
| MergePast.RenameProduct | 02_merge_past_data.py:417-418 | the product table's 得意先 becomes 得意先名, under the same rules |
| MergePast.RenameColumns | 02_merge_past_data.py:400-420 | when either table is empty both are returned unchanged; otherwise both renames, failing when either fails |
| MergePast.MarkedEndsWithT | 02_merge_past_data.py:440-444 | a name carrying the marker ends in its last letter |
| MergePast.ProtectedKeysUnmarked | 02_merge_past_data.py:440-444 | no protected name carries the marker |
| MergePast.SuffixMapRenames | 02_merge_past_data.py:446-452 | the mapping renames exactly the unprotected non-key columns, to names that are new unless a key column carries the marker |
| MergePast.SuffixSpec | 02_merge_past_data.py:422-460 | an empty table is returned as it is; otherwise each unprotected non-key column gets the marker, in place, with its cells |
| MergePast.AddPastSuffix | 02_merge_past_data.py:446-455 | the loop method builds the mapping and the rename, which gives the suffixed table |
| MergePast.ProductKeysOf | 02_merge_past_data.py:584-589 | the product join keys are exactly the listed keys both tables have, each once, in list order |
| MergePast.Unmarked | 02_merge_past_data.py:440-444 | names whose last letter differs from the marker's do not carry it |
| MergePast.JoinKeysUnmarked | 02_merge_past_data.py:579 | no join key carries the marker |
| MergePast.SuffixKeepsProtected | 02_merge_past_data.py:440-444 | a protected name is a column of the suffixed table exactly when it was one of the original |
| MergePast.Suffixed | 02_merge_past_data.py:566-568 | with unmarked keys, the suffixed historical table exists and keeps the keys |
| MergePast.JoinWithHistory | 02_merge_past_data.py:571-574 | suffix-then-full-join is defined exactly when there are keys and both tables have all of them |
| MergePast.JoinSpec | 02_merge_past_data.py:566-589 | each current table is fully joined with its suffixed history on its keys, the product table only when it has history and shared keys |
| MergePast.MergeSpec | 02_merge_past_data.py:539-600 | with no historical corporation rows the current tables are returned; otherwise the joined tables, reconciled under the protective policy |
| MergePast.ProductJoin | 02_merge_past_data.py:584-589 | the product table is joined on its shared keys when it has history and such keys, and is the current one otherwise |
| MergePast.JoinHistory | 02_merge_past_data.py:566-574 | the method for one suffix-then-join step computes that step |
| MergePast.JoinTables | 02_merge_past_data.py:566-579 | the method for the three joins computes them |
| MergePast.JoinProducts | 02_merge_past_data.py:584-589 | the product method joins only with history and shared keys |
| MergePast.MergeDataframes | 02_merge_past_data.py:539-600 | the merge method computes the merge function |
| MergePast.MergeProductFallback | 02_merge_past_data.py:584-597 | without product history or shared keys, the product table is the current one, reconciled on its own |
| MergePast.MergeHasExpectedColumns | 02_merge_past_data.py:595-597 | after a merge with history, every table has every metric column the year list calls for |
| MergePast.CoalesceDrop | 02_merge_past_data.py:630-633 | the target keeps its non-null cells and takes the helper's where it is null; the helper is gone and nothing else changes |
| MergePast.MergeMasterName | 02_merge_past_data.py:627-635 | after the master join, the current name wins and the master's name fills its nulls; with only one of the two names, that one is kept |
| MergePast.SumColumns | 02_merge_past_data.py:656-661 | the summed columns are exactly the numeric columns that are not group columns, in table order |
| MergePast.AggregateProductData | 02_merge_past_data.py:643-667 | without group or sum columns the table is returned as it is; otherwise it is grouped by the present product columns and summed, conserving each total |
| MergePast.YearCols | 02_merge_past_data.py:696-705 | the year columns mention a listed year, are not the previous year's quantity and are not base columns |
| MergePast.SafeSelect | 02_merge_past_data.py:708-710 | the requested columns the table has, in the requested order, or the table itself when it has none of them |
| MergePast.Reordered | 02_merge_past_data.py:707-716 | one table after `safe_select`: the base columns it has, in base order, then its year columns in its own order, or all its columns when it has none of these; every row and every kept cell is unchanged |
| MergePast.ReorderColumns | 02_merge_past_data.py:669-716 | fails exactly when `int(year)` fails; otherwise each table has its own base columns (lines 684-688) followed by its year columns, which mention a listed year, are not last year's quantity and are no table's base column (lines 696-705), and every row and kept cell is unchanged |
| MergePast.QuantityNotKey | 02_merge_past_data.py:684-688 | a year's quantity column is not a key name |
| ColumnTypes.OfKind | 02_merge_past_data.py:718-736 | the columns of one kind, in order |
| ColumnTypes.OfKindPartition | 02_merge_past_data.py:718-736 | the two kinds together account for every column exactly once |
| ColumnTypes.OfKindOrdered | 02_merge_past_data.py:718-736 | each kind keeps the column order |
| ColumnTypes.IdentifyColumnTypes | 02_merge_past_data.py:718-736 | the value columns are exactly those naming a sales pattern, and the index columns are the others, both in order |
| ColumnTypes.MetricIsValue | 02_merge_past_data.py:47 | every year-metric column is a value column |
| ColumnTypes.CastText | 02_merge_past_data.py:951 | `cast(pl.Utf8)` turns an integer into its decimal text and keeps text and null |
| ColumnTypes.CastTextIdempotent | 02_merge_past_data.py:951 | casting twice is casting once |
| ColumnTypes.CastTextInjective | 02_merge_past_data.py:951 | two non-text cells that cast to the same text were the same cell |
| ColumnTypes.CastColumn | 02_merge_past_data.py:950-955 | a present column is cast cell by cell; an absent one leaves the table unchanged |
| ColumnTypes.CastAll | 02_merge_past_data.py:949-955 | the loop over the code columns casts each in turn and keeps the columns and rows |
| ColumnTypes.CastAllCells | 02_merge_past_data.py:949-955 | after the loop, every listed column holds the cast of its old cells and every other cell is unchanged |
| ColumnTypes.ConvertDataTypes | 02_merge_past_data.py:937-957 | the conversion method casts the code columns of all three tables |
| ColumnTypes.ConvertedCodes | 02_merge_past_data.py:949-955 | after the conversion no code cell holds a number, and every other cell is as it was |
| ColumnTypes.ConvertIdempotent | 02_merge_past_data.py:949-955 | converting an already converted table changes nothing |
| CreateData.Metrics | 01_create_data.py:163-168 | the year's four metric names, each the year followed by its suffix |
| CreateData.MetricAliasRenamesMetrics | 01_create_data.py:163-168 | exactly the four raw metric columns are renamed, each to its year column; a non-empty year never leaves a metric name unchanged |
| CreateData.Aliases | 01_create_data.py:171-176 | each kept column gets its alias, in order |
| CreateData.AliasMap | 01_create_data.py:171-178 | the aliased table keeps every row with its cells under the new names |
| CreateData.SelectAliased | 01_create_data.py:66-68 | selecting and aliasing keeps each row's cells under the aliased names, in the given order |
| CreateData.ProcessData | 01_create_data.py:83-103 | one row per distinct group key (no two rows share a key, and every key of the input appears), with each row's four year metrics the sums over the input rows with its key; no metric total changes |
| CreateData.Update | 01_create_data.py:135-137 | the union of a list without repeats and a new list, without repeats |
| CreateData.AllColumns | 01_create_data.py:135-137 | every configured column, each exactly once |
| CreateData.KeptColumns | 01_create_data.py:171-176 | `selected_columns` keeps exactly the columns that are a raw metric or in `all_columns`, without repeats, in the narrowed table's order (a subsequence of it); that order follows `all_columns` (a Python set, here in order of first mention) |
| CreateData.DimensionColumns | 01_create_data.py:181-186 | a dimension's columns: the configured metrics by their year names, the other configured columns when present, in configuration order and without repeats |
| CreateData.DimensionHasMetrics | 01_create_data.py:181-186 | every metric the configuration lists is in the dimension's columns |
| CreateData.BuildDimension | 01_create_data.py:181-188 | one dimension is selected and grouped by its key: for a configuration of keys followed by the four raw metrics it succeeds exactly when the aliased table has the four year metrics and every key column; its key columns were present, it has one row per distinct key of the aliased table, each row's year metrics are the sums over the aliased table's rows with that key, and each metric keeps its total |
| CreateData.SumsPointwise | 01_create_data.py:96-101 | per-key sums carry over to a source that agrees row by row on the key and summed cells |
| CreateData.SelectedSums | 01_create_data.py:187-188 | per-key sums over the narrowed dimension table are per-key sums over the aliased table |
| CreateData.DimensionSpecConcat | 01_create_data.py:181-186 | the column loop over two configuration parts yields the two parts' columns one after the other |
| CreateData.DimensionSpecKeys | 01_create_data.py:185-186 | configured key columns are kept exactly when present, in configuration order |
| CreateData.DimensionSpecMetrics | 01_create_data.py:183-184 | the four raw metrics always become the four year columns, whether present or not |
| CreateData.CorporationConfig | 01_create_data.py:111-119 | the corporation configuration is its key column followed by the four raw metrics |
| CreateData.CustomerConfig | 01_create_data.py:111-119 | the client configuration is its two key columns followed by the four raw metrics |
| CreateData.ProductConfig | 01_create_data.py:111-119 | the client-product configuration is its six key columns followed by the four raw metrics |
| CreateData.KeyNotMetric | 01_create_data.py:163-168 | a key column is neither a raw metric nor a year column |
| CreateData.MetricsDistinct | 01_create_data.py:163-168 | the four year columns are four different names |
| CreateData.DimensionColumnsOf | 01_create_data.py:181-188 | a dimension's column list is its present keys followed by the year metrics: it never repeats a name, it is all in the table exactly when the four year metrics are, and it holds every key exactly when the table does |
| CreateData.DimensionSpecOfConfig | 01_create_data.py:181-186 | for a dimension's configuration the column list is the present keys followed by the four year metrics, and no key is a year metric |
| CreateData.SelectedMetricTotals | 01_create_data.py:181-188 | narrowing to a dimension's columns keeps every configured metric and its total |
| CreateData.SelectedKeys | 01_create_data.py:187-188 | narrowing to columns that include the keys keeps every row's key tuple |
| CreateData.ConfiguredCases | 01_create_data.py:111-119 | every configured column is one of the four raw metrics or one of the seven key columns |
| CreateData.KeyNameEnds | 01_create_data.py:163-168 | a key column is not renamed |
| CreateData.AliasEnds | 01_create_data.py:163-168 | each year column ends in its own character |
| CreateData.MetricAliasesDiffer | 01_create_data.py:163-168 | the four year columns are pairwise different |
| CreateData.MetricAliasNotKey | 01_create_data.py:163-168 | no year column is named like a key column |
| CreateData.LastCharsDiffer | 01_create_data.py:163-168 | a metric and another configured column never get the same alias |
| CreateData.AliasInjective | 01_create_data.py:163-176 | renaming never merges two configured columns |
| CreateData.AliasedFromCsv | 01_create_data.py:160-178 | after narrowing and aliasing, every kept column is a configured CSV column whose cells sit unchanged under its alias, and a configured column's alias is in the aliased table exactly when the column is in the CSV |
| CreateData.AliasedIff | 01_create_data.py:160-178 | a configured column's alias is in the aliased table exactly when the column is in the CSV |
| CreateData.ConfiguredNames | 01_create_data.py:111-119 | every raw metric and key column is configured for some dimension |
| CreateData.AliasesDiffer | 01_create_data.py:163-168 | two different configured columns get different names |
| CreateData.AliasesDistinct | 01_create_data.py:170-178 | aliasing distinct configured columns never yields a repeated name |
| CreateData.AliasedSucceeds | 01_create_data.py:170-178 | the aliasing select never fails on the narrowed CSV |
| CreateData.DimensionInputsOfCsv | 01_create_data.py:160-188 | the aliased table has a dimension's year metrics and keys exactly when the CSV has its raw metrics and keys |
| CreateData.KeysOfThree | 01_create_data.py:188-213 | the CSV has the three dimensions' keys exactly when it has each dimension's keys |
| CreateData.AliasedColumn | 01_create_data.py:160-178 | a configured column whose alias is in the aliased table was a CSV column, with the same cells |
| CreateData.MetricOfCsv | 01_create_data.py:160-178 | a year metric of the aliased table holds its raw CSV column's cells row by row, and so totals it |
| CreateData.KeysOfCsv | 01_create_data.py:160-178 | the aliased table has the CSV's key columns and the same key tuple in every row |
| CreateData.DimensionOfCsv | 01_create_data.py:181-213 | a grouped dimension has one row per distinct key tuple of the CSV, each row's year metrics are the CSV's raw metric sums over that key, and the totals are the CSV's |
| CreateData.SumsOfCsv | 01_create_data.py:160-188 | per-key sums over the aliased table are per-key sums of the CSV's raw metric columns |
| CreateData.CreateTables | 01_create_data.py:140-213 | it returns the three tables exactly when the CSV has the four raw metric columns and every key column (otherwise polars raises); then each has its keys and the four year metrics as columns, one row per distinct key tuple of the CSV, each row's year metric is the sum of the CSV's raw metric column over the CSV rows with that row's key, and each year metric totals the CSV's raw metric column, so the three tables agree |
| FillIndex.NamePairs | 02_merge_past_data.py:776 | the (name, code) pairs of the table, one per row, in order |
| FillIndex.UniqueFrom | 02_merge_past_data.py:776 | `.unique()` keeps each pair once, at its first appearance |
| FillIndex.NonNull | 02_merge_past_data.py:776 | `.drop_nulls()` keeps exactly the pairs with neither side null |
| FillIndex.FirstPerName | 02_merge_past_data.py:779-785 | `group_by(name).first()` keeps the first pair of each name, so no name has two codes |
| FillIndex.LookupFound | 02_merge_past_data.py:790-799 | a code found for a name is paired with it in the mapping |
| FillIndex.FirstPerNameLookup | 02_merge_past_data.py:779-785 | keeping the first pair per name does not change what a name looks up |
| FillIndex.Collapse | 02_merge_past_data.py:779-785 | the duplicate check collapses the mapping to the first pair per name |
| FillIndex.CollapseLookup | 02_merge_past_data.py:779-785 | collapsing keeps each name's first code |
| FillIndex.MapRows | 02_merge_past_data.py:790 | the mapping as a two-column table of name and helper |
| FillIndex.MappingTable | 02_merge_past_data.py:790 | the mapping table is well formed, with one row per pair |
| FillIndex.KeysMatchOne | 02_merge_past_data.py:790-799 | the single-key join matches a mapping row exactly when the row's non-null name equals it |
| FillIndex.PartnerLookup | 02_merge_past_data.py:790-799 | the partner of a row carries the code its name looks up |
| FillIndex.OnePartner | 02_merge_past_data.py:790-799 | with distinct names no row meets two mapping rows |
| FillIndex.RemoveLast | 02_merge_past_data.py:797-799 | removing a name that occurs once, at the end, gives the rest |
| FillIndex.MappingJoinColumns | 02_merge_past_data.py:790-799 | the joined table has the table's own columns, then the helper |
| FillIndex.Joined | 02_merge_past_data.py:790-799 | the left join with the renamed mapping is well formed, with the helper column added |
| FillIndex.JoinedRows | 02_merge_past_data.py:790-799 | with one code per name, the join pairs each row with its partner, one for one |
| FillIndex.JoinedCells | 02_merge_past_data.py:790-799 | with one code per name, each row stays where it is and gains the code its name looks up |
| FillIndex.FillCode | 02_merge_past_data.py:790-799 | join, coalesce and drop give a well-formed table with the original columns |
| FillIndex.FillCodeCells | 02_merge_past_data.py:797-799 | with one code per name, each row keeps its code when it has one and otherwise takes the code its name looks up |
| FillIndex.DedupRows | 02_merge_past_data.py:810-817 | `unique(subset)` keeps the first row of each (code, name) tuple, in order |
| FillIndex.DedupBy | 02_merge_past_data.py:810-817 | deduplicating keeps the columns and at most the rows |
| FillIndex.CorpMapping | 02_merge_past_data.py:776-785 | the corporation mapping holds distinct non-null pairs of the history, one per name |
| FillIndex.FillCorporation | 02_merge_past_data.py:756-820 | a non-empty table without the code column is an error; otherwise the fill applies when there are gaps and a mapping, and the dedup then removes nothing |
| FillIndex.FillCorporationCells | 02_merge_past_data.py:790-817 | the fill keeps every row in place and changes only null codes, each to the first historical code of the row's name |
| FillIndex.CorpMappingFromPast | 02_merge_past_data.py:776-785 | a code the fill writes is paired with the row's name in some history row and is that name's first non-null code there |
| FillIndex.FillClientAsWritten | 02_merge_past_data.py:824-851 | the client fill as written: failing as the source does, and otherwise joining with the uncollapsed mapping |
| FillIndex.ClientNamesDiffer | 02_merge_past_data.py:824-851 | the client column names are distinct strings |
| FillIndex.DuplicateExamplePairs | 02_merge_past_data.py:839 | both pairs of the example survive into the mapping |
| FillIndex.DuplicateExampleMatches | 02_merge_past_data.py:842-851 | the example row matches both mapping rows |
| FillIndex.JoinedIsLeftPart | 02_merge_past_data.py:842-851 | the joined rows are the left part of the join with the mapping rows |
| FillIndex.OneRowLeftPart | 02_merge_past_data.py:842-851 | a single row with matches gives one output row per match |
| FillIndex.DuplicateExampleJoined | 02_merge_past_data.py:842-851 | the example row joined with that mapping gives two rows |
| FillIndex.FillClientAsWrittenDuplicates | 02_merge_past_data.py:839-851 | a client name that the history pairs with two codes turns its one current row into two |
| FillIndex.FillClient | 02_merge_past_data.py:824-851 | the corrected client fill collapses the mapping to one code per name |
| FillIndex.FillClientCells | 02_merge_past_data.py:824-851 | the corrected client fill keeps every row in place; when it joins (rows on both sides, the name and code columns present, some row with a null code and a name), a null code becomes the first historical code of the row's name and every other cell stays; otherwise the table comes back unchanged |
| FillIndex.FillClientJoins | 02_merge_past_data.py:828-851 | when the client fill joins, it is the left join and coalesce with the mapping collapsed to one code per name |
| FillIndex.FillCollapsedCells | 02_merge_past_data.py:779-799 | joining a mapping collapsed to each name's first code keeps the rows one for one and changes only null codes, each to the first code paired with the row's name |
| FillIndex.ClientMappingFromPast | 02_merge_past_data.py:839 | a code the corrected client fill writes is paired with the row's name in some history row |
| FillIndex.FillMissingIndexColumns | 02_merge_past_data.py:738-877 | without historical corporation rows nothing changes; otherwise it succeeds exactly when both the corporation fill and the corrected client fill do, and returns their two tables with the product table untouched, keeping each table's columns and row count |
| Sorting.StrCmp | 02_merge_past_data.py:931 | code-point order on strings, a prefix first |
| Sorting.StrCmpAnti | 02_merge_past_data.py:931 | the string order is antisymmetric |
| Sorting.StrCmpTrans | 02_merge_past_data.py:931 | the string order is transitive |
| Sorting.ValCmp | 02_merge_past_data.py:906-908 | cells in ascending order: null, then numbers, then text |
| Sorting.Cmp | 02_merge_past_data.py:906-908 | one key compares nulls first in either direction, and otherwise ascending or descending |
| Sorting.CmpAnti | 02_merge_past_data.py:906-908 | the key order is antisymmetric |
| Sorting.ValCmpTrans | 02_merge_past_data.py:906-908 | the cell order is transitive |
| Sorting.CmpTrans | 02_merge_past_data.py:906-908 | the key order is transitive |
| Sorting.OfficeRank | 02_merge_past_data_2Q.py:695-707 | a listed office's place, 6 for any other office, and null for a null cell |
| Sorting.RowCmp | 02_merge_past_data.py:908 | rows compare key by key, and the first key that differs decides |
| Sorting.RowCmpAnti | 02_merge_past_data.py:908 | the row order is antisymmetric |
| Sorting.RowCmpTrans | 02_merge_past_data.py:908 | the row order is transitive |
| Sorting.RowCmpFirst | 02_merge_past_data.py:908 | a row that does not come after another is not after it on the first key either |
| Sorting.ConsSorted | 02_merge_past_data.py:906-908 | a row that precedes every row of a sorted list can go in front |
| Sorting.PrecedesAll | 02_merge_past_data.py:906-908 | a row that precedes the first row of a sorted list precedes them all |
| Sorting.Insert | 02_merge_past_data.py:906-908 | insertion adds exactly one copy of the row |
| Sorting.SortedTail | 02_merge_past_data.py:906-908 | the tail of a sorted list is sorted |
| Sorting.InsertSorted | 02_merge_past_data.py:906-908 | inserting into a sorted list keeps it sorted |
| Sorting.SortRows | 02_merge_past_data.py:906-908 | the sorted rows are a permutation of the input, and no row comes after a row it should follow |
| Sorting.SortTable | 02_merge_past_data.py:906-908 | sorting changes the order of the rows only: the same columns and the same multiset of rows |
| Sorting.SortedDescending | 02_merge_past_data.py:906 | sorted descending on a column, a null is never below a non-null and the numbers do not increase downwards |
| Sorting.SortedOffices | 02_merge_past_data_2Q.py:695-707 | on office rank, no unlisted office comes above a listed one, and the listed ones come in the list's order |
| MergeSort.FillZero | 02_merge_past_data.py:901-903 | `fill_null(0)` replaces exactly the nulls of the column by 0 |
| MergeSort.SalesColumns | 02_merge_past_data.py:925 | the sales column of each year, in order |
| MergeSort.SortDataframes | 02_merge_past_data.py:879-935 | fails exactly when a column the sort reads is missing; with current sales, each table is zero-filled and sorted on it (the product table then by office); otherwise the first present sales year and name keys; always a permutation |
| MergeSort.FallbackKeyIsFirstYear | 02_merge_past_data.py:925-928 | the fallback key is the first listed year that the corporation table has sales for |
| Integrity.ValidateDataTotals | 02_merge_past_data.py:72-101 | nothing for an empty table; otherwise the three totals of every corporation sales column that the other tables share |
| Integrity.DiffLevel | 02_merge_past_data.py:149-165 | above 1,000,000 yen a change is critical, above 100,000 a warning, and any other change minor |
| Integrity.Disagreements | 02_merge_past_data.py:173-194 | the three pairwise disagreements among one column's after-merge totals |
| Integrity.NoIssuesValid | 02_merge_past_data.py:133-200 | a column with no issues leaves `is_valid` set |
| Integrity.ColumnIssuesZero | 02_merge_past_data.py:133-200 | a column has no issues exactly when it survives the merge, changes only slightly and its totals agree |
| Integrity.CompareTotals | 02_merge_past_data.py:104-211 | false for empty snapshots; otherwise true exactly when every column keeps its promise, computed by the loop method |
| Integrity.WarningFails | 02_merge_past_data.py:157-163 | a critical or warning-level change anywhere makes the comparison fail |
| Integrity.SmallChangesPass | 02_merge_past_data.py:149-194 | changes of at most 100,000 yen per dimension, with agreeing totals after the merge, pass |
| Integrity.UnchangedTablesPass | 02_merge_past_data.py:104-211 | snapshots of the same unchanged tables whose dimensions agree pass |
| Integrity.CurrentYearData | 02_merge_past_data.py:237-245 | the current year's three totals, with a table lacking the column counting 0 |
| Integrity.PastData | 02_merge_past_data.py:252-263 | the history totals recorded for the visited sales columns that all three tables have |
| Integrity.Conflicts | 02_merge_past_data.py:270-281 | the conflicts appended for the visited columns, in order |
| Integrity.ConflictColumns | 02_merge_past_data.py:270-281 | the conflict columns are exactly the visited columns that are conflicts, in order |
| Integrity.ConflictFoundStep | 02_merge_past_data.py:270-281 | a conflict found among the first columns is still found after one more, and so is that column when it is a conflict |
| Integrity.ConflictsAtMostOne | 02_merge_past_data.py:270-281 | at most one conflict when the current year records only its own sales column |
| Integrity.PastSalesColumns | 02_merge_past_data.py:252-254 | the history's sales columns, in table order |
| Integrity.PastDataStep | 02_merge_past_data.py:255-263 | one more column adds its totals when all three history tables have it |
| Integrity.ConflictsStep | 02_merge_past_data.py:270-281 | one more column appends its conflict, if it is one |
| Integrity.PastScanStep | 02_merge_past_data.py:252-263 | one pass of the loop method updates the totals as the specification says |
| Integrity.ConflictScanStep | 02_merge_past_data.py:270-281 | one pass of the loop method updates the conflicts as the specification says |
| Integrity.ScanPast | 02_merge_past_data.py:252-281 | the history loop method computes the totals and conflicts of the specification |
| Integrity.ValidatePreMergeData | 02_merge_past_data.py:214-294 | the current totals, the history totals of every shared sales column, and one conflict per column whose corporation totals differ by more than 1,000 |
| Integrity.PreMergeConflicts | 02_merge_past_data.py:270-281 | at most one conflict, on the current sales column, flagged exactly when the history has that column in all three tables and it differs by more than 1,000 |
| Quarter.CalculateFiscalYears | 02_merge_past_data_2Q.py:32-42 | from April on, the calendar year; before April, the year before; the previous year is one less |
| Quarter.FiscalYearsAgree | 02_merge_past_data_2Q.py:32-42 | the quarterly computation agrees with `get_fiscal_years` in config.py |
| Quarter.RenamedBy | 02_merge_past_data_2Q.py:178-179 | a rename through a function is defined exactly when the new names stay distinct, and each cell moves with its column |
| Quarter.PastClientTable | 02_merge_past_data_2Q.py:170-180 | 取引先コード/取引先名 become 得意先コード/得意先名 where present, and fail on a name clash |
| Quarter.PastProductTable | 02_merge_past_data_2Q.py:183-191 | 得意先 becomes 得意先名 where present, and fails on a name clash |
| Quarter.PreprocessPastData | 02_merge_past_data_2Q.py:164-196 | both historical tables renamed, or failing when either fails |
| Quarter.ClientRenamesDistinct | 02_merge_past_data_2Q.py:170-180 | the client renames keep names distinct unless a new name is already a column |
| Quarter.ProductRenamesDistinct | 02_merge_past_data_2Q.py:183-191 | the product rename keeps names distinct unless 得意先名 is already a column |
| Quarter.PastNameInjective | 02_merge_past_data_2Q.py:501-503 | different names have different shadow names |
| Quarter.AllPastRename | 02_merge_past_data_2Q.py:501-505 | renaming every column to its shadow always succeeds |
| Quarter.AllSuffixed | 02_merge_past_data_2Q.py:496-507 | every column, keys included, carries the marker, in the same place, with the same cells |
| Quarter.AllSuffixedNames | 02_merge_past_data_2Q.py:496-507 | a name is a shadow column of the suffixed table exactly when it is the shadow of an original column |
| Quarter.PastNames | 02_merge_past_data_2Q.py:538-555 | `right_on` lists the keys' shadows, in order |
| Quarter.PastKeysPresent | 02_merge_past_data_2Q.py:538-555 | the shadow keys are all present exactly when the keys are all in the historical table |
| Quarter.JoinAllSuffixed | 02_merge_past_data_2Q.py:538-555 | the full join of the current table with the suffixed history, on the keys and their shadows |
| Quarter.MergeData | 02_merge_past_data_2Q.py:509-567 | each current table joined with its fully suffixed history, then reconciled under the authoritative policy; failing on a missing key |
| Quarter.MergeDataComplete | 02_merge_past_data_2Q.py:558-561 | after the merge, every table has every metric column the year list calls for, and no `_past` column of its joined table remains |
| Quarter.MergeOverwritesPriorYears | 02_merge_past_data_2Q.py:479-484 | a prior year's column is its shadow wherever the joined table has one, the historical value replacing the current one |
| Quarter.AddMasterName | 02_merge_past_data_2Q.py:587-590 | the current name keeps its non-null cells and takes the master's where null, and the helper column is dropped |
| Quarter.ProcessProductData | 02_merge_past_data_2Q.py:605-622 | the staff column is dropped, then there is one row per product key with every other column summed; failing on a missing key |
| Quarter.ProductTotals | 02_merge_past_data_2Q.py:613-620 | the product sums keep the total of every column except the keys and the staff column |
| Quarter.StaffDropped | 02_merge_past_data_2Q.py:610-611 | dropping the staff column keeps every other column |
| Quarter.ProductRowsUnique | 02_merge_past_data_2Q.py:613-620 | one row per product key that occurs in the input, and no key twice |
| Quarter.StaffDropKeepsKeys | 02_merge_past_data_2Q.py:610-611 | dropping the staff column keeps each row's product key |
| QuarterLayout.YearColumnsMembers | 02_merge_past_data_2Q.py:631-645 | a name is a yearly column exactly when it is a metric of a listed year with a suffix that year carries |
| QuarterLayout.YearColumnsDistinct | 02_merge_past_data_2Q.py:631-645 | with distinct year labels, no yearly column is visited twice |
| QuarterLayout.GenerateYearColumns | 02_merge_past_data_2Q.py:631-645 | exactly the yearly columns the table has, in visiting order |
| QuarterLayout.SuffixColumns | 02_merge_past_data_2Q.py:640-643 | the metric columns of one year, in suffix order |
| QuarterLayout.YearColumnsStep | 02_merge_past_data_2Q.py:633-643 | the loop visits the years in order, each over its suffixes |
| QuarterLayout.SuffixColumnsStep | 02_merge_past_data_2Q.py:640-643 | one more suffix appends its column |
| QuarterLayout.PresentSuffixStep | 02_merge_past_data_2Q.py:640-643 | one more metric adds its column when the table has it |
| QuarterLayout.MetricNotKey | 02_merge_past_data_2Q.py:646-658 | no metric column is a key name |
| QuarterLayout.BaseNotYearColumn | 02_merge_past_data_2Q.py:646-658 | no key column is a yearly column |
| QuarterLayout.BasesAreKeys | 02_merge_past_data_2Q.py:646-658 | the three key lists consist of key names |
| QuarterLayout.SelectExisting | 02_merge_past_data_2Q.py:648-660 | the listed columns the table has, in list order, with their cells, or an empty table when there are none |
| QuarterLayout.OrderedDistinct | 02_merge_past_data_2Q.py:646-658 | the keys followed by the yearly columns never repeat a name |
| QuarterLayout.ReorderTable | 02_merge_past_data_2Q.py:646-660 | one table's key columns, then its yearly columns in visiting order, with every other column dropped |
| QuarterLayout.MetricColumnsAreMetricLike | 02_merge_past_data_2Q.py:770 | every yearly column passes the name guard of the zero fill |
| QuarterLayout.FillMetrics | 02_merge_past_data_2Q.py:766-772 | the fill keeps the columns and row count |
| QuarterLayout.FillMetricsCells | 02_merge_past_data_2Q.py:766-772 | the fill turns exactly the null cells of the guarded listed columns into 0 and keeps every other cell |
| QuarterLayout.FillMetricStep | 02_merge_past_data_2Q.py:766-772 | filling one more listed column on top of the others |
| QuarterLayout.YearColumnsMetricLike | 02_merge_past_data_2Q.py:770 | every yearly column passes the guard |
| QuarterLayout.FillMetricsAll | 02_merge_past_data_2Q.py:766-772 | when every listed column passes the guard, each one's nulls become 0 |
| QuarterLayout.FillTable | 02_merge_past_data_2Q.py:752-782 | one table's fill over every yearly column it has |
| QuarterLayout.FixDataTypes | 02_merge_past_data_2Q.py:720-784 | each table keeps its columns and row count, and each cell is fixed: a code column's cell is cast to text, and a null in a yearly column becomes 0 |
| QuarterLayout.FixedOneCode | 02_merge_past_data_2Q.py:720-784 | casting one code column and then zero-filling fixes every cell of the table |
| QuarterLayout.FixedTwoCodes | 02_merge_past_data_2Q.py:720-784 | casting two code columns in turn and then zero-filling fixes every cell of the table |
| QuarterLayout.FillTableKeepsTotals | 02_merge_past_data_2Q.py:766-772 | replacing nulls by 0 keeps every column's total |
| QuarterLayout.ColumnSumPointwise | 02_merge_past_data_2Q.py:766-772 | rows whose cells in a column count the same add up the same |
| QuarterLayout.SortData | 02_merge_past_data_2Q.py:664-718 | with current sales in the first two tables, both are sorted on it, highest first, and otherwise left alone; the product table is always sorted by office, client name and tier |
| QuarterLayout.SortProducts | 02_merge_past_data_2Q.py:697-707 | the product table is sorted on the office keys, and the helper column is dropped |
| QuarterLayout.SortKeepsTotals | 02_merge_past_data_2Q.py:664-718 | sorting keeps every column's total |
| QuarterLayout.ColumnSumRemove | 02_merge_past_data_2Q.py:664-718 | the column sum without one row is the sum less that row's cell |
| QuarterLayout.PermutationHasColumn | 02_merge_past_data_2Q.py:664-718 | rows with the same multiset all have a column when one side does |
| QuarterLayout.RemoveMatching | 02_merge_past_data_2Q.py:664-718 | taking a row out of both of two equal multisets leaves equal multisets |
| QuarterLayout.ColumnSumPermutation | 02_merge_past_data_2Q.py:664-718 | rows that are a permutation of each other add up the same |
| QuarterLayout.KeptRows | 02_merge_past_data_2Q.py:816-818 | the rows with at least one non-zero, non-null listed cell: each such row as often as in the input and no other row, in input order (a subsequence) |
| QuarterLayout.CountsKeptSnoc | 02_merge_past_data_2Q.py:816-818 | filtering one more row keeps each row's count right |
| QuarterLayout.FilterTable | 02_merge_past_data_2Q.py:807-827 | a table with yearly columns keeps exactly its rows with a non-zero yearly cell, each as often as before, in their order; otherwise it is unchanged |
| QuarterLayout.FilterBy | 02_merge_past_data_2Q.py:816-818 | the filtered table keeps the columns and holds the kept rows |
| QuarterLayout.FilterZeroRows | 02_merge_past_data_2Q.py:786-829 | each table keeps its columns and its rows in order, and keeps exactly the rows with a non-zero yearly cell; a table without yearly columns is unchanged |
| QuarterLayout.FilterIdempotent | 02_merge_past_data_2Q.py:807-827 | filtering again removes nothing more |
| QuarterLayout.KeptAll | 02_merge_past_data_2Q.py:816-818 | when every row is kept, the filter returns the rows unchanged |
| QuarterLayout.KeptRowsSnoc | 02_merge_past_data_2Q.py:816-818 | one more row is kept when it has a non-zero cell |
| QuarterLayout.FilterKeepsTotals | 02_merge_past_data_2Q.py:807-827 | a dropped row has only zero or null yearly cells, so every yearly total is kept |
| QuarterLayout.DroppedRowCountsZero | 02_merge_past_data_2Q.py:816-818 | a dropped row counts 0 in every yearly column |
| QuarterLayout.KeptRowsSum | 02_merge_past_data_2Q.py:816-818 | the kept rows have the same listed-column totals as all the rows |
| QuarterLayout.KeptRowsHave | 02_merge_past_data_2Q.py:816-818 | the kept rows have every column the rows have |
| QuarterLayout.KeptRowsLast | 02_merge_past_data_2Q.py:816-818 | one more row adds its cell to the full sum, and to the kept sum when kept |
| QuarterChecks.KeyNameInjective | 02_merge_past_data_2Q.py:359 | `f"{data_type}{suffix}"` names determine the table and metric |
| QuarterChecks.DimListed | 02_merge_past_data_2Q.py:357 | every table kind is one of the three the loop visits |
| QuarterChecks.KeySet | 02_merge_past_data_2Q.py:357-359 | exactly the keys of the given metrics |
| QuarterChecks.YearEntry | 02_merge_past_data_2Q.py:220-234 | one year's figures: the total of every column the snapshot reads, under its key |
| QuarterChecks.CurrentValues | 02_merge_past_data_2Q.py:212-236 | every listed year's figures in the current tables, or nothing when they are absent |
| QuarterChecks.PastValues | 02_merge_past_data_2Q.py:238-260 | every prior listed year's area, sales and profit in the historical tables |
| QuarterChecks.CombinedEntry | 02_merge_past_data_2Q.py:262-289 | each key is taken from the current part when it has it, and from the past part otherwise |
| QuarterChecks.BeforeMerge | 02_merge_past_data_2Q.py:198-296 | the snapshot taken before the merge: the current, past and combined parts |
| QuarterChecks.BeforeMergeSource | 02_merge_past_data_2Q.py:262-289 | a combined figure comes from the current tables when they have the column, else from the history |
| QuarterChecks.AfterMerge | 02_merge_past_data_2Q.py:298-340 | for every listed year, the total of each metric column in each table that has it |
| QuarterChecks.SuffixKeys | 02_merge_past_data_2Q.py:358-363 | one table's keys: each metric, with the quantity only for the current year |
| QuarterChecks.DimKeys | 02_merge_past_data_2Q.py:357-363 | the keys of the given tables, in loop order |
| QuarterChecks.DimKeysAppend | 02_merge_past_data_2Q.py:357-363 | the keys of all tables but the last, then the last's |
| QuarterChecks.CompareKeys | 02_merge_past_data_2Q.py:357-363 | the keys compared for a year are exactly those whose metric that year carries |
| QuarterChecks.EntryDifferences | 02_merge_past_data_2Q.py:365-388 | over the keys in order, one difference for each key both sides hold with different figures |
| QuarterChecks.Differences | 02_merge_past_data_2Q.py:342-398 | sound and complete: a difference is reported exactly for each listed-year key both sides hold with different figures |
| QuarterChecks.DifferencesAppend | 02_merge_past_data_2Q.py:349-398 | the differences of the years before the last, then the last year's |
| QuarterChecks.EntryDifferencesConcat | 02_merge_past_data_2Q.py:357-388 | the differences over two key lists are those of each list, one after the other |
| QuarterChecks.EntryDifferencesSnoc | 02_merge_past_data_2Q.py:357-388 | the differences over a key list end with those of its last key |
| QuarterChecks.SuffixKeysStep | 02_merge_past_data_2Q.py:358-363 | the inner loop visits one metric more |
| QuarterChecks.CompareDimStep | 02_merge_past_data_2Q.py:358-388 | the differences of one more metric of a table |
| QuarterChecks.DimKeysStep | 02_merge_past_data_2Q.py:357 | the middle loop visits one table more |
| QuarterChecks.DifferencesStep | 02_merge_past_data_2Q.py:349 | the outer loop visits one year more |
| QuarterChecks.AgreeingEntries | 02_merge_past_data_2Q.py:365-388 | two entries that agree on every shared key differ nowhere |
| QuarterChecks.AgreeingSnapshots | 02_merge_past_data_2Q.py:342-398 | two snapshots that agree on every shared key produce no difference |
| QuarterChecks.Level | 02_merge_past_data_2Q.py:420-429 | high above 10 percent, medium above 5 percent and low otherwise; a difference from 0 is always low |
| QuarterChecks.LevelMonotone | 02_merge_past_data_2Q.py:420-429 | from the same starting value, a larger change is never rated lower |
| QuarterProcessor.DimTotal | 02_merge_past_data_2Q.py:222-234 | one `if` of the suffix loop: the metric's total under the table's key when the snapshot reads it there |
| QuarterProcessor.SuffixTotalsAt | 02_merge_past_data_2Q.py:222-234 | the three `if`s of one metric, read at one key |
| QuarterProcessor.SuffixTotals | 02_merge_past_data_2Q.py:222-234 | the three `if`s of one metric together |
| QuarterProcessor.ReadSuffix | 02_merge_past_data_2Q.py:220-234 | one pass of the suffix loop adds that metric's totals for the tables read |
| QuarterProcessor.CurrentPartIs | 02_merge_past_data_2Q.py:212-236 | a part read year by year is the snapshot's `current` part |
| QuarterProcessor.PastPartIs | 02_merge_past_data_2Q.py:238-260 | a part read year by year, skipping the current year, is the `past` part |
| QuarterProcessor.AllYearsIs | 02_merge_past_data_2Q.py:262-289 | the combined years, assembled one by one, are the `all_years` part |
| QuarterProcessor.DataProcessor.constructor | 02_merge_past_data_2Q.py:17-30 | the processing year follows the fiscal-year rule, and the year list runs from it down to 2015 |
| QuarterProcessor.DataProcessor.AddPastSuffix | 02_merge_past_data_2Q.py:496-507 | the loop builds the mapping and renames, which gives every column its shadow |
| QuarterProcessor.DataProcessor.FixFullJoinNulls | 02_merge_past_data_2Q.py:437-494 | the shared reconciliation under the authoritative policy |
| QuarterProcessor.DataProcessor.MergeData | 02_merge_past_data_2Q.py:509-567 | the method computes the merge function |
| QuarterProcessor.DataProcessor.PresentYearColumns | 02_merge_past_data_2Q.py:640-643 | one year's metric columns that the table has, in order |
| QuarterProcessor.DataProcessor.GenerateYearColumns | 02_merge_past_data_2Q.py:631-645 | the yearly columns the table has, in visiting order |
| QuarterProcessor.DataProcessor.AllYearColumns | 02_merge_past_data_2Q.py:795-805 | every yearly column, present or not, in visiting order |
| QuarterProcessor.DataProcessor.ReorderTable | 02_merge_past_data_2Q.py:646-660 | one table's keys, then its yearly columns |
| QuarterProcessor.DataProcessor.ReorderColumns | 02_merge_past_data_2Q.py:624-662 | the three tables reordered |
| QuarterProcessor.DataProcessor.FillYearColumns | 02_merge_past_data_2Q.py:752-782 | one pass of the fill loop: a table's yearly columns, zero-filled when there are any |
| QuarterProcessor.DataProcessor.FixDataTypes | 02_merge_past_data_2Q.py:720-784 | the method computes the type fix |
| QuarterProcessor.DataProcessor.FilterZeroRows | 02_merge_past_data_2Q.py:786-829 | the column list is built once, then each table is filtered by the columns it has |
| QuarterProcessor.DataProcessor.ReadEntry | 02_merge_past_data_2Q.py:220-234 | the suffix loop of one year computes that year's figures |
| QuarterProcessor.DataProcessor.CombineEntry | 02_merge_past_data_2Q.py:270-289 | the combining loop of one year computes the combined entry |
| QuarterProcessor.DataProcessor.ReadPart | 02_merge_past_data_2Q.py:212-260 | the year loop of one part computes the `current` or the `past` part |
| QuarterProcessor.DataProcessor.CombineYears | 02_merge_past_data_2Q.py:262-289 | the `all_years` loop computes the combined part |
| QuarterProcessor.DataProcessor.GetYearlyValuesBeforeMerge | 02_merge_past_data_2Q.py:198-296 | the method computes the before-merge snapshot, and absent tables leave their part empty |
| QuarterProcessor.DataProcessor.GetYearlyValuesAfterMerge | 02_merge_past_data_2Q.py:298-340 | the method computes the after-merge snapshot |
| QuarterProcessor.DataProcessor.CompareDim | 02_merge_past_data_2Q.py:358-388 | the metric loop computes one table's differences |
| QuarterProcessor.DataProcessor.CompareEntry | 02_merge_past_data_2Q.py:357-388 | the table loop computes one year's differences |
| QuarterProcessor.DataProcessor.CompareYearlyValues | 02_merge_past_data_2Q.py:342-398 | the method computes the sound and complete difference list |
| QuarterProcessor.DataProcessor.DifferenceLevels | 02_merge_past_data_2Q.py:411-431 | one level per difference, in order |
| QuarterPipeline.MasterSide | 02_merge_past_data_2Q.py:583-585 | after the suffix rule, the master's name column is called `法人名_master` when the table has its own name |
| QuarterPipeline.JoinMaster | 02_merge_past_data_2Q.py:583-585 | the left join with the master brings its name as `法人名_master`, or as `法人名` when the table has none |
| QuarterPipeline.AddMasterData | 02_merge_past_data_2Q.py:569-603 | the join and then the name coalesce; a missing master file leaves the table as it is |
| QuarterPipeline.KeepsTransitive | 02_merge_past_data_2Q.py:975-981 | keeping the yearly figures across two steps keeps them across both |
| QuarterPipeline.MetricIsNoHelper | 02_merge_past_data_2Q.py:704-707 | no yearly column is a name that the steps add, drop or cast |
| QuarterPipeline.SameCellsSameTotal | 02_merge_past_data_2Q.py:330 | two tables whose column holds the same cells have the same total |
| QuarterPipeline.LeftJoinKeepsRows | 02_merge_past_data_2Q.py:583-585 | a left join in which each row has at most one partner keeps the rows one for one, with their cells |
| QuarterPipeline.MasterPartnersOnce | 02_merge_past_data_2Q.py:583-585 | a master with unique codes partners each row at most once |
| QuarterPipeline.JoinMasterRows | 02_merge_past_data_2Q.py:583-585 | with unique master codes, the join keeps each row exactly once with its cells |
| QuarterPipeline.JoinMasterColumns | 02_merge_past_data_2Q.py:583-585 | the master join adds only the master's name column |
| QuarterPipeline.JoinKeeps | 02_merge_past_data_2Q.py:583-585 | the master join keeps every yearly figure |
| QuarterPipeline.CoalesceKeeps | 02_merge_past_data_2Q.py:587-590 | the name coalesce keeps every yearly figure |
| QuarterPipeline.MasterKeeps | 02_merge_past_data_2Q.py:569-603 | the master step keeps every yearly figure |
| QuarterPipeline.ProductKeeps | 02_merge_past_data_2Q.py:605-622 | the product aggregation keeps every yearly figure |
| QuarterPipeline.ReorderKeeps | 02_merge_past_data_2Q.py:624-662 | reordering keeps every yearly figure |
| QuarterPipeline.CastKeeps | 02_merge_past_data_2Q.py:729-749 | casting a code column keeps every yearly figure |
| QuarterPipeline.FillKeeps | 02_merge_past_data_2Q.py:752-782 | the zero fill keeps every yearly figure |
| QuarterPipeline.FilterKeeps | 02_merge_past_data_2Q.py:786-829 | the zero-row filter keeps every yearly figure |
| QuarterPipeline.SortKeeps | 02_merge_past_data_2Q.py:664-718 | sorting keeps every yearly figure |
| QuarterPipeline.FinishTables | 02_merge_past_data_2Q.py:936-968 | steps 5 to 10 of `run`, from the merged tables to the final ones |
| QuarterPipeline.ProductKeysSurvive | 02_merge_past_data_2Q.py:943-962 | the aggregated product table keeps its keys through the reorder and the casts, so the product sort finds them |
| QuarterPipeline.ReorderedProductKeys | 02_merge_past_data_2Q.py:658-660 | the product keys lead the table, so reordering keeps them |
| QuarterPipeline.NoOfficeOrderColumn | 02_merge_past_data_2Q.py:704-707 | the reordered product table has no sort helper column |
| QuarterPipeline.CorporationsKeep | 02_merge_past_data_2Q.py:936-968 | the corporation table keeps every yearly figure from the merge to the end |
| QuarterPipeline.ClientsKeep | 02_merge_past_data_2Q.py:950-968 | the client table keeps every yearly figure from the merge to the end |
| QuarterPipeline.ProductsKeep | 02_merge_past_data_2Q.py:943-968 | the product table keeps every yearly figure from the merge to the end |
| QuarterPipeline.FinishKeeps | 02_merge_past_data_2Q.py:936-968 | no step after the merge changes a yearly figure of any table |
| QuarterPipeline.SnapshotsAgree | 02_merge_past_data_2Q.py:975-981 | tables that keep each other's yearly figures give the same snapshot |
| QuarterPipeline.DimKeeps | 02_merge_past_data_2Q.py:975-981 | each dimension's table keeps its yearly figures |
| QuarterPipeline.FinalCheckClean | 02_merge_past_data_2Q.py:975-982 | the final cross-check of `run` reports no difference, provided the master lists each code at most once |

## Left out

- ReconcileProperties.FixIdentity: requires every column name that contains `_past` to end in it and hold it only once (`ShadowsWellNamed`). That is the shape the suffixing steps give, and then `replace('_past', '')` is removing the suffix. Names such as `a_past_past` or `a_pastx` are outside the promise.
- Reading and writing files is not modelled. This covers the parquet, CSV and Excel reads, `save_data` and the `load_*` methods. The tables they read are parameters.
- Logging, console output, timing, `MemoryManager` and the thread pools are left out. They do not change any table.
- `config.get_base_path` depends on the operating system, so the base path is a parameter. `ensure_directories` and `print_environment_info` are left out because they are I/O.
- The clock is a parameter: month and year are passed in.
- Floats are not modelled. Amounts are integers, and the relative levels compare by cross-multiplication instead of division. Casts to Float64 and Int64 therefore change nothing.
- MergePast.AggregateProductData: polars picks numeric columns by dtype; here the set of numeric columns is a parameter.
- Text cells count as 0 in a sum, where polars would raise an error.
- FillIndex.FillMissingIndexColumns: the product half of `fill_missing_index_columns` only logs, and its `df3_b` argument only feeds that logging. Both are left out.
- FillIndex.FillCorporation: the helper columns `_補完` are assumed absent from the input tables.
- `main` in `02_merge_past_data.py` calls `fill_missing_index_columns` with empty tables, so that step does nothing. The model proves the step on its own and its `main` is not modelled.
- `identify_column_types` results are only logged by the script. The function is modelled, but no later step uses it.
- Sorting.SortRows: sort stability is not claimed, since polars does not sort stably by default. Only sortedness and permutation are proved.
- The text of the warning messages is not modelled, only their levels (Integrity.DiffLevel, QuarterChecks.Level).
- The quarterly snapshots at the first two checkpoints of `run` are only logged, so they are left out.
- The quarterly `_add_past_suffix` takes a `key_columns` argument that every call leaves empty. The model takes it as a parameter.
- The master table is a parameter, and `None` stands for a missing file.
- QuarterChecks: snapshot keys are a datatype (table, metric), not a concatenated string. QuarterChecks.KeyNameInjective proves the two forms equivalent.
- QuarterPipeline.FinalCheckClean: assumes each master code appears at most once. Without that, the master join can duplicate rows and change the totals.
- QuarterPipeline.Run carries no contract of its own. Its properties are stated by QuarterPipeline.FinalCheckClean and QuarterPipeline.FinishKeeps.
- Joins.FullJoin: for `on=keys`, the model coalesces the shared key columns and every other column both sides have into one column. There are no `_right` columns, and a right-only row carries its own values there. polars' `how="full"` does not coalesce by default: it adds `<name>_right` columns and leaves the left copies null on right-only rows. The `left_on`/`right_on` joins of the quarterly merge use different key names and are not affected.
- Joins.FullJoin: the output order (left rows in order, then the unmatched right rows) is one that polars allows, but polars does not promise any order.
- MergePast.JoinWithHistory: the full joins at lines 571, 574 and 586 of `02_merge_past_data.py` are modelled with the coalescing join above, not with polars' `_right` columns.
- FillIndex.UniqueFrom: `.unique()` does not keep order in polars. The model keeps first appearances in order, which is one order polars allows.
- FillIndex.Collapse: `group_by("法人名").first()` keeps some code per name, and polars leaves open which row comes first. The model keeps the first pair of `.unique()`'s output, so "first code" in the fill lemmas means first in that order.
- FillIndex.DedupRows: `unique(subset=[...])` keeps an unspecified row of each tuple, in unspecified order. The model keeps the first row, in order. The dedup is never reached (FillIndex.FillCorporationCells), so this is not used by any result.
- MergePast.ReorderColumns: the model fails on any year that is not a number. The source evaluates `int(year)` only inside the `and` at line 699 of `02_merge_past_data.py`, so it raises only when some column mentions a listed year. The one caller (line 1032) passes the `year` of `config.get_fiscal_years`, which is `str` of an integer, so the two agree on that call. ParseInt accepts an optional minus sign and decimal digits, not the blanks, `+` or `_` that Python's `int` also accepts.
- The `03_*` transfer scripts are not part of this model.

## Findings

| source | as written | input that shows it | evidently intended | confidence | as-written member | corrected member |
|---|---|---|---|---|---|---|
| 02_merge_past_data.py:839-851 | The client mapping is the distinct non-null (得意先名, 得意先コード) pairs, with no check for a name paired with two codes, and it is left-joined on the name. | A current client row with name "A" and no code, and a history pairing "A" with two codes: the one row becomes two. | The corporation half's duplicate check (lines 779-785): keep the first code of each name, so the fill only changes null codes and keeps the rows one for one. | not executed | FillIndex.FillClientAsWritten, FillIndex.FillClientAsWrittenDuplicates | FillIndex.FillClient, FillIndex.FillClientCells |
