/** The finishing steps of the second-quarter script
    (`02_merge_past_data_2Q.py`) after the merge: the column order, the
    code casts and the zero fill, the sort with the custom office order and
    the filter of rows whose yearly figures are all zero. Each step keeps
    every yearly total, which is what the script's last comparison checks. */
module QuarterLayout {

  import opened Wrappers
  import opened Text
  import opened Tables
  import opened Aggregation
  import opened Reconcile
  import opened ReconcileProperties
  import opened Sorting
  import ColumnTypes
  import MergeSort
  import Quarter

  // ----- the yearly columns -----

  /** The metric columns the year loops visit, in visiting order: for each
      year of the list, the quantity (current year only), area, sales and
      gross profit. */
  function YearColumns(years: seq<string>, current: string): seq<string> {
    TaskColumns(YearTasks(years, current))
  }

  /** A name is a yearly column exactly when it is a metric column of a
      listed year with a suffix that year carries. */
  lemma YearColumnsMembers(years: seq<string>, current: string, c: string)
    ensures c in YearColumns(years, current) <==>
      exists y, s :: y in years && s in SuffixesFor(y, current) && c == MetricColumn(y, s)
  {
    var tasks := YearTasks(years, current);
    var cols := YearColumns(years, current);
    if c in cols {
      var k :| 0 <= k < |cols| && cols[k] == c;
      assert tasks[k] in tasks;
      assert c == MetricColumn(tasks[k].0, tasks[k].1);
    }
    if exists y, s :: y in years && s in SuffixesFor(y, current) && c == MetricColumn(y, s) {
      var y, s :| y in years && s in SuffixesFor(y, current) && c == MetricColumn(y, s);
      assert (y, s) in tasks;
      var k :| 0 <= k < |tasks| && tasks[k] == (y, s);
      assert cols[k] == c;
    }
  }

  /** With distinct year labels no yearly column is visited twice. */
  lemma YearColumnsDistinct(years: seq<string>, current: string)
    requires YearLabels(years) && Distinct(years)
    ensures Distinct(YearColumns(years, current))
  {
    var tasks := YearTasks(years, current);
    var cols := YearColumns(years, current);
    YearTasksDistinct(years, current);
    forall i, j | 0 <= i < j < |cols| ensures cols[i] != cols[j] {
      assert tasks[i] in tasks && tasks[j] in tasks;
      if cols[i] == cols[j] {
        MetricInjective(tasks[i].0, tasks[i].1, tasks[j].0, tasks[j].1);
      }
    }
  }

  /** `generate_year_columns(df)`: the yearly columns the table has, in
      visiting order. */
  function GenerateYearColumns(cols: seq<string>, years: seq<string>, current: string): (r: seq<string>)
    ensures forall c :: c in r <==> c in cols && c in YearColumns(years, current)
  {
    Present(YearColumns(years, current), cols)
  }

  /** The metric columns of year `y` over `ss`, in order. */
  function SuffixColumns(y: string, ss: seq<Suffix>): (r: seq<string>)
    ensures |r| == |ss| && forall k :: 0 <= k < |ss| ==> r[k] == MetricColumn(y, ss[k])
  {
    seq(|ss|, k requires 0 <= k < |ss| => MetricColumn(y, ss[k]))
  }

  /** The year loop visits the years in order, each over its suffixes. */
  lemma YearColumnsStep(years: seq<string>, current: string, i: nat)
    requires i < |years|
    ensures YearColumns(years[..i + 1], current) ==
      YearColumns(years[..i], current) + SuffixColumns(years[i], SuffixesFor(years[i], current))
  {
    assert years[..i + 1][..i] == years[..i];
    var a := YearTasks(years[..i], current);
    var b := SuffixTasks(years[i], SuffixesFor(years[i], current));
    assert TaskColumns(a + b) == TaskColumns(a) + TaskColumns(b);
  }

  lemma SuffixColumnsStep(y: string, ss: seq<Suffix>, k: nat)
    requires k < |ss|
    ensures SuffixColumns(y, ss[..k + 1]) == SuffixColumns(y, ss[..k]) + [MetricColumn(y, ss[k])]
  {
  }

  /** One more metric of year `y` adds its column when `cols` has it. */
  lemma PresentSuffixStep(y: string, ss: seq<Suffix>, k: nat, cols: seq<string>)
    requires k < |ss|
    ensures var c := MetricColumn(y, ss[k]);
      Present(SuffixColumns(y, ss[..k + 1]), cols) == Present(SuffixColumns(y, ss[..k]), cols) + (if c in cols then [c] else [])
  {
    var c := MetricColumn(y, ss[k]);
    SuffixColumnsStep(y, ss, k);
    PresentConcat(SuffixColumns(y, ss[..k]), [c], cols);
    assert Present([c], cols) == if c in cols then [c] else [];
  }

  // ----- reorder_columns -----

  const CorporationBase: seq<string> := ["法人コード", "法人名"]
  const ClientBase: seq<string> := ["得意先コード", "得意先名"]

  /** The last character of a metric column is that of its suffix, which
      no key name ends with. */
  lemma MetricNotKey(y: string, s: Suffix, k: string)
    requires k in CorporationBase + ClientBase + Quarter.ProductKeys
    ensures MetricColumn(y, s) != k
  {
    var c := MetricColumn(y, s);
    assert c[|c| - 1] == SuffixName(s)[|SuffixName(s)| - 1];
    assert c[|c| - 1] in {'数', '㎡', '上', '利'};
    assert k in CorporationBase || k in ClientBase || k in Quarter.ProductKeys;
    assert k[|k| - 1] in {'ド', '名', '層'};
  }

  lemma BaseNotYearColumn(base: seq<string>, years: seq<string>, current: string)
    requires forall k :: k in base ==> k in CorporationBase + ClientBase + Quarter.ProductKeys
    ensures forall c :: c in base ==> c !in YearColumns(years, current)
  {
    forall c | c in base && c in YearColumns(years, current) ensures false {
      YearColumnsMembers(years, current, c);
      var y, s :| y in years && s in SuffixesFor(y, current) && c == MetricColumn(y, s);
      MetricNotKey(y, s, c);
    }
  }

  /** The key lists of the three tables are key columns. */
  lemma BasesAreKeys()
    ensures Distinct(CorporationBase) && Distinct(ClientBase) && Distinct(Quarter.ProductKeys)
    ensures forall k :: k in CorporationBase ==> k in CorporationBase + ClientBase + Quarter.ProductKeys
    ensures forall k :: k in ClientBase ==> k in CorporationBase + ClientBase + Quarter.ProductKeys
    ensures forall k :: k in Quarter.ProductKeys ==> k in CorporationBase + ClientBase + Quarter.ProductKeys
  {
  }

  /** `df.select([c for c in ordered if c in df.columns])`; polars gives an
      empty frame when none of them is present. */
  function SelectExisting(t: Table, ordered: seq<string>): (r: Table)
    requires WellFormed(t) && Distinct(ordered)
    ensures WellFormed(r) && r.columns == Present(ordered, t.columns)
    ensures |r.columns| > 0 ==> (|r.rows| == |t.rows| &&
      forall i, c :: 0 <= i < |t.rows| && c in r.columns ==> r.rows[i][c] == t.rows[i][c])
    ensures |r.columns| == 0 ==> |r.rows| == 0
  {
    var existing := Present(ordered, t.columns);
    NamesSubset(existing, t.columns);
    if |existing| == 0 then Table([], []) else Select(t, existing)
  }

  /** The keys and the generated yearly columns never repeat a name. */
  lemma OrderedDistinct(cols: seq<string>, base: seq<string>, years: seq<string>, current: string)
    requires YearLabels(years) && Distinct(years) && Distinct(base)
    requires forall k :: k in base ==> k in CorporationBase + ClientBase + Quarter.ProductKeys
    ensures Distinct(YearColumns(years, current)) && Distinct(base + YearColumns(years, current))
    ensures Distinct(base + GenerateYearColumns(cols, years, current))
    ensures Present(base + GenerateYearColumns(cols, years, current), cols) == Present(base + YearColumns(years, current), cols)
  {
    var ys := YearColumns(years, current);
    var generated := GenerateYearColumns(cols, years, current);
    YearColumnsDistinct(years, current);
    BaseNotYearColumn(base, years, current);
    DistinctConcat(base, ys);
    DistinctConcat(base, generated);
    PresentConcat(base, generated, cols);
    PresentConcat(base, ys, cols);
    PresentIdempotent(ys, cols);
  }

  /** One table of `reorder_columns`: its key columns, then its yearly
      columns in visiting order, every other column dropped. */
  function ReorderTable(t: Table, base: seq<string>, years: seq<string>, current: string): (r: Table)
    requires WellFormed(t) && YearLabels(years) && Distinct(years) && Distinct(base)
    requires forall k :: k in base ==> k in CorporationBase + ClientBase + Quarter.ProductKeys
    ensures WellFormed(r) && Distinct(r.columns)
    ensures forall c :: c in r.columns <==> c in t.columns && (c in base || c in YearColumns(years, current))
    ensures Subsequence(r.columns, base + YearColumns(years, current))
    ensures |r.columns| > 0 ==> (|r.rows| == |t.rows| &&
      forall i, c :: 0 <= i < |t.rows| && c in r.columns ==> r.rows[i][c] == t.rows[i][c])
    ensures |r.columns| == 0 ==> |r.rows| == 0
  {
    OrderedDistinct(t.columns, base, years, current);
    PresentOrdered(base + YearColumns(years, current), t.columns);
    SelectExisting(t, base + GenerateYearColumns(t.columns, years, current))
  }

  /** `reorder_columns(merged_data)`. */
  function ReorderColumns(df1: Table, df2: Table, df3: Table, years: seq<string>, current: string)
    : (r: (Table, Table, Table))
    requires WellFormed(df1) && WellFormed(df2) && WellFormed(df3) && YearLabels(years) && Distinct(years)
  {
    BasesAreKeys();
    (ReorderTable(df1, CorporationBase, years, current),
     ReorderTable(df2, ClientBase, years, current),
     ReorderTable(df3, Quarter.ProductKeys, years, current))
  }

  // ----- fix_data_types -----

  /** The guard of the zero fill: the name mentions one of the metric
      names. */
  predicate MetricLike(c: string) {
    Contains(c, "売上") || Contains(c, "粗利") || Contains(c, "㎡") || Contains(c, "売上数")
  }

  /** The guard holds for every yearly column, so the fill reaches all of
      them. */
  lemma MetricColumnsAreMetricLike(y: string, s: Suffix)
    ensures MetricLike(MetricColumn(y, s))
  {
    EndsWithContains(MetricColumn(y, s), SuffixName(s));
  }

  /** `fill_null(0)` on each listed column that passes the guard, the
      others left as they are. */
  function FillMetrics(t: Table, cols: seq<string>): (r: Table)
    requires WellFormed(t) && forall c :: c in cols ==> c in t.columns
    ensures WellFormed(r) && r.columns == t.columns && |r.rows| == |t.rows|
    decreases |cols|
  {
    if |cols| == 0 then t
    else
      var c := cols[|cols| - 1];
      var prev := FillMetrics(t, cols[..|cols| - 1]);
      if MetricLike(c) then MergeSort.FillZero(prev, c) else prev
  }

  /** The fill touches exactly the null cells of the listed columns that
      pass the guard, turning them into zeros. */
  lemma {:induction false} FillMetricsCells(t: Table, cols: seq<string>)
    requires WellFormed(t) && forall c :: c in cols ==> c in t.columns
    ensures forall i, c :: 0 <= i < |t.rows| && c in t.columns ==>
      FillMetrics(t, cols).rows[i][c] == if c in cols && MetricLike(c) && t.rows[i][c] == Null then Num(0) else t.rows[i][c]
    decreases |cols|
  {
    if |cols| > 0 {
      FillMetricsCells(t, cols[..|cols| - 1]);
      FillMetricStep(t, FillMetrics(t, cols[..|cols| - 1]), cols);
    }
  }

  /** Filling the last listed column on top of the others fills them all. */
  lemma FillMetricStep(t: Table, prev: Table, cols: seq<string>)
    requires WellFormed(t) && WellFormed(prev) && prev.columns == t.columns && |prev.rows| == |t.rows|
    requires |cols| > 0 && cols[|cols| - 1] in t.columns
    requires forall i, d :: 0 <= i < |t.rows| && d in t.columns ==>
      prev.rows[i][d] == if d in cols[..|cols| - 1] && MetricLike(d) && t.rows[i][d] == Null then Num(0) else t.rows[i][d]
    ensures var c := cols[|cols| - 1]; var r := if MetricLike(c) then MergeSort.FillZero(prev, c) else prev;
      forall i, d :: 0 <= i < |t.rows| && d in t.columns ==>
        r.rows[i][d] == if d in cols && MetricLike(d) && t.rows[i][d] == Null then Num(0) else t.rows[i][d]
  {
    assert cols == cols[..|cols| - 1] + [cols[|cols| - 1]];
  }

  /** Every yearly column passes the guard. */
  lemma YearColumnsMetricLike(years: seq<string>, current: string)
    ensures forall c :: c in YearColumns(years, current) ==> MetricLike(c)
  {
    forall c | c in YearColumns(years, current) ensures MetricLike(c) {
      YearColumnsMembers(years, current, c);
      var y, s :| y in years && s in SuffixesFor(y, current) && c == MetricColumn(y, s);
      MetricColumnsAreMetricLike(y, s);
    }
  }

  /** When every listed column passes the guard, each of them is filled. */
  lemma FillMetricsAll(t: Table, cols: seq<string>)
    requires WellFormed(t) && forall c :: c in cols ==> c in t.columns && MetricLike(c)
    ensures forall i, c :: 0 <= i < |t.rows| && c in t.columns ==>
      FillMetrics(t, cols).rows[i][c] == if c in cols && t.rows[i][c] == Null then Num(0) else t.rows[i][c]
  {
    FillMetricsCells(t, cols);
  }

  /** The fill of one table: every yearly column it has. */
  function FillTable(t: Table, years: seq<string>, current: string): (r: Table)
    requires WellFormed(t)
    ensures WellFormed(r) && r.columns == t.columns && |r.rows| == |t.rows|
    ensures forall i, c :: 0 <= i < |t.rows| && c in t.columns ==>
      r.rows[i][c] == if c in YearColumns(years, current) && t.rows[i][c] == Null then Num(0) else t.rows[i][c]
  {
    var target := GenerateYearColumns(t.columns, years, current);
    YearColumnsMetricLike(years, current);
    FillMetricsAll(t, target);
    FillMetrics(t, target)
  }

  /** `fix_data_types(data)`: the code columns cast to text where present,
      then the nulls of every yearly column replaced by 0. */
  /** A cell after the type fix: a code column's cell is cast to text, and
      a null in a yearly column becomes 0. */
  function FixedCell(v: Value, c: string, codes: seq<string>, years: seq<string>, current: string): Value {
    var cast := if c in codes then ColumnTypes.CastText(v) else v;
    if c in YearColumns(years, current) && cast == Null then Num(0) else cast
  }

  /** `t` after the type fix with code columns `codes`: same columns and
      rows, each cell fixed. */
  ghost predicate FixedFrom(r: Table, t: Table, codes: seq<string>, years: seq<string>, current: string) {
    && r.columns == t.columns && |r.rows| == |t.rows|
    && forall i, c :: 0 <= i < |t.rows| && c in t.columns ==>
      c in r.rows[i] && c in t.rows[i] && r.rows[i][c] == FixedCell(t.rows[i][c], c, codes, years, current)
  }

  function FixDataTypes(df1: Table, df2: Table, df3: Table, years: seq<string>, current: string)
    : (r: (Table, Table, Table))
    requires WellFormed(df1) && WellFormed(df2) && WellFormed(df3)
    ensures FixedFrom(r.0, df1, ["法人コード"], years, current)
    ensures FixedFrom(r.1, df2, ["得意先コード"], years, current)
    ensures FixedFrom(r.2, df3, ["得意先コード", "商品コード"], years, current)
    ensures r.0 == FillTable(ColumnTypes.CastColumn(df1, "法人コード"), years, current)
    ensures r.1 == FillTable(ColumnTypes.CastColumn(df2, "得意先コード"), years, current)
    ensures r.2 == FillTable(ColumnTypes.CastColumn(ColumnTypes.CastColumn(df3, "得意先コード"), "商品コード"), years, current)
  {
    FixedOneCode(df1, "法人コード", years, current);
    FixedOneCode(df2, "得意先コード", years, current);
    FixedTwoCodes(df3, "得意先コード", "商品コード", years, current);
    (FillTable(ColumnTypes.CastColumn(df1, "法人コード"), years, current),
     FillTable(ColumnTypes.CastColumn(df2, "得意先コード"), years, current),
     FillTable(ColumnTypes.CastColumn(ColumnTypes.CastColumn(df3, "得意先コード"), "商品コード"), years, current))
  }

  /** Casting one code column and then filling fixes every cell. */
  lemma FixedOneCode(t: Table, code: string, years: seq<string>, current: string)
    requires WellFormed(t)
    ensures FixedFrom(FillTable(ColumnTypes.CastColumn(t, code), years, current), t, [code], years, current)
  {
  }

  /** Casting two code columns and then filling fixes every cell. */
  lemma FixedTwoCodes(t: Table, a: string, b: string, years: seq<string>, current: string)
    requires WellFormed(t)
    ensures FixedFrom(FillTable(ColumnTypes.CastColumn(ColumnTypes.CastColumn(t, a), b), years, current), t, [a, b], years, current)
  {
    var c1 := ColumnTypes.CastColumn(t, a);
    var c2 := ColumnTypes.CastColumn(c1, b);
    forall i, c | 0 <= i < |t.rows| && c in t.columns
      ensures c2.rows[i][c] == if c in [a, b] then ColumnTypes.CastText(t.rows[i][c]) else t.rows[i][c]
    {
      if a == b && c == a {
        ColumnTypes.CastTextIdempotent(t.rows[i][c]);
      }
    }
  }

  /** Replacing nulls by 0 keeps every column's total. */
  lemma FillTableKeepsTotals(t: Table, years: seq<string>, current: string, c: string)
    requires WellFormed(t) && c in t.columns
    ensures Total(FillTable(t, years, current), c) == Total(t, c)
  {
    var r := FillTable(t, years, current);
    TotalIsColumnSum(t, c);
    TotalIsColumnSum(r, c);
    ColumnSumPointwise(t.rows, r.rows, c);
  }

  /** Two row sequences whose cells in `c` count the same add up the same. */
  lemma {:induction false} ColumnSumPointwise(a: seq<Row>, b: seq<Row>, c: string)
    requires |a| == |b|
    requires forall i :: 0 <= i < |a| ==> c in a[i] && c in b[i] && AsNumber(a[i][c]) == AsNumber(b[i][c])
    ensures ColumnSum(a, c) == ColumnSum(b, c)
    decreases |a|
  {
    if |a| > 0 {
      ColumnSumPointwise(a[..|a| - 1], b[..|b| - 1], c);
    }
  }

  // ----- sort_data -----

  /** The helper column the product sort adds and drops again. */
  const OfficeOrderColumn: string := "__office_order__"

  /** The product table's keys: office in the custom order (unlisted
      offices after the listed ones), then client and category. */
  const OfficeKeys: seq<SortKey> := [ByOffice(MergeSort.Office), By(MergeSort.ClientName, false), By(MergeSort.Category, false)]

  /** `sort_data(data)`: with the current year's sales in the first two
      tables, both sorted on it, highest first; otherwise left as they are.
      The product table is sorted on the office keys and loses the helper
      column. `None` is the error polars raises when the product table lacks
      one of the three key columns. */
  function SortData(df1: Table, df2: Table, df3: Table, current: string): (r: Option<(Table, Table, Table)>)
    requires WellFormed(df1) && WellFormed(df2) && WellFormed(df3)
    ensures r.None? <==> !MergeSort.HasNameKeys(df3)
    ensures var cur := current + "売上";
      r.Some? && cur in df1.columns && cur in df2.columns ==>
        && r.value.0.columns == df1.columns && r.value.1.columns == df2.columns
        && multiset(r.value.0.rows) == multiset(df1.rows) && Sorted(r.value.0.rows, MergeSort.SalesKeys(cur))
        && multiset(r.value.1.rows) == multiset(df2.rows) && Sorted(r.value.1.rows, MergeSort.SalesKeys(cur))
    ensures var cur := current + "売上";
      r.Some? && !(cur in df1.columns && cur in df2.columns) ==> r.value.0 == df1 && r.value.1 == df2
    ensures r.Some? ==> WellFormed(r.value.2) && r.value.2.columns == RemoveName(df3.columns, OfficeOrderColumn)
    ensures r.Some? && OfficeOrderColumn !in df3.columns ==>
      multiset(r.value.2.rows) == multiset(df3.rows) && Sorted(r.value.2.rows, OfficeKeys)
  {
    if !MergeSort.HasNameKeys(df3) then None
    else
      var cur := current + "売上";
      var both := cur in df1.columns && cur in df2.columns;
      var s1 := if both then SortTable(df1, MergeSort.SalesKeys(cur)) else df1;
      var s2 := if both then SortTable(df2, MergeSort.SalesKeys(cur)) else df2;
      Some((s1, s2, SortProducts(df3)))
  }

  /** The product half of `sort_data`: sorted on the office keys, then the
      helper column dropped. */
  function SortProducts(df3: Table): (r: Table)
    requires WellFormed(df3)
    ensures WellFormed(r) && r.columns == RemoveName(df3.columns, OfficeOrderColumn)
    ensures OfficeOrderColumn !in df3.columns ==> multiset(r.rows) == multiset(df3.rows) && Sorted(r.rows, OfficeKeys)
  {
    var sorted := SortTable(df3, OfficeKeys);
    var r := DropColumn(sorted, OfficeOrderColumn);
    assert OfficeOrderColumn !in df3.columns ==> r.rows == sorted.rows by {
      if OfficeOrderColumn !in df3.columns {
        forall i | 0 <= i < |sorted.rows| ensures r.rows[i] == sorted.rows[i] {
          assert OfficeOrderColumn !in sorted.rows[i];
        }
      }
    }
    r
  }

  /** Sorting keeps every column's total. */
  lemma SortKeepsTotals(t: Table, u: Table, c: string)
    requires WellFormed(t) && WellFormed(u) && c in t.columns && u.columns == t.columns
    requires multiset(u.rows) == multiset(t.rows)
    ensures Total(u, c) == Total(t, c)
  {
    TotalIsColumnSum(t, c);
    TotalIsColumnSum(u, c);
    ColumnSumPermutation(t.rows, u.rows, c);
  }

  /** The sum of a column over the rows with `j` left out. */
  lemma {:induction false} ColumnSumRemove(rows: seq<Row>, j: nat, c: string)
    requires j < |rows| && forall i :: 0 <= i < |rows| ==> c in rows[i]
    ensures var rest := rows[..j] + rows[j + 1..];
      (forall i :: 0 <= i < |rest| ==> c in rest[i]) &&
      ColumnSum(rows, c) == ColumnSum(rest, c) + AsNumber(rows[j][c])
    decreases |rows|
  {
    var rest := rows[..j] + rows[j + 1..];
    var n := |rows|;
    assert forall i :: 0 <= i < |rest| ==> c in rest[i] by {
      forall i | 0 <= i < |rest| ensures c in rest[i] {
        if i < j { assert rest[i] == rows[i]; } else { assert rest[i] == rows[i + 1]; }
      }
    }
    if j < n - 1 {
      var init := rows[..n - 1];
      ColumnSumRemove(init, j, c);
      assert rest[..|rest| - 1] == init[..j] + init[j + 1..];
      assert rest[|rest| - 1] == rows[n - 1];
    } else {
      assert rest == rows[..n - 1];
    }
  }

  /** Rows with the same multiset all have the column when one side does. */
  lemma PermutationHasColumn(a: seq<Row>, b: seq<Row>, c: string)
    requires multiset(a) == multiset(b)
    requires forall i :: 0 <= i < |a| ==> c in a[i]
    ensures forall i :: 0 <= i < |b| ==> c in b[i]
  {
    forall i | 0 <= i < |b| ensures c in b[i] {
      assert b[i] in multiset(a);
      var k :| 0 <= k < |a| && a[k] == b[i];
    }
  }

  /** Taking the last row of `a` out of `b` leaves the rest of both with
      equal multisets. */
  lemma RemoveMatching(a: seq<Row>, b: seq<Row>, j: nat)
    requires |a| > 0 && multiset(a) == multiset(b) && j < |b| && b[j] == a[|a| - 1]
    ensures multiset(a[..|a| - 1]) == multiset(b[..j] + b[j + 1..])
  {
    var n := |a|;
    var x := a[n - 1];
    assert a == a[..n - 1] + [x];
    assert b == b[..j] + [x] + b[j + 1..];
    assert multiset(b[..j] + b[j + 1..]) == multiset(b) - multiset{x};
    assert multiset(a[..n - 1]) == multiset(a) - multiset{x};
  }

  /** Two row sequences holding the same rows add up the same. */
  lemma {:induction false} ColumnSumPermutation(a: seq<Row>, b: seq<Row>, c: string)
    requires multiset(a) == multiset(b)
    requires forall i :: 0 <= i < |a| ==> c in a[i]
    ensures forall i :: 0 <= i < |b| ==> c in b[i]
    ensures ColumnSum(a, c) == ColumnSum(b, c)
    decreases |a|
  {
    PermutationHasColumn(a, b, c);
    if |a| > 0 {
      var n := |a|;
      var x := a[n - 1];
      assert x in multiset(b) by {
        assert x in multiset(a);
      }
      var j :| 0 <= j < |b| && b[j] == x;
      RemoveMatching(a, b, j);
      ColumnSumRemove(b, j, c);
      ColumnSumPermutation(a[..n - 1], b[..j] + b[j + 1..], c);
    }
  }

  // ----- filter_zero_rows -----

  /** A cell that `pl.col(c) != 0` marks true: neither null nor zero. */
  predicate NonZero(v: Value) {
    v != Null && v != Num(0)
  }

  /** `pl.any_horizontal(pl.col(c) != 0 for c in cols)` is true. */
  predicate KeepRow(row: Row, cols: seq<string>) {
    exists k :: 0 <= k < |cols| && cols[k] in row && NonZero(row[cols[k]])
  }

  /** `r` holds each row that passes the filter as often as `rows` does,
      and no other row. */
  ghost predicate CountsKept(r: seq<Row>, rows: seq<Row>, cols: seq<string>) {
    forall x :: multiset(r)[x] == if KeepRow(x, cols) then multiset(rows)[x] else 0
  }

  /** Filtering one more row keeps the counts right. */
  lemma CountsKeptSnoc(prev: seq<Row>, init: seq<Row>, x: Row, cols: seq<string>)
    requires CountsKept(prev, init, cols)
    ensures CountsKept(if KeepRow(x, cols) then prev + [x] else prev, init + [x], cols)
  {
    assert multiset(init + [x]) == multiset(init) + multiset{x};
    assert multiset(prev + [x]) == multiset(prev) + multiset{x};
  }

  /** The rows the filter keeps, in their order. */
  function KeptRows(rows: seq<Row>, cols: seq<string>): (r: seq<Row>)
    ensures forall x :: x in r <==> x in rows && KeepRow(x, cols)
    ensures multiset(r) <= multiset(rows) && |r| <= |rows|
    ensures forall i :: 0 <= i < |r| ==> KeepRow(r[i], cols)
    ensures CountsKept(r, rows, cols)
    ensures Subsequence(r, rows)
    decreases |rows|
  {
    if |rows| == 0 then []
    else
      var n := |rows|;
      var prev := KeptRows(rows[..n - 1], cols);
      assert rows == rows[..n - 1] + [rows[n - 1]];
      SubsequenceSnoc(prev, rows[..n - 1], rows[n - 1], KeepRow(rows[n - 1], cols));
      CountsKeptSnoc(prev, rows[..n - 1], rows[n - 1], cols);
      if KeepRow(rows[n - 1], cols) then prev + [rows[n - 1]] else prev
  }

  /** One table of `filter_zero_rows`: when it has yearly columns, the rows
      with at least one non-zero yearly cell; otherwise the table itself. */
  function FilterTable(t: Table, years: seq<string>, current: string): (r: Table)
    requires WellFormed(t)
    ensures WellFormed(r) && r.columns == t.columns && |r.rows| <= |t.rows|
    ensures multiset(r.rows) <= multiset(t.rows)
    ensures |GenerateYearColumns(t.columns, years, current)| == 0 ==> r == t
    ensures |GenerateYearColumns(t.columns, years, current)| > 0 ==>
      forall x :: x in r.rows <==> x in t.rows && KeepRow(x, GenerateYearColumns(t.columns, years, current))
    ensures |GenerateYearColumns(t.columns, years, current)| > 0 ==>
      CountsKept(r.rows, t.rows, GenerateYearColumns(t.columns, years, current))
    ensures Subsequence(r.rows, t.rows)
  {
    var existing := GenerateYearColumns(t.columns, years, current);
    if |existing| == 0 then
      SubsequenceRefl(t.rows);
      t
    else FilterBy(t, existing)
  }

  /** The table with only the rows the filter keeps. */
  function FilterBy(t: Table, cols: seq<string>): (r: Table)
    requires WellFormed(t)
    ensures WellFormed(r) && r.columns == t.columns && r.rows == KeptRows(t.rows, cols)
  {
    var rows := KeptRows(t.rows, cols);
    assert forall i :: 0 <= i < |rows| ==> rows[i] in t.rows;
    Table(t.columns, rows)
  }

  /** `filter_zero_rows(data)`. */
  /** `r` is `t` with its all-zero rows removed: same columns, rows in
      their order, and, when `t` has yearly columns, exactly the rows with a
      non-zero yearly cell; without yearly columns `t` itself. */
  ghost predicate FilteredFrom(r: Table, t: Table, years: seq<string>, current: string) {
    var cols := GenerateYearColumns(t.columns, years, current);
    && r.columns == t.columns && Subsequence(r.rows, t.rows)
    && (|cols| == 0 ==> r == t)
    && (|cols| > 0 ==> forall x :: x in r.rows <==> x in t.rows && KeepRow(x, cols))
  }

  function FilterZeroRows(df1: Table, df2: Table, df3: Table, years: seq<string>, current: string)
    : (r: (Table, Table, Table))
    requires WellFormed(df1) && WellFormed(df2) && WellFormed(df3)
    ensures FilteredFrom(r.0, df1, years, current)
    ensures FilteredFrom(r.1, df2, years, current)
    ensures FilteredFrom(r.2, df3, years, current)
    ensures r == (FilterTable(df1, years, current), FilterTable(df2, years, current), FilterTable(df3, years, current))
  {
    (FilterTable(df1, years, current), FilterTable(df2, years, current), FilterTable(df3, years, current))
  }

  /** Filtering again removes nothing more. */
  lemma FilterIdempotent(t: Table, years: seq<string>, current: string)
    requires WellFormed(t)
    ensures FilterTable(FilterTable(t, years, current), years, current) == FilterTable(t, years, current)
  {
    var existing := GenerateYearColumns(t.columns, years, current);
    if |existing| > 0 {
      KeptAll(KeptRows(t.rows, existing), existing);
    }
  }

  lemma {:induction false} KeptAll(rows: seq<Row>, cols: seq<string>)
    requires forall i :: 0 <= i < |rows| ==> KeepRow(rows[i], cols)
    ensures KeptRows(rows, cols) == rows
    decreases |rows|
  {
    if |rows| > 0 {
      var init, x := rows[..|rows| - 1], rows[|rows| - 1];
      assert rows == init + [x];
      assert forall i :: 0 <= i < |init| ==> init[i] == rows[i];
      KeptAll(init, cols);
      KeptRowsSnoc(init, x, cols);
    }
  }

  /** The kept rows of one more row. */
  lemma KeptRowsSnoc(init: seq<Row>, x: Row, cols: seq<string>)
    ensures KeptRows(init + [x], cols) == KeptRows(init, cols) + (if KeepRow(x, cols) then [x] else [])
  {
    var rows := init + [x];
    assert rows[..|rows| - 1] == init && rows[|rows| - 1] == x;
  }

  /** A dropped row has only zero or null yearly cells, so the filter keeps
      the total of every yearly column. */
  lemma FilterKeepsTotals(t: Table, years: seq<string>, current: string, c: string)
    requires WellFormed(t) && c in t.columns && c in YearColumns(years, current)
    ensures Total(FilterTable(t, years, current), c) == Total(t, c)
  {
    var existing := GenerateYearColumns(t.columns, years, current);
    assert c in existing;
    var r := FilterTable(t, years, current);
    TotalIsColumnSum(t, c);
    TotalIsColumnSum(r, c);
    KeptRowsSum(t.rows, existing, c);
  }

  /** A row the filter drops counts 0 in every yearly column it has. */
  lemma DroppedRowCountsZero(x: Row, cols: seq<string>, c: string)
    requires c in cols && c in x && !KeepRow(x, cols)
    ensures AsNumber(x[c]) == 0
  {
    var k := IndexOf(cols, c);
    assert !NonZero(x[cols[k]]);
  }

  lemma {:induction false} KeptRowsSum(rows: seq<Row>, cols: seq<string>, c: string)
    requires c in cols && forall i :: 0 <= i < |rows| ==> c in rows[i]
    ensures forall i :: 0 <= i < |KeptRows(rows, cols)| ==> c in KeptRows(rows, cols)[i]
    ensures ColumnSum(KeptRows(rows, cols), c) == ColumnSum(rows, c)
    decreases |rows|
  {
    KeptRowsHave(rows, cols, c);
    if |rows| > 0 {
      var n := |rows|;
      var x := rows[n - 1];
      var init := rows[..n - 1];
      assert rows == init + [x];
      KeptRowsSum(init, cols, c);
      KeptRowsLast(init, x, cols, c);
      if !KeepRow(x, cols) {
        DroppedRowCountsZero(x, cols, c);
      }
    }
  }

  /** The kept rows have every column the rows have. */
  lemma KeptRowsHave(rows: seq<Row>, cols: seq<string>, c: string)
    requires forall i :: 0 <= i < |rows| ==> c in rows[i]
    ensures forall i :: 0 <= i < |KeptRows(rows, cols)| ==> c in KeptRows(rows, cols)[i]
  {
    var kept := KeptRows(rows, cols);
    forall i | 0 <= i < |kept| ensures c in kept[i] {
      assert kept[i] in rows;
    }
  }

  /** One more row adds its cell to the sum, and to the kept rows' sum when
      it is kept. */
  lemma KeptRowsLast(init: seq<Row>, x: Row, cols: seq<string>, c: string)
    requires c in x && forall i :: 0 <= i < |init| ==> c in init[i]
    ensures forall i :: 0 <= i < |init + [x]| ==> c in (init + [x])[i]
    ensures forall i :: 0 <= i < |KeptRows(init + [x], cols)| ==> c in KeptRows(init + [x], cols)[i]
    ensures forall i :: 0 <= i < |KeptRows(init, cols)| ==> c in KeptRows(init, cols)[i]
    ensures ColumnSum(init + [x], c) == ColumnSum(init, c) + AsNumber(x[c])
    ensures ColumnSum(KeptRows(init + [x], cols), c) ==
      ColumnSum(KeptRows(init, cols), c) + (if KeepRow(x, cols) then AsNumber(x[c]) else 0)
  {
    var rows := init + [x];
    assert rows[..|rows| - 1] == init && rows[|rows| - 1] == x;
    KeptRowsHave(rows, cols, c);
    KeptRowsHave(init, cols, c);
    var kept := KeptRows(rows, cols);
    var prev := KeptRows(init, cols);
    if KeepRow(x, cols) {
      assert kept == prev + [x];
      assert kept[..|kept| - 1] == prev && kept[|kept| - 1] == x;
    } else {
      assert kept == prev;
    }
  }
}
