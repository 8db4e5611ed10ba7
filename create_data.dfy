/** The current-year build (`01_create_data.py`): the sales CSV is narrowed
    to the configured columns, the four raw metric columns get the fiscal
    year in their names, and the rows are summed per corporation, per
    client and per client and product. The CSV is a table parameter; the
    parquet output is left to the caller. */
module CreateData {

  import opened Wrappers
  import opened Tables
  import opened Aggregation

  /** The raw metric columns of the CSV, in the order of the configuration. */
  const MetricSources: seq<string> := ["売上数", "㎡", "売上金額", "粗利金額"]

  const CorporationColumns: seq<string> := ["法人コード", "売上数", "㎡", "売上金額", "粗利金額"]
  const CustomerColumns: seq<string> := ["得意先コード", "得意先名", "売上数", "㎡", "売上金額", "粗利金額"]
  const ProductColumns: seq<string> :=
    ["営業所名", "得意先コード", "得意先名", "第1階層", "商品コード", "商品名", "売上数", "㎡", "売上金額", "粗利金額"]

  const CorporationKeys: seq<string> := ["法人コード"]
  const CustomerKeys: seq<string> := ["得意先コード", "得意先名"]
  const ProductKeys: seq<string> := ["営業所名", "得意先コード", "得意先名", "第1階層", "商品コード", "商品名"]

  /** The year's metric columns, in the order of `MetricSources`. */
  function Metrics(year: string): (ms: seq<string>)
    ensures |ms| == 4
  {
    [year + "売上数", year + "㎡", year + "売上", year + "粗利"]
  }

  /** The name a CSV column gets (`rename_columns.get(col, col)`). */
  function MetricAlias(year: string, c: string): string {
    if c == "売上数" then year + "売上数"
    else if c == "㎡" then year + "㎡"
    else if c == "売上金額" then year + "売上"
    else if c == "粗利金額" then year + "粗利"
    else c
  }

  /** Exactly the four raw metric columns are renamed, each to its year
      column; a non-empty year never leaves a metric name as it was. */
  lemma MetricAliasRenamesMetrics(year: string, c: string)
    requires |year| > 0
    ensures MetricAlias(year, c) != c <==> c in MetricSources
    ensures forall k :: 0 <= k < 4 ==> MetricAlias(year, MetricSources[k]) == Metrics(year)[k]
  {
    var a := MetricAlias(year, c);
    if c == "売上数" || c == "㎡" {
      assert |a| > |c|;
    } else if c == "売上金額" || c == "粗利金額" {
      assert a[|a| - 1] != c[|c| - 1];
    }
  }

  function Aliases(cols: seq<string>, year: string): (r: seq<string>)
    ensures |r| == |cols| && forall j :: 0 <= j < |cols| ==> r[j] == MetricAlias(year, cols[j])
  {
    seq(|cols|, j requires 0 <= j < |cols| => MetricAlias(year, cols[j]))
  }

  function AliasMap(cols: seq<string>, year: string): (m: map<string, string>)
    ensures m.Keys <= Names(cols)
    ensures forall c :: c in cols ==> NewName(m, c) == MetricAlias(year, c)
  {
    map c | c in Names(cols) && c in MetricSources :: MetricAlias(year, c)
  }

  /** `df.select([pl.col(c).alias(rename_columns.get(c, c)) for c in cols])`,
      which is also what reading with `columns=usecols` and renaming does in
      `load_and_process_data`; `None` is polars' error for a missing or
      repeated column. Order is kept and every cell keeps its value. */
  function SelectAliased(t: Table, cols: seq<string>, year: string): (r: Option<Table>)
    requires WellFormed(t)
    ensures r.Some? <==> Distinct(cols) && Names(cols) <= Names(t.columns) && Distinct(Aliases(cols, year))
    ensures r.Some? ==> WellFormed(r.value) && |r.value.rows| == |t.rows|
    ensures r.Some? ==> r.value.columns == Aliases(cols, year)
    ensures r.Some? ==> forall i, j :: 0 <= i < |t.rows| && 0 <= j < |cols| ==>
      r.value.rows[i][MetricAlias(year, cols[j])] == t.rows[i][cols[j]]
  {
    if !Distinct(cols) || !(Names(cols) <= Names(t.columns)) then None
    else
      var s := Select(t, cols);
      var m := AliasMap(cols, year);
      assert RenamedNames(cols, m) == Aliases(cols, year);
      Rename(s, m)
  }

  /** `process_data`: the four year metrics summed per group. The revenue
      and margin casts to Int64 change nothing on integer amounts. */
  function ProcessData(t: Table, groupCols: seq<string>, year: string): (r: Option<Table>)
    requires WellFormed(t) && |groupCols| > 0
    ensures r.Some? <==> GroupSumValid(t, groupCols, Metrics(year))
    ensures r.Some? ==> WellFormed(r.value) && r.value.columns == groupCols + Metrics(year)
    ensures r.Some? ==> forall k :: 0 <= k < 4 ==>
      && Metrics(year)[k] in t.columns && Metrics(year)[k] in r.value.columns
      && Total(r.value, Metrics(year)[k]) == Total(t, Metrics(year)[k])
    ensures r.Some? ==> OneRowPerKey(r.value, t, groupCols)
    ensures r.Some? ==> SumsPerKey(r.value, t, groupCols, Metrics(year), year)
  {
    var r := GroupSum(t, groupCols, Metrics(year));
    assert r.Some? ==> SumsPerKey(r.value, t, groupCols, Metrics(year), year) by {
      if r.Some? {
        forall j | 0 <= j < |r.value.rows|
          ensures Names(groupCols) <= r.value.rows[j].Keys
          ensures KeyOf(r.value.rows[j], groupCols) == GroupKeys(t.rows, groupCols)[j]
        {
          GroupSumRowKey(t, groupCols, Metrics(year), j);
        }
        forall k | 0 <= k < 4 ensures Metrics(year)[k] in Metrics(year) { }
      }
    }
    assert r.Some? ==> OneRowPerKey(r.value, t, groupCols) by {
      if r.Some? {
        GroupSumKeys(t, groupCols, Metrics(year));
      }
    }
    assert r.Some? ==> forall k :: 0 <= k < 4 ==> Total(r.value, Metrics(year)[k]) == Total(t, Metrics(year)[k]) by {
      if r.Some? {
        forall k | 0 <= k < 4
          ensures Total(r.value, Metrics(year)[k]) == Total(t, Metrics(year)[k])
        {
          GroupSumConserves(t, groupCols, Metrics(year), Metrics(year)[k]);
        }
      }
    }
    r
  }

  // ----- main: choosing the columns -----

  /** `all_columns.update(cols)` on a set kept as a list without repeats. */
  method Update(all: seq<string>, cols: seq<string>) returns (out: seq<string>)
    requires Distinct(all)
    ensures Distinct(out) && Names(out) == Names(all) + Names(cols)
  {
    out := all;
    for j := 0 to |cols|
      invariant Distinct(out)
      invariant Names(out) == Names(all) + Names(cols[..j])
    {
      assert cols[..j + 1] == cols[..j] + [cols[j]];
      assert Names(cols[..j + 1]) == Names(cols[..j]) + {cols[j]};
      if cols[j] !in out {
        DistinctConcat(out, [cols[j]]);
        assert Names(out + [cols[j]]) == Names(out) + {cols[j]};
        out := out + [cols[j]];
      }
    }
    assert cols[..|cols|] == cols;
  }

  /** The union of the three configured column lists (`all_columns`), each
      name once. Python's set has no fixed order; here it is the order of
      first mention. */
  method AllColumns() returns (all: seq<string>)
    ensures Distinct(all)
    ensures Names(all) == Names(CorporationColumns) + Names(CustomerColumns) + Names(ProductColumns)
  {
    all := [];
    all := Update(all, CorporationColumns);
    all := Update(all, CustomerColumns);
    all := Update(all, ProductColumns);
  }

  /** The columns `selected_columns` keeps, before aliasing. */
  method KeptColumns(cols: seq<string>, all: seq<string>) returns (kept: seq<string>)
    ensures forall c :: c in kept <==> c in cols && (c in MetricSources || c in all)
    ensures Distinct(cols) ==> Distinct(kept)
    ensures Subsequence(kept, cols)
  {
    kept := [];
    for j := 0 to |cols|
      invariant forall c :: c in kept <==> c in cols[..j] && (c in MetricSources || c in all)
      invariant Distinct(cols) ==> Distinct(kept)
      invariant Subsequence(kept, cols[..j])
    {
      assert cols[..j + 1] == cols[..j] + [cols[j]];
      SubsequenceSnoc(kept, cols[..j], cols[j], cols[j] in MetricSources || cols[j] in all);
      if cols[j] in MetricSources || cols[j] in all {
        if Distinct(cols) {
          assert cols[j] !in cols[..j];
          DistinctConcat(kept, [cols[j]]);
        }
        kept := kept + [cols[j]];
      }
    }
    assert cols[..|cols|] == cols;
  }

  /** One dimension's column list (the `corporation_columns` loop and its two twins): a
      configured metric always by its year name, any other configured
      column only when present. */
  function DimensionSpec(present: seq<string>, config: seq<string>, year: string): seq<string>
    decreases |config|
  {
    if |config| == 0 then []
    else
      var col := config[|config| - 1];
      DimensionSpec(present, config[..|config| - 1], year)
        + (if col in MetricSources then [MetricAlias(year, col)] else if col in present then [col] else [])
  }

  method DimensionColumns(present: seq<string>, config: seq<string>, year: string) returns (cols: seq<string>)
    ensures cols == DimensionSpec(present, config, year)
  {
    cols := [];
    for j := 0 to |config|
      invariant cols == DimensionSpec(present, config[..j], year)
    {
      assert config[..j + 1][..j] == config[..j];
      var col := config[j];
      if col in MetricSources {
        cols := cols + [MetricAlias(year, col)];
      } else if col in present {
        cols := cols + [col];
      }
    }
    assert config[..|config|] == config;
  }

  /** A metric the configuration lists is in the dimension's column list. */
  lemma {:induction false} DimensionHasMetrics(present: seq<string>, config: seq<string>, year: string, k: nat)
    requires k < 4 && MetricSources[k] in config
    ensures MetricAlias(year, MetricSources[k]) in DimensionSpec(present, config, year)
    decreases |config|
  {
    var n := |config|;
    if config[n - 1] != MetricSources[k] {
      assert config == config[..n - 1] + [config[n - 1]];
      DimensionHasMetrics(present, config[..n - 1], year, k);
    }
  }

  /** The column list of a concatenated configuration is the two lists
      one after the other. */
  lemma {:induction false} DimensionSpecConcat(present: seq<string>, a: seq<string>, b: seq<string>, year: string)
    ensures DimensionSpec(present, a + b, year) == DimensionSpec(present, a, year) + DimensionSpec(present, b, year)
    decreases |b|
  {
    if |b| == 0 {
      assert a + b == a;
    } else {
      var n := |b|;
      assert (a + b)[..|a + b| - 1] == a + b[..n - 1];
      assert (a + b)[|a + b| - 1] == b[n - 1];
      DimensionSpecConcat(present, a, b[..n - 1], year);
    }
  }

  /** Configured key columns, none of them a metric, are kept when present,
      in order. */
  lemma {:induction false} DimensionSpecKeys(present: seq<string>, keys: seq<string>, year: string)
    requires forall c :: c in keys ==> c !in MetricSources
    ensures DimensionSpec(present, keys, year) == Present(keys, present)
    decreases |keys|
  {
    if |keys| > 0 {
      var n := |keys|;
      assert keys == keys[..n - 1] + [keys[n - 1]];
      DimensionSpecKeys(present, keys[..n - 1], year);
      PresentConcat(keys[..n - 1], [keys[n - 1]], present);
      assert [keys[n - 1]][1..] == [];
    }
  }

  /** The four raw metrics become the four year columns, present or not. */
  lemma DimensionSpecMetrics(present: seq<string>, year: string)
    ensures DimensionSpec(present, MetricSources, year) == Metrics(year)
  {
    var m := MetricSources;
    assert m == [m[0]] + [m[1]] + [m[2]] + [m[3]];
    DimensionSpecConcat(present, [m[0]] + [m[1]] + [m[2]], [m[3]], year);
    DimensionSpecConcat(present, [m[0]] + [m[1]], [m[2]], year);
    DimensionSpecConcat(present, [m[0]], [m[1]], year);
    forall k | 0 <= k < 4 ensures DimensionSpec(present, [m[k]], year) == [Metrics(year)[k]] {
      assert [m[k]][..0] == [];
    }
  }

  /** A dimension's configuration: its key columns, each a key name and
      none repeated, followed by the four raw metrics. */
  predicate DimensionConfig(config: seq<string>, keys: seq<string>) {
    && config == keys + MetricSources && Distinct(keys)
    && forall c :: c in keys ==> c in KeyNames
  }

  lemma CorporationConfig()
    ensures DimensionConfig(CorporationColumns, CorporationKeys)
  {
  }

  lemma CustomerConfig()
    ensures DimensionConfig(CustomerColumns, CustomerKeys)
  {
  }

  lemma ProductConfig()
    ensures DimensionConfig(ProductColumns, ProductKeys)
  {
  }

  /** A key column is neither a raw metric nor a year column. */
  lemma KeyNotMetric(year: string, c: string)
    requires c in KeyNames
    ensures c !in MetricSources && c !in Metrics(year)
  {
    forall k | 0 <= k < 4 ensures Metrics(year)[k] != c {
      MetricAliasNotKey(year, k, c);
      KeyNameEnds(year, c);
      assert MetricAlias(year, MetricSources[k]) == Metrics(year)[k];
    }
  }

  /** The four year columns are four different names. */
  lemma MetricsDistinct(year: string)
    ensures Distinct(Metrics(year))
  {
    forall k, l | 0 <= k < l < 4 ensures Metrics(year)[k] != Metrics(year)[l] {
      MetricAliasesDiffer(year, k, l);
      assert MetricAlias(year, MetricSources[k]) == Metrics(year)[k];
      assert MetricAlias(year, MetricSources[l]) == Metrics(year)[l];
    }
  }

  /** For a dimension's configuration the column list is the present keys
      followed by the year metrics: it repeats no name, the table has all of
      it exactly when it has the four year metrics, and it holds every key
      exactly when the table does. */
  lemma DimensionColumnsOf(present: seq<string>, config: seq<string>, keys: seq<string>, year: string)
    requires DimensionConfig(config, keys)
    ensures var cols := DimensionSpec(present, config, year);
      && Distinct(cols)
      && (Names(cols) <= Names(present) <==> forall k :: 0 <= k < 4 ==> Metrics(year)[k] in present)
      && ((forall c :: c in keys ==> c in cols) <==> Names(keys) <= Names(present))
      && (forall c :: c in Metrics(year) ==> c in cols)
      && Distinct(Metrics(year)) && forall c :: c in keys ==> c !in Metrics(year)
  {
    DimensionSpecOfConfig(present, config, keys, year);
    MetricsDistinct(year);
    var p, m := Present(keys, present), Metrics(year);
    DistinctConcat(p, m);
    assert forall c :: c in p + m <==> c in p || c in m;
    NamesSubset(p + m, present);
    NamesSubset(keys, present);
  }

  /** A dimension's column list is its present keys followed by the year
      metrics, and no key is a year metric. */
  lemma DimensionSpecOfConfig(present: seq<string>, config: seq<string>, keys: seq<string>, year: string)
    requires DimensionConfig(config, keys)
    ensures DimensionSpec(present, config, year) == Present(keys, present) + Metrics(year)
    ensures forall c :: c in keys ==> c !in Metrics(year)
  {
    forall c | c in keys ensures c !in MetricSources && c !in Metrics(year) {
      KeyNotMetric(year, c);
    }
    DimensionSpecConcat(present, keys, MetricSources, year);
    DimensionSpecKeys(present, keys, year);
    DimensionSpecMetrics(present, year);
  }

  /** Two tables whose columns agree row by row have equal totals. */
  lemma {:induction false} TotalsOfEqualColumns(a: Table, ca: string, b: Table, cb: string)
    requires WellFormed(a) && WellFormed(b) && ca in a.columns && cb in b.columns
    requires |a.rows| == |b.rows| && forall i :: 0 <= i < |a.rows| ==> a.rows[i][ca] == b.rows[i][cb]
    ensures Total(a, ca) == Total(b, cb)
  {
    assert Column(a, ca) == Column(b, cb);
  }

  /** One dimension: select its columns and sum them per key. */
  method BuildDimension(df: Table, config: seq<string>, keys: seq<string>, year: string)
    returns (r: Option<Table>)
    requires WellFormed(df) && |keys| > 0
    requires forall k :: 0 <= k < 4 ==> MetricSources[k] in config
    ensures r.Some? ==> WellFormed(r.value) && r.value.columns == keys + Metrics(year)
    ensures r.Some? ==> forall k :: 0 <= k < 4 ==>
      && Metrics(year)[k] in df.columns && Metrics(year)[k] in r.value.columns
      && Total(r.value, Metrics(year)[k]) == Total(df, Metrics(year)[k])
    ensures r.Some? ==> Names(keys) <= Names(df.columns) && OneRowPerKey(r.value, df, keys)
    ensures DimensionConfig(config, keys) ==>
      (r.Some? <==> (forall k :: 0 <= k < 4 ==> Metrics(year)[k] in df.columns) && Names(keys) <= Names(df.columns))
    ensures r.Some? ==> SumsPerKey(r.value, df, keys, Metrics(year), year)
  {
    var cols := DimensionColumns(df.columns, config, year);
    if DimensionConfig(config, keys) {
      DimensionColumnsOf(df.columns, config, keys, year);
    }
    if !Distinct(cols) || !(Names(cols) <= Names(df.columns)) {
      return None;
    }
    var selected := Select(df, cols);
    if |keys| == 0 || !GroupSumValid(selected, keys, Metrics(year)) {
      return None;
    }
    r := ProcessData(selected, keys, year);
    SelectedMetricTotals(df, config, year, cols);
    SelectedKeys(df, cols, keys);
    if r.Some? {
      SelectedSums(df, cols, keys, year, r.value);
    }
  }

  /** Per-key sums over the narrowed table are per-key sums over the table. */
  lemma SelectedSums(df: Table, cols: seq<string>, keys: seq<string>, year: string, t: Table)
    requires WellFormed(df) && Distinct(cols) && Names(cols) <= Names(df.columns)
    requires Names(keys) <= Names(cols) && forall k :: 0 <= k < 4 ==> Metrics(year)[k] in cols
    requires SumsPerKey(t, Select(df, cols), keys, Metrics(year), year)
    ensures SumsPerKey(t, df, keys, Metrics(year), year)
  {
    var s := Select(df, cols);
    SelectedKeys(df, cols, keys);
    forall i | 0 <= i < |df.rows| ensures KeyOf(s.rows[i], keys) == KeyOf(df.rows[i], keys) {
      assert forall j :: 0 <= j < |keys| ==> KeyOf(s.rows[i], keys)[j] == KeyOf(df.rows[i], keys)[j];
    }
    forall k | 0 <= k < 4 ensures HasColumns(df.rows, keys + [Metrics(year)[k]]) {
      assert Names(keys + [Metrics(year)[k]]) == Names(keys) + {Metrics(year)[k]};
    }
    assert forall i, k :: 0 <= i < |df.rows| && 0 <= k < 4 ==> Metrics(year)[k] in df.rows[i];
    SumsPointwise(t, s, Metrics(year), df, Metrics(year), keys, year);
  }

  /** `t` has one row per distinct key tuple of `src`: no two of its rows
      share a key, and a key tuple is in `t` exactly when some row of `src`
      carries it. */
  ghost predicate OneRowPerKey(t: Table, src: Table, keys: seq<string>) {
    && HasColumns(t.rows, keys) && HasColumns(src.rows, keys)
    && (forall j1, j2 :: 0 <= j1 < j2 < |t.rows| ==> KeyOf(t.rows[j1], keys) != KeyOf(t.rows[j2], keys))
    && forall g :: Occurs(t.rows, keys, g) <==> Occurs(src.rows, keys, g)
  }

  /** Each year metric of a row of `t` is the sum of the source column
      `sources[k]` over the rows of `src` that carry the row's key tuple. */
  ghost predicate SumsPerKey(t: Table, src: Table, keys: seq<string>, sources: seq<string>, year: string) {
    && |sources| == 4 && HasColumns(t.rows, keys) && HasColumns(src.rows, keys)
    && (forall k :: 0 <= k < 4 ==> HasColumns(src.rows, keys + [sources[k]]))
    && forall j, k :: 0 <= j < |t.rows| && 0 <= k < 4 ==>
      && Metrics(year)[k] in t.rows[j]
      && t.rows[j][Metrics(year)[k]] == Num(GroupTotal(src.rows, keys, KeyOf(t.rows[j], keys), sources[k]))
  }

  /** Per-key sums carry over to a source that agrees row by row on the
      key cells and on each summed cell. */
  lemma SumsPointwise(t: Table, a: Table, sa: seq<string>, b: Table, sb: seq<string>, keys: seq<string>, year: string)
    requires SumsPerKey(t, a, keys, sa, year)
    requires |sb| == 4 && HasColumns(b.rows, keys) && |a.rows| == |b.rows|
    requires forall k :: 0 <= k < 4 ==> HasColumns(b.rows, keys + [sb[k]])
    requires forall i :: 0 <= i < |a.rows| ==> KeyOf(a.rows[i], keys) == KeyOf(b.rows[i], keys)
    requires forall i, k :: 0 <= i < |a.rows| && 0 <= k < 4 ==>
      sa[k] in a.rows[i] && sb[k] in b.rows[i] && a.rows[i][sa[k]] == b.rows[i][sb[k]]
    ensures SumsPerKey(t, b, keys, sb, year)
  {
    forall j, k | 0 <= j < |t.rows| && 0 <= k < 4
      ensures GroupTotal(a.rows, keys, KeyOf(t.rows[j], keys), sa[k]) == GroupTotal(b.rows, keys, KeyOf(t.rows[j], keys), sb[k])
    {
      GroupTotalPointwise(a.rows, sa[k], b.rows, sb[k], keys, KeyOf(t.rows[j], keys));
    }
  }

  /** Narrowing to columns that include the keys keeps every row's key. */
  lemma SelectedKeys(df: Table, cols: seq<string>, keys: seq<string>)
    requires WellFormed(df) && Distinct(cols) && Names(cols) <= Names(df.columns)
    requires Names(keys) <= Names(cols)
    ensures HasColumns(df.rows, keys) && HasColumns(Select(df, cols).rows, keys)
    ensures forall g :: Occurs(Select(df, cols).rows, keys, g) <==> Occurs(df.rows, keys, g)
  {
    var s := Select(df, cols);
    forall i | 0 <= i < |df.rows| ensures KeyOf(s.rows[i], keys) == KeyOf(df.rows[i], keys) {
      assert forall j :: 0 <= j < |keys| ==> KeyOf(s.rows[i], keys)[j] == KeyOf(df.rows[i], keys)[j];
    }
    OccursPointwise(s.rows, df.rows, keys);
  }

  /** Narrowing to a dimension's columns keeps every configured metric and
      its total. */
  lemma SelectedMetricTotals(df: Table, config: seq<string>, year: string, cols: seq<string>)
    requires WellFormed(df) && forall k :: 0 <= k < 4 ==> MetricSources[k] in config
    requires cols == DimensionSpec(df.columns, config, year)
    requires Distinct(cols) && Names(cols) <= Names(df.columns)
    ensures forall k :: 0 <= k < 4 ==> Metrics(year)[k] in df.columns && Metrics(year)[k] in cols
    ensures forall k :: 0 <= k < 4 ==>
      Total(Select(df, cols), Metrics(year)[k]) == Total(df, Metrics(year)[k])
  {
    var selected := Select(df, cols);
    forall k | 0 <= k < 4
      ensures Metrics(year)[k] in df.columns && Metrics(year)[k] in cols
      ensures Total(selected, Metrics(year)[k]) == Total(df, Metrics(year)[k])
    {
      DimensionHasMetrics(df.columns, config, year, k);
      assert MetricAlias(year, MetricSources[k]) == Metrics(year)[k];
      assert Metrics(year)[k] in Names(cols);
      TotalsOfEqualColumns(selected, Metrics(year)[k], df, Metrics(year)[k]);
    }
  }

  /** Every configured column name, with repeats. */
  const ConfigNames: seq<string> := CorporationColumns + CustomerColumns + ProductColumns

  /** The configured columns that are not metrics. */
  const KeyNames: seq<string> := ["法人コード", "得意先コード", "得意先名", "営業所名", "第1階層", "商品コード", "商品名"]

  /** A configured column is a raw metric or one of the key columns. */
  lemma ConfiguredCases(c: string)
    requires c in ConfigNames
    ensures c in MetricSources || c in KeyNames
  {
    var i :| 0 <= i < |ConfigNames| && ConfigNames[i] == c;
  }

  /** Whether `c` is a configured column: a raw metric or a key column. */
  predicate Configured(c: string) {
    c in MetricSources || c in KeyNames
  }

  /** The key columns keep their names, which end in ド, 名 or 層. */
  lemma KeyNameEnds(year: string, c: string)
    requires c in KeyNames
    ensures MetricAlias(year, c) == c && |c| > 0 && c[|c| - 1] in {'ド', '名', '層'}
  {
  }

  /** A year column ends in 数, ㎡, 上 or 利, one per metric. */
  lemma AliasEnds(year: string, k: nat)
    requires k < 4
    ensures var x := MetricAlias(year, MetricSources[k]); |x| > 0 && x[|x| - 1] == ['数', '㎡', '上', '利'][k]
  {
  }

  /** Aliasing never merges two configured columns: the year columns end
      in 数, ㎡, 上 and 利, which tell them apart from each other and from
      the key columns. */
  lemma AliasInjective(year: string, a: string, b: string)
    requires Configured(a) && Configured(b)
    requires MetricAlias(year, a) == MetricAlias(year, b)
    ensures a == b
  {
    if a in KeyNames {
      KeyNameEnds(year, a);
    }
    if b in KeyNames {
      KeyNameEnds(year, b);
    }
    if a !in KeyNames || b !in KeyNames {
      LastCharsDiffer(year, a, b);
    }
  }

  /** Two configured columns, one of them a metric, with the same alias
      are the same column. */
  lemma LastCharsDiffer(year: string, a: string, b: string)
    requires Configured(a) && Configured(b) && (a in MetricSources || b in MetricSources)
    requires MetricAlias(year, a) == MetricAlias(year, b)
    ensures a == b
  {
    if a in MetricSources && b in MetricSources {
      var k :| 0 <= k < 4 && MetricSources[k] == a;
      var l :| 0 <= l < 4 && MetricSources[l] == b;
      if k != l {
        MetricAliasesDiffer(year, k, l);
      }
    } else if a in MetricSources {
      var k :| 0 <= k < 4 && MetricSources[k] == a;
      MetricAliasNotKey(year, k, b);
    } else {
      var l :| 0 <= l < 4 && MetricSources[l] == b;
      MetricAliasNotKey(year, l, a);
    }
  }

  /** The four year columns are pairwise different. */
  lemma MetricAliasesDiffer(year: string, k: nat, l: nat)
    requires k < 4 && l < 4 && k != l
    ensures MetricAlias(year, MetricSources[k]) != MetricAlias(year, MetricSources[l])
  {
    AliasEnds(year, k);
    AliasEnds(year, l);
  }

  /** No year column is named like a key column. */
  lemma MetricAliasNotKey(year: string, k: nat, c: string)
    requires k < 4 && c in KeyNames
    ensures MetricAlias(year, MetricSources[k]) != MetricAlias(year, c)
  {
    AliasEnds(year, k);
    KeyNameEnds(year, c);
  }

  /** `d` is the CSV narrowed to the configured columns `kept` and aliased:
      every kept column is a configured CSV column, and its cells are the
      CSV's under its alias. */
  ghost predicate AliasedOf(csv: Table, d: Table, kept: seq<string>, year: string) {
    && WellFormed(csv) && WellFormed(d) && |d.rows| == |csv.rows|
    && (forall j :: 0 <= j < |kept| ==> Configured(kept[j]) && kept[j] in csv.columns)
    && d.columns == Aliases(kept, year)
    && forall i, j :: 0 <= i < |csv.rows| && 0 <= j < |kept| ==>
      d.rows[i][MetricAlias(year, kept[j])] == csv.rows[i][kept[j]]
  }

  /** A configured column whose alias is in the aliased table was a CSV
      column, and the aliased cells are the CSV's. */
  lemma AliasedColumn(csv: Table, d: Table, kept: seq<string>, year: string, c: string)
    requires AliasedOf(csv, d, kept, year)
    requires Configured(c) && MetricAlias(year, c) in d.columns
    ensures c in csv.columns
    ensures forall i :: 0 <= i < |csv.rows| ==> d.rows[i][MetricAlias(year, c)] == csv.rows[i][c]
  {
    var j :| 0 <= j < |kept| && d.columns[j] == MetricAlias(year, c);
    AliasInjective(year, kept[j], c);
  }

  /** A year metric of the aliased table has the total of its raw CSV column. */
  lemma MetricOfCsv(csv: Table, d: Table, kept: seq<string>, year: string, k: nat)
    requires AliasedOf(csv, d, kept, year) && k < 4 && Metrics(year)[k] in d.columns
    ensures MetricSources[k] in csv.columns && Total(d, Metrics(year)[k]) == Total(csv, MetricSources[k])
    ensures forall i :: 0 <= i < |csv.rows| ==> d.rows[i][Metrics(year)[k]] == csv.rows[i][MetricSources[k]]
  {
    assert MetricAlias(year, MetricSources[k]) == Metrics(year)[k];
    AliasedColumn(csv, d, kept, year, MetricSources[k]);
    TotalsOfEqualColumns(d, Metrics(year)[k], csv, MetricSources[k]);
  }

  /** The key tuples of the aliased table are the CSV's, row by row. */
  lemma KeysOfCsv(csv: Table, d: Table, kept: seq<string>, year: string, keys: seq<string>)
    requires AliasedOf(csv, d, kept, year)
    requires forall c :: c in keys ==> c in KeyNames
    requires Names(keys) <= Names(d.columns)
    ensures Names(keys) <= Names(csv.columns) && HasColumns(d.rows, keys) && HasColumns(csv.rows, keys)
    ensures forall g :: Occurs(d.rows, keys, g) <==> Occurs(csv.rows, keys, g)
    ensures forall i :: 0 <= i < |csv.rows| ==> KeyOf(d.rows[i], keys) == KeyOf(csv.rows[i], keys)
  {
    forall c | c in keys ensures c in csv.columns && forall i :: 0 <= i < |csv.rows| ==> d.rows[i][c] == csv.rows[i][c] {
      assert c in Names(keys);
      KeyNameEnds(year, c);
      AliasedColumn(csv, d, kept, year, c);
    }
    forall i | 0 <= i < |csv.rows| ensures KeyOf(d.rows[i], keys) == KeyOf(csv.rows[i], keys) {
      forall j | 0 <= j < |keys| ensures KeyOf(d.rows[i], keys)[j] == KeyOf(csv.rows[i], keys)[j] {
        assert keys[j] in keys;
      }
    }
    OccursPointwise(d.rows, csv.rows, keys);
  }

  /** A dimension built from the aliased table sums the CSV's own metric
      columns and groups by the CSV's own key cells. */
  lemma DimensionOfCsv(csv: Table, d: Table, kept: seq<string>, year: string, keys: seq<string>, t: Table)
    requires AliasedOf(csv, d, kept, year) && WellFormed(t)
    requires keys == CorporationKeys || keys == CustomerKeys || keys == ProductKeys
    requires forall k :: 0 <= k < 4 ==>
      && Metrics(year)[k] in d.columns && Metrics(year)[k] in t.columns
      && Total(t, Metrics(year)[k]) == Total(d, Metrics(year)[k])
    requires Names(keys) <= Names(d.columns) && OneRowPerKey(t, d, keys)
    requires SumsPerKey(t, d, keys, Metrics(year), year)
    ensures SumsPerKey(t, csv, keys, MetricSources, year)
    ensures forall k :: 0 <= k < 4 ==>
      && MetricSources[k] in csv.columns && Metrics(year)[k] in t.columns
      && Total(t, Metrics(year)[k]) == Total(csv, MetricSources[k])
    ensures Names(keys) <= Names(csv.columns) && OneRowPerKey(t, csv, keys)
  {
    forall k | 0 <= k < 4
      ensures MetricSources[k] in csv.columns && Total(t, Metrics(year)[k]) == Total(csv, MetricSources[k])
    {
      MetricOfCsv(csv, d, kept, year, k);
    }
    KeysOfCsv(csv, d, kept, year, keys);
    SumsOfCsv(csv, d, kept, year, keys, t);
  }

  /** Per-key sums over the aliased table are per-key sums of the CSV's
      raw metric columns. */
  lemma SumsOfCsv(csv: Table, d: Table, kept: seq<string>, year: string, keys: seq<string>, t: Table)
    requires AliasedOf(csv, d, kept, year)
    requires forall c :: c in keys ==> c in KeyNames
    requires Names(keys) <= Names(d.columns) && forall k :: 0 <= k < 4 ==> Metrics(year)[k] in d.columns
    requires SumsPerKey(t, d, keys, Metrics(year), year)
    ensures SumsPerKey(t, csv, keys, MetricSources, year)
  {
    forall k | 0 <= k < 4
      ensures MetricSources[k] in csv.columns
      ensures forall i :: 0 <= i < |csv.rows| ==> d.rows[i][Metrics(year)[k]] == csv.rows[i][MetricSources[k]]
    {
      MetricOfCsv(csv, d, kept, year, k);
    }
    KeysOfCsv(csv, d, kept, year, keys);
    forall k | 0 <= k < 4 ensures HasColumns(csv.rows, keys + [MetricSources[k]]) {
      assert Names(keys + [MetricSources[k]]) == Names(keys) + {MetricSources[k]};
    }
    SumsPointwise(t, d, Metrics(year), csv, MetricSources, keys, year);
  }

  /** `main`'s in-memory part: narrow the CSV to the configured columns,
      alias the metrics, and build the three grouped tables. `None` is
      polars' error when the CSV lacks a raw metric or a key column.
      Otherwise each table has one row per distinct key of the CSV, and its
      year metrics total the CSV's raw metric columns, so the three tables
      agree: the cross-dimension equality the merge step later checks. */
  method CreateTables(csv: Table, year: string) returns (r: Option<(Table, Table, Table)>)
    requires WellFormed(csv)
    ensures r.Some? ==> WellFormed(r.value.0) && WellFormed(r.value.1) && WellFormed(r.value.2)
    ensures r.Some? ==> r.value.0.columns == CorporationKeys + Metrics(year)
    ensures r.Some? ==> r.value.1.columns == CustomerKeys + Metrics(year)
    ensures r.Some? ==> r.value.2.columns == ProductKeys + Metrics(year)
    ensures r.Some? ==> forall k :: 0 <= k < 4 ==>
      && Metrics(year)[k] in r.value.0.columns && Metrics(year)[k] in r.value.1.columns
      && Metrics(year)[k] in r.value.2.columns
      && Total(r.value.0, Metrics(year)[k]) == Total(r.value.1, Metrics(year)[k])
      && Total(r.value.1, Metrics(year)[k]) == Total(r.value.2, Metrics(year)[k])
    ensures r.Some? ==> forall k :: 0 <= k < 4 ==>
      && MetricSources[k] in csv.columns
      && Total(r.value.0, Metrics(year)[k]) == Total(csv, MetricSources[k])
      && Total(r.value.1, Metrics(year)[k]) == Total(csv, MetricSources[k])
      && Total(r.value.2, Metrics(year)[k]) == Total(csv, MetricSources[k])
    ensures r.Some? ==> Names(CorporationKeys + CustomerKeys + ProductKeys) <= Names(csv.columns)
    ensures r.Some? ==> OneRowPerKey(r.value.0, csv, CorporationKeys)
    ensures r.Some? ==> OneRowPerKey(r.value.1, csv, CustomerKeys)
    ensures r.Some? ==> OneRowPerKey(r.value.2, csv, ProductKeys)
    ensures r.Some? ==> SumsPerKey(r.value.0, csv, CorporationKeys, MetricSources, year)
    ensures r.Some? ==> SumsPerKey(r.value.1, csv, CustomerKeys, MetricSources, year)
    ensures r.Some? ==> SumsPerKey(r.value.2, csv, ProductKeys, MetricSources, year)
    ensures r.Some? <==>
      && (forall k :: 0 <= k < 4 ==> MetricSources[k] in csv.columns)
      && Names(CorporationKeys + CustomerKeys + ProductKeys) <= Names(csv.columns)
  {
    var all := AllColumns();
    var df := Select(csv, Present(all, csv.columns));
    var kept := KeptColumns(df.columns, all);
    AliasedSucceeds(csv, all, df, kept, year);
    var aliased := SelectAliased(df, kept, year);
    var d := aliased.value;
    AliasedFromCsv(csv, all, df, kept, d, year);
    CorporationConfig();
    CustomerConfig();
    ProductConfig();
    DimensionInputsOfCsv(csv, d, year, CorporationKeys);
    DimensionInputsOfCsv(csv, d, year, CustomerKeys);
    DimensionInputsOfCsv(csv, d, year, ProductKeys);
    KeysOfThree(csv.columns);
    var corp := BuildDimension(d, CorporationColumns, CorporationKeys, year);
    var cust := BuildDimension(d, CustomerColumns, CustomerKeys, year);
    var prod := BuildDimension(d, ProductColumns, ProductKeys, year);
    if corp.None? || cust.None? || prod.None? {
      return None;
    }
    r := Some((corp.value, cust.value, prod.value));
    DimensionOfCsv(csv, d, kept, year, CorporationKeys, corp.value);
    DimensionOfCsv(csv, d, kept, year, CustomerKeys, cust.value);
    DimensionOfCsv(csv, d, kept, year, ProductKeys, prod.value);
  }

  /** The aliased table's cells are the CSV's, column by kept column. */
  lemma AliasedFromCsv(csv: Table, all: seq<string>, df: Table, kept: seq<string>, d: Table, year: string)
    requires WellFormed(csv) && Distinct(all)
    requires Names(all) == Names(CorporationColumns) + Names(CustomerColumns) + Names(ProductColumns)
    requires df == Select(csv, Present(all, csv.columns))
    requires forall c :: c in kept <==> c in df.columns
    requires SelectAliased(df, kept, year) == Some(d)
    ensures AliasedOf(csv, d, kept, year)
    ensures forall c :: Configured(c) ==> (MetricAlias(year, c) in d.columns <==> c in csv.columns)
  {
    assert forall j :: 0 <= j < |kept| ==> kept[j] in Present(all, csv.columns);
    assert Names(all) == Names(ConfigNames);
    forall j | 0 <= j < |kept| ensures Configured(kept[j]) {
      assert kept[j] in Names(all);
      ConfiguredCases(kept[j]);
    }
    assert AliasedOf(csv, d, kept, year);
    forall c | Configured(c) ensures MetricAlias(year, c) in d.columns <==> c in csv.columns {
      AliasedIff(csv, all, df, kept, d, year, c);
    }
  }

  /** A configured column's alias is in the aliased table exactly when the
      column is in the CSV. */
  lemma AliasedIff(csv: Table, all: seq<string>, df: Table, kept: seq<string>, d: Table, year: string, c: string)
    requires AliasedOf(csv, d, kept, year) && Distinct(all)
    requires Names(all) == Names(ConfigNames)
    requires df == Select(csv, Present(all, csv.columns))
    requires forall c :: c in kept <==> c in df.columns
    requires Configured(c)
    ensures MetricAlias(year, c) in d.columns <==> c in csv.columns
  {
    if c in csv.columns {
      ConfiguredNames(c);
      assert c in Names(all);
      var j :| 0 <= j < |kept| && kept[j] == c;
      assert d.columns[j] == MetricAlias(year, c);
    }
    if MetricAlias(year, c) in d.columns {
      AliasedColumn(csv, d, kept, year, c);
    }
  }

  /** Every metric and key column is configured for some dimension. */
  lemma ConfiguredNames(c: string)
    requires Configured(c)
    ensures c in ConfigNames
  {
  }

  /** Two different configured columns get different names. */
  lemma AliasesDiffer(year: string, a: string, b: string)
    requires Configured(a) && Configured(b) && a != b
    ensures MetricAlias(year, a) != MetricAlias(year, b)
  {
    if a in KeyNames && b in KeyNames {
      KeyNameEnds(year, a);
      KeyNameEnds(year, b);
    } else if a in KeyNames {
      var l :| 0 <= l < 4 && MetricSources[l] == b;
      MetricAliasNotKey(year, l, a);
    } else if b in KeyNames {
      var k :| 0 <= k < 4 && MetricSources[k] == a;
      MetricAliasNotKey(year, k, b);
    } else {
      var k :| 0 <= k < 4 && MetricSources[k] == a;
      var l :| 0 <= l < 4 && MetricSources[l] == b;
      MetricAliasesDiffer(year, k, l);
    }
  }

  /** Aliasing distinct configured columns gives distinct names. */
  lemma AliasesDistinct(kept: seq<string>, year: string)
    requires Distinct(kept) && forall j :: 0 <= j < |kept| ==> Configured(kept[j])
    ensures Distinct(Aliases(kept, year))
  {
    var a := Aliases(kept, year);
    forall i, j | 0 <= i < j < |a| ensures a[i] != a[j] {
      AliasesDiffer(year, kept[i], kept[j]);
    }
  }

  /** Aliasing the kept columns cannot fail: they are distinct configured
      columns of the narrowed table. */
  lemma AliasedSucceeds(csv: Table, all: seq<string>, df: Table, kept: seq<string>, year: string)
    requires WellFormed(csv) && Distinct(all)
    requires Names(all) == Names(CorporationColumns) + Names(CustomerColumns) + Names(ProductColumns)
    requires df == Select(csv, Present(all, csv.columns))
    requires Distinct(kept) && forall c :: c in kept ==> c in df.columns
    ensures SelectAliased(df, kept, year).Some?
  {
    assert Names(all) == Names(ConfigNames);
    forall j | 0 <= j < |kept| ensures Configured(kept[j]) {
      assert kept[j] in Present(all, csv.columns);
      assert kept[j] in Names(all);
      ConfiguredCases(kept[j]);
    }
    AliasesDistinct(kept, year);
  }

  /** With every configured CSV column aliased, the aliased table has a
      dimension's year metrics and keys exactly when the CSV has its raw
      metrics and keys. */
  lemma DimensionInputsOfCsv(csv: Table, d: Table, year: string, keys: seq<string>)
    requires forall c :: Configured(c) ==> (MetricAlias(year, c) in d.columns <==> c in csv.columns)
    requires forall c :: c in keys ==> c in KeyNames
    ensures (forall k :: 0 <= k < 4 ==> Metrics(year)[k] in d.columns)
      <==> forall k :: 0 <= k < 4 ==> MetricSources[k] in csv.columns
    ensures Names(keys) <= Names(d.columns) <==> Names(keys) <= Names(csv.columns)
  {
    forall k | 0 <= k < 4 ensures Metrics(year)[k] in d.columns <==> MetricSources[k] in csv.columns {
      assert MetricAlias(year, MetricSources[k]) == Metrics(year)[k];
      assert Configured(MetricSources[k]);
    }
    forall c | c in keys ensures c in d.columns <==> c in csv.columns {
      KeyNameEnds(year, c);
    }
    NamesSubset(keys, d.columns);
    NamesSubset(keys, csv.columns);
  }

  /** The three key lists are covered exactly when each one is. */
  lemma KeysOfThree(cols: seq<string>)
    ensures Names(CorporationKeys + CustomerKeys + ProductKeys) <= Names(cols)
      <==> Names(CorporationKeys) <= Names(cols) && Names(CustomerKeys) <= Names(cols) && Names(ProductKeys) <= Names(cols)
  {
    assert Names(CorporationKeys + CustomerKeys + ProductKeys)
      == Names(CorporationKeys) + Names(CustomerKeys) + Names(ProductKeys);
  }
}
