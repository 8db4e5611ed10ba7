/** The second-quarter script (`02_merge_past_data_2Q.py`) as its
    `DataProcessor` object: the fiscal years fixed at construction, and the
    steps that walk the year list, the column list or the three tables with
    loops, each proved to compute the function that says what it means. */
module QuarterProcessor {

  import opened Wrappers
  import opened Text
  import opened Tables
  import opened Reconcile
  import opened ReconcileProperties
  import MergePast
  import Joins
  import ColumnTypes
  import Quarter
  import QuarterLayout
  import opened QuarterChecks

  const Term: string := "2Q"
  /** The first fiscal year the data covers. */
  const StartYearData: int := 2015

  /** One `if` of the suffix loop: the total of metric `s` of year `y`
      under the key of table `d`, when the snapshot reads the column from
      that table; nothing otherwise. */
  function DimTotal(df1: Table, df2: Table, df3: Table, y: string, s: Suffix, nested: bool, d: Dim): (r: map<Key, int>)
    requires WellFormed(df1) && WellFormed(df2) && WellFormed(df3)
    ensures forall k :: k in r <==> k == Key(d, s) && Reads(df1, df2, df3, MetricColumn(y, s), d, nested)
    ensures forall k :: k in r ==> Reads(df1, df2, df3, MetricColumn(y, k.suffix), k.dim, nested) && r[k] == KeyTotal(df1, df2, df3, y, k)
  {
    var c := MetricColumn(y, s);
    if Reads(df1, df2, df3, c, d, nested) then map[Key(d, s) := KeyTotal(df1, df2, df3, y, Key(d, s))] else map[]
  }

  /** The three `if`s of one metric together, at one key. */
  lemma SuffixTotalsAt(df1: Table, df2: Table, df3: Table, y: string, s: Suffix, nested: bool, k: Key)
    requires WellFormed(df1) && WellFormed(df2) && WellFormed(df3)
    ensures var r := DimTotal(df1, df2, df3, y, s, nested, Corp) + DimTotal(df1, df2, df3, y, s, nested, Client)
                     + DimTotal(df1, df2, df3, y, s, nested, Product);
      && (k in r <==> k.suffix == s && Reads(df1, df2, df3, MetricColumn(y, k.suffix), k.dim, nested))
      && (k in r ==> r[k] == KeyTotal(df1, df2, df3, y, k))
  {
    var corp := DimTotal(df1, df2, df3, y, s, nested, Corp);
    var client := DimTotal(df1, df2, df3, y, s, nested, Client);
    var product := DimTotal(df1, df2, df3, y, s, nested, Product);
    match k.dim
    case Corp => assert k !in client && k !in product;
    case Client => assert k !in corp && k !in product;
    case Product => assert k !in corp && k !in client;
  }

  /** The three `if`s of one metric together. */
  function SuffixTotals(df1: Table, df2: Table, df3: Table, y: string, s: Suffix, nested: bool): (r: map<Key, int>)
    requires WellFormed(df1) && WellFormed(df2) && WellFormed(df3)
    ensures forall k: Key :: k in r <==> k.suffix == s && Reads(df1, df2, df3, MetricColumn(y, k.suffix), k.dim, nested)
    ensures forall k :: k in r ==> Reads(df1, df2, df3, MetricColumn(y, k.suffix), k.dim, nested) && r[k] == KeyTotal(df1, df2, df3, y, k)
  {
    var r := DimTotal(df1, df2, df3, y, s, nested, Corp) + DimTotal(df1, df2, df3, y, s, nested, Client)
             + DimTotal(df1, df2, df3, y, s, nested, Product);
    assert forall k: Key :: ((k in r <==> k.suffix == s && Reads(df1, df2, df3, MetricColumn(y, k.suffix), k.dim, nested))
      && (k in r ==> r[k] == KeyTotal(df1, df2, df3, y, k))) by {
      forall k: Key ensures (k in r <==> k.suffix == s && Reads(df1, df2, df3, MetricColumn(y, k.suffix), k.dim, nested))
        && (k in r ==> r[k] == KeyTotal(df1, df2, df3, y, k))
      {
        SuffixTotalsAt(df1, df2, df3, y, s, nested, k);
      }
    }
    r
  }

  /** One pass of the suffix loop: the totals of metric `s` of year `y`
      added to `e0` for each table that the snapshot reads it from. */
  method ReadSuffix(df1: Table, df2: Table, df3: Table, y: string, s: Suffix, nested: bool, e0: Entry)
    returns (e: Entry)
    requires WellFormed(df1) && WellFormed(df2) && WellFormed(df3)
    ensures forall k: Key :: k in e <==> (k in e0 || (k.suffix == s && Reads(df1, df2, df3, MetricColumn(y, k.suffix), k.dim, nested)))
    ensures forall k :: k in e && k.suffix == s && Reads(df1, df2, df3, MetricColumn(y, k.suffix), k.dim, nested) ==>
      e[k] == KeyTotal(df1, df2, df3, y, k)
    ensures forall k :: k in e0 && !(k.suffix == s && Reads(df1, df2, df3, MetricColumn(y, k.suffix), k.dim, nested)) ==>
      e[k] == e0[k]
  {
    var added := SuffixTotals(df1, df2, df3, y, s, nested);
    e := e0 + added;
  }

  /** A part read year by year is the `current` part of the snapshot. */
  lemma CurrentPartIs(part: ByYear, cur: Option<(Table, Table, Table)>, years: seq<string>, current: string)
    requires cur.Some? ==> WellFormed(cur.value.0) && WellFormed(cur.value.1) && WellFormed(cur.value.2)
    requires cur.None? ==> part == map[]
    requires cur.Some? ==> part.Keys == Names(years)
    requires cur.Some? ==> forall y :: y in part ==>
      part[y] == YearEntry(cur.value.0, cur.value.1, cur.value.2, y, SuffixesFor(y, current), true)
    ensures part == CurrentValues(cur, years, current)
  {
  }

  /** A part read year by year, skipping the current year, is the `past`
      part of the snapshot. */
  lemma PastPartIs(part: ByYear, past: Option<(Table, Table, Table)>, years: seq<string>, current: string)
    requires past.Some? ==> WellFormed(past.value.0) && WellFormed(past.value.1) && WellFormed(past.value.2)
    requires past.None? ==> part == map[]
    requires past.Some? ==> part.Keys == Names(years) - {current}
    requires past.Some? ==> forall y :: y in part ==>
      part[y] == YearEntry(past.value.0, past.value.1, past.value.2, y, SuffixesFor(y, current), true)
    ensures part == PastValues(past, years, current)
  {
  }

  /** The combined years assembled one by one are the `all_years` part. */
  lemma AllYearsIs(allYears: ByYear, cur: Option<(Table, Table, Table)>, past: Option<(Table, Table, Table)>,
                   years: seq<string>, current: string)
    requires cur.Some? ==> WellFormed(cur.value.0) && WellFormed(cur.value.1) && WellFormed(cur.value.2)
    requires past.Some? ==> WellFormed(past.value.0) && WellFormed(past.value.1) && WellFormed(past.value.2)
    requires allYears.Keys == Names(years)
    requires forall y :: y in allYears ==>
      allYears[y] == CombinedEntry(CurrentValues(cur, years, current), PastValues(past, years, current), y, SuffixesFor(y, current))
    ensures Snapshot(CurrentValues(cur, years, current), PastValues(past, years, current), allYears) ==
      BeforeMerge(cur, past, years, current)
  {
  }

  class DataProcessor {

    const processingYear: int
    const lastProcessingYear: int
    /** Every fiscal year from the current one down to 2015. */
    const yearsList: seq<string>
    const currentYearStr: string
    const lastYearStr: string

    /** The year labels are decimal numerals, none listed twice, the
        current year first. */
    predicate Valid() {
      && YearLabels(yearsList) && Distinct(yearsList)
      && (processingYear >= StartYearData ==> |yearsList| > 0 && yearsList[0] == currentYearStr)
    }

    /** `__init__` on the clock reading `nowYear`/`nowMonth`. */
    constructor (nowYear: int, nowMonth: int)
      ensures (processingYear, lastProcessingYear) == Quarter.CalculateFiscalYears(nowYear, nowMonth)
      ensures yearsList == MergePast.YearsDescending(StartYearData, processingYear)
      ensures currentYearStr == IntToString(processingYear) && lastYearStr == IntToString(lastProcessingYear)
      ensures Valid()
    {
      var years := Quarter.CalculateFiscalYears(nowYear, nowMonth);
      var list := MergePast.GenerateYearsList(StartYearData, years.0);
      MergePast.YearsDescendingLabels(StartYearData, years.0);
      MergePast.YearsDescendingDistinct(StartYearData, years.0);
      processingYear := years.0;
      lastProcessingYear := years.1;
      yearsList := list;
      currentYearStr := IntToString(years.0);
      lastYearStr := IntToString(years.1);
    }

    // ----- merge_data -----

    /** `_add_past_suffix(df, key_columns)`: the mapping built column by
        column, applied when it is not empty. */
    method AddPastSuffix(df: Table, keyColumns: seq<string>) returns (r: Table)
      requires WellFormed(df)
      ensures r == Quarter.AllSuffixed(df)
    {
      var mapping: map<string, string> := map[];
      for i := 0 to |df.columns|
        invariant mapping == Quarter.AllPastMap(df.columns[..i])
      {
        assert Names(df.columns[..i + 1]) == Names(df.columns[..i]) + {df.columns[i]} by {
          assert df.columns[..i + 1] == df.columns[..i] + [df.columns[i]];
        }
        mapping := mapping[df.columns[i] := PastName(df.columns[i])];
      }
      assert df.columns[..|df.columns|] == df.columns;
      r := df;
      if mapping != map[] {
        Quarter.AllPastRename(df);
        r := Rename(df, mapping).value;
      }
    }

    /** `_fix_full_join_nulls(df)`: the shared repair, historical values
        overwriting current ones. */
    method FixFullJoinNulls(df: Table) returns (r: Table)
      requires WellFormed(df)
      ensures r == FixSpec(df, yearsList, currentYearStr, Authoritative)
    {
      r := Reconcile.FixFullJoinNulls(df, yearsList, currentYearStr, Authoritative);
    }

    /** `merge_data(current_data, past_data)`; `None` is the error polars
        raises for a missing key column. */
    method MergeData(current: (Table, Table, Table), past: (Table, Table, Table))
      returns (r: Option<(Table, Table, Table)>)
      requires WellFormed(current.0) && WellFormed(current.1) && WellFormed(current.2)
      requires WellFormed(past.0) && WellFormed(past.1) && WellFormed(past.2)
      ensures r == Quarter.MergeData(current.0, current.1, current.2, past.0, past.1, past.2, yearsList, currentYearStr)
    {
      var p1 := AddPastSuffix(past.0, []);
      var p2 := AddPastSuffix(past.1, []);
      var p3 := AddPastSuffix(past.2, []);
      var j1 := Joins.FullJoin(current.0, p1, Quarter.CorporationKeys, Quarter.PastNames(Quarter.CorporationKeys));
      var j2 := Joins.FullJoin(current.1, p2, Quarter.ClientKeys, Quarter.PastNames(Quarter.ClientKeys));
      var j3 := Joins.FullJoin(current.2, p3, Quarter.ProductKeys, Quarter.PastNames(Quarter.ProductKeys));
      if j1.None? || j2.None? || j3.None? {
        return None;
      }
      var m1 := FixFullJoinNulls(j1.value);
      var m2 := FixFullJoinNulls(j2.value);
      var m3 := FixFullJoinNulls(j3.value);
      r := Some((m1, m2, m3));
    }

    // ----- reorder_columns, fix_data_types, filter_zero_rows -----

    /** The suffix loop of one year in `generate_year_columns`: the metric
        columns of year `y` among `cols`. */
    method PresentYearColumns(y: string, cols: seq<string>) returns (found: seq<string>)
      ensures found == Present(QuarterLayout.SuffixColumns(y, SuffixesFor(y, currentYearStr)), cols)
    {
      var suffixes := SuffixesFor(y, currentYearStr);
      found := [];
      for k := 0 to |suffixes|
        invariant found == Present(QuarterLayout.SuffixColumns(y, suffixes[..k]), cols)
      {
        var c := MetricColumn(y, suffixes[k]);
        QuarterLayout.PresentSuffixStep(y, suffixes, k, cols);
        if c in cols {
          found := found + [c];
        }
      }
      assert suffixes[..|suffixes|] == suffixes;
    }

    /** `generate_year_columns(df)`, whose loop `fix_data_types` repeats:
        the yearly columns among `cols`, in visiting order. */
    method GenerateYearColumns(cols: seq<string>) returns (generated: seq<string>)
      ensures generated == QuarterLayout.GenerateYearColumns(cols, yearsList, currentYearStr)
    {
      generated := [];
      for i := 0 to |yearsList|
        invariant generated == Present(QuarterLayout.YearColumns(yearsList[..i], currentYearStr), cols)
      {
        var y := yearsList[i];
        var found := PresentYearColumns(y, cols);
        QuarterLayout.YearColumnsStep(yearsList, currentYearStr, i);
        PresentConcat(QuarterLayout.YearColumns(yearsList[..i], currentYearStr),
          QuarterLayout.SuffixColumns(y, SuffixesFor(y, currentYearStr)), cols);
        generated := generated + found;
      }
      assert yearsList[..|yearsList|] == yearsList;
    }

    /** The year loop of `filter_zero_rows`: every yearly column, present
        or not, in visiting order. */
    method AllYearColumns() returns (yearColumns: seq<string>)
      ensures yearColumns == QuarterLayout.YearColumns(yearsList, currentYearStr)
    {
      yearColumns := [];
      for i := 0 to |yearsList|
        invariant yearColumns == QuarterLayout.YearColumns(yearsList[..i], currentYearStr)
      {
        var y := yearsList[i];
        var suffixes := SuffixesFor(y, currentYearStr);
        ghost var before := yearColumns;
        for k := 0 to |suffixes|
          invariant yearColumns == before + QuarterLayout.SuffixColumns(y, suffixes[..k])
        {
          QuarterLayout.SuffixColumnsStep(y, suffixes, k);
          yearColumns := yearColumns + [MetricColumn(y, suffixes[k])];
        }
        assert suffixes[..|suffixes|] == suffixes;
        QuarterLayout.YearColumnsStep(yearsList, currentYearStr, i);
      }
      assert yearsList[..|yearsList|] == yearsList;
    }

    /** One table of `reorder_columns`: its key columns, then its yearly
        columns, those the table has, in that order. */
    method ReorderTable(t: Table, base: seq<string>) returns (r: Table)
      requires WellFormed(t) && Valid() && Distinct(base)
      requires forall k :: k in base ==> k in QuarterLayout.CorporationBase + QuarterLayout.ClientBase + Quarter.ProductKeys
      ensures r == QuarterLayout.ReorderTable(t, base, yearsList, currentYearStr)
    {
      var generated := GenerateYearColumns(t.columns);
      QuarterLayout.OrderedDistinct(t.columns, base, yearsList, currentYearStr);
      r := QuarterLayout.SelectExisting(t, base + generated);
    }

    /** `reorder_columns(merged_data)`. */
    method ReorderColumns(data: (Table, Table, Table)) returns (r: (Table, Table, Table))
      requires WellFormed(data.0) && WellFormed(data.1) && WellFormed(data.2) && Valid()
      ensures r == QuarterLayout.ReorderColumns(data.0, data.1, data.2, yearsList, currentYearStr)
    {
      QuarterLayout.BasesAreKeys();
      var df1 := ReorderTable(data.0, QuarterLayout.CorporationBase);
      var df2 := ReorderTable(data.1, QuarterLayout.ClientBase);
      var df3 := ReorderTable(data.2, Quarter.ProductKeys);
      r := (df1, df2, df3);
    }

    /** One pass of the fill loop of `fix_data_types`: the yearly columns
        the table has, then the zero fill over them when there are any. */
    method FillYearColumns(t: Table) returns (r: Table)
      requires WellFormed(t)
      ensures r == QuarterLayout.FillTable(t, yearsList, currentYearStr)
    {
      var target := GenerateYearColumns(t.columns);
      r := t;
      if |target| > 0 {
        r := QuarterLayout.FillMetrics(t, target);
      }
    }

    /** `fix_data_types(data)`: the code columns cast to text, then the fill
        loop over the three tables. */
    method FixDataTypes(data: (Table, Table, Table)) returns (r: (Table, Table, Table))
      requires WellFormed(data.0) && WellFormed(data.1) && WellFormed(data.2)
      ensures r == QuarterLayout.FixDataTypes(data.0, data.1, data.2, yearsList, currentYearStr)
    {
      var df1 := ColumnTypes.CastColumn(data.0, "法人コード");
      var df2 := ColumnTypes.CastColumn(data.1, "得意先コード");
      var df3 := ColumnTypes.CastColumn(data.2, "得意先コード");
      df3 := ColumnTypes.CastColumn(df3, "商品コード");
      df1 := FillYearColumns(df1);
      df2 := FillYearColumns(df2);
      df3 := FillYearColumns(df3);
      r := (df1, df2, df3);
    }

    /** `filter_zero_rows(data)`: the yearly column list built once, then
        each table filtered by the columns of it that it has. */
    method FilterZeroRows(data: (Table, Table, Table)) returns (r: (Table, Table, Table))
      requires WellFormed(data.0) && WellFormed(data.1) && WellFormed(data.2)
      ensures r == QuarterLayout.FilterZeroRows(data.0, data.1, data.2, yearsList, currentYearStr)
    {
      var yearColumns := AllYearColumns();
      var tables := [data.0, data.1, data.2];
      var results: seq<Table> := [];
      for i := 0 to 3
        invariant |results| == i
        invariant forall j :: 0 <= j < i ==> results[j] == QuarterLayout.FilterTable(tables[j], yearsList, currentYearStr)
      {
        var df := tables[i];
        var existing := Present(yearColumns, df.columns);
        if |existing| > 0 {
          df := Table(df.columns, QuarterLayout.KeptRows(df.rows, existing));
        }
        results := results + [df];
      }
      r := (results[0], results[1], results[2]);
      assert r == (QuarterLayout.FilterTable(data.0, yearsList, currentYearStr),
                   QuarterLayout.FilterTable(data.1, yearsList, currentYearStr),
                   QuarterLayout.FilterTable(data.2, yearsList, currentYearStr));
    }

    // ----- get_yearly_values_before_merge / _after_merge -----

    /** The suffix loop of one year: each metric column's total in each
        table that the snapshot reads it from. */
    method ReadEntry(df1: Table, df2: Table, df3: Table, y: string, ss: seq<Suffix>, nested: bool)
      returns (e: Entry)
      requires WellFormed(df1) && WellFormed(df2) && WellFormed(df3)
      ensures e == YearEntry(df1, df2, df3, y, ss, nested)
    {
      e := map[];
      for m := 0 to |ss|
        invariant forall k: Key :: k in e <==> k.suffix in ss[..m] && Reads(df1, df2, df3, MetricColumn(y, k.suffix), k.dim, nested)
        invariant forall k :: k in e ==> (Reads(df1, df2, df3, MetricColumn(y, k.suffix), k.dim, nested) &&
          e[k] == KeyTotal(df1, df2, df3, y, k))
      {
        assert forall x :: x in ss[..m + 1] <==> x in ss[..m] || x == ss[m] by {
          assert ss[..m + 1] == ss[..m] + [ss[m]];
        }
        e := ReadSuffix(df1, df2, df3, y, ss[m], nested, e);
      }
      assert ss[..|ss|] == ss;
    }

    /** The combining loop of one year: each key from the current part when
        it has it, from the past part otherwise. */
    method CombineEntry(cur: ByYear, past: ByYear, y: string, ss: seq<Suffix>) returns (e: Entry)
      ensures e == CombinedEntry(cur, past, y, ss)
    {
      e := map[];
      for m := 0 to |ss|
        invariant forall k: Key :: k in e <==> k.suffix in ss[..m] && (Has(cur, y, k) || Has(past, y, k))
        invariant forall k :: k in e ==> e[k] == if Has(cur, y, k) then cur[y][k] else past[y][k]
      {
        var s := ss[m];
        assert forall x :: x in ss[..m + 1] <==> x in ss[..m] || x == s by {
          assert ss[..m + 1] == ss[..m] + [s];
        }
        for j := 0 to |Dims|
          invariant forall k: Key :: k in e <==> ((k.suffix in ss[..m] || (k.suffix == s && k.dim in Dims[..j])) &&
            (Has(cur, y, k) || Has(past, y, k)))
          invariant forall k :: k in e ==> e[k] == if Has(cur, y, k) then cur[y][k] else past[y][k]
        {
          var key := Key(Dims[j], s);
          assert forall x :: x in Dims[..j + 1] <==> x in Dims[..j] || x == Dims[j] by {
            assert Dims[..j + 1] == Dims[..j] + [Dims[j]];
          }
          if Has(cur, y, key) {
            e := e[key := cur[y][key]];
          } else if Has(past, y, key) {
            e := e[key := past[y][key]];
          }
        }
        forall k: Key ensures k.dim in Dims[..|Dims|] {
          DimListed(k.dim);
        }
      }
      assert ss[..|ss|] == ss;
    }

    /** The year loop of one part of the snapshot: every listed year, or,
        for the historical part, every listed year but the current one. */
    method ReadPart(df1: Table, df2: Table, df3: Table, pastOnly: bool) returns (part: ByYear)
      requires WellFormed(df1) && WellFormed(df2) && WellFormed(df3)
      ensures part.Keys == if pastOnly then Names(yearsList) - {currentYearStr} else Names(yearsList)
      ensures forall y :: y in part ==> part[y] == YearEntry(df1, df2, df3, y, SuffixesFor(y, currentYearStr), true)
    {
      part := map[];
      for i := 0 to |yearsList|
        invariant part.Keys == if pastOnly then Names(yearsList[..i]) - {currentYearStr} else Names(yearsList[..i])
        invariant forall y :: y in part ==> part[y] == YearEntry(df1, df2, df3, y, SuffixesFor(y, currentYearStr), true)
      {
        var y := yearsList[i];
        assert Names(yearsList[..i + 1]) == Names(yearsList[..i]) + {y} by {
          assert yearsList[..i + 1] == yearsList[..i] + [y];
        }
        if !pastOnly || y != currentYearStr {
          var e := ReadEntry(df1, df2, df3, y, SuffixesFor(y, currentYearStr), true);
          part := part[y := e];
        }
      }
      assert yearsList[..|yearsList|] == yearsList;
    }

    /** The `all_years` loop: every listed year combined from both parts. */
    method CombineYears(currentPart: ByYear, pastPart: ByYear) returns (allYears: ByYear)
      ensures allYears.Keys == Names(yearsList)
      ensures forall y :: y in allYears ==>
        allYears[y] == CombinedEntry(currentPart, pastPart, y, SuffixesFor(y, currentYearStr))
    {
      allYears := map[];
      for i := 0 to |yearsList|
        invariant allYears.Keys == Names(yearsList[..i])
        invariant forall y :: y in allYears ==>
          allYears[y] == CombinedEntry(currentPart, pastPart, y, SuffixesFor(y, currentYearStr))
      {
        var y := yearsList[i];
        assert Names(yearsList[..i + 1]) == Names(yearsList[..i]) + {y} by {
          assert yearsList[..i + 1] == yearsList[..i] + [y];
        }
        var e := CombineEntry(currentPart, pastPart, y, SuffixesFor(y, currentYearStr));
        allYears := allYears[y := e];
      }
      assert yearsList[..|yearsList|] == yearsList;
    }

    /** `get_yearly_values_before_merge(current_data, past_data)`; an absent
        set of tables (`None`) leaves its part empty. */
    method GetYearlyValuesBeforeMerge(cur: Option<(Table, Table, Table)>, past: Option<(Table, Table, Table)>)
      returns (r: Snapshot)
      requires cur.Some? ==> WellFormed(cur.value.0) && WellFormed(cur.value.1) && WellFormed(cur.value.2)
      requires past.Some? ==> WellFormed(past.value.0) && WellFormed(past.value.1) && WellFormed(past.value.2)
      ensures r == BeforeMerge(cur, past, yearsList, currentYearStr)
    {
      var currentPart: ByYear := map[];
      if cur.Some? {
        currentPart := ReadPart(cur.value.0, cur.value.1, cur.value.2, false);
      }
      CurrentPartIs(currentPart, cur, yearsList, currentYearStr);
      var pastPart: ByYear := map[];
      if past.Some? {
        pastPart := ReadPart(past.value.0, past.value.1, past.value.2, true);
      }
      PastPartIs(pastPart, past, yearsList, currentYearStr);
      var allYears := CombineYears(currentPart, pastPart);
      AllYearsIs(allYears, cur, past, yearsList, currentYearStr);
      r := Snapshot(currentPart, pastPart, allYears);
    }

    /** `get_yearly_values_after_merge(merged_data)`. */
    method GetYearlyValuesAfterMerge(data: (Table, Table, Table)) returns (r: ByYear)
      requires WellFormed(data.0) && WellFormed(data.1) && WellFormed(data.2)
      ensures r == AfterMerge(data.0, data.1, data.2, yearsList, currentYearStr)
    {
      r := map[];
      for i := 0 to |yearsList|
        invariant r.Keys == Names(yearsList[..i])
        invariant forall y :: y in r ==> r[y] == YearEntry(data.0, data.1, data.2, y, SuffixesFor(y, currentYearStr), false)
      {
        var y := yearsList[i];
        assert Names(yearsList[..i + 1]) == Names(yearsList[..i]) + {y} by {
          assert yearsList[..i + 1] == yearsList[..i] + [y];
        }
        var e := ReadEntry(data.0, data.1, data.2, y, SuffixesFor(y, currentYearStr), false);
        r := r[y := e];
      }
      assert yearsList[..|yearsList|] == yearsList;
    }

    // ----- compare_yearly_values / output_differences_warning -----

    /** The metric loop of the comparison for one table of one year. */
    method CompareDim(y: string, b: Entry, a: Entry, d: Dim) returns (found: seq<Difference>)
      ensures found == EntryDifferences(y, b, a, SuffixKeys(d, AllSuffixes, y, currentYearStr))
    {
      found := [];
      for m := 0 to |AllSuffixes|
        invariant found == EntryDifferences(y, b, a, SuffixKeys(d, AllSuffixes[..m], y, currentYearStr))
      {
        var s := AllSuffixes[m];
        var key := Key(d, s);
        CompareDimStep(y, b, a, d, AllSuffixes, currentYearStr, m);
        if s == Quantity && y != currentYearStr {
          continue;
        }
        if key in b && key in a && b[key] != a[key] {
          found := found + [Difference(y, key, b[key], a[key], Abs(a[key] - b[key]))];
        }
      }
      assert AllSuffixes[..|AllSuffixes|] == AllSuffixes;
    }

    /** The table loop of the comparison for one year. */
    method CompareEntry(y: string, b: Entry, a: Entry) returns (found: seq<Difference>)
      ensures found == EntryDifferences(y, b, a, CompareKeys(y, currentYearStr))
    {
      found := [];
      for j := 0 to |Dims|
        invariant found == EntryDifferences(y, b, a, DimKeys(Dims[..j], y, currentYearStr))
      {
        var more := CompareDim(y, b, a, Dims[j]);
        DimKeysStep(Dims, y, currentYearStr, j);
        EntryDifferencesConcat(y, b, a, DimKeys(Dims[..j], y, currentYearStr), SuffixKeys(Dims[j], AllSuffixes, y, currentYearStr));
        found := found + more;
      }
      assert Dims[..|Dims|] == Dims;
    }

    /** `compare_yearly_values(before, after)`, `before` being the snapshot's
        `all_years` part: the years in list order, each skipped unless both
        sides have it, then the tables, then the metrics, the quantity only
        for the current year. */
    method CompareYearlyValues(before: ByYear, after: ByYear) returns (differences: seq<Difference>)
      ensures differences == Differences(before, after, yearsList, currentYearStr)
    {
      differences := [];
      for i := 0 to |yearsList|
        invariant differences == Differences(before, after, yearsList[..i], currentYearStr)
      {
        var y := yearsList[i];
        DifferencesStep(before, after, yearsList, currentYearStr, i);
        if y !in before || y !in after {
          continue;
        }
        var found := CompareEntry(y, before[y], after[y]);
        differences := differences + found;
      }
      assert yearsList[..|yearsList|] == yearsList;
    }

    /** The level loop of `output_differences_warning`: one level per
        difference, in order; the messages themselves are not modelled. */
    method DifferenceLevels(differences: seq<Difference>) returns (levels: seq<Severity>)
      ensures |levels| == |differences|
      ensures forall i :: 0 <= i < |differences| ==> levels[i] == Level(differences[i])
    {
      levels := [];
      for i := 0 to |differences|
        invariant |levels| == i
        invariant forall j :: 0 <= j < i ==> levels[j] == Level(differences[j])
      {
        var diff := differences[i];
        var level := if RelativeAbove(diff, 10) then High else if RelativeAbove(diff, 5) then Medium else Low;
        levels := levels + [level];
      }
    }
  }
}
