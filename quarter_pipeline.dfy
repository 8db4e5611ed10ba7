/** The whole of `run` in the second-quarter script
    (`02_merge_past_data_2Q.py`) on tables already read: preprocessing,
    merge, the first cross-check, the master data, the product aggregation,
    the column order, the types, the sort, the zero-row filter and the
    final cross-check. Its theorem: once the merge is done, no later step
    changes a yearly total, so the final cross-check reports nothing
    unless the master table lists a corporation code twice. */
module QuarterPipeline {

  import opened Wrappers
  import opened Tables
  import opened Reconcile
  import opened ReconcileProperties
  import Joins
  import MergeSort
  import ColumnTypes
  import Quarter
  import QuarterLayout
  import opened QuarterChecks

  const CodeName: string := "法人コード"
  const CorporationName: string := "法人名"
  /** `usecols=["法人コード", "法人名"]` of the master file. */
  const MasterColumns: seq<string> := [CodeName, CorporationName]

  // ----- add_master_data -----

  /** The master after polars' suffix rule: its name column is called
      `nameColumn`, its code column is the join key. */
  function MasterSide(master: Table, nameColumn: string): (r: Table)
    requires WellFormed(master) && master.columns == MasterColumns && nameColumn != CodeName
    ensures WellFormed(r) && r.columns == [CodeName, nameColumn] && |r.rows| == |master.rows|
    ensures forall j :: 0 <= j < |master.rows| ==>
      r.rows[j][CodeName] == master.rows[j][CodeName] && r.rows[j][nameColumn] == master.rows[j][CorporationName]
  {
    var rows := seq(|master.rows|, j requires 0 <= j < |master.rows| =>
      map[CodeName := master.rows[j][CodeName], nameColumn := master.rows[j][CorporationName]]);
    assert forall j :: 0 <= j < |rows| ==> rows[j].Keys == Names([CodeName, nameColumn]);
    Table([CodeName, nameColumn], rows)
  }

  /** `df1.join(df_master, on=["法人コード"], how="left", suffix="_master")`:
      the master's name arrives as `法人名_master` when the table has a name
      of its own, as `法人名` otherwise. `None` is polars' error for a
      missing code column or for a suffixed name that is already taken. */
  function JoinMaster(df1: Table, master: Table): (r: Option<Table>)
    requires WellFormed(df1) && WellFormed(master) && master.columns == MasterColumns
    ensures r.None? <==> CodeName !in df1.columns || (CorporationName in df1.columns && Quarter.MasterName in df1.columns)
    ensures r.Some? ==> WellFormed(r.value) && CorporationName in r.value.columns && |r.value.rows| >= |df1.rows|
    ensures r.Some? && CorporationName in df1.columns ==> Quarter.MasterName in r.value.columns
  {
    if CodeName !in df1.columns || (CorporationName in df1.columns && Quarter.MasterName in df1.columns) then None
    else
      var nameColumn := if CorporationName in df1.columns then Quarter.MasterName else CorporationName;
      var side := MasterSide(master, nameColumn);
      Joins.LeftJoin(df1, side, [CodeName], [CodeName])
  }

  /** `add_master_data(df1)`: the join, then the name coalesce. A master
      file that cannot be found (`None`) leaves the table as it is. */
  function AddMasterData(df1: Table, master: Option<Table>): (r: Option<Table>)
    requires WellFormed(df1) && (master.Some? ==> WellFormed(master.value) && master.value.columns == MasterColumns)
    ensures master.None? ==> r == Some(df1)
    ensures master.Some? ==> (r.Some? <==> JoinMaster(df1, master.value).Some?)
    ensures r.Some? ==> WellFormed(r.value)
    ensures r.Some? && master.Some? ==> CorporationName in r.value.columns && Quarter.MasterName !in r.value.columns
  {
    if master.None? then Some(df1)
    else
      var joined := JoinMaster(df1, master.value);
      if joined.None? then None else Quarter.AddMasterName(joined.value)
  }

  /** No two master rows carry the same non-null code. */
  predicate UniqueCodes(master: Table)
    requires WellFormed(master) && CodeName in master.columns
  {
    forall j1, j2 :: 0 <= j1 < j2 < |master.rows| && master.rows[j1][CodeName] != Null ==>
      master.rows[j1][CodeName] != master.rows[j2][CodeName]
  }

  // ----- keeping the yearly figures -----

  /** `u` has the same yearly metric columns as `t`, each with the same
      total: the figures both snapshots read agree. */
  predicate KeepsYearTotals(t: Table, u: Table, years: seq<string>, current: string)
    requires WellFormed(t) && WellFormed(u)
  {
    forall y, s :: y in years && s in SuffixesFor(y, current) ==>
      && (MetricColumn(y, s) in t.columns <==> MetricColumn(y, s) in u.columns)
      && (MetricColumn(y, s) in t.columns ==> Total(t, MetricColumn(y, s)) == Total(u, MetricColumn(y, s)))
  }

  lemma KeepsTransitive(t: Table, u: Table, v: Table, years: seq<string>, current: string)
    requires WellFormed(t) && WellFormed(u) && WellFormed(v)
    requires KeepsYearTotals(t, u, years, current) && KeepsYearTotals(u, v, years, current)
    ensures KeepsYearTotals(t, v, years, current)
  {
  }

  /** A yearly column is none of the names the steps add, drop or cast:
      its last letter is one of the metric names' last letters. */
  lemma MetricIsNoHelper(y: string, s: Suffix)
    ensures var c := MetricColumn(y, s);
      && c != CodeName && c != CorporationName && c != Quarter.MasterName && c != Quarter.StaffName
      && c != QuarterLayout.OfficeOrderColumn && c != "得意先コード" && c != "商品コード"
  {
    var c := MetricColumn(y, s);
    assert c[|c| - 1] == SuffixName(s)[|SuffixName(s)| - 1];
    assert c[|c| - 1] in {'数', '㎡', '上', '利'};
  }

  /** Two tables whose column `c` holds the same cells have the same total. */
  lemma SameCellsSameTotal(t: Table, u: Table, c: string)
    requires WellFormed(t) && WellFormed(u) && c in t.columns && c in u.columns && |t.rows| == |u.rows|
    requires forall i :: 0 <= i < |t.rows| ==> u.rows[i][c] == t.rows[i][c]
    ensures Total(u, c) == Total(t, c)
  {
    assert Column(u, c) == Column(t, c);
  }

  /** A left join in which every left row has at most one partner keeps
      the left rows one for one, with their cells. */
  lemma LeftJoinKeepsRows(l: Table, r: Table, lk: seq<string>, rk: seq<string>)
    requires WellFormed(l) && WellFormed(r) && Joins.LeftJoin(l, r, lk, rk).Some?
    requires forall i :: 0 <= i < |l.rows| ==> |Joins.Matches(l.rows[i], r.rows, lk, rk)| <= 1
    ensures var out := Joins.LeftJoin(l, r, lk, rk).value;
      |out.rows| == |l.rows| && forall i, c :: 0 <= i < |l.rows| && c in l.columns ==> out.rows[i][c] == l.rows[i][c]
  {
    var cols := Joins.JoinColumns(l.columns, r.columns);
    Joins.LeftPartOneToOne(cols, l.rows, r.rows, lk, rk);
    var out := Joins.LeftJoin(l, r, lk, rk).value;
    forall i, c | 0 <= i < |l.rows| && c in l.columns ensures out.rows[i][c] == l.rows[i][c] {
      assert c in Names(cols) && c in l.rows[i];
    }
  }

  /** A master with unique codes partners each row at most once. */
  lemma MasterPartnersOnce(master: Table, nameColumn: string, a: Row)
    requires WellFormed(master) && master.columns == MasterColumns && nameColumn != CodeName && UniqueCodes(master)
    ensures |Joins.Matches(a, MasterSide(master, nameColumn).rows, [CodeName], [CodeName])| <= 1
  {
    var side := MasterSide(master, nameColumn);
    var lk := [CodeName];
    forall j1, j2 | 0 <= j1 < j2 < |side.rows| && Joins.KeysMatch(a, side.rows[j1], lk, lk)
      ensures !Joins.KeysMatch(a, side.rows[j2], lk, lk)
    {
      assert a[CodeName] == side.rows[j1][CodeName] == master.rows[j1][CodeName] != Null;
      assert side.rows[j2][CodeName] == master.rows[j2][CodeName];
    }
    Joins.MatchesAtMostOne(a, side.rows, lk, lk);
  }

  /** The master join keeps each table row exactly once, with its cells,
      when the master has each code at most once. */
  lemma JoinMasterRows(df1: Table, master: Table)
    requires WellFormed(df1) && WellFormed(master) && master.columns == MasterColumns && UniqueCodes(master)
    requires JoinMaster(df1, master).Some?
    ensures var r := JoinMaster(df1, master).value;
      |r.rows| == |df1.rows| && forall i, c :: 0 <= i < |df1.rows| && c in df1.columns ==> r.rows[i][c] == df1.rows[i][c]
  {
    var nameColumn := if CorporationName in df1.columns then Quarter.MasterName else CorporationName;
    var side := MasterSide(master, nameColumn);
    forall i | 0 <= i < |df1.rows| ensures |Joins.Matches(df1.rows[i], side.rows, [CodeName], [CodeName])| <= 1 {
      MasterPartnersOnce(master, nameColumn, df1.rows[i]);
    }
    LeftJoinKeepsRows(df1, side, [CodeName], [CodeName]);
  }

  /** The master join adds the code and the master's name column only. */
  lemma JoinMasterColumns(df1: Table, master: Table)
    requires WellFormed(df1) && WellFormed(master) && master.columns == MasterColumns
    requires JoinMaster(df1, master).Some?
    ensures forall c :: c != CodeName && c != CorporationName && c != Quarter.MasterName ==>
      (c in df1.columns <==> c in JoinMaster(df1, master).value.columns)
  {
    var nameColumn := if CorporationName in df1.columns then Quarter.MasterName else CorporationName;
    var j := JoinMaster(df1, master).value;
    assert j.columns == Joins.JoinColumns(df1.columns, [CodeName, nameColumn]);
    assert Names(j.columns) == Names(df1.columns) + {CodeName, nameColumn};
    forall c | c != CodeName && c != CorporationName && c != Quarter.MasterName
      ensures c in df1.columns <==> c in j.columns
    {
      assert c in j.columns <==> c in Names(j.columns);
      assert c in df1.columns <==> c in Names(df1.columns);
    }
  }

  /** The master join keeps every yearly figure. */
  lemma JoinKeeps(df1: Table, master: Table, years: seq<string>, current: string)
    requires WellFormed(df1) && WellFormed(master) && master.columns == MasterColumns && UniqueCodes(master)
    requires JoinMaster(df1, master).Some?
    ensures KeepsYearTotals(df1, JoinMaster(df1, master).value, years, current)
  {
    var j := JoinMaster(df1, master).value;
    JoinMasterRows(df1, master);
    JoinMasterColumns(df1, master);
    forall y, s | y in years && s in SuffixesFor(y, current)
      ensures && (MetricColumn(y, s) in df1.columns <==> MetricColumn(y, s) in j.columns)
              && (MetricColumn(y, s) in df1.columns ==> Total(df1, MetricColumn(y, s)) == Total(j, MetricColumn(y, s)))
    {
      var c := MetricColumn(y, s);
      MetricIsNoHelper(y, s);
      if c in df1.columns {
        SameCellsSameTotal(df1, j, c);
      }
    }
  }

  /** The name coalesce keeps every yearly figure. */
  lemma CoalesceKeeps(j: Table, years: seq<string>, current: string)
    requires WellFormed(j) && Quarter.AddMasterName(j).Some?
    ensures KeepsYearTotals(j, Quarter.AddMasterName(j).value, years, current)
  {
    var r := Quarter.AddMasterName(j).value;
    forall y, s | y in years && s in SuffixesFor(y, current)
      ensures && (MetricColumn(y, s) in j.columns <==> MetricColumn(y, s) in r.columns)
              && (MetricColumn(y, s) in j.columns ==> Total(j, MetricColumn(y, s)) == Total(r, MetricColumn(y, s)))
    {
      var c := MetricColumn(y, s);
      MetricIsNoHelper(y, s);
      if c in j.columns && Quarter.MasterName in j.columns {
        SameCellsSameTotal(j, r, c);
      }
    }
  }

  /** The master step keeps every yearly figure. */
  lemma MasterKeeps(df1: Table, master: Option<Table>, years: seq<string>, current: string)
    requires WellFormed(df1) && (master.Some? ==> WellFormed(master.value) && master.value.columns == MasterColumns)
    requires master.Some? ==> UniqueCodes(master.value)
    requires AddMasterData(df1, master).Some?
    ensures KeepsYearTotals(df1, AddMasterData(df1, master).value, years, current)
  {
    if master.Some? {
      var j := JoinMaster(df1, master.value).value;
      JoinKeeps(df1, master.value, years, current);
      CoalesceKeeps(j, years, current);
      KeepsTransitive(df1, j, AddMasterData(df1, master).value, years, current);
    }
  }

  /** The product aggregation keeps every yearly figure. */
  lemma ProductKeeps(df3: Table, years: seq<string>, current: string)
    requires WellFormed(df3) && Quarter.ProcessProductData(df3).Some?
    ensures KeepsYearTotals(df3, Quarter.ProcessProductData(df3).value, years, current)
  {
    forall y, s | y in years && s in SuffixesFor(y, current)
      ensures MetricColumn(y, s) !in Quarter.ProductKeys && MetricColumn(y, s) != Quarter.StaffName
    {
      MetricIsNoHelper(y, s);
      forall k | k in Quarter.ProductKeys ensures MetricColumn(y, s) != k {
        QuarterLayout.MetricNotKey(y, s, k);
      }
    }
  }

  /** Reordering keeps every yearly figure. */
  lemma ReorderKeeps(t: Table, base: seq<string>, years: seq<string>, current: string)
    requires WellFormed(t) && YearLabels(years) && Distinct(years) && Distinct(base)
    requires forall k :: k in base ==> k in QuarterLayout.CorporationBase + QuarterLayout.ClientBase + Quarter.ProductKeys
    ensures KeepsYearTotals(t, QuarterLayout.ReorderTable(t, base, years, current), years, current)
  {
    var r := QuarterLayout.ReorderTable(t, base, years, current);
    forall y, s | y in years && s in SuffixesFor(y, current)
      ensures && (MetricColumn(y, s) in t.columns <==> MetricColumn(y, s) in r.columns)
              && (MetricColumn(y, s) in t.columns ==> Total(t, MetricColumn(y, s)) == Total(r, MetricColumn(y, s)))
    {
      var c := MetricColumn(y, s);
      QuarterLayout.YearColumnsMembers(years, current, c);
      if c in t.columns {
        assert c in r.columns;
        SameCellsSameTotal(t, r, c);
      }
    }
  }

  /** Casting a code column keeps every yearly figure. */
  lemma CastKeeps(t: Table, code: string, years: seq<string>, current: string)
    requires WellFormed(t) && code in {"法人コード", "得意先コード", "商品コード"}
    ensures KeepsYearTotals(t, ColumnTypes.CastColumn(t, code), years, current)
  {
    var r := ColumnTypes.CastColumn(t, code);
    forall y, s | y in years && s in SuffixesFor(y, current) && MetricColumn(y, s) in t.columns
      ensures Total(t, MetricColumn(y, s)) == Total(r, MetricColumn(y, s))
    {
      MetricIsNoHelper(y, s);
      SameCellsSameTotal(t, r, MetricColumn(y, s));
    }
  }

  /** The zero fill keeps every yearly figure. */
  lemma FillKeeps(t: Table, years: seq<string>, current: string)
    requires WellFormed(t)
    ensures KeepsYearTotals(t, QuarterLayout.FillTable(t, years, current), years, current)
  {
    forall y, s | y in years && s in SuffixesFor(y, current) && MetricColumn(y, s) in t.columns
      ensures Total(t, MetricColumn(y, s)) == Total(QuarterLayout.FillTable(t, years, current), MetricColumn(y, s))
    {
      QuarterLayout.FillTableKeepsTotals(t, years, current, MetricColumn(y, s));
    }
  }

  /** The zero-row filter keeps every yearly figure. */
  lemma FilterKeeps(t: Table, years: seq<string>, current: string)
    requires WellFormed(t)
    ensures KeepsYearTotals(t, QuarterLayout.FilterTable(t, years, current), years, current)
  {
    forall y, s | y in years && s in SuffixesFor(y, current) && MetricColumn(y, s) in t.columns
      ensures Total(t, MetricColumn(y, s)) == Total(QuarterLayout.FilterTable(t, years, current), MetricColumn(y, s))
    {
      QuarterLayout.YearColumnsMembers(years, current, MetricColumn(y, s));
      QuarterLayout.FilterKeepsTotals(t, years, current, MetricColumn(y, s));
    }
  }

  /** Sorting keeps every yearly figure, the helper column of the product
      sort being absent beforehand. */
  lemma SortKeeps(df1: Table, df2: Table, df3: Table, years: seq<string>, current: string)
    requires WellFormed(df1) && WellFormed(df2) && WellFormed(df3)
    requires QuarterLayout.SortData(df1, df2, df3, current).Some? && QuarterLayout.OfficeOrderColumn !in df3.columns
    ensures var r := QuarterLayout.SortData(df1, df2, df3, current).value;
      && WellFormed(r.0) && WellFormed(r.1) && WellFormed(r.2) && r.2.columns == df3.columns
      && KeepsYearTotals(df1, r.0, years, current) && KeepsYearTotals(df2, r.1, years, current)
      && KeepsYearTotals(df3, r.2, years, current)
  {
    var r := QuarterLayout.SortData(df1, df2, df3, current).value;
    forall y, s | y in years && s in SuffixesFor(y, current)
      ensures && (MetricColumn(y, s) in df1.columns ==> Total(df1, MetricColumn(y, s)) == Total(r.0, MetricColumn(y, s)))
              && (MetricColumn(y, s) in df2.columns ==> Total(df2, MetricColumn(y, s)) == Total(r.1, MetricColumn(y, s)))
              && (MetricColumn(y, s) in df3.columns ==> Total(df3, MetricColumn(y, s)) == Total(r.2, MetricColumn(y, s)))
    {
      var c := MetricColumn(y, s);
      if c in df1.columns {
        QuarterLayout.SortKeepsTotals(df1, r.0, c);
      }
      if c in df2.columns {
        QuarterLayout.SortKeepsTotals(df2, r.1, c);
      }
      if c in df3.columns {
        QuarterLayout.SortKeepsTotals(df3, r.2, c);
      }
    }
  }

  // ----- run -----

  /** Steps 5 to 10 of `run`, from the merged tables to the final ones. */
  function FinishTables(df1: Table, df2: Table, df3: Table, master: Option<Table>, years: seq<string>, current: string)
    : (r: Option<(Table, Table, Table)>)
    requires WellFormed(df1) && WellFormed(df2) && WellFormed(df3) && YearLabels(years) && Distinct(years)
    requires master.Some? ==> WellFormed(master.value) && master.value.columns == MasterColumns
    ensures r.Some? <==> AddMasterData(df1, master).Some? && Quarter.ProcessProductData(df3).Some?
    ensures r.Some? ==> WellFormed(r.value.0) && WellFormed(r.value.1) && WellFormed(r.value.2)
  {
    var m := AddMasterData(df1, master);
    var p := Quarter.ProcessProductData(df3);
    if m.None? || p.None? then None
    else
      QuarterLayout.BasesAreKeys();
      var o := QuarterLayout.ReorderColumns(m.value, df2, p.value, years, current);
      var f := QuarterLayout.FixDataTypes(o.0, o.1, o.2, years, current);
      ProductKeysSurvive(p.value, years, current);
      var s := QuarterLayout.SortData(f.0, f.1, f.2, current);
      SortKeeps(f.0, f.1, f.2, years, current);
      Some(QuarterLayout.FilterZeroRows(s.value.0, s.value.1, s.value.2, years, current))
  }

  /** The aggregated product table keeps its key columns through the
      reorder and the casts, so the product sort finds what it reads and
      there is no helper column left over. */
  lemma ProductKeysSurvive(p: Table, years: seq<string>, current: string)
    requires WellFormed(p) && YearLabels(years) && Distinct(years)
    requires |p.columns| >= |Quarter.ProductKeys| && p.columns[..|Quarter.ProductKeys|] == Quarter.ProductKeys
    ensures var o := QuarterLayout.ReorderTable(p, Quarter.ProductKeys, years, current);
      var f := QuarterLayout.FillTable(ColumnTypes.CastColumn(ColumnTypes.CastColumn(o, "得意先コード"), "商品コード"), years, current);
      f.columns == o.columns && QuarterLayout.OfficeOrderColumn !in f.columns && MergeSort.HasNameKeys(f)
  {
    QuarterLayout.BasesAreKeys();
    var o := QuarterLayout.ReorderTable(p, Quarter.ProductKeys, years, current);
    ReorderedProductKeys(p, years, current);
    NoOfficeOrderColumn(o, years, current);
    assert MergeSort.Office in Quarter.ProductKeys && MergeSort.ClientName in Quarter.ProductKeys
      && MergeSort.Category in Quarter.ProductKeys;
  }

  /** The product keys lead the table, so the reordering keeps them. */
  lemma ReorderedProductKeys(p: Table, years: seq<string>, current: string)
    requires WellFormed(p) && YearLabels(years) && Distinct(years)
    requires |p.columns| >= |Quarter.ProductKeys| && p.columns[..|Quarter.ProductKeys|] == Quarter.ProductKeys
    ensures forall k :: k in Quarter.ProductKeys ==> k in QuarterLayout.ReorderTable(p, Quarter.ProductKeys, years, current).columns
  {
    QuarterLayout.BasesAreKeys();
    forall k | k in Quarter.ProductKeys ensures k in p.columns {
      var j :| 0 <= j < |Quarter.ProductKeys| && Quarter.ProductKeys[j] == k;
      assert p.columns[..|Quarter.ProductKeys|][j] == k;
    }
  }

  /** The reordered product table has no sort helper column: the helper is
      neither a key nor a yearly column. */
  lemma NoOfficeOrderColumn(o: Table, years: seq<string>, current: string)
    requires WellFormed(o) && forall c :: c in o.columns ==> c in Quarter.ProductKeys || c in QuarterLayout.YearColumns(years, current)
    ensures QuarterLayout.OfficeOrderColumn !in o.columns
  {
    if QuarterLayout.OfficeOrderColumn in o.columns {
      assert QuarterLayout.OfficeOrderColumn !in Quarter.ProductKeys;
      QuarterLayout.YearColumnsMembers(years, current, QuarterLayout.OfficeOrderColumn);
      var y, s :| y in years && s in SuffixesFor(y, current) && QuarterLayout.OfficeOrderColumn == MetricColumn(y, s);
      MetricIsNoHelper(y, s);
      assert false;
    }
  }

  /** What one run hands back: the final tables and the differences of the
      two cross-checks. */
  datatype Outcome = Outcome(final: (Table, Table, Table), mergeDifferences: seq<Difference>, finalDifferences: seq<Difference>)

  /** `run()` on the tables the loaders read (`current`, `past`) and the
      master table (`None` when the file is missing). The snapshots of the
      first two checkpoints are only logged and are left out. */
  function Run(current: (Table, Table, Table), past: (Table, Table, Table), master: Option<Table>,
               years: seq<string>, currentYear: string): (r: Option<Outcome>)
    requires WellFormed(current.0) && WellFormed(current.1) && WellFormed(current.2)
    requires WellFormed(past.0) && WellFormed(past.1) && WellFormed(past.2)
    requires master.Some? ==> WellFormed(master.value) && master.value.columns == MasterColumns
    requires YearLabels(years) && Distinct(years)
  {
    var pre := Quarter.PreprocessPastData(past.1, past.2);
    if pre.None? then None
    else
      var pastData := (past.0, pre.value.0, pre.value.1);
      var merged := Quarter.MergeData(current.0, current.1, current.2, pastData.0, pastData.1, pastData.2, years, currentYear);
      if merged.None? then None
      else
        var (m1, m2, m3) := merged.value;
        var before := BeforeMerge(Some(current), Some(pastData), years, currentYear);
        var after := AfterMerge(m1, m2, m3, years, currentYear);
        var fin := FinishTables(m1, m2, m3, master, years, currentYear);
        if fin.None? then None
        else
          var (f1, f2, f3) := fin.value;
          var finalValues := AfterMerge(f1, f2, f3, years, currentYear);
          Some(Outcome(fin.value, Differences(before.allYears, after, years, currentYear),
                       Differences(after, finalValues, years, currentYear)))
  }

  /** The corporation table keeps every yearly figure from the merge to
      the end. */
  lemma CorporationsKeep(df1: Table, df2: Table, df3: Table, master: Option<Table>, years: seq<string>, current: string)
    requires WellFormed(df1) && WellFormed(df2) && WellFormed(df3) && YearLabels(years) && Distinct(years)
    requires master.Some? ==> WellFormed(master.value) && master.value.columns == MasterColumns && UniqueCodes(master.value)
    requires FinishTables(df1, df2, df3, master, years, current).Some?
    ensures KeepsYearTotals(df1, FinishTables(df1, df2, df3, master, years, current).value.0, years, current)
  {
    QuarterLayout.BasesAreKeys();
    var m := AddMasterData(df1, master).value;
    var p := Quarter.ProcessProductData(df3).value;
    var o := QuarterLayout.ReorderColumns(m, df2, p, years, current);
    var f := QuarterLayout.FixDataTypes(o.0, o.1, o.2, years, current);
    ProductKeysSurvive(p, years, current);
    SortKeeps(f.0, f.1, f.2, years, current);
    var s := QuarterLayout.SortData(f.0, f.1, f.2, current).value;
    var r := FinishTables(df1, df2, df3, master, years, current).value;
    var c1 := ColumnTypes.CastColumn(o.0, "法人コード");
    // corporations: master, reorder, cast, fill, sort, filter
    MasterKeeps(df1, master, years, current);
    ReorderKeeps(m, QuarterLayout.CorporationBase, years, current);
    CastKeeps(o.0, "法人コード", years, current);
    FillKeeps(c1, years, current);
    FilterKeeps(s.0, years, current);
    KeepsTransitive(df1, m, o.0, years, current);
    KeepsTransitive(df1, o.0, c1, years, current);
    KeepsTransitive(df1, c1, f.0, years, current);
    KeepsTransitive(df1, f.0, s.0, years, current);
    KeepsTransitive(df1, s.0, r.0, years, current);
  }

  /** The client table keeps every yearly figure from the merge to the end. */
  lemma ClientsKeep(df1: Table, df2: Table, df3: Table, master: Option<Table>, years: seq<string>, current: string)
    requires WellFormed(df1) && WellFormed(df2) && WellFormed(df3) && YearLabels(years) && Distinct(years)
    requires master.Some? ==> WellFormed(master.value) && master.value.columns == MasterColumns && UniqueCodes(master.value)
    requires FinishTables(df1, df2, df3, master, years, current).Some?
    ensures KeepsYearTotals(df2, FinishTables(df1, df2, df3, master, years, current).value.1, years, current)
  {
    QuarterLayout.BasesAreKeys();
    var m := AddMasterData(df1, master).value;
    var p := Quarter.ProcessProductData(df3).value;
    var o := QuarterLayout.ReorderColumns(m, df2, p, years, current);
    var f := QuarterLayout.FixDataTypes(o.0, o.1, o.2, years, current);
    ProductKeysSurvive(p, years, current);
    SortKeeps(f.0, f.1, f.2, years, current);
    var s := QuarterLayout.SortData(f.0, f.1, f.2, current).value;
    var r := FinishTables(df1, df2, df3, master, years, current).value;
    var c2 := ColumnTypes.CastColumn(o.1, "得意先コード");
    // clients: reorder, cast, fill, sort, filter
    ReorderKeeps(df2, QuarterLayout.ClientBase, years, current);
    CastKeeps(o.1, "得意先コード", years, current);
    FillKeeps(c2, years, current);
    FilterKeeps(s.1, years, current);
    KeepsTransitive(df2, o.1, c2, years, current);
    KeepsTransitive(df2, c2, f.1, years, current);
    KeepsTransitive(df2, f.1, s.1, years, current);
    KeepsTransitive(df2, s.1, r.1, years, current);
  }

  /** The product table keeps every yearly figure from the merge to the end. */
  lemma ProductsKeep(df1: Table, df2: Table, df3: Table, master: Option<Table>, years: seq<string>, current: string)
    requires WellFormed(df1) && WellFormed(df2) && WellFormed(df3) && YearLabels(years) && Distinct(years)
    requires master.Some? ==> WellFormed(master.value) && master.value.columns == MasterColumns && UniqueCodes(master.value)
    requires FinishTables(df1, df2, df3, master, years, current).Some?
    ensures KeepsYearTotals(df3, FinishTables(df1, df2, df3, master, years, current).value.2, years, current)
  {
    QuarterLayout.BasesAreKeys();
    var m := AddMasterData(df1, master).value;
    var p := Quarter.ProcessProductData(df3).value;
    var o := QuarterLayout.ReorderColumns(m, df2, p, years, current);
    var f := QuarterLayout.FixDataTypes(o.0, o.1, o.2, years, current);
    ProductKeysSurvive(p, years, current);
    SortKeeps(f.0, f.1, f.2, years, current);
    var s := QuarterLayout.SortData(f.0, f.1, f.2, current).value;
    var r := FinishTables(df1, df2, df3, master, years, current).value;
    var c3a := ColumnTypes.CastColumn(o.2, "得意先コード");
    var c3 := ColumnTypes.CastColumn(c3a, "商品コード");
    // products: aggregation, reorder, two casts, fill, sort, filter
    ProductKeeps(df3, years, current);
    ReorderKeeps(p, Quarter.ProductKeys, years, current);
    CastKeeps(o.2, "得意先コード", years, current);
    CastKeeps(c3a, "商品コード", years, current);
    FillKeeps(c3, years, current);
    FilterKeeps(s.2, years, current);
    KeepsTransitive(df3, p, o.2, years, current);
    KeepsTransitive(df3, o.2, c3a, years, current);
    KeepsTransitive(df3, c3a, c3, years, current);
    KeepsTransitive(df3, c3, f.2, years, current);
    KeepsTransitive(df3, f.2, s.2, years, current);
    KeepsTransitive(df3, s.2, r.2, years, current);
  }

  /** No step after the merge changes a yearly figure of any table. */
  lemma FinishKeeps(df1: Table, df2: Table, df3: Table, master: Option<Table>, years: seq<string>, current: string)
    requires WellFormed(df1) && WellFormed(df2) && WellFormed(df3) && YearLabels(years) && Distinct(years)
    requires master.Some? ==> WellFormed(master.value) && master.value.columns == MasterColumns && UniqueCodes(master.value)
    requires FinishTables(df1, df2, df3, master, years, current).Some?
    ensures var r := FinishTables(df1, df2, df3, master, years, current).value;
      && KeepsYearTotals(df1, r.0, years, current) && KeepsYearTotals(df2, r.1, years, current)
      && KeepsYearTotals(df3, r.2, years, current)
  {
    CorporationsKeep(df1, df2, df3, master, years, current);
    ClientsKeep(df1, df2, df3, master, years, current);
    ProductsKeep(df1, df2, df3, master, years, current);
  }

  /** Tables that keep each other's yearly figures give the same snapshot. */
  lemma SnapshotsAgree(a1: Table, a2: Table, a3: Table, b1: Table, b2: Table, b3: Table, years: seq<string>, current: string)
    requires WellFormed(a1) && WellFormed(a2) && WellFormed(a3) && WellFormed(b1) && WellFormed(b2) && WellFormed(b3)
    requires KeepsYearTotals(a1, b1, years, current) && KeepsYearTotals(a2, b2, years, current)
    requires KeepsYearTotals(a3, b3, years, current)
    ensures AfterMerge(a1, a2, a3, years, current) == AfterMerge(b1, b2, b3, years, current)
  {
    var before := AfterMerge(a1, a2, a3, years, current);
    var after := AfterMerge(b1, b2, b3, years, current);
    forall y | y in years ensures before[y] == after[y] {
      var ss := SuffixesFor(y, current);
      var e := YearEntry(a1, a2, a3, y, ss, false);
      var g := YearEntry(b1, b2, b3, y, ss, false);
      forall k: Key ensures (k in e <==> k in g) && (k in e ==> e[k] == g[k]) {
        DimKeeps(a1, a2, a3, b1, b2, b3, years, current, k.dim);
      }
    }
  }

  /** The table of each dimension keeps its yearly figures. */
  lemma DimKeeps(a1: Table, a2: Table, a3: Table, b1: Table, b2: Table, b3: Table, years: seq<string>, current: string, d: Dim)
    requires WellFormed(a1) && WellFormed(a2) && WellFormed(a3) && WellFormed(b1) && WellFormed(b2) && WellFormed(b3)
    requires KeepsYearTotals(a1, b1, years, current) && KeepsYearTotals(a2, b2, years, current)
    requires KeepsYearTotals(a3, b3, years, current)
    ensures WellFormed(DimTable(a1, a2, a3, d)) && WellFormed(DimTable(b1, b2, b3, d))
    ensures KeepsYearTotals(DimTable(a1, a2, a3, d), DimTable(b1, b2, b3, d), years, current)
  {
    match d
    case Corp =>
    case Client =>
    case Product =>
  }

  /** The final cross-check of `run` reports nothing: the final snapshot is
      the one taken after the merge, provided the master lists each code at
      most once. */
  lemma FinalCheckClean(current: (Table, Table, Table), past: (Table, Table, Table), master: Option<Table>,
                        years: seq<string>, currentYear: string)
    requires WellFormed(current.0) && WellFormed(current.1) && WellFormed(current.2)
    requires WellFormed(past.0) && WellFormed(past.1) && WellFormed(past.2)
    requires master.Some? ==> WellFormed(master.value) && master.value.columns == MasterColumns && UniqueCodes(master.value)
    requires YearLabels(years) && Distinct(years)
    requires Run(current, past, master, years, currentYear).Some?
    ensures Run(current, past, master, years, currentYear).value.finalDifferences == []
  {
    var pre := Quarter.PreprocessPastData(past.1, past.2).value;
    var merged := Quarter.MergeData(current.0, current.1, current.2, past.0, pre.0, pre.1, years, currentYear).value;
    var fin := FinishTables(merged.0, merged.1, merged.2, master, years, currentYear).value;
    FinishKeeps(merged.0, merged.1, merged.2, master, years, currentYear);
    SnapshotsAgree(merged.0, merged.1, merged.2, fin.0, fin.1, fin.2, years, currentYear);
    var after := AfterMerge(merged.0, merged.1, merged.2, years, currentYear);
    AgreeingSnapshots(after, after, years, currentYear);
  }
}
