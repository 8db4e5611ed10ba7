/** The overwriting merge of the second-quarter script
    (`02_merge_past_data_2Q.py`): the fiscal year from the month, the
    lenient renaming of the historical tables, the `_past` suffix on every
    historical column, the joins on `left_on`/`right_on` followed by the
    authoritative null reconciliation, the master-name coalescing, the
    product aggregation, the column order, the sort with the custom office
    order, the zero fill and the filter of all-zero rows. The operations
    that read the processor's year settings take them as parameters here;
    `DataProcessor` (module `QuarterProcessor`) holds them. */
module Quarter {

  import opened Wrappers
  import opened Text
  import opened Tables
  import opened Joins
  import opened Aggregation
  import opened Reconcile
  import opened ReconcileProperties
  import Config
  import MergePast

  // ----- the fiscal years -----

  /** `_calculate_fiscal_years()` in calendar year `year` and month
      `month`: `(processing_year, last_processing_year)`. */
  function CalculateFiscalYears(year: int, month: int): (r: (int, int))
    ensures r.1 == r.0 - 1
    ensures r.0 == year || r.0 == year - 1
    ensures r.0 == year <==> month >= 4
  {
    var processing := if month >= 4 then year else year - 1;
    (processing, processing - 1)
  }

  /** The script's own computation agrees with the settings module's
      `get_fiscal_years`: the same processing year, and the strings it
      derives are that module's two year labels. */
  lemma FiscalYearsAgree(year: int, month: int)
    ensures var r := CalculateFiscalYears(year, month);
      var f := Config.GetFiscalYears(month, year);
      && r.0 == f.currentYear
      && IntToString(r.0) == f.year && IntToString(r.1) == f.lastYear
  {
  }

  // ----- preprocess_past_data -----

  /** The renames `preprocess_past_data` applies to the historical client
      table: each of the two old names, when present. */
  function ClientRenames(cols: seq<string>): map<string, string> {
    (if "取引先コード" in cols then map["取引先コード" := "得意先コード"] else map[])
      + (if "取引先名" in cols then map["取引先名" := "得意先名"] else map[])
  }

  function ProductRenames(cols: seq<string>): map<string, string> {
    if "得意先" in cols then map["得意先" := "得意先名"] else map[]
  }

  /** The new name of one historical client column. */
  function ClientName(c: string): string {
    if c == "取引先コード" then "得意先コード" else if c == "取引先名" then "得意先名" else c
  }

  function ProductName(c: string): string {
    if c == "得意先" then "得意先名" else c
  }

  /** `df.rename(m)` when `m` is not empty, the frame itself otherwise. */
  function RenameIfAny(t: Table, m: map<string, string>): (r: Option<Table>)
    requires WellFormed(t)
  {
    if m == map[] then Some(t) else Rename(t, m)
  }

  /** A rename that sends every column through `f`: defined exactly when
      the new names stay distinct, and then each cell moves with its
      column. */
  lemma RenamedBy(t: Table, m: map<string, string>, f: string -> string)
    requires WellFormed(t) && m.Keys <= Names(t.columns)
    requires forall c :: c in t.columns ==> f(c) == NewName(m, c)
    ensures RenameIfAny(t, m).Some? <==> Distinct(RenamedNames(t.columns, m))
    ensures RenameIfAny(t, m).Some? ==>
      && WellFormed(RenameIfAny(t, m).value) && |RenameIfAny(t, m).value.rows| == |t.rows|
      && |RenameIfAny(t, m).value.columns| == |t.columns|
      && (forall j :: 0 <= j < |t.columns| ==> RenameIfAny(t, m).value.columns[j] == f(t.columns[j]))
      && forall i, j :: 0 <= i < |t.rows| && 0 <= j < |t.columns| ==>
           RenameIfAny(t, m).value.rows[i][RenameIfAny(t, m).value.columns[j]] == t.rows[i][t.columns[j]]
  {
    if m == map[] {
      assert RenamedNames(t.columns, m) == t.columns;
    }
  }

  /** The historical client table after `preprocess_past_data`: its
      `取引先コード`/`取引先名` become `得意先コード`/`得意先名` where present.
      `None` is the error polars raises when the new name is already taken. */
  function PastClientTable(df2p: Table): (r: Option<Table>)
    requires WellFormed(df2p)
    ensures r.None? <==>
      || ("取引先コード" in df2p.columns && "得意先コード" in df2p.columns)
      || ("取引先名" in df2p.columns && "得意先名" in df2p.columns)
    ensures r.Some? ==>
      && WellFormed(r.value) && |r.value.rows| == |df2p.rows| && |r.value.columns| == |df2p.columns|
      && "取引先コード" !in r.value.columns && "取引先名" !in r.value.columns
      && (forall j :: 0 <= j < |df2p.columns| ==> r.value.columns[j] == ClientName(df2p.columns[j]))
      && forall i, j :: 0 <= i < |df2p.rows| && 0 <= j < |df2p.columns| ==>
           r.value.rows[i][r.value.columns[j]] == df2p.rows[i][df2p.columns[j]]
  {
    var m := ClientRenames(df2p.columns);
    RenamedBy(df2p, m, ClientName);
    ClientRenamesDistinct(df2p.columns);
    var r := RenameIfAny(df2p, m);
    if r.None? then None
    else
      assert "取引先コード" !in r.value.columns && "取引先名" !in r.value.columns by {
        forall j | 0 <= j < |r.value.columns|
          ensures r.value.columns[j] != "取引先コード" && r.value.columns[j] != "取引先名"
        {
        }
      }
      r
  }

  /** The historical product table after `preprocess_past_data`: its
      `得意先` becomes `得意先名` where present. */
  function PastProductTable(df3p: Table): (r: Option<Table>)
    requires WellFormed(df3p)
    ensures r.None? <==> "得意先" in df3p.columns && "得意先名" in df3p.columns
    ensures r.Some? ==>
      && WellFormed(r.value) && |r.value.rows| == |df3p.rows| && |r.value.columns| == |df3p.columns|
      && "得意先" !in r.value.columns
      && (forall j :: 0 <= j < |df3p.columns| ==> r.value.columns[j] == ProductName(df3p.columns[j]))
      && forall i, j :: 0 <= i < |df3p.rows| && 0 <= j < |df3p.columns| ==>
           r.value.rows[i][r.value.columns[j]] == df3p.rows[i][df3p.columns[j]]
  {
    var m := ProductRenames(df3p.columns);
    RenamedBy(df3p, m, ProductName);
    ProductRenamesDistinct(df3p.columns);
    var r := RenameIfAny(df3p, m);
    if r.None? then None
    else
      assert "得意先" !in r.value.columns by {
        forall j | 0 <= j < |r.value.columns| ensures r.value.columns[j] != "得意先" {
        }
      }
      r
  }

  /** `preprocess_past_data(df2_past, df3_past)`: both historical tables
      renamed, or the error of either. */
  function PreprocessPastData(df2p: Table, df3p: Table): (r: Option<(Table, Table)>)
    requires WellFormed(df2p) && WellFormed(df3p)
    ensures r.Some? <==> PastClientTable(df2p).Some? && PastProductTable(df3p).Some?
    ensures r.Some? ==> r.value == (PastClientTable(df2p).value, PastProductTable(df3p).value)
  {
    var r2 := PastClientTable(df2p);
    var r3 := PastProductTable(df3p);
    if r2.None? || r3.None? then None else Some((r2.value, r3.value))
  }

  /** The client renames keep the names distinct unless a new name is
      already a column. */
  lemma ClientRenamesDistinct(cols: seq<string>)
    requires Distinct(cols)
    ensures Distinct(RenamedNames(cols, ClientRenames(cols))) <==>
      !("取引先コード" in cols && "得意先コード" in cols) && !("取引先名" in cols && "得意先名" in cols)
  {
    var m := ClientRenames(cols);
    assert m.Keys <= Names(cols);
    RenameDistinctIff(cols, m);
    if "取引先コード" in cols && "得意先コード" in cols {
      assert "得意先コード" !in m && m["取引先コード"] == "得意先コード";
    } else if "取引先名" in cols && "得意先名" in cols {
      assert "得意先名" !in m && m["取引先名"] == "得意先名";
    } else {
      forall c, a | c in cols && c !in m && a in m ensures m[a] != c {
        assert a == "取引先コード" || a == "取引先名";
      }
    }
  }

  lemma ProductRenamesDistinct(cols: seq<string>)
    requires Distinct(cols)
    ensures Distinct(RenamedNames(cols, ProductRenames(cols))) <==> !("得意先" in cols && "得意先名" in cols)
  {
    var m := ProductRenames(cols);
    assert m.Keys <= Names(cols);
    RenameDistinctIff(cols, m);
    if "得意先" in cols && "得意先名" in cols {
      assert "得意先名" !in m && m["得意先"] == "得意先名";
    }
  }

  // ----- _add_past_suffix -----

  /** Different names keep different shadow names. */
  lemma PastNameInjective(a: string, b: string)
    requires PastName(a) == PastName(b)
    ensures a == b
  {
    assert a == PastName(a)[..|a|] && b == PastName(b)[..|b|];
  }

  /** The mapping that sends every column to its shadow name. */
  function AllPastMap(cols: seq<string>): map<string, string> {
    map c | c in Names(cols) :: PastName(c)
  }

  /** Renaming every column to its shadow is always possible. */
  lemma AllPastRename(df: Table)
    requires WellFormed(df)
    ensures Rename(df, AllPastMap(df.columns)).Some?
  {
    var m := AllPastMap(df.columns);
    var names := RenamedNames(df.columns, m);
    forall i, j | 0 <= i < j < |names| ensures names[i] != names[j] {
      if names[i] == names[j] {
        PastNameInjective(df.columns[i], df.columns[j]);
      }
    }
  }

  /** The frame after `_add_past_suffix`: every column, keys included,
      carries the marker, in the same place, with the same cells. */
  function AllSuffixed(df: Table): (r: Table)
    requires WellFormed(df)
    ensures WellFormed(r) && |r.rows| == |df.rows| && |r.columns| == |df.columns|
    ensures forall j :: 0 <= j < |df.columns| ==> r.columns[j] == PastName(df.columns[j])
    ensures forall i, j :: 0 <= i < |df.rows| && 0 <= j < |df.columns| ==>
      r.rows[i][r.columns[j]] == df.rows[i][df.columns[j]]
  {
    AllPastRename(df);
    if |df.columns| == 0 then df else Rename(df, AllPastMap(df.columns)).value
  }

  /** A name is a shadow column of the suffixed frame exactly when it is
      the shadow of a column of the frame. */
  lemma AllSuffixedNames(df: Table, c: string)
    requires WellFormed(df)
    ensures PastName(c) in AllSuffixed(df).columns <==> c in df.columns
  {
    var r := AllSuffixed(df);
    if PastName(c) in r.columns {
      var j := IndexOf(r.columns, PastName(c));
      PastNameInjective(c, df.columns[j]);
    }
    if c in df.columns {
      assert r.columns[IndexOf(df.columns, c)] == PastName(c);
    }
  }

  // ----- merge_data -----

  // The join keys are those of the protective merge.
  const CorporationKeys: seq<string> := MergePast.CorporationKey
  const ClientKeys: seq<string> := MergePast.ClientKeys
  const ProductKeys: seq<string> := MergePast.ProductJoinKeys

  /** `right_on`: the shadow names of the keys. */
  function PastNames(keys: seq<string>): (r: seq<string>)
    ensures |r| == |keys| && forall k :: 0 <= k < |keys| ==> r[k] == PastName(keys[k])
  {
    seq(|keys|, k requires 0 <= k < |keys| => PastName(keys[k]))
  }

  /** The shadow keys are all in the suffixed frame exactly when the keys
      are all in the frame. */
  lemma PastKeysPresent(b: Table, keys: seq<string>)
    requires WellFormed(b)
    ensures Names(PastNames(keys)) <= Names(AllSuffixed(b).columns) <==> forall k :: k in keys ==> k in b.columns
  {
    var s := AllSuffixed(b);
    var pk := PastNames(keys);
    NamesSubset(pk, s.columns);
    forall k | k in keys ensures PastName(k) in s.columns <==> k in b.columns {
      AllSuffixedNames(b, k);
    }
    if forall k :: k in pk ==> k in s.columns {
      forall k | k in keys ensures k in b.columns {
        var i :| 0 <= i < |keys| && keys[i] == k;
        assert pk[i] == PastName(k);
      }
    }
    if forall k :: k in keys ==> k in b.columns {
      forall x | x in pk ensures x in s.columns {
        var i :| 0 <= i < |pk| && pk[i] == x;
        assert keys[i] in keys;
      }
    }
  }

  /** `current.join(suffixed_past, how="full", left_on=keys,
      right_on=[k + "_past" for k in keys])`. */
  function JoinAllSuffixed(a: Table, b: Table, keys: seq<string>): (r: Option<Table>)
    requires WellFormed(a) && WellFormed(b)
    ensures r.Some? <==> |keys| > 0 && (forall k :: k in keys ==> k in a.columns && k in b.columns)
    ensures r.Some? ==> WellFormed(r.value) && |r.value.rows| >= |a.rows|
  {
    PastKeysPresent(b, keys);
    NamesSubset(keys, a.columns);
    FullJoin(a, AllSuffixed(b), keys, PastNames(keys))
  }

  /** The three tables after `merge_data`: each current table joined with
      its fully suffixed history, then reconciled under the authoritative
      policy. `None` is the error polars raises for a missing key column. */
  function MergeData(df1a: Table, df2a: Table, df3a: Table, df1b: Table, df2b: Table, df3b: Table,
                     years: seq<string>, current: string): (r: Option<(Table, Table, Table)>)
    requires WellFormed(df1a) && WellFormed(df2a) && WellFormed(df3a)
    requires WellFormed(df1b) && WellFormed(df2b) && WellFormed(df3b)
    ensures r.Some? <==>
      && (forall k :: k in CorporationKeys ==> k in df1a.columns && k in df1b.columns)
      && (forall k :: k in ClientKeys ==> k in df2a.columns && k in df2b.columns)
      && (forall k :: k in ProductKeys ==> k in df3a.columns && k in df3b.columns)
    ensures r.Some? ==>
      && WellFormed(r.value.0) && WellFormed(r.value.1) && WellFormed(r.value.2)
      && |r.value.0.rows| >= |df1a.rows| && |r.value.1.rows| >= |df2a.rows| && |r.value.2.rows| >= |df3a.rows|
  {
    var j1 := JoinAllSuffixed(df1a, df1b, CorporationKeys);
    var j2 := JoinAllSuffixed(df2a, df2b, ClientKeys);
    var j3 := JoinAllSuffixed(df3a, df3b, ProductKeys);
    if j1.None? || j2.None? || j3.None? then None
    else
      Some((FixSpec(j1.value, years, current, Authoritative),
            FixSpec(j2.value, years, current, Authoritative),
            FixSpec(j3.value, years, current, Authoritative)))
  }

  /** After the merge every table has every metric column the year list
      calls for (the quantity only for the current year), and no shadow
      column of the joined tables is left. */
  lemma MergeDataComplete(df1a: Table, df2a: Table, df3a: Table, df1b: Table, df2b: Table, df3b: Table,
                          years: seq<string>, current: string, y: string, s: Suffix)
    requires WellFormed(df1a) && WellFormed(df2a) && WellFormed(df3a)
    requires WellFormed(df1b) && WellFormed(df2b) && WellFormed(df3b)
    requires MergeData(df1a, df2a, df3a, df1b, df2b, df3b, years, current).Some?
    requires y in years && s in SuffixesFor(y, current)
    ensures var r := MergeData(df1a, df2a, df3a, df1b, df2b, df3b, years, current).value;
      MetricColumn(y, s) in r.0.columns && MetricColumn(y, s) in r.1.columns && MetricColumn(y, s) in r.2.columns
    ensures var r := MergeData(df1a, df2a, df3a, df1b, df2b, df3b, years, current).value;
      && (forall p :: p in JoinAllSuffixed(df1a, df1b, CorporationKeys).value.columns && EndsWith(p, PastMarker) ==>
        p !in r.0.columns)
      && (forall p :: p in JoinAllSuffixed(df2a, df2b, ClientKeys).value.columns && EndsWith(p, PastMarker) ==>
        p !in r.1.columns)
      && (forall p :: p in JoinAllSuffixed(df3a, df3b, ProductKeys).value.columns && EndsWith(p, PastMarker) ==>
        p !in r.2.columns)
  {
    var j1 := JoinAllSuffixed(df1a, df1b, CorporationKeys).value;
    var j2 := JoinAllSuffixed(df2a, df2b, ClientKeys).value;
    var j3 := JoinAllSuffixed(df3a, df3b, ProductKeys).value;
    FixHasExpectedColumns(j1, years, current, Authoritative, y, s);
    FixHasExpectedColumns(j2, years, current, Authoritative, y, s);
    FixHasExpectedColumns(j3, years, current, Authoritative, y, s);
    FixRemovesShadows(j1, years, current, Authoritative);
    FixRemovesShadows(j2, years, current, Authoritative);
    FixRemovesShadows(j3, years, current, Authoritative);
  }

  /** Under the overwriting policy a prior year's column is its shadow
      wherever the joined table has one: the historical value replaces the
      current one, null or not. */
  lemma MergeOverwritesPriorYears(t: Table, years: seq<string>, current: string, y: string, s: Suffix, i: nat)
    requires WellFormed(t) && YearLabels(years) && Distinct(years)
    requires y in years && y != current && s != Quantity && i < |t.rows|
    requires PastName(MetricColumn(y, s)) in t.columns
    ensures var c := MetricColumn(y, s); var r := FixSpec(t, years, current, Authoritative);
      c in r.columns && r.rows[i][c] == t.rows[i][PastName(c)]
  {
    FixPriorYear(t, years, current, Authoritative, y, s, i);
  }

  // ----- add_master_data -----

  const MasterName: string := "法人名_master"

  /** The coalesce step of `add_master_data`, after the left join with the
      master under suffix `_master`: the current name keeps its non-null
      cells and takes the master's where it is null, then the master column
      is dropped. `None` is the error the null check `df["法人名"]` raises
      when the table has no name column at all. */
  function AddMasterName(df1: Table): (r: Option<Table>)
    requires WellFormed(df1)
    ensures r.None? <==> "法人名" !in df1.columns
    ensures r.Some? ==> WellFormed(r.value) && |r.value.rows| == |df1.rows| && MasterName !in r.value.columns
    ensures r.Some? && MasterName !in df1.columns ==> r.value == df1
    ensures r.Some? && MasterName in df1.columns ==>
      && (forall c :: c in r.value.columns <==> c in df1.columns && c != MasterName)
      && (forall i :: 0 <= i < |df1.rows| ==>
            r.value.rows[i]["法人名"] == if df1.rows[i]["法人名"] != Null then df1.rows[i]["法人名"] else df1.rows[i][MasterName])
      && forall i, c :: 0 <= i < |df1.rows| && c in r.value.columns && c != "法人名" ==> r.value.rows[i][c] == df1.rows[i][c]
  {
    if "法人名" !in df1.columns then None
    else if MasterName in df1.columns then Some(MergePast.CoalesceDrop(df1, "法人名", MasterName))
    else Some(df1)
  }

  // ----- process_product_data -----

  const StaffName: string := "担当者名"

  /** `process_product_data(df3)`: the staff column dropped, then one row
      per distinct product key with every other column summed. `None` is the
      error polars raises when a key column is missing. */
  function ProcessProductData(df3: Table): (r: Option<Table>)
    requires WellFormed(df3)
    ensures r.Some? <==> forall k :: k in ProductKeys ==> k in df3.columns
    ensures r.Some? ==> WellFormed(r.value) && StaffName !in r.value.columns
    ensures r.Some? ==> |r.value.columns| >= |ProductKeys| && r.value.columns[..|ProductKeys|] == ProductKeys
    ensures r.Some? ==> forall c :: c in r.value.columns <==> c in df3.columns && c != StaffName
    ensures r.Some? ==> forall c :: c in df3.columns && c !in ProductKeys && c != StaffName ==>
      c in r.value.columns && Total(r.value, c) == Total(df3, c)
  {
    var d := if StaffName in df3.columns then DropColumn(df3, StaffName) else df3;
    var sums := Missing(d.columns, ProductKeys);
    assert Distinct(ProductKeys);
    StaffDropped(df3);
    var r := GroupSum(d, ProductKeys, sums);
    if r.None? then None
    else
      assert (ProductKeys + sums)[..|ProductKeys|] == ProductKeys;
      ProductTotals(df3);
      r
  }

  /** The per-product sums keep the total of every column other than the keys
      and the staff column. */
  lemma ProductTotals(df3: Table)
    requires WellFormed(df3)
    ensures var d := if StaffName in df3.columns then DropColumn(df3, StaffName) else df3;
      var sums := Missing(d.columns, ProductKeys);
      GroupSumValid(d, ProductKeys, sums) ==>
        forall c :: c in df3.columns && c !in ProductKeys && c != StaffName ==>
          c in sums && Total(GroupSum(d, ProductKeys, sums).value, c) == Total(df3, c)
  {
    var d := if StaffName in df3.columns then DropColumn(df3, StaffName) else df3;
    var sums := Missing(d.columns, ProductKeys);
    StaffDropped(df3);
    if GroupSumValid(d, ProductKeys, sums) {
      forall c | c in df3.columns && c !in ProductKeys && c != StaffName
        ensures c in sums && Total(GroupSum(d, ProductKeys, sums).value, c) == Total(df3, c)
      {
        GroupSumConserves(d, ProductKeys, sums, c);
        assert Column(d, c) == Column(df3, c);
      }
    }
  }

  /** Dropping the staff column keeps every other column. */
  lemma StaffDropped(df3: Table)
    requires WellFormed(df3)
    ensures var d := if StaffName in df3.columns then DropColumn(df3, StaffName) else df3;
      forall c :: c in d.columns <==> c in df3.columns && c != StaffName
  {
    var d := if StaffName in df3.columns then DropColumn(df3, StaffName) else df3;
    assert forall c :: c in d.columns <==> c in Names(d.columns);
    assert forall c :: c in df3.columns <==> c in Names(df3.columns);
  }

  /** The aggregated product table has one row per product key that occurs
      in the input, and no key twice. */
  lemma ProductRowsUnique(df3: Table)
    requires WellFormed(df3) && forall k :: k in ProductKeys ==> k in df3.columns
    ensures var out := ProcessProductData(df3).value;
      && Aggregation.HasColumns(out.rows, ProductKeys) && Aggregation.HasColumns(df3.rows, ProductKeys)
      && (forall j1, j2 :: 0 <= j1 < j2 < |out.rows| ==>
            Aggregation.KeyOf(out.rows[j1], ProductKeys) != Aggregation.KeyOf(out.rows[j2], ProductKeys))
      && forall g :: Aggregation.Occurs(out.rows, ProductKeys, g) <==> Aggregation.Occurs(df3.rows, ProductKeys, g)
  {
    var d := if StaffName in df3.columns then DropColumn(df3, StaffName) else df3;
    var sums := Missing(d.columns, ProductKeys);
    assert Distinct(ProductKeys);
    assert StaffName !in ProductKeys;
    StaffDropped(df3);
    GroupSumKeys(d, ProductKeys, sums);
    StaffDropKeepsKeys(df3);
    Aggregation.OccursPointwise(d.rows, df3.rows, ProductKeys);
  }

  /** Dropping the staff column leaves every row's product key as it is. */
  lemma StaffDropKeepsKeys(df3: Table)
    requires WellFormed(df3) && forall k :: k in ProductKeys ==> k in df3.columns
    ensures var d := if StaffName in df3.columns then DropColumn(df3, StaffName) else df3;
      && |d.rows| == |df3.rows|
      && Aggregation.HasColumns(d.rows, ProductKeys) && Aggregation.HasColumns(df3.rows, ProductKeys)
      && forall i :: 0 <= i < |d.rows| ==>
           Aggregation.KeyOf(d.rows[i], ProductKeys) == Aggregation.KeyOf(df3.rows[i], ProductKeys)
  {
    var d := if StaffName in df3.columns then DropColumn(df3, StaffName) else df3;
    assert StaffName !in ProductKeys;
    StaffDropped(df3);
    assert forall i :: 0 <= i < |d.rows| ==> Names(ProductKeys) <= d.rows[i].Keys;
    assert forall i :: 0 <= i < |df3.rows| ==> Names(ProductKeys) <= df3.rows[i].Keys;
  }
}
