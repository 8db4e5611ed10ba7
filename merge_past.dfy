/** The column-protecting merge (`02_merge_past_data.py`, `DataProcessor`):
    the year list, the renaming of the historical tables, the `_past`
    suffixing that spares the join keys, the joins followed by the
    protective null reconciliation, the master-name coalescing, the product
    aggregation, the column order, the column classification and the code
    casts. `DataProcessor` keeps no state of its own in this script, so its
    operations are module-level here. */
module MergePast {

  import opened Wrappers
  import opened Text
  import opened Tables
  import opened Joins
  import opened Aggregation
  import opened Reconcile
  import opened ReconcileProperties

  // ----- the year list -----

  /** `[str(y) for y in range(start, end + 1)]` reversed: the years from
      `end` down to `start`. */
  function YearsDescending(start: int, end: int): (ys: seq<string>)
    ensures |ys| == if end >= start then end - start + 1 else 0
  {
    seq(if end >= start then end - start + 1 else 0, i => IntToString(end - i))
  }

  /** `list.reverse()` on an array. */
  method Reverse<T>(a: array<T>)
    modifies a
    ensures forall k :: 0 <= k < a.Length ==> a[k] == old(a[a.Length - 1 - k])
  {
    var n := a.Length;
    for i := 0 to n / 2
      invariant forall k :: 0 <= k < i ==> a[k] == old(a[n - 1 - k]) && a[n - 1 - k] == old(a[k])
      invariant forall k :: i <= k < n - i ==> a[k] == old(a[k])
    {
      a[i], a[n - 1 - i] := a[n - 1 - i], a[i];
    }
  }

  /** `generate_years_list(start_year, end_year)` */
  method GenerateYearsList(start: int, end: int) returns (years: seq<string>)
    ensures years == YearsDescending(start, end)
  {
    var n := if end >= start then end - start + 1 else 0;
    var a := new string[n];
    for i := 0 to n
      invariant forall k :: 0 <= k < i ==> a[k] == IntToString(start + k)
    {
      a[i] := IntToString(start + i);
    }
    Reverse(a);
    years := a[..];
  }

  /** Each entry of the year list is read back by `int` as its year, so
      the list is strictly descending. */
  lemma YearsDescendingParse(start: int, end: int)
    ensures var ys := YearsDescending(start, end);
      forall i :: 0 <= i < |ys| ==> ParseInt(ys[i]) == Some(end - i)
  {
    var ys := YearsDescending(start, end);
    forall i | 0 <= i < |ys| ensures ParseInt(ys[i]) == Some(end - i) {
      IntRoundTrip(end - i);
    }
  }

  /** No year appears twice in the list. */
  lemma YearsDescendingDistinct(start: int, end: int)
    ensures Distinct(YearsDescending(start, end))
  {
    var ys := YearsDescending(start, end);
    forall i, j | 0 <= i < j < |ys| ensures ys[i] != ys[j] {
      if ys[i] == ys[j] {
        IntToStringInjective(end - i, end - j);
      }
    }
  }

  /** The list holds exactly the years from `start` to `end`. */
  lemma YearsDescendingMembers(start: int, end: int, y: int)
    ensures IntToString(y) in YearsDescending(start, end) <==> start <= y <= end
  {
    var ys := YearsDescending(start, end);
    if start <= y <= end {
      assert ys[end - y] == IntToString(y);
    }
    if IntToString(y) in ys {
      var i :| 0 <= i < |ys| && ys[i] == IntToString(y);
      IntToStringInjective(y, end - i);
    }
  }

  /** Years written by `str` of a non-negative integer are digit strings,
      as the reconciliation lemmas want them. */
  lemma YearsDescendingLabels(start: int, end: int)
    requires start >= 0
    ensures YearLabels(YearsDescending(start, end))
  {
    var ys := YearsDescending(start, end);
    forall y | y in ys ensures AllDigits(y) {
      var i :| 0 <= i < |ys| && ys[i] == y;
      assert y == NatToString(end - i);
    }
  }

  // ----- renaming the historical client tables -----

  const ClientRename: map<string, string> := map["取引先コード" := "得意先コード", "取引先名" := "得意先名"]
  const ProductRename: map<string, string> := map["得意先" := "得意先名"]

  /** The client table's strict rename of 取引先コード and 取引先名.
      Both must exist and neither target may exist already. */
  function RenameClient(df2b: Table): (r: Option<Table>)
    requires WellFormed(df2b)
    ensures "取引先コード" !in df2b.columns ==> r == Some(df2b)
    ensures r.None? <==> ("取引先コード" in df2b.columns
      && ("取引先名" !in df2b.columns || "得意先コード" in df2b.columns || "得意先名" in df2b.columns))
    ensures r.Some? ==> WellFormed(r.value) && |r.value.rows| == |df2b.rows| && |r.value.columns| == |df2b.columns|
    ensures r.Some? && "取引先コード" in df2b.columns ==>
      "取引先コード" !in r.value.columns && "取引先名" !in r.value.columns
    ensures r.Some? ==> forall i, j :: 0 <= i < |df2b.rows| && 0 <= j < |df2b.columns| ==>
      r.value.rows[i][r.value.columns[j]] == df2b.rows[i][df2b.columns[j]]
  {
    if "取引先コード" !in df2b.columns then Some(df2b)
    else
      var m := ClientRename;
      assert m.Keys == {"取引先コード", "取引先名"};
      assert m.Keys <= Names(df2b.columns) <==> "取引先名" in df2b.columns;
      assert m.Keys <= Names(df2b.columns) ==> (Distinct(RenamedNames(df2b.columns, m)) <==> "得意先コード" !in df2b.columns && "得意先名" !in df2b.columns) by {
        if m.Keys <= Names(df2b.columns) {
          RenameDistinctIff(df2b.columns, m);
          assert m["取引先コード"] == "得意先コード" && m["取引先名"] == "得意先名";
        }
      }
      var r := Rename(df2b, m);
      assert r.Some? ==> "取引先コード" !in r.value.columns && "取引先名" !in r.value.columns by {
        if r.Some? {
          forall j | 0 <= j < |df2b.columns| ensures r.value.columns[j] != "取引先コード" && r.value.columns[j] != "取引先名" {
            assert df2b.columns[j] in m || (df2b.columns[j] != "取引先コード" && df2b.columns[j] != "取引先名");
          }
        }
      }
      r
  }

  /** The product table's strict rename of 得意先 to 得意先名. */
  function RenameProduct(df3b: Table): (r: Option<Table>)
    requires WellFormed(df3b)
    ensures "得意先" !in df3b.columns ==> r == Some(df3b)
    ensures r.None? <==> "得意先" in df3b.columns && "得意先名" in df3b.columns
    ensures r.Some? ==> WellFormed(r.value) && |r.value.rows| == |df3b.rows| && |r.value.columns| == |df3b.columns|
    ensures r.Some? ==> "得意先" !in r.value.columns
    ensures r.Some? ==> forall i, j :: 0 <= i < |df3b.rows| && 0 <= j < |df3b.columns| ==>
      r.value.rows[i][r.value.columns[j]] == df3b.rows[i][df3b.columns[j]]
  {
    if "得意先" !in df3b.columns then Some(df3b)
    else
      var m := ProductRename;
      assert Distinct(RenamedNames(df3b.columns, m)) <==> "得意先名" !in df3b.columns by {
        RenameDistinctIff(df3b.columns, m);
        assert "得意先" in m;
      }
      var r := Rename(df3b, m);
      assert r.Some? ==> "得意先" !in r.value.columns by {
        if r.Some? {
          forall j | 0 <= j < |df3b.columns| ensures r.value.columns[j] != "得意先" {
            assert df3b.columns[j] in m || df3b.columns[j] != "得意先";
          }
        }
      }
      r
  }

  /** `rename_columns(df2_b, df3_b)`: when neither table is empty, the
      client table's 取引先 columns become 得意先 columns and the product
      table's 得意先 becomes 得意先名. `None` is the error the strict rename
      raises. */
  function RenameColumns(df2b: Table, df3b: Table): (r: Option<(Table, Table)>)
    requires WellFormed(df2b) && WellFormed(df3b)
    ensures IsEmpty(df2b) || IsEmpty(df3b) ==> r == Some((df2b, df3b))
    ensures r.Some? ==> WellFormed(r.value.0) && WellFormed(r.value.1)
    ensures r.Some? ==> |r.value.0.rows| == |df2b.rows| && |r.value.1.rows| == |df3b.rows|
    ensures r.Some? && !IsEmpty(df2b) && !IsEmpty(df3b) ==>
      "取引先コード" !in r.value.0.columns && "得意先" !in r.value.1.columns
    ensures r.None? <==>
      && !IsEmpty(df2b) && !IsEmpty(df3b)
      && (|| ("取引先コード" in df2b.columns && ("取引先名" !in df2b.columns || "得意先コード" in df2b.columns || "得意先名" in df2b.columns))
          || ("得意先" in df3b.columns && "得意先名" in df3b.columns))
  {
    if IsEmpty(df2b) || IsEmpty(df3b) then Some((df2b, df3b))
    else
      var r2 := RenameClient(df2b);
      var r3 := RenameProduct(df3b);
      if r2.None? || r3.None? then None else Some((r2.value, r3.value))
  }

  // ----- suffixing the historical tables -----

  /** The column names `add_past_suffix` never renames. */
  const ProtectedKeys: seq<string> :=
    ["法人コード", "法人名", "得意先コード", "得意先名", "営業所名", "担当者名", "第1階層", "商品コード", "商品名"]

  predicate Protected(c: string, keyColumns: seq<string>) {
    c in ProtectedKeys || c in keyColumns
  }

  /** A name carrying the marker ends with its last letter. */
  lemma MarkedEndsWithT(s: string)
    ensures EndsWith(s, PastMarker) ==> |s| > 0 && s[|s| - 1] == 't'
  {
    if EndsWith(s, PastMarker) {
      assert s[|s| - 1] == s[|s| - |PastMarker|..][4];
    }
  }

  /** No protected name carries the marker. */
  lemma ProtectedKeysUnmarked()
    ensures forall p :: p in ProtectedKeys ==> !EndsWith(p, PastMarker)
  {
    forall p | p in ProtectedKeys ensures !EndsWith(p, PastMarker) {
      assert |p| > 0 && p[|p| - 1] != 't';
      MarkedEndsWithT(p);
    }
  }

  /** The mapping `add_past_suffix` builds from the first `cols`. */
  function SuffixMap(cols: seq<string>, keyColumns: seq<string>): map<string, string> {
    map c | c in Names(cols) && !Protected(c, keyColumns) :: PastName(c)
  }

  /** The suffix mapping renames exactly the unprotected columns, and the
      names it gives are new ones unless a key column carries the marker. */
  lemma SuffixMapRenames(cols: seq<string>, keyColumns: seq<string>)
    requires Distinct(cols)
    ensures var m := SuffixMap(cols, keyColumns);
      && m.Keys <= Names(cols)
      && (forall a, b :: a in m && b in m && a != b ==> m[a] != m[b])
      && (forall j :: 0 <= j < |cols| ==>
            RenamedNames(cols, m)[j] == if Protected(cols[j], keyColumns) then cols[j] else PastName(cols[j]))
      && ((forall k :: k in keyColumns ==> !EndsWith(k, PastMarker)) ==> Distinct(RenamedNames(cols, m)))
  {
    var m := SuffixMap(cols, keyColumns);
    assert forall a, b :: a in m && b in m && a != b ==> m[a] != m[b] by {
      forall a, b | a in m && b in m && m[a] == m[b] ensures a == b {
        assert a == PastName(a)[..|a|] && b == PastName(b)[..|b|];
      }
    }
    if forall k :: k in keyColumns ==> !EndsWith(k, PastMarker) {
      ProtectedKeysUnmarked();
      forall c, a | c in cols && c !in m && a in m ensures m[a] != c {
        assert Protected(c, keyColumns);
        assert EndsWith(m[a], PastMarker) by {
          assert m[a][|m[a]| - |PastMarker|..] == PastMarker;
        }
      }
      RenameDistinctIff(cols, m);
    }
  }

  /** `add_past_suffix(df, key_columns)`: an empty table is returned as it
      is; otherwise every column outside the protected names and
      `key_columns` gets the `_past` marker, in place. `None` is the rename
      error, which needs a key column that itself ends with the marker. */
  function SuffixSpec(df: Table, keyColumns: seq<string>): (r: Option<Table>)
    requires WellFormed(df)
    ensures IsEmpty(df) ==> r == Some(df)
    ensures (forall k :: k in keyColumns ==> !EndsWith(k, PastMarker)) ==> r.Some?
    ensures r.Some? ==> WellFormed(r.value) && |r.value.rows| == |df.rows| && |r.value.columns| == |df.columns|
    ensures r.Some? ==> forall j :: 0 <= j < |df.columns| ==>
      r.value.columns[j] == if IsEmpty(df) || Protected(df.columns[j], keyColumns) then df.columns[j] else PastName(df.columns[j])
    ensures r.Some? ==> forall i, j :: 0 <= i < |df.rows| && 0 <= j < |df.columns| ==>
      r.value.rows[i][r.value.columns[j]] == df.rows[i][df.columns[j]]
  {
    if IsEmpty(df) then Some(df)
    else
      var m := SuffixMap(df.columns, keyColumns);
      SuffixMapRenames(df.columns, keyColumns);
      if |m| == 0 then
        assert forall j :: 0 <= j < |df.columns| && !Protected(df.columns[j], keyColumns) ==> df.columns[j] in m;
        assert m.Keys == {};
        Some(df)
      else Rename(df, m)
  }

  /** The loop that builds the mapping, then the rename. */
  method AddPastSuffix(df: Table, keyColumns: seq<string>) returns (r: Option<Table>)
    requires WellFormed(df)
    ensures r == SuffixSpec(df, keyColumns)
  {
    if IsEmpty(df) {
      return Some(df);
    }
    var mapping: map<string, string> := map[];
    for j := 0 to |df.columns|
      invariant mapping == SuffixMap(df.columns[..j], keyColumns)
    {
      assert Names(df.columns[..j + 1]) == Names(df.columns[..j]) + {df.columns[j]};
      var col := df.columns[j];
      if !Protected(col, keyColumns) {
        mapping := mapping[col := PastName(col)];
      }
    }
    assert df.columns[..|df.columns|] == df.columns;
    if |mapping| == 0 {
      return Some(df);
    }
    r := Rename(df, mapping);
  }

  // ----- the joins -----

  const ProductJoinKeys: seq<string> := ["営業所名", "得意先コード", "得意先名", "第1階層", "商品コード", "商品名"]

  /** `[k for k in PRODUCT_JOIN_KEYS if k in df3_a.columns and k in
      df3_b.columns]`: exactly the listed keys both tables have, each once,
      in the list's order. */
  function ProductKeysOf(df3a: Table, df3b: Table): (r: seq<string>)
    ensures forall k :: k in r <==> k in ProductJoinKeys && k in df3a.columns && k in df3b.columns
    ensures Distinct(r)
    ensures Subsequence(r, ProductJoinKeys)
  {
    assert Distinct(ProductJoinKeys);
    PresentOrdered(ProductJoinKeys, Present(df3a.columns, df3b.columns));
    Present(ProductJoinKeys, Present(df3a.columns, df3b.columns))
  }

  const CorporationKey: seq<string> := ["法人コード"]
  const ClientKeys: seq<string> := ["得意先コード", "得意先名"]

  /** Names whose last letter is not the marker's do not carry it. */
  lemma Unmarked(keys: seq<string>)
    requires forall k :: k in keys ==> |k| > 0 && k[|k| - 1] != 't'
    ensures forall k :: k in keys ==> !EndsWith(k, PastMarker)
  {
    forall k | k in keys ensures !EndsWith(k, PastMarker) {
      MarkedEndsWithT(k);
    }
  }

  /** No join key carries the marker. */
  lemma JoinKeysUnmarked()
    ensures forall k :: k in CorporationKey ==> !EndsWith(k, PastMarker)
    ensures forall k :: k in ClientKeys ==> !EndsWith(k, PastMarker)
    ensures forall k :: k in ProductJoinKeys ==> !EndsWith(k, PastMarker)
  {
    Unmarked(CorporationKey);
    Unmarked(ClientKeys);
    Unmarked(ProductJoinKeys);
  }

  /** A protected name is a column of the suffixed table exactly when it is
      one of the original. */
  lemma SuffixKeepsProtected(df: Table, keyColumns: seq<string>, c: string)
    requires WellFormed(df) && forall k :: k in keyColumns ==> !EndsWith(k, PastMarker)
    requires Protected(c, keyColumns) && !EndsWith(c, PastMarker)
    ensures c in SuffixSpec(df, keyColumns).value.columns <==> c in df.columns
  {
    var out := SuffixSpec(df, keyColumns).value;
    if c in df.columns {
      assert out.columns[IndexOf(df.columns, c)] == c;
    }
    if c in out.columns {
      var j := IndexOf(out.columns, c);
      assert EndsWith(PastName(df.columns[j]), PastMarker) by {
        assert PastName(df.columns[j])[|PastName(df.columns[j])| - |PastMarker|..] == PastMarker;
      }
    }
  }

  /** The suffixed historical table, which unmarked keys make defined. */
  function Suffixed(df: Table, keyColumns: seq<string>): (r: Table)
    requires WellFormed(df) && forall k :: k in keyColumns ==> !EndsWith(k, PastMarker)
    ensures WellFormed(r) && |r.rows| == |df.rows|
    ensures forall k :: k in keyColumns ==> (k in r.columns <==> k in df.columns)
  {
    var r := SuffixSpec(df, keyColumns).value;
    assert forall k :: k in keyColumns ==> (k in r.columns <==> k in df.columns) by {
      forall k | k in keyColumns ensures k in r.columns <==> k in df.columns {
        SuffixKeepsProtected(df, keyColumns, k);
      }
    }
    r
  }

  /** `df_a.join(add_past_suffix(df_b, keys), how="full", on=keys)`: defined
      exactly when there are keys and both tables have all of them. */
  function JoinWithHistory(a: Table, b: Table, keys: seq<string>): (r: Option<Table>)
    requires WellFormed(a) && WellFormed(b) && forall k :: k in keys ==> !EndsWith(k, PastMarker)
    ensures r.Some? <==> |keys| > 0 && forall k :: k in keys ==> k in a.columns && k in b.columns
    ensures r.Some? ==> WellFormed(r.value) && |r.value.rows| >= |a.rows|
  {
    var s := Suffixed(b, keys);
    assert JoinKeysValid(a, s, keys, keys) <==> |keys| > 0 && forall k :: k in keys ==> k in a.columns && k in b.columns by {
      NamesSubset(keys, a.columns);
      NamesSubset(keys, s.columns);
    }
    FullJoin(a, s, keys, keys)
  }

  /** The join step of `merge_dataframes`: each current table fully
      joined with its suffixed history on its keys, the product table only
      when it has history and shared keys. `None` is the join error for a
      missing key column. */
  function JoinSpec(df1a: Table, df1b: Table, df2a: Table, df2b: Table, df3a: Table, df3b: Table): (r: Option<(Table, Table, Table)>)
    requires WellFormed(df1a) && WellFormed(df1b) && WellFormed(df2a) && WellFormed(df2b)
    requires WellFormed(df3a) && WellFormed(df3b)
    ensures r.Some? <==> (&& (forall k :: k in CorporationKey ==> k in df1a.columns && k in df1b.columns)
                          && (forall k :: k in ClientKeys ==> k in df2a.columns && k in df2b.columns))
    ensures r.Some? ==> WellFormed(r.value.0) && WellFormed(r.value.1) && WellFormed(r.value.2)
    ensures r.Some? ==> |r.value.0.rows| >= |df1a.rows| && |r.value.1.rows| >= |df2a.rows| && |r.value.2.rows| >= |df3a.rows|
  {
    JoinKeysUnmarked();
    var j1 := JoinWithHistory(df1a, df1b, CorporationKey);
    var j2 := JoinWithHistory(df2a, df2b, ClientKeys);
    if j1.None? || j2.None? then None else Some((j1.value, j2.value, ProductJoin(df3a, df3b)))
  }

  /** What `merge_dataframes` returns: with no historical corporation rows
      the current tables, otherwise the joined tables reconciled under the
      protective policy. */
  function MergeSpec(df1a: Table, df1b: Table, df2a: Table, df2b: Table, df3a: Table, df3b: Table,
                     years: seq<string>, currentYear: int): (r: Option<(Table, Table, Table)>)
    requires WellFormed(df1a) && WellFormed(df1b) && WellFormed(df2a) && WellFormed(df2b)
    requires WellFormed(df3a) && WellFormed(df3b)
    ensures IsEmpty(df1b) ==> r == Some((df1a, df2a, df3a))
    ensures !IsEmpty(df1b) ==>
      (r.Some? <==> (&& (forall k :: k in CorporationKey ==> k in df1a.columns && k in df1b.columns)
                     && (forall k :: k in ClientKeys ==> k in df2a.columns && k in df2b.columns)))
    ensures r.Some? ==> WellFormed(r.value.0) && WellFormed(r.value.1) && WellFormed(r.value.2)
    ensures r.Some? ==> |r.value.0.rows| >= |df1a.rows| && |r.value.1.rows| >= |df2a.rows| && |r.value.2.rows| >= |df3a.rows|
  {
    if IsEmpty(df1b) then Some((df1a, df2a, df3a))
    else
      var j := JoinSpec(df1a, df1b, df2a, df2b, df3a, df3b);
      if j.None? then None
      else
        var current := IntToString(currentYear);
        Some((FixSpec(j.value.0, years, current, Protective),
              FixSpec(j.value.1, years, current, Protective),
              FixSpec(j.value.2, years, current, Protective)))
  }

  /** The product table after the join step: joined on the shared keys
      when there is history and there are such keys, else the current one. */
  function ProductJoin(df3a: Table, df3b: Table): (r: Table)
    requires WellFormed(df3a) && WellFormed(df3b)
    ensures WellFormed(r) && |r.rows| >= |df3a.rows|
    ensures IsEmpty(df3b) || |ProductKeysOf(df3a, df3b)| == 0 ==> r == df3a
  {
    var keys := ProductKeysOf(df3a, df3b);
    JoinKeysUnmarked();
    if !IsEmpty(df3b) && |keys| > 0 then JoinWithHistory(df3a, df3b, keys).value else df3a
  }

  /** One suffix-then-join step of `merge_dataframes`. */
  method JoinHistory(a: Table, b: Table, keys: seq<string>) returns (r: Option<Table>)
    requires WellFormed(a) && WellFormed(b) && forall k :: k in keys ==> !EndsWith(k, PastMarker)
    ensures r == JoinWithHistory(a, b, keys)
  {
    var suffixed := AddPastSuffix(b, keys);
    r := FullJoin(a, suffixed.value, keys, keys);
  }

  /** The three suffix-then-join steps of `merge_dataframes`. */
  method JoinTables(df1a: Table, df1b: Table, df2a: Table, df2b: Table, df3a: Table, df3b: Table)
    returns (r: Option<(Table, Table, Table)>)
    requires WellFormed(df1a) && WellFormed(df1b) && WellFormed(df2a) && WellFormed(df2b)
    requires WellFormed(df3a) && WellFormed(df3b)
    ensures r == JoinSpec(df1a, df1b, df2a, df2b, df3a, df3b)
  {
    JoinKeysUnmarked();
    var j1 := JoinHistory(df1a, df1b, CorporationKey);
    var j2 := JoinHistory(df2a, df2b, ClientKeys);
    if j1.None? || j2.None? {
      return None;
    }
    var df3 := JoinProducts(df3a, df3b);
    r := Some((j1.value, j2.value, df3));
  }

  /** The product step: joined only with history and shared keys. */
  method JoinProducts(df3a: Table, df3b: Table) returns (df3: Table)
    requires WellFormed(df3a) && WellFormed(df3b)
    ensures df3 == ProductJoin(df3a, df3b)
  {
    var keys := ProductKeysOf(df3a, df3b);
    df3 := df3a;
    if !IsEmpty(df3b) && |keys| > 0 {
      JoinKeysUnmarked();
      var j3 := JoinHistory(df3a, df3b, keys);
      df3 := j3.value;
    }
  }

  /** `merge_dataframes(...)`: the suffixing and the joins, then the three
      calls of the reconciliation loop. */
  method MergeDataframes(df1a: Table, df1b: Table, df2a: Table, df2b: Table, df3a: Table, df3b: Table,
                         years: seq<string>, currentYear: int) returns (r: Option<(Table, Table, Table)>)
    requires WellFormed(df1a) && WellFormed(df1b) && WellFormed(df2a) && WellFormed(df2b)
    requires WellFormed(df3a) && WellFormed(df3b)
    ensures r == MergeSpec(df1a, df1b, df2a, df2b, df3a, df3b, years, currentYear)
  {
    if IsEmpty(df1b) {
      return Some((df1a, df2a, df3a));
    }
    var j := JoinTables(df1a, df1b, df2a, df2b, df3a, df3b);
    if j.None? {
      return None;
    }
    var current := IntToString(currentYear);
    var df1 := FixFullJoinNulls(j.value.0, years, current, Protective);
    var df2 := FixFullJoinNulls(j.value.1, years, current, Protective);
    var df3 := FixFullJoinNulls(j.value.2, years, current, Protective);
    r := Some((df1, df2, df3));
  }

  /** Without product history or without shared keys the product table is
      the current one, reconciled on its own. */
  lemma MergeProductFallback(df1a: Table, df1b: Table, df2a: Table, df2b: Table, df3a: Table, df3b: Table,
                             years: seq<string>, currentYear: int)
    requires WellFormed(df1a) && WellFormed(df1b) && WellFormed(df2a) && WellFormed(df2b)
    requires WellFormed(df3a) && WellFormed(df3b)
    requires !IsEmpty(df1b) && (IsEmpty(df3b) || |ProductKeysOf(df3a, df3b)| == 0)
    requires MergeSpec(df1a, df1b, df2a, df2b, df3a, df3b, years, currentYear).Some?
    ensures MergeSpec(df1a, df1b, df2a, df2b, df3a, df3b, years, currentYear).value.2
      == FixSpec(df3a, years, IntToString(currentYear), Protective)
  {
  }

  /** After a merge with history every table has every metric column the
      year list calls for. */
  lemma MergeHasExpectedColumns(df1a: Table, df1b: Table, df2a: Table, df2b: Table, df3a: Table, df3b: Table,
                                years: seq<string>, currentYear: int, y: string, s: Suffix)
    requires WellFormed(df1a) && WellFormed(df1b) && WellFormed(df2a) && WellFormed(df2b)
    requires WellFormed(df3a) && WellFormed(df3b)
    requires !IsEmpty(df1b) && y in years && s in SuffixesFor(y, IntToString(currentYear))
    requires MergeSpec(df1a, df1b, df2a, df2b, df3a, df3b, years, currentYear).Some?
    ensures var r := MergeSpec(df1a, df1b, df2a, df2b, df3a, df3b, years, currentYear).value;
      && MetricColumn(y, s) in r.0.columns
      && MetricColumn(y, s) in r.1.columns
      && MetricColumn(y, s) in r.2.columns
  {
    var current := IntToString(currentYear);
    var j := JoinSpec(df1a, df1b, df2a, df2b, df3a, df3b).value;
    FixHasExpectedColumns(j.0, years, current, Protective, y, s);
    FixHasExpectedColumns(j.1, years, current, Protective, y, s);
    FixHasExpectedColumns(j.2, years, current, Protective, y, s);
  }

  // ----- the master name -----

  /** `with_columns(coalesce(target, helper).alias(target)).drop(helper)`:
      the target keeps its non-null cells and takes the helper's where it
      is null; the helper column disappears; nothing else changes. */
  function CoalesceDrop(df: Table, target: string, helper: string): (r: Table)
    requires WellFormed(df) && target in df.columns && helper in df.columns && target != helper
    ensures WellFormed(r) && |r.rows| == |df.rows|
    ensures r.columns == RemoveName(df.columns, helper) && helper !in r.columns && target in r.columns
    ensures forall i :: 0 <= i < |df.rows| ==>
      r.rows[i][target] == if df.rows[i][target] != Null then df.rows[i][target] else df.rows[i][helper]
    ensures forall c :: c in r.columns <==> c in df.columns && c != helper
    ensures forall i, c :: 0 <= i < |df.rows| && c in r.columns && c != target ==> r.rows[i][c] == df.rows[i][c]
  {
    var r := DropColumn(WithColumn(df, target, Coalesce(Column(df, target), Column(df, helper))), helper);
    assert forall c :: c in r.columns <==> c in Names(r.columns);
    assert forall c :: c in df.columns <==> c in Names(df.columns);
    r
  }

  const MasterName: string := "法人名_new"

  /** The name step of `merge_with_master`, after the left join with the
      master: with both names, the current one wins and the master's fills
      its nulls; with only the master's, it is renamed; otherwise nothing
      happens. */
  function MergeMasterName(df1: Table): (r: Table)
    requires WellFormed(df1)
    ensures WellFormed(r) && |r.rows| == |df1.rows|
    ensures MasterName !in r.columns
    ensures MasterName in df1.columns ==> "法人名" in r.columns
    ensures MasterName in df1.columns ==> forall i :: 0 <= i < |df1.rows| ==>
      r.rows[i]["法人名"] == if "法人名" in df1.columns && df1.rows[i]["法人名"] != Null then df1.rows[i]["法人名"] else df1.rows[i][MasterName]
    ensures MasterName !in df1.columns ==> r == df1
    ensures forall i, c :: 0 <= i < |df1.rows| && c in df1.columns && c != "法人名" && c != MasterName ==>
      c in r.columns && r.rows[i][c] == df1.rows[i][c]
  {
    if "法人名" in df1.columns && MasterName in df1.columns then
      CoalesceDrop(df1, "法人名", MasterName)
    else if MasterName in df1.columns then RenameOne(df1, MasterName, "法人名")
    else df1
  }

  // ----- the product aggregation -----

  const ProductGroupColumns: seq<string> := ["営業所名", "担当者名", "得意先コード", "得意先名", "第1階層", "商品コード", "商品名"]

  /** `[col for col in cols if col not in group_cols]` restricted to the
      columns of numeric type. */
  function SumColumns(cols: seq<string>, groupCols: seq<string>, numeric: set<string>): (r: seq<string>)
    ensures forall c :: c in r <==> c in cols && c !in groupCols && c in numeric
    ensures Distinct(cols) ==> Distinct(r)
  {
    if |cols| == 0 then []
    else
      var rest := SumColumns(cols[1..], groupCols, numeric);
      assert forall c :: c in cols <==> c == cols[0] || c in cols[1..];
      if cols[0] !in groupCols && cols[0] in numeric then
        assert Distinct(cols) ==> cols[0] !in cols[1..];
        [cols[0]] + rest
      else rest
  }

  /** `aggregate_product_data(df3)`: grouped by the present product columns
      and summed over the numeric others; without either the table is
      returned as it is. `numeric` names the columns whose type is numeric. */
  function AggregateProductData(df3: Table, numeric: set<string>): (r: Table)
    requires WellFormed(df3)
    ensures WellFormed(r)
    ensures var g := Present(ProductGroupColumns, df3.columns);
      var sums := SumColumns(df3.columns, g, numeric);
      if |g| > 0 && |sums| > 0 then
        && r.columns == g + sums
        && (forall c :: c in sums ==> Total(r, c) == Total(df3, c))
        && |r.rows| == |GroupKeys(df3.rows, g)|
      else r == df3
  {
    var g := Present(ProductGroupColumns, df3.columns);
    var sums := SumColumns(df3.columns, g, numeric);
    if |g| > 0 && |sums| > 0 then
      assert Distinct(ProductGroupColumns);
      assert GroupSumValid(df3, g, sums);
      assert forall c :: c in sums ==> Total(GroupSum(df3, g, sums).value, c) == Total(df3, c) by {
        forall c | c in sums ensures Total(GroupSum(df3, g, sums).value, c) == Total(df3, c) {
          GroupSumConserves(df3, g, sums, c);
        }
      }
      GroupSum(df3, g, sums).value
    else df3
  }

  // ----- the column order -----

  /** The columns `get_year_cols` keeps: mention a year of the list, are not
      the previous year's sales quantity and are no base column. */
  function YearCols(cols: seq<string>, years: seq<string>, priorQuantity: string, base: seq<string>): (r: seq<string>)
    ensures forall c :: c in r <==> c in cols && MentionsYear(c, years) && !EndsWith(c, priorQuantity) && c !in base
    ensures Distinct(cols) ==> Distinct(r)
    ensures Distinct(cols) ==> Subsequence(r, cols)
  {
    if |cols| == 0 then []
    else
      var rest := YearCols(cols[1..], years, priorQuantity, base);
      assert forall c :: c in cols <==> c == cols[0] || c in cols[1..];
      if MentionsYear(cols[0], years) && !EndsWith(cols[0], priorQuantity) && cols[0] !in base then
        assert Distinct(cols) ==> cols[0] !in cols[1..] && Distinct(cols[1..]);
        var r := [cols[0]] + rest;
        assert r[1..] == rest;
        r
      else
        assert Distinct(cols) ==> Distinct(cols[1..]) && (|rest| > 0 ==> rest[0] in cols[1..] && rest[0] != cols[0]);
        rest
  }

  /** `safe_select(df, columns)`: the requested columns the table has, in
      the requested order, or the table itself when it has none of them. */
  function SafeSelect(df: Table, cols: seq<string>): (r: Table)
    requires WellFormed(df) && Distinct(cols)
    ensures WellFormed(r) && |r.rows| == |df.rows|
    ensures |Present(cols, df.columns)| > 0 ==> r.columns == Present(cols, df.columns)
    ensures |Present(cols, df.columns)| == 0 ==> r == df
    ensures forall i, c :: 0 <= i < |df.rows| && c in r.columns ==> c in df.columns && r.rows[i][c] == df.rows[i][c]
  {
    var existing := Present(cols, df.columns);
    if |existing| > 0 then
      assert Names(existing) <= Names(df.columns) by {
        NamesSubset(existing, df.columns);
      }
      Select(df, existing)
    else df
  }

  /** The columns one table ends with: its base columns that it has, in
      the base order, then its year columns in its own order; a table with
      none of them keeps all its columns. */
  function ReorderedColumns(cols: seq<string>, base: seq<string>, allBase: seq<string>, years: seq<string>, priorQuantity: string): seq<string> {
    var want := Present(base, cols) + YearCols(cols, years, priorQuantity, allBase);
    if |want| > 0 then want else cols
  }

  /** `r` is `df` with the columns `ReorderedColumns` gives, every row and
      every kept cell as it was. */
  ghost predicate ReorderedFrom(r: Table, df: Table, base: seq<string>, allBase: seq<string>, years: seq<string>, priorQuantity: string) {
    && WellFormed(df) && WellFormed(r) && |r.rows| == |df.rows|
    && r.columns == ReorderedColumns(df.columns, base, allBase, years, priorQuantity)
    && forall i, c :: 0 <= i < |df.rows| && c in r.columns ==> c in df.columns && r.rows[i][c] == df.rows[i][c]
  }

  /** One table after `reorder_columns`: `safe_select` of its base columns
      followed by its year columns. */
  function Reordered(df: Table, base: seq<string>, allBase: seq<string>, years: seq<string>, priorQuantity: string): (r: Table)
    requires WellFormed(df) && Distinct(base) && forall c :: c in base ==> c in allBase
    ensures WellFormed(r) && |r.rows| == |df.rows|
    ensures r.columns == ReorderedColumns(df.columns, base, allBase, years, priorQuantity)
    ensures forall i, c :: 0 <= i < |df.rows| && c in r.columns ==> c in df.columns && r.rows[i][c] == df.rows[i][c]
  {
    var ys := YearCols(df.columns, years, priorQuantity, allBase);
    DistinctConcat(base, ys);
    PresentConcat(base, ys, df.columns);
    PresentAll(ys, df.columns);
    SafeSelect(df, base + ys)
  }

  /** The base columns of the corporation table. */
  function CorporationBase(year: string): seq<string> {
    ["法人コード", "法人名", year + "売上数"]
  }

  /** The base columns of the client table. */
  function ClientBase(year: string): seq<string> {
    ["得意先コード", "得意先名", year + "売上数"]
  }

  /** The base columns of the product table: those of its candidates it has. */
  function ProductBase(year: string, cols: seq<string>): seq<string> {
    Present(ProductGroupColumns + [year + "売上数"], cols)
  }

  /** `f"{int(year)-1}売上数"` for a numeric year. */
  function PriorQuantity(y: int): string {
    IntToString(y - 1) + "売上数"
  }

  /** `reorder_columns(df1, df2, df3, year, years)`. `None` is the error
      `int(year)` raises on a year that is not a number. Each table keeps
      its rows and cells; its columns are its base columns, then its year
      columns, where a year column mentions a listed year, is not last
      year's quantity and is no table's base column. */
  function ReorderColumns(df1: Table, df2: Table, df3: Table, year: string, years: seq<string>): (r: Option<(Table, Table, Table)>)
    requires WellFormed(df1) && WellFormed(df2) && WellFormed(df3)
    ensures r.Some? <==> ParseInt(year).Some?
    ensures r.Some? ==> |r.value.0.rows| == |df1.rows| && |r.value.1.rows| == |df2.rows| && |r.value.2.rows| == |df3.rows|
    ensures r.Some? ==>
      var prior := PriorQuantity(ParseInt(year).value);
      var allBase := CorporationBase(year) + ClientBase(year) + ProductBase(year, df3.columns);
      && ReorderedFrom(r.value.0, df1, CorporationBase(year), allBase, years, prior)
      && ReorderedFrom(r.value.1, df2, ClientBase(year), allBase, years, prior)
      && ReorderedFrom(r.value.2, df3, ProductBase(year, df3.columns), allBase, years, prior)
  {
    match ParseInt(year)
    case None => None
    case Some(y) =>
      var priorQuantity := PriorQuantity(y);
      var base1 := CorporationBase(year);
      var base2 := ClientBase(year);
      var base3 := ProductBase(year, df3.columns);
      var allBase := base1 + base2 + base3;
      assert Distinct(base1) && Distinct(base2) by {
        QuantityNotKey(year);
      }
      assert Distinct(ProductGroupColumns + [year + "売上数"]) by {
        QuantityNotKey(year);
        assert Distinct(ProductGroupColumns);
        DistinctConcat(ProductGroupColumns, [year + "売上数"]);
      }
      var r1 := Reordered(df1, base1, allBase, years, priorQuantity);
      var r2 := Reordered(df2, base2, allBase, years, priorQuantity);
      var r3 := Reordered(df3, base3, allBase, years, priorQuantity);
      assert ReorderedFrom(r1, df1, base1, allBase, years, priorQuantity);
      assert ReorderedFrom(r2, df2, base2, allBase, years, priorQuantity);
      assert ReorderedFrom(r3, df3, base3, allBase, years, priorQuantity);
      Some((r1, r2, r3))
  }

  /** A year's quantity column is not one of the key names. */
  lemma QuantityNotKey(year: string)
    ensures var qty := year + "売上数";
      && qty != "法人コード" && qty != "法人名" && qty != "得意先コード" && qty != "得意先名"
      && qty !in ProductGroupColumns
  {
    var qty := year + "売上数";
    assert qty[|qty| - 1] == '数';
    assert forall k :: k in ProductGroupColumns + ["法人コード", "法人名"] ==> k[|k| - 1] != '数';
  }
}

