/** Two column-kind steps of the merge script: telling value columns from
    index columns by the sales patterns in their names, and casting the code
    columns to text before the tables are written out. */
module ColumnTypes {

  import opened Wrappers
  import opened Text
  import opened Tables
  import opened Reconcile

  // ----- identify_column_types -----

  /** `ProcessConfig.SALES_PATTERNS` */
  const SalesPatterns: seq<string> := ["売上", "数", "㎡", "粗利", "数量", "金額"]

  /** `any(pattern in col for pattern in SALES_PATTERNS)` */
  predicate IsValueColumn(c: string) {
    exists k :: 0 <= k < |SalesPatterns| && Contains(c, SalesPatterns[k])
  }

  /** The columns of `cols` whose kind is `value`, order kept. */
  function OfKind(cols: seq<string>, value: bool): (r: seq<string>)
    ensures forall c :: c in r <==> c in cols && IsValueColumn(c) == value
    ensures |r| <= |cols|
  {
    if |cols| == 0 then []
    else
      var rest := OfKind(cols[1..], value);
      assert forall c :: c in cols <==> c == cols[0] || c in cols[1..];
      if IsValueColumn(cols[0]) == value then [cols[0]] + rest else rest
  }

  /** Both kinds together account for every column exactly once. */
  lemma {:induction false} OfKindPartition(cols: seq<string>)
    ensures |OfKind(cols, true)| + |OfKind(cols, false)| == |cols|
  {
    if |cols| > 0 {
      OfKindPartition(cols[1..]);
    }
  }

  /** A filter by kind keeps the order of the columns it filters. */
  lemma {:induction false} OfKindOrdered(cols: seq<string>, value: bool)
    ensures Subsequence(OfKind(cols, value), cols)
  {
    if |cols| > 0 {
      OfKindOrdered(cols[1..], value);
      var r := OfKind(cols, value);
      if IsValueColumn(cols[0]) == value {
        assert r[1..] == OfKind(cols[1..], value);
      } else if |r| > 0 {
        assert r[0] in OfKind(cols[1..], value);
        assert r[0] != cols[0];
      }
    }
  }

  /** `identify_column_types(df)`: `(index_cols, value_cols)`. The value
      columns are those naming a sales pattern; the index columns are all
      the others, both in table order. */
  function IdentifyColumnTypes(cols: seq<string>): (r: (seq<string>, seq<string>))
    ensures forall c :: c in r.1 <==> c in cols && IsValueColumn(c)
    ensures forall c :: c in r.0 <==> c in cols && c !in r.1
    ensures |r.0| + |r.1| == |cols|
    ensures Subsequence(r.0, cols) && Subsequence(r.1, cols)
  {
    OfKindPartition(cols);
    OfKindOrdered(cols, true);
    OfKindOrdered(cols, false);
    (OfKind(cols, false), OfKind(cols, true))
  }

  /** Every year-metric column is a value column: each of the four suffixes
      ends in one of the sales patterns. */
  lemma MetricIsValue(y: string, s: Suffix)
    ensures IsValueColumn(MetricColumn(y, s))
  {
    var c := MetricColumn(y, s);
    var k := match s
      case Quantity => 1
      case Area => 2
      case Revenue => 0
      case Margin => 3;
    var p := SalesPatterns[k];
    assert c[|c| - |p|..] == p;
    EndsWithContains(c, p);
  }

  // ----- convert_data_types -----

  /** `ProcessConfig.CODE_COLUMNS` */
  const CodeColumns: seq<string> := ["法人コード", "得意先コード", "商品コード"]

  /** `cast(pl.Utf8)` on one cell: an integer becomes its decimal text,
      text and null stay as they are. */
  function CastText(v: Value): (r: Value)
    ensures r.Null? <==> v.Null?
    ensures !r.Num?
    ensures v.Str? ==> r == v
    ensures v.Num? ==> r.Str? && ParseInt(r.s) == Some(v.n)
  {
    match v
    case Num(n) => IntRoundTrip(n); Str(IntToString(n))
    case _ => v
  }

  /** Casting twice is casting once. */
  lemma CastTextIdempotent(v: Value)
    ensures CastText(CastText(v)) == CastText(v)
  {
  }

  /** Two cells that cast to the same text were the same cell, as long as
      neither was text to begin with. */
  lemma CastTextInjective(a: Value, b: Value)
    requires !a.Str? && !b.Str?
    requires CastText(a) == CastText(b)
    ensures a == b
  {
    if a.Num? && b.Num? {
      assert Some(a.n) == ParseInt(CastText(a).s) == Some(b.n);
    }
  }

  /** `df.with_columns(pl.col(c).cast(pl.Utf8))` when `c` is a column of
      `df`; the frame unchanged otherwise. */
  function CastColumn(t: Table, c: string): (r: Table)
    requires WellFormed(t)
    ensures WellFormed(r) && r.columns == t.columns && |r.rows| == |t.rows|
    ensures forall i, d :: 0 <= i < |t.rows| && d in t.columns ==>
      r.rows[i][d] == if d == c then CastText(t.rows[i][d]) else t.rows[i][d]
  {
    if c in t.columns then
      WithColumn(t, c, seq(|t.rows|, i requires 0 <= i < |t.rows| => CastText(t.rows[i][c])))
    else t
  }

  /** The frame after the loop has cast the columns `cols`, one after
      another. */
  function CastAll(t: Table, cols: seq<string>): (r: Table)
    requires WellFormed(t)
    ensures WellFormed(r)
  {
    if |cols| == 0 then t else CastColumn(CastAll(t, cols[..|cols| - 1]), cols[|cols| - 1])
  }

  /** After the loop the columns and the row count are those of the input,
      every listed column holds the cast of its old cells and every other
      column is untouched. */
  lemma {:induction false} CastAllCells(t: Table, cols: seq<string>)
    requires WellFormed(t)
    ensures CastAll(t, cols).columns == t.columns && |CastAll(t, cols).rows| == |t.rows|
    ensures forall i, d :: 0 <= i < |t.rows| && d in t.columns ==>
      CastAll(t, cols).rows[i][d] == if d in cols then CastText(t.rows[i][d]) else t.rows[i][d]
  {
    if |cols| > 0 {
      var init := cols[..|cols| - 1];
      var last := cols[|cols| - 1];
      CastAllCells(t, init);
      assert forall d :: d in cols <==> d in init || d == last;
      forall i, d | 0 <= i < |t.rows| && d in t.columns
        ensures CastAll(t, cols).rows[i][d] == if d in cols then CastText(t.rows[i][d]) else t.rows[i][d]
      {
        CastTextIdempotent(t.rows[i][d]);
      }
    }
  }

  /** `convert_data_types(df1, df2, df3)`: the code columns of each table
      are cast to text, one code column at a time. */
  method ConvertDataTypes(df1: Table, df2: Table, df3: Table) returns (r1: Table, r2: Table, r3: Table)
    requires WellFormed(df1) && WellFormed(df2) && WellFormed(df3)
    ensures r1 == CastAll(df1, CodeColumns)
    ensures r2 == CastAll(df2, CodeColumns)
    ensures r3 == CastAll(df3, CodeColumns)
  {
    r1, r2, r3 := df1, df2, df3;
    for i := 0 to |CodeColumns|
      invariant r1 == CastAll(df1, CodeColumns[..i])
      invariant r2 == CastAll(df2, CodeColumns[..i])
      invariant r3 == CastAll(df3, CodeColumns[..i])
    {
      var col := CodeColumns[i];
      assert CodeColumns[..i + 1][..i] == CodeColumns[..i];
      r1 := CastColumn(r1, col);
      r2 := CastColumn(r2, col);
      r3 := CastColumn(r3, col);
    }
    assert CodeColumns[..|CodeColumns|] == CodeColumns;
  }

  /** After the conversion no code cell holds a number, and every other
      cell is what it was. */
  lemma ConvertedCodes(t: Table)
    requires WellFormed(t)
    ensures CastAll(t, CodeColumns).columns == t.columns
    ensures |CastAll(t, CodeColumns).rows| == |t.rows|
    ensures forall i, d :: 0 <= i < |t.rows| && d in t.columns && d in CodeColumns ==>
      !CastAll(t, CodeColumns).rows[i][d].Num?
    ensures forall i, d :: 0 <= i < |t.rows| && d in t.columns && d !in CodeColumns ==>
      CastAll(t, CodeColumns).rows[i][d] == t.rows[i][d]
  {
    CastAllCells(t, CodeColumns);
  }

  /** Converting a converted table changes nothing. */
  lemma ConvertIdempotent(t: Table)
    requires WellFormed(t)
    ensures CastAll(CastAll(t, CodeColumns), CodeColumns) == CastAll(t, CodeColumns)
  {
    var once := CastAll(t, CodeColumns);
    var twice := CastAll(once, CodeColumns);
    CastAllCells(t, CodeColumns);
    CastAllCells(once, CodeColumns);
    assert |twice.rows| == |once.rows|;
    forall i | 0 <= i < |once.rows| ensures twice.rows[i] == once.rows[i] {
      forall d | d in once.columns ensures twice.rows[i][d] == once.rows[i][d] {
        CastTextIdempotent(t.rows[i][d]);
      }
      assert twice.rows[i].Keys == once.rows[i].Keys;
    }
  }
}
