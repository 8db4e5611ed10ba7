/** The final ordering of the merge script (`sort_dataframes`): the
    corporation and client tables by the current year's sales, highest
    first, and the product table by those sales and then the office; when
    the current year has no sales column, by the most recent year that has
    one, with the product table by office, client and category. */
module MergeSort {

  import opened Wrappers
  import opened Text
  import opened Tables
  import opened Sorting

  const Office: string := "営業所名"
  const ClientName: string := "得意先名"
  const Category: string := "第1階層"

  /** `df.with_columns(pl.col(c).fill_null(0))` on a column the table has. */
  function FillZero(t: Table, c: string): (r: Table)
    requires WellFormed(t) && c in t.columns
    ensures WellFormed(r) && r.columns == t.columns && |r.rows| == |t.rows|
    ensures forall i :: 0 <= i < |t.rows| ==> r.rows[i] == t.rows[i][c := if t.rows[i][c] == Null then Num(0) else t.rows[i][c]]
    ensures forall i :: 0 <= i < |t.rows| ==> r.rows[i][c] != Null
  {
    WithColumn(t, c, Coalesce(Column(t, c), seq(|t.rows|, _ => Num(0))))
  }

  /** `f"{year}売上"` for each year. */
  function SalesColumns(years: seq<string>): (r: seq<string>)
    ensures |r| == |years| && forall i :: 0 <= i < |years| ==> r[i] == years[i] + "売上"
  {
    seq(|years|, i requires 0 <= i < |years| => years[i] + "売上")
  }

  /** The sort of the corporation and client tables. */
  function SalesKeys(c: string): seq<SortKey> {
    [By(c, true)]
  }

  /** The product table's keys when the current year has sales. */
  function ProductSalesKeys(c: string): seq<SortKey> {
    [By(c, true), By(Office, false)]
  }

  /** The product table's keys otherwise. */
  const ProductNameKeys: seq<SortKey> := [By(Office, false), By(ClientName, false), By(Category, false)]

  /** Whether polars finds every column the sort of the product table
      without current sales reads. */
  predicate HasNameKeys(t: Table) {
    Office in t.columns && ClientName in t.columns && Category in t.columns
  }

  /** The three sorts of `sort_dataframes`; `None` is the error polars
      raises for a column the step reads and the table lacks. With current
      sales each table holds its rows with those sales' nulls replaced by 0,
      highest sales first, the product table breaking ties by office.
      Without, each table holds its own rows: the first two by the most
      recent year that has sales (unsorted when none has), the product
      table by office, client and category. */
  function SortDataframes(df1: Table, df2: Table, df3: Table, years: seq<string>, currentYear: int)
    : (r: Option<(Table, Table, Table)>)
    requires WellFormed(df1) && WellFormed(df2) && WellFormed(df3)
    ensures var cur := IntToString(currentYear) + "売上";
      var present := Present(SalesColumns(years), df1.columns);
      r.None? <==>
        if cur in df1.columns then cur !in df2.columns || cur !in df3.columns || Office !in df3.columns
        else (|present| > 0 && present[0] !in df2.columns) || !HasNameKeys(df3)
    ensures r.Some? ==> r.value.0.columns == df1.columns && r.value.1.columns == df2.columns && r.value.2.columns == df3.columns
    ensures var cur := IntToString(currentYear) + "売上";
      r.Some? && cur in df1.columns ==>
        && multiset(r.value.0.rows) == multiset(FillZero(df1, cur).rows) && Sorted(r.value.0.rows, SalesKeys(cur))
        && multiset(r.value.1.rows) == multiset(FillZero(df2, cur).rows) && Sorted(r.value.1.rows, SalesKeys(cur))
        && multiset(r.value.2.rows) == multiset(FillZero(df3, cur).rows) && Sorted(r.value.2.rows, ProductSalesKeys(cur))
    ensures var cur := IntToString(currentYear) + "売上";
      var present := Present(SalesColumns(years), df1.columns);
      r.Some? && cur !in df1.columns ==>
        && multiset(r.value.0.rows) == multiset(df1.rows) && multiset(r.value.1.rows) == multiset(df2.rows)
        && multiset(r.value.2.rows) == multiset(df3.rows) && Sorted(r.value.2.rows, ProductNameKeys)
        && (|present| > 0 ==> Sorted(r.value.0.rows, SalesKeys(present[0])) && Sorted(r.value.1.rows, SalesKeys(present[0])))
        && (|present| == 0 ==> r.value.0 == df1 && r.value.1 == df2)
  {
    var cur := IntToString(currentYear) + "売上";
    if cur in df1.columns then
      if cur !in df2.columns || cur !in df3.columns || Office !in df3.columns then None
      else
        Some((SortTable(FillZero(df1, cur), SalesKeys(cur)),
              SortTable(FillZero(df2, cur), SalesKeys(cur)),
              SortTable(FillZero(df3, cur), ProductSalesKeys(cur))))
    else
      var present := Present(SalesColumns(years), df1.columns);
      if |present| > 0 && present[0] !in df2.columns then None
      else if !HasNameKeys(df3) then None
      else if |present| > 0 then
        Some((SortTable(df1, SalesKeys(present[0])), SortTable(df2, SalesKeys(present[0])), SortTable(df3, ProductNameKeys)))
      else Some((df1, df2, SortTable(df3, ProductNameKeys)))
  }

  /** The fallback sort key is a year the list names, and it is the first
      such year the corporation table has sales for. */
  lemma FallbackKeyIsFirstYear(df1: Table, years: seq<string>)
    requires WellFormed(df1)
    requires |Present(SalesColumns(years), df1.columns)| > 0
    ensures var k := Present(SalesColumns(years), df1.columns)[0];
      k in df1.columns && exists j :: (0 <= j < |years| && k == years[j] + "売上" &&
        forall i :: 0 <= i < j ==> years[i] + "売上" !in df1.columns)
  {
    PresentFirst(SalesColumns(years), df1.columns);
  }
}
