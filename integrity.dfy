/** The merge script's integrity checks (`DataIntegrityValidator`): the
    sales totals of the three dimension tables before and after the merge,
    their comparison with the stated yen thresholds and the cross-dimension
    equality, and the check of the inputs before the merge. */
module Integrity {

  import opened Wrappers
  import opened Text
  import opened Tables

  /** The totals of one sales column in the corporation (`法人`), client
      (`得意先`) and client-product (`得意先（商品）`) tables. */
  datatype Totals3 = Totals3(corp: int, client: int, product: int)

  type TotalsMap = map<string, Totals3>

  const SalesMark: string := "売上"

  /** The sales columns present in all three tables. */
  predicate Checked(df1: Table, df2: Table, df3: Table, c: string) {
    EndsWith(c, SalesMark) && c in df1.columns && c in df2.columns && c in df3.columns
  }

  function TotalsOf(df1: Table, df2: Table, df3: Table, c: string): Totals3
    requires WellFormed(df1) && WellFormed(df2) && WellFormed(df3)
    requires c in df1.columns && c in df2.columns && c in df3.columns
  {
    Totals3(Total(df1, c), Total(df2, c), Total(df3, c))
  }

  // ----- validate_data_totals -----

  /** `validate_data_totals`: for every column of the corporation table
      ending in 売上 that the other two tables also have, the three totals;
      nothing when the corporation table is empty. The source visits the
      columns in sorted order, which a map does not record. */
  function ValidateDataTotals(df1: Table, df2: Table, df3: Table): (r: TotalsMap)
    requires WellFormed(df1) && WellFormed(df2) && WellFormed(df3)
    ensures IsEmpty(df1) ==> r == map[]
    ensures forall c :: c in r <==> !IsEmpty(df1) && Checked(df1, df2, df3, c)
    ensures forall c :: c in r ==> Checked(df1, df2, df3, c) && r[c] == TotalsOf(df1, df2, df3, c)
  {
    if IsEmpty(df1) then map[]
    else map c | c in Names(df1.columns) && Checked(df1, df2, df3, c) :: TotalsOf(df1, df2, df3, c)
  }

  // ----- compare_totals -----

  function Abs(x: int): nat {
    if x < 0 then -x else x
  }

  /** The level the source logs for a change of one dimension's total. */
  datatype Level = Unchanged | Minor | Warning | Critical

  /** Above 1,000,000 yen a change is critical, above 100,000 a warning,
      any other change minor. */
  function DiffLevel(before: int, after: int): (l: Level)
    ensures l == Unchanged <==> before == after
    ensures l == Critical <==> Abs(after - before) > 1000000
    ensures l == Warning <==> 100000 < Abs(after - before) <= 1000000
    ensures l == Minor <==> 0 < Abs(after - before) <= 100000
  {
    if after == before then Unchanged
    else if Abs(after - before) > 1000000 then Critical
    else if Abs(after - before) > 100000 then Warning
    else Minor
  }

  /** A warning or a critical change counts as an issue. */
  function LevelIssues(l: Level): nat {
    if l == Warning || l == Critical then 1 else 0
  }

  /** The three pairwise disagreements among one column's after-merge
      totals. */
  function Disagreements(a: Totals3): (n: nat)
    ensures n == 0 <==> a.corp == a.client == a.product
    ensures n != 1
  {
    (if a.corp != a.client then 1 else 0) + (if a.client != a.product then 1 else 0)
      + (if a.corp != a.product then 1 else 0)
  }

  /** The issues the source counts for one column. */
  function ColumnIssues(before: TotalsMap, after: TotalsMap, c: string): nat {
    if c !in after then 1
    else
      (if c in before then
         LevelIssues(DiffLevel(before[c].corp, after[c].corp))
         + LevelIssues(DiffLevel(before[c].client, after[c].client))
         + LevelIssues(DiffLevel(before[c].product, after[c].product))
       else 0)
      + Disagreements(after[c])
  }

  /** Whether the column leaves `is_valid` set: it is there after the merge,
      no dimension changed critically and the three totals agree. */
  predicate ColumnValid(before: TotalsMap, after: TotalsMap, c: string) {
    && c in after
    && (c in before ==>
          && DiffLevel(before[c].corp, after[c].corp) != Critical
          && DiffLevel(before[c].client, after[c].client) != Critical
          && DiffLevel(before[c].product, after[c].product) != Critical)
    && Disagreements(after[c]) == 0
  }

  /** The columns either snapshot knows. */
  function AllColumns(before: TotalsMap, after: TotalsMap): set<string> {
    before.Keys + after.Keys
  }

  /** What `compare_totals` promises when it returns true: some column is
      checked, every checked column survives the merge, no dimension moves
      by more than 100,000 yen and the three dimensions agree. */
  predicate TotalsConsistent(before: TotalsMap, after: TotalsMap) {
    && AllColumns(before, after) != {}
    && forall c :: c in AllColumns(before, after) ==>
         && c in after
         && (c in before ==>
               && Abs(after[c].corp - before[c].corp) <= 100000
               && Abs(after[c].client - before[c].client) <= 100000
               && Abs(after[c].product - before[c].product) <= 100000)
         && after[c].corp == after[c].client == after[c].product
  }

  /** A column without issues keeps `is_valid`. */
  lemma NoIssuesValid(before: TotalsMap, after: TotalsMap, c: string)
    requires ColumnIssues(before, after, c) == 0
    ensures ColumnValid(before, after, c)
  {
  }

  /** A column has no issues exactly when it meets the promise. */
  lemma ColumnIssuesZero(before: TotalsMap, after: TotalsMap, c: string)
    ensures ColumnIssues(before, after, c) == 0 <==>
      && c in after
      && (c in before ==>
            && Abs(after[c].corp - before[c].corp) <= 100000
            && Abs(after[c].client - before[c].client) <= 100000
            && Abs(after[c].product - before[c].product) <= 100000)
      && after[c].corp == after[c].client == after[c].product
  {
    if c in after && c in before {
      var b, a := before[c], after[c];
      assert LevelIssues(DiffLevel(b.corp, a.corp)) == 0 <==> Abs(a.corp - b.corp) <= 100000;
      assert LevelIssues(DiffLevel(b.client, a.client)) == 0 <==> Abs(a.client - b.client) <= 100000;
      assert LevelIssues(DiffLevel(b.product, a.product)) == 0 <==> Abs(a.product - b.product) <= 100000;
    }
  }

  /** `compare_totals(before, after, year)`: goes through every column
      either snapshot knows, accumulating `is_valid` and the issue count,
      and returns true exactly when the snapshots are consistent. The
      source goes through the columns in sorted order; the outcome does not
      depend on the order. */
  method CompareTotals(before: TotalsMap, after: TotalsMap) returns (ok: bool)
    ensures ok <==> TotalsConsistent(before, after)
  {
    var all := AllColumns(before, after);
    if all == {} {
      return false;
    }
    var isValid := true;
    var totalIssues: nat := 0;
    var todo := all;
    while todo != {}
      invariant todo <= all
      invariant isValid <==> forall c :: c in all - todo ==> ColumnValid(before, after, c)
      invariant totalIssues == 0 <==> forall c :: c in all - todo ==> ColumnIssues(before, after, c) == 0
      decreases todo
    {
      var c :| c in todo;
      var colValid := true;
      var colIssues: nat := 0;
      if c in after {
        var a := after[c];
        if c in before {
          var b := before[c];
          var levels := [DiffLevel(b.corp, a.corp), DiffLevel(b.client, a.client), DiffLevel(b.product, a.product)];
          for k := 0 to 3
            invariant colValid <==> forall j :: 0 <= j < k ==> levels[j] != Critical
            invariant colIssues == 0 <==> forall j :: 0 <= j < k ==> LevelIssues(levels[j]) == 0
          {
            if levels[k] == Critical {
              colValid := false;
              colIssues := colIssues + 1;
            } else if levels[k] == Warning {
              colIssues := colIssues + 1;
            }
          }
          assert colValid <==> levels[0] != Critical && levels[1] != Critical && levels[2] != Critical;
          assert colIssues == 0 <==> LevelIssues(levels[0]) == LevelIssues(levels[1]) == LevelIssues(levels[2]) == 0;
        }
        var n := Disagreements(a);
        if n > 0 {
          colValid := false;
          colIssues := colIssues + n;
        }
      } else {
        colValid := false;
        colIssues := colIssues + 1;
      }
      assert colValid <==> ColumnValid(before, after, c);
      assert colIssues == 0 <==> ColumnIssues(before, after, c) == 0;
      isValid := isValid && colValid;
      totalIssues := totalIssues + colIssues;
      assert all - (todo - {c}) == (all - todo) + {c};
      todo := todo - {c};
    }
    ok := isValid && totalIssues == 0;
    forall c | c in all ensures ColumnIssues(before, after, c) == 0 <==> ColumnValid(before, after, c) && ColumnIssues(before, after, c) == 0 {
      if ColumnIssues(before, after, c) == 0 {
        NoIssuesValid(before, after, c);
      }
    }
    forall c | c in all ensures ColumnIssues(before, after, c) == 0 <==>
      && c in after
      && (c in before ==>
            && Abs(after[c].corp - before[c].corp) <= 100000
            && Abs(after[c].client - before[c].client) <= 100000
            && Abs(after[c].product - before[c].product) <= 100000)
      && after[c].corp == after[c].client == after[c].product
    {
      ColumnIssuesZero(before, after, c);
    }
  }

  /** A critical change anywhere makes the comparison fail, and so does a
      warning. */
  lemma WarningFails(before: TotalsMap, after: TotalsMap, c: string)
    requires c in before && c in after
    requires DiffLevel(before[c].corp, after[c].corp) in {Warning, Critical}
    ensures !TotalsConsistent(before, after)
  {
    assert c in AllColumns(before, after);
  }

  /** A change of at most 100,000 yen in each dimension, with the three
      after-merge totals agreeing, passes. */
  lemma SmallChangesPass(before: TotalsMap, after: TotalsMap)
    requires before.Keys == after.Keys && before.Keys != {}
    requires forall c :: c in after ==> after[c].corp == after[c].client == after[c].product
    requires forall c :: c in before ==>
      DiffLevel(before[c].corp, after[c].corp) in {Unchanged, Minor}
      && DiffLevel(before[c].client, after[c].client) in {Unchanged, Minor}
      && DiffLevel(before[c].product, after[c].product) in {Unchanged, Minor}
    ensures TotalsConsistent(before, after)
  {
  }

  /** Snapshots of the same unchanged tables whose dimensions agree pass. */
  lemma UnchangedTablesPass(df1: Table, df2: Table, df3: Table)
    requires WellFormed(df1) && WellFormed(df2) && WellFormed(df3)
    requires ValidateDataTotals(df1, df2, df3) != map[]
    requires forall c :: Checked(df1, df2, df3, c) ==> Total(df1, c) == Total(df2, c) == Total(df3, c)
    ensures TotalsConsistent(ValidateDataTotals(df1, df2, df3), ValidateDataTotals(df1, df2, df3))
  {
  }

  // ----- validate_pre_merge_data -----

  /** An entry of `potential_conflicts`. */
  datatype Conflict = Conflict(column: string, current: int, past: int, diff: int)

  /** The dictionary `validate_pre_merge_data` returns. */
  datatype PreMergeReport = PreMergeReport(
    currentYearData: TotalsMap,
    pastData: TotalsMap,
    conflicts: seq<Conflict>,
    recommendations: seq<string>)

  const OverwriteWarning: string := "データ結合時に年度データの上書きに注意"
  const VerifyAfterMerge: string := "結合後の詳細検証を必須実行"
  const PastEmptyAdvice: string := "過去データが空のため、シンプルな当年度データ処理を推奨"

  /** The current year's totals; a dimension table without the sales column
      counts as 0. */
  function CurrentYearData(df1: Table, df2: Table, df3: Table, currentYear: int): (r: TotalsMap)
    requires WellFormed(df1) && WellFormed(df2) && WellFormed(df3)
    ensures var cur := IntToString(currentYear) + SalesMark;
      && r.Keys <= {cur}
      && (cur in r <==> !IsEmpty(df1) && cur in df1.columns)
      && (cur in r ==> r[cur].corp == Total(df1, cur)
                        && r[cur].client == (if cur in df2.columns then Total(df2, cur) else 0)
                        && r[cur].product == (if cur in df3.columns then Total(df3, cur) else 0))
  {
    var cur := IntToString(currentYear) + SalesMark;
    if !IsEmpty(df1) && cur in df1.columns then
      map[cur := Totals3(Total(df1, cur),
                         if cur in df2.columns then Total(df2, cur) else 0,
                         if cur in df3.columns then Total(df3, cur) else 0)]
    else map[]
  }

  /** The historical totals the loop has recorded after visiting `cols`. */
  function PastData(df1: Table, df2: Table, df3: Table, cols: seq<string>): (r: TotalsMap)
    requires WellFormed(df1) && WellFormed(df2) && WellFormed(df3)
    ensures forall c :: c in r <==> c in cols && Checked(df1, df2, df3, c)
    ensures forall c :: c in r ==> Checked(df1, df2, df3, c) && r[c] == TotalsOf(df1, df2, df3, c)
  {
    map c | c in cols && Checked(df1, df2, df3, c) :: TotalsOf(df1, df2, df3, c)
  }

  /** Whether column `c` of the history is a potential conflict: the
      current year has a total for it and the corporation totals differ by
      more than 1,000 yen. */
  predicate IsConflict(current: TotalsMap, df1: Table, df2: Table, df3: Table, c: string)
    requires WellFormed(df1) && WellFormed(df2) && WellFormed(df3)
  {
    Checked(df1, df2, df3, c) && c in current && Abs(current[c].corp - Total(df1, c)) > 1000
  }

  /** The conflicts the loop has appended after visiting `cols`. */
  function Conflicts(current: TotalsMap, df1: Table, df2: Table, df3: Table, cols: seq<string>): (r: seq<Conflict>)
    requires WellFormed(df1) && WellFormed(df2) && WellFormed(df3)
    ensures |r| <= |cols|
    ensures forall k :: 0 <= k < |r| ==> r[k].column in cols && IsConflict(current, df1, df2, df3, r[k].column)
    ensures forall k :: 0 <= k < |r| ==> r[k].diff == r[k].current - r[k].past && Abs(r[k].diff) > 1000
    decreases |cols|
  {
    if |cols| == 0 then []
    else
      var c := cols[|cols| - 1];
      var init := Conflicts(current, df1, df2, df3, cols[..|cols| - 1]);
      if IsConflict(current, df1, df2, df3, c) then
        init + [Conflict(c, current[c].corp, Total(df1, c), current[c].corp - Total(df1, c))]
      else init
  }

  /** The columns of `cols` that are conflicts, in order. */
  lemma {:induction false} ConflictColumns(current: TotalsMap, df1: Table, df2: Table, df3: Table, cols: seq<string>)
    requires WellFormed(df1) && WellFormed(df2) && WellFormed(df3)
    ensures forall c :: c in cols && IsConflict(current, df1, df2, df3, c) ==>
      exists k :: 0 <= k < |Conflicts(current, df1, df2, df3, cols)| && Conflicts(current, df1, df2, df3, cols)[k].column == c
    decreases |cols|
  {
    if |cols| > 0 {
      var init, last := cols[..|cols| - 1], cols[|cols| - 1];
      assert cols == init + [last];
      ConflictColumns(current, df1, df2, df3, init);
      ConflictsStep(current, df1, df2, df3, init, last);
      var ri := Conflicts(current, df1, df2, df3, init);
      ConflictFoundStep(current, df1, df2, df3, init, last, ri, Conflicts(current, df1, df2, df3, cols));
    }
  }

  /** A conflict found among the first columns is still found after one more
      column, and so is that column when it is a conflict. */
  lemma ConflictFoundStep(current: TotalsMap, df1: Table, df2: Table, df3: Table, init: seq<string>, last: string,
                          ri: seq<Conflict>, r: seq<Conflict>)
    requires WellFormed(df1) && WellFormed(df2) && WellFormed(df3)
    requires forall c :: c in init && IsConflict(current, df1, df2, df3, c) ==> exists k :: 0 <= k < |ri| && ri[k].column == c
    requires IsConflict(current, df1, df2, df3, last) ==> |r| == |ri| + 1 && r[..|ri|] == ri && r[|ri|].column == last
    requires !IsConflict(current, df1, df2, df3, last) ==> r == ri
    ensures forall c :: c in init + [last] && IsConflict(current, df1, df2, df3, c) ==> exists k :: 0 <= k < |r| && r[k].column == c
  {
    forall c | c in init + [last] && IsConflict(current, df1, df2, df3, c)
      ensures exists k :: 0 <= k < |r| && r[k].column == c
    {
      if c in init {
        var k :| 0 <= k < |ri| && ri[k].column == c;
        assert r[..|ri|][k] == r[k];
      } else {
        assert r[|ri|].column == c;
      }
    }
  }

  /** Distinct columns give distinct conflicts, so at most one column has
      a conflict when the current year records only its own sales column. */
  lemma {:induction false} ConflictsAtMostOne(current: TotalsMap, df1: Table, df2: Table, df3: Table, cols: seq<string>, cur: string)
    requires WellFormed(df1) && WellFormed(df2) && WellFormed(df3)
    requires Distinct(cols) && current.Keys <= {cur}
    ensures |Conflicts(current, df1, df2, df3, cols)| <= 1
    ensures |Conflicts(current, df1, df2, df3, cols)| == 1 ==> Conflicts(current, df1, df2, df3, cols)[0].column == cur
    decreases |cols|
  {
    if |cols| > 0 {
      var init := cols[..|cols| - 1];
      var c := cols[|cols| - 1];
      DistinctInit(cols);
      ConflictsAtMostOne(current, df1, df2, df3, init, cur);
    }
  }

  /** The historical sales columns, in the history table's order. */
  function PastSalesColumns(df1b: Table): (r: seq<string>)
    ensures forall c :: c in r <==> c in df1b.columns && EndsWith(c, SalesMark)
    ensures Distinct(df1b.columns) ==> Distinct(r)
    decreases |df1b.columns|
  {
    if |df1b.columns| == 0 then []
    else
      var rest := PastSalesColumns(Table(df1b.columns[1..], df1b.rows));
      assert forall c :: c in df1b.columns <==> c == df1b.columns[0] || c in df1b.columns[1..];
      assert Distinct(df1b.columns) ==> df1b.columns[0] !in df1b.columns[1..];
      if EndsWith(df1b.columns[0], SalesMark) then [df1b.columns[0]] + rest else rest
  }

  /** Visiting one more column adds its totals when all three history
      tables have it. */
  lemma PastDataStep(df1: Table, df2: Table, df3: Table, cols: seq<string>, c: string)
    requires WellFormed(df1) && WellFormed(df2) && WellFormed(df3)
    ensures PastData(df1, df2, df3, cols + [c]) ==
      if Checked(df1, df2, df3, c) then PastData(df1, df2, df3, cols)[c := TotalsOf(df1, df2, df3, c)]
      else PastData(df1, df2, df3, cols)
  {
    assert forall d :: d in cols + [c] <==> d in cols || d == c;
  }

  /** Visiting one more column appends its conflict, if it is one. */
  lemma ConflictsStep(current: TotalsMap, df1: Table, df2: Table, df3: Table, cols: seq<string>, c: string)
    requires WellFormed(df1) && WellFormed(df2) && WellFormed(df3)
    ensures Conflicts(current, df1, df2, df3, cols + [c]) ==
      if IsConflict(current, df1, df2, df3, c)
      then Conflicts(current, df1, df2, df3, cols) + [Conflict(c, current[c].corp, Total(df1, c), current[c].corp - Total(df1, c))]
      else Conflicts(current, df1, df2, df3, cols)
  {
    assert (cols + [c])[..|cols|] == cols;
  }

  /** One pass of the loop over the historical sales columns, on the
      totals. */
  lemma PastScanStep(df1: Table, df2: Table, df3: Table, cols: seq<string>, i: nat, past0: TotalsMap, past: TotalsMap)
    requires WellFormed(df1) && WellFormed(df2) && WellFormed(df3) && i < |cols|
    requires cols[i] in df1.columns && EndsWith(cols[i], SalesMark)
    requires past0 == PastData(df1, df2, df3, cols[..i])
    requires var c := cols[i];
      past == if c in df2.columns && c in df3.columns then past0[c := TotalsOf(df1, df2, df3, c)] else past0
    ensures past == PastData(df1, df2, df3, cols[..i + 1])
  {
    var c := cols[i];
    assert cols[..i + 1] == cols[..i] + [c];
    PastDataStep(df1, df2, df3, cols[..i], c);
  }

  /** One pass of the loop over the historical sales columns, on the
      conflicts. */
  lemma ConflictScanStep(current: TotalsMap, df1: Table, df2: Table, df3: Table, cols: seq<string>, i: nat,
                         conflicts0: seq<Conflict>, conflicts: seq<Conflict>)
    requires WellFormed(df1) && WellFormed(df2) && WellFormed(df3) && i < |cols|
    requires conflicts0 == Conflicts(current, df1, df2, df3, cols[..i])
    requires var c := cols[i];
      conflicts == if IsConflict(current, df1, df2, df3, c)
        then conflicts0 + [Conflict(c, current[c].corp, Total(df1, c), current[c].corp - Total(df1, c))]
        else conflicts0
    ensures conflicts == Conflicts(current, df1, df2, df3, cols[..i + 1])
  {
    PrefixSnoc(cols, i);
    ConflictsStep(current, df1, df2, df3, cols[..i], cols[i]);
    if IsConflict(current, df1, df2, df3, cols[i]) {
      assert conflicts == Conflicts(current, df1, df2, df3, cols[..i] + [cols[i]]);
    } else {
      assert conflicts == Conflicts(current, df1, df2, df3, cols[..i] + [cols[i]]);
    }
  }

  /** The loop over the historical sales columns of
      `validate_pre_merge_data`. */
  method ScanPast(current: TotalsMap, df1b: Table, df2b: Table, df3b: Table, cols: seq<string>)
    returns (past: TotalsMap, conflicts: seq<Conflict>)
    requires WellFormed(df1b) && WellFormed(df2b) && WellFormed(df3b)
    requires forall c :: c in cols ==> c in df1b.columns && EndsWith(c, SalesMark)
    ensures past == PastData(df1b, df2b, df3b, cols)
    ensures conflicts == Conflicts(current, df1b, df2b, df3b, cols)
  {
    past, conflicts := map[], [];
    for i := 0 to |cols|
      invariant past == PastData(df1b, df2b, df3b, cols[..i])
      invariant conflicts == Conflicts(current, df1b, df2b, df3b, cols[..i])
    {
      var c := cols[i];
      ghost var past0, conflicts0 := past, conflicts;
      if c in df2b.columns && c in df3b.columns {
        var totals := TotalsOf(df1b, df2b, df3b, c);
        past := past[c := totals];
        if c in current && Abs(current[c].corp - totals.corp) > 1000 {
          conflicts := conflicts + [Conflict(c, current[c].corp, totals.corp, current[c].corp - totals.corp)];
        }
      }
      assert c in df1b.columns && EndsWith(c, SalesMark);
      PastScanStep(df1b, df2b, df3b, cols, i, past0, past);
      ConflictScanStep(current, df1b, df2b, df3b, cols, i, conflicts0, conflicts);
    }
    assert cols[..|cols|] == cols;
  }

  /** `validate_pre_merge_data`: the current year's totals, the totals of
      every historical sales column the three history tables share, one
      conflict for each such column whose corporation total differs from
      the current one by more than 1,000 yen, and the recommendations. */
  method ValidatePreMergeData(df1a: Table, df2a: Table, df3a: Table, df1b: Table, df2b: Table, df3b: Table, currentYear: int)
    returns (r: PreMergeReport)
    requires WellFormed(df1a) && WellFormed(df2a) && WellFormed(df3a)
    requires WellFormed(df1b) && WellFormed(df2b) && WellFormed(df3b)
    ensures r.currentYearData == CurrentYearData(df1a, df2a, df3a, currentYear)
    ensures IsEmpty(df1b) ==> r.pastData == map[] && r.conflicts == []
    ensures !IsEmpty(df1b) ==>
      && r.pastData == PastData(df1b, df2b, df3b, PastSalesColumns(df1b))
      && r.conflicts == Conflicts(r.currentYearData, df1b, df2b, df3b, PastSalesColumns(df1b))
    ensures r.recommendations ==
      (if |r.conflicts| > 0 then [OverwriteWarning, VerifyAfterMerge] else [])
      + (if IsEmpty(df1b) then [PastEmptyAdvice] else [])
  {
    var current := CurrentYearData(df1a, df2a, df3a, currentYear);
    var past: TotalsMap := map[];
    var conflicts: seq<Conflict> := [];
    if !IsEmpty(df1b) {
      past, conflicts := ScanPast(current, df1b, df2b, df3b, PastSalesColumns(df1b));
    }
    var recommendations: seq<string> := [];
    if |conflicts| > 0 {
      recommendations := recommendations + [OverwriteWarning, VerifyAfterMerge];
    }
    if IsEmpty(df1b) {
      recommendations := recommendations + [PastEmptyAdvice];
    }
    r := PreMergeReport(current, past, conflicts, recommendations);
  }

  /** The report flags at most one conflict, on the current year's sales
      column, and flags it exactly when the history has that column in all
      three tables and its corporation total is more than 1,000 yen away. */
  lemma PreMergeConflicts(df1a: Table, df2a: Table, df3a: Table, df1b: Table, df2b: Table, df3b: Table, currentYear: int)
    requires WellFormed(df1a) && WellFormed(df2a) && WellFormed(df3a)
    requires WellFormed(df1b) && WellFormed(df2b) && WellFormed(df3b)
    requires !IsEmpty(df1b)
    ensures var cur := IntToString(currentYear) + SalesMark;
      var current := CurrentYearData(df1a, df2a, df3a, currentYear);
      var cs := Conflicts(current, df1b, df2b, df3b, PastSalesColumns(df1b));
      && |cs| <= 1
      && (|cs| == 1 ==> cs[0].column == cur)
      && (|cs| == 1 <==> IsConflict(current, df1b, df2b, df3b, cur))
  {
    var cur := IntToString(currentYear) + SalesMark;
    var current := CurrentYearData(df1a, df2a, df3a, currentYear);
    var cols := PastSalesColumns(df1b);
    ConflictsAtMostOne(current, df1b, df2b, df3b, cols, cur);
    ConflictColumns(current, df1b, df2b, df3b, cols);
    if IsConflict(current, df1b, df2b, df3b, cur) {
      assert cur in cols;
    }
  }
}
