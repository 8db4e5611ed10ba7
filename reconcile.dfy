/** The null reconciliation that follows the full join of a current-year
    table with its historical counterpart (`fix_full_join_nulls` and
    `_fix_full_join_nulls`). Historical columns carry the `_past` marker.
    Three column classes get three rules:
    - identity columns (a shadow whose base name mentions no year): a null
      is filled from the shadow, a non-null value is kept, and a base column
      that is missing is copied from the shadow;
    - the current year's metric columns: never touched by a shadow, created
      all-null when missing;
    - a prior year's metric columns: under the Protective policy only nulls
      are filled from the shadow, under the Authoritative policy the shadow
      overwrites; created all-null when neither side has them.
    Finally every shadow column that was there at the start is dropped.

    `FixSpec` states the whole result as three folds; `FixFullJoinNulls` is
    the loop the scripts run, proved equal to it; the lemmas state the three
    rules, column completeness, the removal of shadows and the row count. */
module Reconcile {

  import opened Wrappers
  import opened Text
  import opened Tables

  /** Whether historical values may overwrite prior-year columns. */
  datatype Policy = Protective | Authoritative

  /** The four metric suffixes of a year column. */
  datatype Suffix = Quantity | Area | Revenue | Margin

  function SuffixName(s: Suffix): string {
    match s
    case Quantity => "売上数"
    case Area => "㎡"
    case Revenue => "売上"
    case Margin => "粗利"
  }

  /** The suffixes reconciled for a year: sales quantity only for the
      current year. */
  function SuffixesFor(year: string, current: string): seq<Suffix> {
    if year == current then [Quantity, Area, Revenue, Margin] else [Area, Revenue, Margin]
  }

  /** `f"{year_str}{suffix}"` */
  function MetricColumn(year: string, s: Suffix): string {
    year + SuffixName(s)
  }

  /** `f"{col}_past"` */
  function PastName(c: string): string {
    c + PastMarker
  }

  /** `past_col.replace('_past', '')` */
  function BaseName(p: string): string {
    RemoveAll(p, PastMarker)
  }

  /** `[col for col in df.columns if col.endswith('_past')]` */
  function PastColumns(cols: seq<string>): (r: seq<string>)
    ensures forall c :: c in r <==> c in cols && EndsWith(c, PastMarker)
    ensures Distinct(cols) ==> Distinct(r)
  {
    if |cols| == 0 then []
    else
      var rest := PastColumns(cols[1..]);
      assert forall c :: c in cols <==> c == cols[0] || c in cols[1..];
      if EndsWith(cols[0], PastMarker) then
        var r := [cols[0]] + rest;
        assert forall j :: 1 <= j < |r| ==> r[j] in rest;
        r
      else rest
  }

  /** `any(year in base_col for year in years_list)`: the substring test that
      classifies a column as year data. */
  predicate MentionsYear(c: string, years: seq<string>) {
    exists y :: y in years && Contains(c, y)
  }

  // ----- step 1: identity columns -----

  function IdStep(t: Table, p: string, years: seq<string>): (r: Table)
    requires WellFormed(t) && p in t.columns
    ensures WellFormed(r) && |r.rows| == |t.rows| && Names(t.columns) <= Names(r.columns)
  {
    var b := BaseName(p);
    if MentionsYear(b, years) then t
    else if b !in t.columns then WithColumn(t, b, Column(t, p))
    else WithColumn(t, b, Coalesce(Column(t, b), Column(t, p)))
  }

  /** The identity-column loop over the shadow columns `ps`, in order. */
  function IdFold(t: Table, ps: seq<string>, years: seq<string>): (r: Table)
    requires WellFormed(t) && Names(ps) <= Names(t.columns)
    ensures WellFormed(r) && |r.rows| == |t.rows| && Names(t.columns) <= Names(r.columns)
    decreases |ps|
  {
    if |ps| == 0 then t
    else
      assert Names(ps[..|ps| - 1]) <= Names(ps) && ps[|ps| - 1] in Names(ps);
      IdStep(IdFold(t, ps[..|ps| - 1], years), ps[|ps| - 1], years)
  }

  // ----- step 2: year columns -----

  /** One `(year, suffix)` combination of the year loop. */
  type Task = (string, Suffix)

  function TaskColumn(task: Task): string {
    MetricColumn(task.0, task.1)
  }

  /** The columns a sequence of combinations writes. */
  function TaskColumns(tasks: seq<Task>): (r: seq<string>)
    ensures |r| == |tasks| && forall k :: 0 <= k < |tasks| ==> r[k] == TaskColumn(tasks[k])
  {
    seq(|tasks|, k requires 0 <= k < |tasks| => TaskColumn(tasks[k]))
  }

  function YearStep(t: Table, task: Task, current: string, policy: Policy): (r: Table)
    requires WellFormed(t)
    ensures WellFormed(r) && |r.rows| == |t.rows|
    ensures Names(r.columns) == Names(t.columns) + {TaskColumn(task)}
  {
    var c := TaskColumn(task);
    var p := PastName(c);
    if task.0 == current then
      if c in t.columns then t else WithColumn(t, c, Nulls(|t.rows|))
    else if p in t.columns then
      if policy == Authoritative || c !in t.columns then WithColumn(t, c, Column(t, p))
      else WithColumn(t, c, Coalesce(Column(t, c), Column(t, p)))
    else if c !in t.columns then WithColumn(t, c, Nulls(|t.rows|))
    else t
  }

  /** The columns of all combinations but the last, and the last one's. */
  lemma TaskColumnsInit(tasks: seq<Task>)
    requires |tasks| > 0
    ensures Names(TaskColumns(tasks)) == Names(TaskColumns(tasks[..|tasks| - 1])) + {TaskColumn(tasks[|tasks| - 1])}
  {
    var n := |tasks|;
    assert TaskColumns(tasks) == TaskColumns(tasks[..n - 1]) + [TaskColumn(tasks[n - 1])];
  }

  /** The year loop over a sequence of combinations, in order. */
  function TaskFold(t: Table, tasks: seq<Task>, current: string, policy: Policy): (r: Table)
    requires WellFormed(t)
    ensures WellFormed(r) && |r.rows| == |t.rows|
    ensures Names(r.columns) == Names(t.columns) + Names(TaskColumns(tasks))
    decreases |tasks|
  {
    if |tasks| == 0 then t
    else
      var n := |tasks|;
      var prev := TaskFold(t, tasks[..n - 1], current, policy);
      TaskColumnsInit(tasks);
      YearStep(prev, tasks[n - 1], current, policy)
  }

  function SuffixTasks(year: string, ss: seq<Suffix>): (r: seq<Task>)
    ensures |r| == |ss| && forall k :: 0 <= k < |ss| ==> r[k] == (year, ss[k])
  {
    seq(|ss|, k requires 0 <= k < |ss| => (year, ss[k]))
  }

  /** Every combination the year loop visits, in visiting order. */
  function YearTasks(years: seq<string>, current: string): (r: seq<Task>)
    ensures forall task :: task in r <==> task.0 in years && task.1 in SuffixesFor(task.0, current)
    decreases |years|
  {
    if |years| == 0 then []
    else
      var n := |years|;
      var y := years[n - 1];
      assert forall x :: x in years <==> x in years[..n - 1] || x == y;
      YearTasks(years[..n - 1], current) + SuffixTasks(y, SuffixesFor(y, current))
  }

  /** One more year appends that year's combinations. */
  lemma YearTasksStep(years: seq<string>, current: string, y: nat)
    requires y < |years|
    ensures YearTasks(years[..y + 1], current) == YearTasks(years[..y], current) + SuffixTasks(years[y], SuffixesFor(years[y], current))
  {
    var p := years[..y + 1];
    assert p[..|p| - 1] == years[..y] && p[|p| - 1] == years[y];
  }

  /** With distinct years the loop visits each combination once. */
  lemma {:induction false} YearTasksDistinct(years: seq<string>, current: string)
    requires Distinct(years)
    ensures Distinct(YearTasks(years, current))
    decreases |years|
  {
    if |years| > 0 {
      var n := |years|;
      var y := years[n - 1];
      var prev := YearTasks(years[..n - 1], current);
      var last := SuffixTasks(y, SuffixesFor(y, current));
      DistinctInit(years);
      YearTasksDistinct(years[..n - 1], current);
      forall x | x in prev ensures x !in last {
        assert x.0 in years[..n - 1];
      }
      DistinctConcat(prev, last);
    }
  }

  // ----- step 3: drop the shadows -----

  function DropAll(t: Table, ps: seq<string>): (r: Table)
    requires WellFormed(t)
    ensures WellFormed(r) && |r.rows| == |t.rows|
    ensures Names(r.columns) == Names(t.columns) - Names(ps)
    ensures forall i, c :: 0 <= i < |t.rows| && c in r.columns ==> r.rows[i][c] == t.rows[i][c]
    decreases |ps|
  {
    if |ps| == 0 then t
    else
      var n := |ps|;
      var prev := DropAll(t, ps[..n - 1]);
      assert Names(ps) == Names(ps[..n - 1]) + {ps[n - 1]};
      if ps[n - 1] in prev.columns then DropColumn(prev, ps[n - 1]) else prev
  }

  /** The whole reconciliation: identity columns, then year columns, then
      the shadows present at the start are dropped. */
  function FixSpec(t: Table, years: seq<string>, current: string, policy: Policy): (r: Table)
    requires WellFormed(t)
    ensures WellFormed(r) && |r.rows| == |t.rows|
  {
    var ps := PastColumns(t.columns);
    DropAll(TaskFold(IdFold(t, ps, years), YearTasks(years, current), current, policy), ps)
  }

  /** The identity-column loop: nulls filled from the shadow, nothing
      overwritten. */
  method FillIdentityColumns(df: Table, pastColumns: seq<string>, years: seq<string>)
    returns (out: Table)
    requires WellFormed(df) && Names(pastColumns) <= Names(df.columns)
    ensures out == IdFold(df, pastColumns, years)
  {
    out := df;
    var i := 0;
    while i < |pastColumns|
      invariant 0 <= i <= |pastColumns|
      invariant WellFormed(out) && out == IdFold(df, pastColumns[..i], years)
    {
      var pastCol := pastColumns[i];
      var baseCol := BaseName(pastCol);
      assert pastColumns[..i + 1][..i] == pastColumns[..i];
      assert pastCol in Names(df.columns);
      if !MentionsYear(baseCol, years) {
        if baseCol !in out.columns {
          out := WithColumn(out, baseCol, Column(out, pastCol));
        } else {
          out := WithColumn(out, baseCol, Coalesce(Column(out, baseCol), Column(out, pastCol)));
        }
      }
      i := i + 1;
    }
    assert pastColumns[..i] == pastColumns;
  }

  /** The body of the year loop for one `(year, suffix)` combination. */
  method FillYearColumn(df: Table, yearStr: string, suffix: Suffix, current: string, policy: Policy)
    returns (out: Table)
    requires WellFormed(df)
    ensures out == YearStep(df, (yearStr, suffix), current, policy)
  {
    out := df;
    var colName := MetricColumn(yearStr, suffix);
    var pastColName := PastName(colName);
    if yearStr == current {
      // the current year is never overwritten by its shadow
      if colName !in out.columns {
        out := WithColumn(out, colName, Nulls(|out.rows|));
      }
    } else if pastColName in out.columns {
      match policy
      case Protective =>
        if colName !in out.columns {
          out := WithColumn(out, colName, Column(out, pastColName));
        } else {
          out := WithColumn(out, colName, Coalesce(Column(out, colName), Column(out, pastColName)));
        }
      case Authoritative =>
        out := WithColumn(out, colName, Column(out, pastColName));
    } else if colName !in out.columns {
      out := WithColumn(out, colName, Nulls(|out.rows|));
    }
  }

  /** Folding over two sequences one after the other. */
  lemma {:induction false} TaskFoldAppend(t: Table, a: seq<Task>, b: seq<Task>, current: string, policy: Policy)
    requires WellFormed(t)
    ensures TaskFold(t, a + b, current, policy) == TaskFold(TaskFold(t, a, current, policy), b, current, policy)
    decreases |b|
  {
    if |b| == 0 {
      assert a + b == a;
    } else {
      assert (a + b)[..|a + b| - 1] == a + b[..|b| - 1];
      TaskFoldAppend(t, a, b[..|b| - 1], current, policy);
    }
  }

  /** The inner loop: every suffix of one year. */
  method FillYear(df: Table, yearStr: string, current: string, policy: Policy)
    returns (out: Table)
    requires WellFormed(df)
    ensures out == TaskFold(df, SuffixTasks(yearStr, SuffixesFor(yearStr, current)), current, policy)
  {
    var suffixes := SuffixesFor(yearStr, current);
    out := df;
    var k := 0;
    while k < |suffixes|
      invariant 0 <= k <= |suffixes|
      invariant WellFormed(out) && out == TaskFold(df, SuffixTasks(yearStr, suffixes[..k]), current, policy)
    {
      ghost var next := SuffixTasks(yearStr, suffixes[..k + 1]);
      assert next[..k] == SuffixTasks(yearStr, suffixes[..k]);
      out := FillYearColumn(out, yearStr, suffixes[k], current, policy);
      k := k + 1;
    }
    assert suffixes[..k] == suffixes;
  }

  /** The year loop: every year of the list, every suffix of that year. */
  method FillYearColumns(df: Table, years: seq<string>, current: string, policy: Policy)
    returns (out: Table)
    requires WellFormed(df)
    ensures out == TaskFold(df, YearTasks(years, current), current, policy)
  {
    out := df;
    var y := 0;
    while y < |years|
      invariant 0 <= y <= |years|
      invariant WellFormed(out) && out == TaskFold(df, YearTasks(years[..y], current), current, policy)
    {
      var yearStr := years[y];
      YearTasksStep(years, current, y);
      TaskFoldAppend(df, YearTasks(years[..y], current), SuffixTasks(yearStr, SuffixesFor(yearStr, current)), current, policy);
      out := FillYear(out, yearStr, current, policy);
      y := y + 1;
    }
    assert years[..y] == years;
  }

  /** The final loop: every shadow column still present is dropped. */
  method DropShadows(df: Table, pastColumns: seq<string>) returns (out: Table)
    requires WellFormed(df)
    ensures out == DropAll(df, pastColumns)
  {
    out := df;
    var j := 0;
    while j < |pastColumns|
      invariant 0 <= j <= |pastColumns|
      invariant WellFormed(out) && out == DropAll(df, pastColumns[..j])
    {
      assert pastColumns[..j + 1][..j] == pastColumns[..j];
      if pastColumns[j] in out.columns {
        out := DropColumn(out, pastColumns[j]);
      }
      j := j + 1;
    }
    assert pastColumns[..j] == pastColumns;
  }

  /** `fix_full_join_nulls` / `_fix_full_join_nulls`: the three loops in
      order, the shadow list taken from the joined frame once, up front. */
  method FixFullJoinNulls(df: Table, years: seq<string>, current: string, policy: Policy)
    returns (out: Table)
    requires WellFormed(df)
    ensures out == FixSpec(df, years, current, policy)
  {
    var pastColumns := PastColumns(df.columns);
    out := FillIdentityColumns(df, pastColumns, years);
    out := FillYearColumns(out, years, current, policy);
    out := DropShadows(out, pastColumns);
  }
}
