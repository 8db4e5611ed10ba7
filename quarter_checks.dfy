/** The cross-checks of the second-quarter script
    (`02_merge_past_data_2Q.py`): the yearly totals of the three tables
    before the merge (current data preferred over historical data) and
    after it, their comparison, and the severity of each difference. */
module QuarterChecks {

  import opened Wrappers
  import opened Tables
  import opened Reconcile

  /** The three tables: corporations, clients, products per client. */
  datatype Dim = Corp | Client | Product

  const Dims: seq<Dim> := [Corp, Client, Product]
  const AllSuffixes: seq<Suffix> := [Quantity, Area, Revenue, Margin]

  /** One figure of a year: table and metric. The script's own key is the
      text `KeyName`, which names each pair apart (`KeyNameInjective`). */
  datatype Key = Key(dim: Dim, suffix: Suffix)

  function DimPrefix(d: Dim): string {
    match d
    case Corp => "法人_"
    case Client => "得意先_"
    case Product => "得意先商品_"
  }

  /** `f"{data_type}{suffix}"` */
  function KeyName(k: Key): string {
    DimPrefix(k.dim) + SuffixName(k.suffix)
  }

  lemma KeyNameInjective(a: Key, b: Key)
    requires KeyName(a) == KeyName(b)
    ensures a == b
  {
    var p, q := DimPrefix(a.dim), DimPrefix(b.dim);
    assert KeyName(a)[0] == p[0] && KeyName(b)[0] == q[0];
    if a.dim != Corp && b.dim != Corp {
      assert KeyName(a)[3] == p[3] && KeyName(b)[3] == q[3];
    }
    assert SuffixName(a.suffix) == KeyName(a)[|p|..] && SuffixName(b.suffix) == KeyName(b)[|q|..];
  }

  /** The totals of one year, by key. */
  type Entry = map<Key, int>
  /** Entries by year label. */
  type ByYear = map<string, Entry>

  lemma DimListed(d: Dim)
    ensures d in Dims
  {
    if d.Corp? {
      assert Dims[0] == d;
    } else if d.Client? {
      assert Dims[1] == d;
    } else {
      assert Dims[2] == d;
    }
  }

  /** Every key of the given metrics. */
  function KeySet(ss: seq<Suffix>): (r: set<Key>)
    ensures forall k :: k in r <==> k.suffix in ss
  {
    var r := set d, s | d in Dims && s in ss :: Key(d, s);
    forall k: Key | k.suffix in ss ensures k in r {
      DimListed(k.dim);
    }
    r
  }

  function DimTable(df1: Table, df2: Table, df3: Table, d: Dim): Table {
    match d
    case Corp => df1
    case Client => df2
    case Product => df3
  }

  /** Whether the snapshot reads column `c` of table `d`. Before the merge
      (`nested`) the client and product figures are read only when the
      corporation table has the column too; after it each table on its own. */
  predicate Reads(df1: Table, df2: Table, df3: Table, c: string, d: Dim, nested: bool) {
    c in DimTable(df1, df2, df3, d).columns && (nested ==> c in df1.columns)
  }

  /** `df.select(pl.col(c).sum()).item()` in the table of `k`. */
  function KeyTotal(df1: Table, df2: Table, df3: Table, y: string, k: Key): int
    requires WellFormed(df1) && WellFormed(df2) && WellFormed(df3)
    requires MetricColumn(y, k.suffix) in DimTable(df1, df2, df3, k.dim).columns
  {
    Total(DimTable(df1, df2, df3, k.dim), MetricColumn(y, k.suffix))
  }

  /** The figures of year `y` over metrics `ss`: the total of every column
      the snapshot reads. */
  function YearEntry(df1: Table, df2: Table, df3: Table, y: string, ss: seq<Suffix>, nested: bool): (e: Entry)
    requires WellFormed(df1) && WellFormed(df2) && WellFormed(df3)
    ensures forall k :: k in e <==> k.suffix in ss && Reads(df1, df2, df3, MetricColumn(y, k.suffix), k.dim, nested)
  {
    map k | k in KeySet(ss) && Reads(df1, df2, df3, MetricColumn(y, k.suffix), k.dim, nested)
      :: KeyTotal(df1, df2, df3, y, k)
  }

  // ----- get_yearly_values_before_merge -----

  /** The three parts of the snapshot before the merge. */
  datatype Snapshot = Snapshot(current: ByYear, past: ByYear, allYears: ByYear)

  /** The `current` part: for every listed year, its figures in the current
      tables, or nothing when those tables are absent (`None`). */
  function CurrentValues(cur: Option<(Table, Table, Table)>, years: seq<string>, current: string): (r: ByYear)
    requires cur.Some? ==> WellFormed(cur.value.0) && WellFormed(cur.value.1) && WellFormed(cur.value.2)
    ensures cur.None? ==> r == map[]
    ensures cur.Some? ==> r.Keys == Names(years)
  {
    if cur.None? then map[]
    else
      var (a, b, c) := cur.value;
      map y | y in years :: YearEntry(a, b, c, y, SuffixesFor(y, current), true)
  }

  /** The `past` part: for every listed year but the current one, its
      area, sales and gross profit in the historical tables. */
  function PastValues(past: Option<(Table, Table, Table)>, years: seq<string>, current: string): (r: ByYear)
    requires past.Some? ==> WellFormed(past.value.0) && WellFormed(past.value.1) && WellFormed(past.value.2)
    ensures past.None? ==> r == map[]
    ensures past.Some? ==> r.Keys == Names(years) - {current}
  {
    if past.None? then map[]
    else
      var (a, b, c) := past.value;
      map y | y in years && y != current :: YearEntry(a, b, c, y, SuffixesFor(y, current), true)
  }

  predicate Has(v: ByYear, y: string, k: Key) {
    y in v && k in v[y]
  }

  /** The `all_years` entry of year `y`: each key from the current part
      when it has it, from the past part otherwise. */
  function CombinedEntry(cur: ByYear, past: ByYear, y: string, ss: seq<Suffix>): (e: Entry)
    ensures forall k :: k in e <==> k.suffix in ss && (Has(cur, y, k) || Has(past, y, k))
    ensures forall k :: k in e && Has(cur, y, k) ==> e[k] == cur[y][k]
    ensures forall k :: k in e && !Has(cur, y, k) ==> Has(past, y, k) && e[k] == past[y][k]
  {
    map k | k in KeySet(ss) && (Has(cur, y, k) || Has(past, y, k)) :: if Has(cur, y, k) then cur[y][k] else past[y][k]
  }

  /** `get_yearly_values_before_merge(current_data, past_data)`. */
  function BeforeMerge(cur: Option<(Table, Table, Table)>, past: Option<(Table, Table, Table)>,
                       years: seq<string>, current: string): (r: Snapshot)
    requires cur.Some? ==> WellFormed(cur.value.0) && WellFormed(cur.value.1) && WellFormed(cur.value.2)
    requires past.Some? ==> WellFormed(past.value.0) && WellFormed(past.value.1) && WellFormed(past.value.2)
    ensures r.current == CurrentValues(cur, years, current) && r.past == PastValues(past, years, current)
    ensures r.allYears.Keys == Names(years)
    ensures forall y :: y in years ==> r.allYears[y] == CombinedEntry(r.current, r.past, y, SuffixesFor(y, current))
  {
    var c := CurrentValues(cur, years, current);
    var p := PastValues(past, years, current);
    Snapshot(c, p, map y | y in years :: CombinedEntry(c, p, y, SuffixesFor(y, current)))
  }

  /** Where a figure of the combined snapshot comes from: the current
      tables when they have the column (with the corporation table having
      it too), else the historical ones under the same rule, for a prior
      year only; otherwise the figure is absent. */
  lemma BeforeMergeSource(cur: Option<(Table, Table, Table)>, past: Option<(Table, Table, Table)>,
                          years: seq<string>, current: string, y: string, d: Dim, s: Suffix)
    requires cur.Some? ==> WellFormed(cur.value.0) && WellFormed(cur.value.1) && WellFormed(cur.value.2)
    requires past.Some? ==> WellFormed(past.value.0) && WellFormed(past.value.1) && WellFormed(past.value.2)
    requires y in years && s in SuffixesFor(y, current)
    ensures var all := BeforeMerge(cur, past, years, current).allYears[y];
      var c := MetricColumn(y, s);
      var k := Key(d, s);
      && (cur.Some? && Reads(cur.value.0, cur.value.1, cur.value.2, c, d, true) ==>
            k in all && all[k] == KeyTotal(cur.value.0, cur.value.1, cur.value.2, y, k))
      && (!(cur.Some? && Reads(cur.value.0, cur.value.1, cur.value.2, c, d, true)) &&
          past.Some? && y != current && Reads(past.value.0, past.value.1, past.value.2, c, d, true) ==>
            k in all && all[k] == KeyTotal(past.value.0, past.value.1, past.value.2, y, k))
      && (!(cur.Some? && Reads(cur.value.0, cur.value.1, cur.value.2, c, d, true)) &&
          !(past.Some? && y != current && Reads(past.value.0, past.value.1, past.value.2, c, d, true)) ==>
            k !in all)
  {
    var snap := BeforeMerge(cur, past, years, current);
    var k := Key(d, s);
    if cur.Some? {
      assert y in snap.current;
    }
    if past.Some? && y != current {
      assert y in snap.past;
      assert SuffixesFor(y, current) == [Area, Revenue, Margin];
    }
  }

  // ----- get_yearly_values_after_merge -----

  /** `get_yearly_values_after_merge(merged_data)`: for every listed year, the
      total of each of its metric columns in each table that has it. */
  function AfterMerge(df1: Table, df2: Table, df3: Table, years: seq<string>, current: string): (r: ByYear)
    requires WellFormed(df1) && WellFormed(df2) && WellFormed(df3)
    ensures r.Keys == Names(years)
    ensures forall y, k :: y in years ==>
      (k in r[y] <==> k.suffix in SuffixesFor(y, current) && MetricColumn(y, k.suffix) in DimTable(df1, df2, df3, k.dim).columns)
  {
    map y | y in years :: YearEntry(df1, df2, df3, y, SuffixesFor(y, current), false)
  }

  // ----- compare_yearly_values -----

  /** One reported difference. */
  datatype Difference = Difference(year: string, key: Key, before: int, after: int, absDiff: nat)

  function Abs(x: int): nat {
    if x < 0 then -x else x
  }

  /** The keys of one table in loop order, the quantity only for the
      current year. */
  function SuffixKeys(d: Dim, ss: seq<Suffix>, y: string, current: string): (r: seq<Key>)
    ensures forall k :: k in r <==> k.dim == d && k.suffix in ss && (k.suffix == Quantity ==> y == current)
    decreases |ss|
  {
    if |ss| == 0 then []
    else
      var n := |ss|;
      var s := ss[n - 1];
      assert forall x :: x in ss <==> x in ss[..n - 1] || x == s;
      SuffixKeys(d, ss[..n - 1], y, current) + (if s == Quantity && y != current then [] else [Key(d, s)])
  }

  /** The keys of the given tables in loop order. */
  function DimKeys(ds: seq<Dim>, y: string, current: string): (r: seq<Key>)
    ensures forall k :: k in r <==> k.dim in ds && (k.suffix == Quantity ==> y == current)
    decreases |ds|
  {
    if |ds| == 0 then []
    else
      var n := |ds|;
      var prev := DimKeys(ds[..n - 1], y, current);
      var last := SuffixKeys(ds[n - 1], AllSuffixes, y, current);
      DimKeysAppend(ds, prev, last, y, current);
      prev + last
  }

  /** The keys of the tables before the last one, then those of the last. */
  lemma DimKeysAppend(ds: seq<Dim>, prev: seq<Key>, last: seq<Key>, y: string, current: string)
    requires |ds| > 0
    requires forall k :: k in prev <==> k.dim in ds[..|ds| - 1] && (k.suffix == Quantity ==> y == current)
    requires forall k :: k in last <==> k.dim == ds[|ds| - 1] && k.suffix in AllSuffixes && (k.suffix == Quantity ==> y == current)
    ensures forall k :: k in prev + last <==> k.dim in ds && (k.suffix == Quantity ==> y == current)
  {
    assert forall x :: x in ds <==> x in ds[..|ds| - 1] || x == ds[|ds| - 1] by {
      assert ds == ds[..|ds| - 1] + [ds[|ds| - 1]];
    }
    forall k ensures k in prev + last <==> k.dim in ds && (k.suffix == Quantity ==> y == current) {
      match k.suffix
      case Quantity => assert AllSuffixes[0] == Quantity;
      case Area => assert AllSuffixes[1] == Area;
      case Revenue => assert AllSuffixes[2] == Revenue;
      case Margin => assert AllSuffixes[3] == Margin;
    }
  }

  /** The keys compared for year `y`: every table and metric, the quantity
      only for the current year; these are the keys the snapshots hold. */
  function CompareKeys(y: string, current: string): (r: seq<Key>)
    ensures forall k :: k in r <==> k.suffix in SuffixesFor(y, current)
  {
    DimKeys(Dims, y, current)
  }

  /** The difference of one key, if both sides have it and disagree. */
  function KeyDifference(y: string, b: Entry, a: Entry, k: Key): seq<Difference> {
    if k in b && k in a && b[k] != a[k] then [Difference(y, k, b[k], a[k], Abs(a[k] - b[k]))] else []
  }

  /** The differences of one year, over the keys in order. */
  function EntryDifferences(y: string, b: Entry, a: Entry, keys: seq<Key>): (r: seq<Difference>)
    ensures forall x :: x in r ==> (x.year == y && x.key in keys && x.key in b && x.key in a &&
      x.before == b[x.key] && x.after == a[x.key] && x.before != x.after && x.absDiff == Abs(x.after - x.before))
    ensures forall k :: k in keys && k in b && k in a && b[k] != a[k] ==> exists x :: x in r && x.key == k
    decreases |keys|
  {
    if |keys| == 0 then []
    else
      var n := |keys|;
      var prev := EntryDifferences(y, b, a, keys[..n - 1]);
      assert forall x :: x in keys <==> x in keys[..n - 1] || x == keys[n - 1];
      var d := KeyDifference(y, b, a, keys[n - 1]);
      assert forall x :: x in prev ==> x in prev + d;
      assert forall x :: x in d ==> x in prev + d;
      prev + d
  }

  /** `compare_yearly_values(before, after)` on `before["all_years"]` and
      `after`: the years in list order, each skipped unless both sides have
      it. */
  function Differences(before: ByYear, after: ByYear, years: seq<string>, current: string): (r: seq<Difference>)
    ensures DifferencesSound(r, before, after, years, current)
    ensures DifferencesComplete(r, before, after, years, current)
    decreases |years|
  {
    if |years| == 0 then []
    else
      var n := |years|;
      var y := years[n - 1];
      var prev := Differences(before, after, years[..n - 1], current);
      var d := if y !in before || y !in after then [] else EntryDifferences(y, before[y], after[y], CompareKeys(y, current));
      DifferencesAppend(before, after, years, current, prev, d);
      prev + d
  }

  /** Every reported difference is a key of a listed year both sides hold
      with two different figures. */
  predicate DifferencesSound(r: seq<Difference>, before: ByYear, after: ByYear, years: seq<string>, current: string) {
    forall x :: x in r ==> (
      && x.year in years && x.year in before && x.year in after
      && x.key in before[x.year] && x.key in after[x.year]
      && x.before == before[x.year][x.key] && x.after == after[x.year][x.key]
      && x.before != x.after && x.absDiff == Abs(x.after - x.before)
      && x.key.suffix in SuffixesFor(x.year, current))
  }

  /** Every key of a listed year that both sides hold with different
      figures is reported. */
  predicate DifferencesComplete(r: seq<Difference>, before: ByYear, after: ByYear, years: seq<string>, current: string) {
    forall y, k: Key :: (y in years && y in before && y in after && k.suffix in SuffixesFor(y, current) &&
      k in before[y] && k in after[y] && before[y][k] != after[y][k]) ==>
        exists x :: x in r && x.year == y && x.key == k
  }

  /** The years before the last one, then the last year's differences. */
  lemma DifferencesAppend(before: ByYear, after: ByYear, years: seq<string>, current: string, prev: seq<Difference>, d: seq<Difference>)
    requires |years| > 0
    requires DifferencesSound(prev, before, after, years[..|years| - 1], current)
    requires DifferencesComplete(prev, before, after, years[..|years| - 1], current)
    requires var y := years[|years| - 1];
      d == if y !in before || y !in after then [] else EntryDifferences(y, before[y], after[y], CompareKeys(y, current))
    ensures DifferencesSound(prev + d, before, after, years, current)
    ensures DifferencesComplete(prev + d, before, after, years, current)
  {
    var n := |years|;
    assert forall x :: x in years <==> x in years[..n - 1] || x == years[n - 1] by {
      assert years == years[..n - 1] + [years[n - 1]];
    }
    assert forall x :: x in prev ==> x in prev + d;
    assert forall x :: x in d ==> x in prev + d;
  }

  /** The differences over two key lists one after the other are those of
      the first list, then those of the second. */
  lemma {:induction false} EntryDifferencesConcat(y: string, b: Entry, a: Entry, k1: seq<Key>, k2: seq<Key>)
    ensures EntryDifferences(y, b, a, k1 + k2) == EntryDifferences(y, b, a, k1) + EntryDifferences(y, b, a, k2)
    decreases |k2|
  {
    if |k2| == 0 {
      assert k1 + k2 == k1;
    } else {
      var init, last := k2[..|k2| - 1], k2[|k2| - 1];
      var keys := k1 + init;
      assert k2 == init + [last];
      assert k1 + k2 == keys + [last];
      EntryDifferencesSnoc(y, b, a, keys, last);
      EntryDifferencesConcat(y, b, a, k1, init);
      EntryDifferencesSnoc(y, b, a, init, last);
      var d1, d2, dk := EntryDifferences(y, b, a, k1), EntryDifferences(y, b, a, init), KeyDifference(y, b, a, last);
      assert EntryDifferences(y, b, a, k1 + k2) == (d1 + d2) + dk;
      ConcatAssoc(d1, d2, dk);
    }
  }

  /** The differences over a key list end with those of its last key. */
  lemma EntryDifferencesSnoc(y: string, b: Entry, a: Entry, init: seq<Key>, last: Key)
    ensures EntryDifferences(y, b, a, init + [last]) ==
      EntryDifferences(y, b, a, init) + KeyDifference(y, b, a, last)
  {
    var keys := init + [last];
    assert keys[..|keys| - 1] == init && keys[|keys| - 1] == last;
  }

  /** The inner loop of the comparison visits one metric more. */
  lemma SuffixKeysStep(d: Dim, ss: seq<Suffix>, y: string, current: string, m: nat)
    requires m < |ss|
    ensures SuffixKeys(d, ss[..m + 1], y, current) ==
      SuffixKeys(d, ss[..m], y, current) + (if ss[m] == Quantity && y != current then [] else [Key(d, ss[m])])
  {
    assert ss[..m + 1][..m] == ss[..m];
  }

  /** The differences of one more metric of a table. */
  lemma CompareDimStep(y: string, b: Entry, a: Entry, d: Dim, ss: seq<Suffix>, current: string, m: nat)
    requires m < |ss|
    ensures EntryDifferences(y, b, a, SuffixKeys(d, ss[..m + 1], y, current)) ==
      EntryDifferences(y, b, a, SuffixKeys(d, ss[..m], y, current)) +
      (if ss[m] == Quantity && y != current then [] else KeyDifference(y, b, a, Key(d, ss[m])))
  {
    SuffixKeysStep(d, ss, y, current, m);
    var keys := SuffixKeys(d, ss[..m], y, current);
    if !(ss[m] == Quantity && y != current) {
      EntryDifferencesConcat(y, b, a, keys, [Key(d, ss[m])]);
      assert EntryDifferences(y, b, a, [Key(d, ss[m])]) == KeyDifference(y, b, a, Key(d, ss[m])) by {
        assert [Key(d, ss[m])][..0] == [];
      }
    } else {
      assert keys + [] == keys;
    }
  }

  /** The middle loop of the comparison visits one table more. */
  lemma DimKeysStep(ds: seq<Dim>, y: string, current: string, j: nat)
    requires j < |ds|
    ensures DimKeys(ds[..j + 1], y, current) == DimKeys(ds[..j], y, current) + SuffixKeys(ds[j], AllSuffixes, y, current)
  {
    assert ds[..j + 1][..j] == ds[..j];
  }

  /** The outer loop of the comparison visits one year more. */
  lemma DifferencesStep(before: ByYear, after: ByYear, years: seq<string>, current: string, i: nat)
    requires i < |years|
    ensures Differences(before, after, years[..i + 1], current) ==
      Differences(before, after, years[..i], current) +
      (if years[i] !in before || years[i] !in after then []
       else EntryDifferences(years[i], before[years[i]], after[years[i]], CompareKeys(years[i], current)))
  {
    assert years[..i + 1][..i] == years[..i];
  }

  /** Two entries that agree on every key they share differ nowhere. */
  lemma {:induction false} AgreeingEntries(y: string, b: Entry, a: Entry, keys: seq<Key>)
    requires forall k :: k in b && k in a ==> b[k] == a[k]
    ensures EntryDifferences(y, b, a, keys) == []
    decreases |keys|
  {
    if |keys| > 0 {
      AgreeingEntries(y, b, a, keys[..|keys| - 1]);
    }
  }

  /** Two snapshots that agree on every key they share produce no
      difference. */
  lemma {:induction false} AgreeingSnapshots(before: ByYear, after: ByYear, years: seq<string>, current: string)
    requires forall y, k :: y in before && y in after && k in before[y] && k in after[y] ==> before[y][k] == after[y][k]
    ensures Differences(before, after, years, current) == []
    decreases |years|
  {
    if |years| > 0 {
      var y := years[|years| - 1];
      AgreeingSnapshots(before, after, years[..|years| - 1], current);
      if y in before && y in after {
        AgreeingEntries(y, before[y], after[y], CompareKeys(y, current));
      }
    }
  }

  // ----- output_differences_warning -----

  datatype Severity = Low | Medium | High

  /** `relative_diff > pct` for `relative_diff = abs_diff / abs(before) * 100`
      (0 when `before` is 0), stated without division. */
  predicate RelativeAbove(x: Difference, pct: nat) {
    x.before != 0 && x.absDiff * 100 > pct * Abs(x.before)
  }

  /** The level printed for a difference: high above 10 percent, medium
      above 5 percent, low otherwise; a difference from 0 is always low. */
  function Level(x: Difference): (l: Severity)
    ensures x.before == 0 ==> l == Low
    ensures l == High <==> x.before != 0 && 10 * x.absDiff > Abs(x.before)
    ensures l == Medium <==> x.before != 0 && 20 * x.absDiff > Abs(x.before) && 10 * x.absDiff <= Abs(x.before)
  {
    if RelativeAbove(x, 10) then High
    else if RelativeAbove(x, 5) then Medium
    else Low
  }

  function Rank(l: Severity): nat {
    match l
    case Low => 0
    case Medium => 1
    case High => 2
  }

  /** From the same starting value, a larger change is never rated lower. */
  lemma LevelMonotone(x: Difference, z: Difference)
    requires x.before == z.before && x.absDiff <= z.absDiff
    ensures Rank(Level(x)) <= Rank(Level(z))
  {
  }
}
