/** `df.group_by(keys).agg([pl.col(c).sum() for c in sums])`: one output
    row per distinct key tuple (a null is a key value like any other), the
    key cells first and then, for each summed column, the sum over the input
    rows with that key, nulls counting as 0. polars leaves the order of the
    groups unspecified; here they come in order of first appearance. */
module Aggregation {

  import opened Wrappers
  import opened Tables

  /** Every row has every column of `cols`. */
  predicate HasColumns(rows: seq<Row>, cols: seq<string>) {
    forall i :: 0 <= i < |rows| ==> Names(cols) <= rows[i].Keys
  }

  /** The key tuple of a row. */
  function KeyOf(row: Row, keys: seq<string>): (k: seq<Value>)
    requires Names(keys) <= row.Keys
    ensures |k| == |keys| && forall j :: 0 <= j < |keys| ==> k[j] == row[keys[j]]
  {
    seq(|keys|, j requires 0 <= j < |keys| => row[keys[j]])
  }

  /** Whether some row has key tuple `g`. */
  predicate Occurs(rows: seq<Row>, keys: seq<string>, g: seq<Value>)
    requires HasColumns(rows, keys)
  {
    exists i :: 0 <= i < |rows| && KeyOf(rows[i], keys) == g
  }

  /** Row sequences with the same key tuple at each position have the same
      key tuples. */
  lemma OccursPointwise(a: seq<Row>, b: seq<Row>, keys: seq<string>)
    requires HasColumns(a, keys) && HasColumns(b, keys) && |a| == |b|
    requires forall i :: 0 <= i < |a| ==> KeyOf(a[i], keys) == KeyOf(b[i], keys)
    ensures forall g :: Occurs(a, keys, g) <==> Occurs(b, keys, g)
  {
    forall g ensures Occurs(a, keys, g) <==> Occurs(b, keys, g) {
      if Occurs(a, keys, g) {
        var i :| 0 <= i < |a| && KeyOf(a[i], keys) == g;
        assert KeyOf(b[i], keys) == g;
      }
      if Occurs(b, keys, g) {
        var i :| 0 <= i < |b| && KeyOf(b[i], keys) == g;
        assert KeyOf(a[i], keys) == g;
      }
    }
  }

  /** The distinct key tuples of the rows, in order of first appearance. */
  function GroupKeys(rows: seq<Row>, keys: seq<string>): (gs: seq<seq<Value>>)
    requires HasColumns(rows, keys)
    ensures Distinct(gs)
    ensures forall g :: g in gs <==> Occurs(rows, keys, g)
    ensures forall j :: 0 <= j < |gs| ==> |gs[j]| == |keys|
    decreases |rows|
  {
    if |rows| == 0 then []
    else
      var init := rows[..|rows| - 1];
      var prev := GroupKeys(init, keys);
      var g := KeyOf(rows[|rows| - 1], keys);
      assert forall h :: Occurs(rows, keys, h) <==> Occurs(init, keys, h) || h == g by {
        forall h ensures Occurs(rows, keys, h) <==> Occurs(init, keys, h) || h == g {
          if Occurs(init, keys, h) {
            var i :| 0 <= i < |init| && KeyOf(init[i], keys) == h;
            assert KeyOf(rows[i], keys) == h;
          }
          if Occurs(rows, keys, h) && h != g {
            var i :| 0 <= i < |rows| && KeyOf(rows[i], keys) == h;
            assert KeyOf(init[i], keys) == h;
          }
        }
      }
      if g in prev then prev
      else
        DistinctConcat(prev, [g]);
        prev + [g]
  }

  /** The sum of column `c` over the rows whose key tuple is `g`. */
  function GroupTotal(rows: seq<Row>, keys: seq<string>, g: seq<Value>, c: string): int
    requires HasColumns(rows, keys + [c])
    decreases |rows|
  {
    if |rows| == 0 then 0
    else
      var last := rows[|rows| - 1];
      assert Names(keys) <= Names(keys + [c]) && c in Names(keys + [c]);
      GroupTotal(rows[..|rows| - 1], keys, g, c) + (if KeyOf(last, keys) == g then AsNumber(last[c]) else 0)
  }

  /** The output row of group `g`. */
  function GroupRow(rows: seq<Row>, keys: seq<string>, sums: seq<string>, g: seq<Value>): (row: Row)
    requires |g| == |keys| && Distinct(keys)
    requires forall c :: c in sums ==> HasColumns(rows, keys + [c])
    ensures row.Keys == Names(keys + sums)
    ensures forall k :: 0 <= k < |keys| ==> row[keys[k]] == g[k]
    ensures forall c :: c in sums && c !in keys ==> row[c] == Num(GroupTotal(rows, keys, g, c))
  {
    assert forall k :: 0 <= k < |keys| ==> IndexOf(keys, keys[k]) == k;
    map c | c in Names(keys + sums) :: if c in keys then g[IndexOf(keys, c)] else Num(GroupTotal(rows, keys, g, c))
  }

  /** The output rows, one per group. */
  function GroupRows(rows: seq<Row>, keys: seq<string>, sums: seq<string>, gs: seq<seq<Value>>): (out: seq<Row>)
    requires Distinct(keys) && forall j :: 0 <= j < |gs| ==> |gs[j]| == |keys|
    requires forall c :: c in sums ==> HasColumns(rows, keys + [c])
    ensures |out| == |gs|
    ensures forall j :: 0 <= j < |gs| ==> out[j] == GroupRow(rows, keys, sums, gs[j])
  {
    seq(|gs|, j requires 0 <= j < |gs| => GroupRow(rows, keys, sums, gs[j]))
  }

  /** Whether polars accepts the aggregation: the key and summed columns
      exist, and no output name appears twice. */
  predicate GroupSumValid(t: Table, keys: seq<string>, sums: seq<string>) {
    && (forall c :: c in keys ==> c in t.columns)
    && (forall c :: c in sums ==> c in t.columns)
    && Distinct(keys) && Distinct(sums)
    && forall c :: c in keys ==> c !in sums
  }

  lemma SumColumnsPresent(t: Table, keys: seq<string>, sums: seq<string>)
    requires WellFormed(t) && GroupSumValid(t, keys, sums)
    ensures forall c :: c in sums ==> HasColumns(t.rows, keys + [c])
  {
    forall c | c in sums ensures HasColumns(t.rows, keys + [c]) {
      assert Names(keys + [c]) <= Names(t.columns);
    }
  }

  /** `t.group_by(keys).agg(sums)`; `None` is polars' error for a missing
      or clashing column. */
  function GroupSum(t: Table, keys: seq<string>, sums: seq<string>): (r: Option<Table>)
    requires WellFormed(t) && |keys| > 0
    ensures r.Some? <==> GroupSumValid(t, keys, sums)
    ensures r.Some? ==> WellFormed(r.value) && r.value.columns == keys + sums
    ensures r.Some? ==> |r.value.rows| == |GroupKeys(t.rows, keys)|
    ensures r.Some? ==> forall j, k :: 0 <= j < |r.value.rows| && 0 <= k < |keys| ==>
      r.value.rows[j][keys[k]] == GroupKeys(t.rows, keys)[j][k]
    ensures r.Some? ==> forall j, c :: 0 <= j < |r.value.rows| && c in sums ==>
      HasColumns(t.rows, keys + [c]) && r.value.rows[j][c] == Num(GroupTotal(t.rows, keys, GroupKeys(t.rows, keys)[j], c))
  {
    if !GroupSumValid(t, keys, sums) then None
    else
      SumColumnsPresent(t, keys, sums);
      var gs := GroupKeys(t.rows, keys);
      DistinctConcat(keys, sums);
      Some(Table(keys + sums, GroupRows(t.rows, keys, sums, gs)))
  }

  // ----- the key tuples of the output -----

  /** Row sequences that agree position by position on the key cells and
      on the summed cell have the same group totals. */
  lemma {:induction false} GroupTotalPointwise(a: seq<Row>, ca: string, b: seq<Row>, cb: string, keys: seq<string>, g: seq<Value>)
    requires HasColumns(a, keys) && HasColumns(b, keys)
    requires HasColumns(a, keys + [ca]) && HasColumns(b, keys + [cb]) && |a| == |b|
    requires forall i :: 0 <= i < |a| ==> KeyOf(a[i], keys) == KeyOf(b[i], keys)
    requires forall i :: 0 <= i < |a| ==> ca in a[i] && cb in b[i] && a[i][ca] == b[i][cb]
    ensures GroupTotal(a, keys, g, ca) == GroupTotal(b, keys, g, cb)
    decreases |a|
  {
    if |a| > 0 {
      var n := |a|;
      GroupTotalPointwise(a[..n - 1], ca, b[..n - 1], cb, keys, g);
    }
  }

  /** Each summed cell of the output row for key tuple `g` is the group
      total of `g`, and the row's key tuple is `g`. */
  lemma GroupSumRowKey(t: Table, keys: seq<string>, sums: seq<string>, j: nat)
    requires WellFormed(t) && |keys| > 0 && GroupSumValid(t, keys, sums)
    requires j < |GroupSum(t, keys, sums).value.rows|
    ensures var r := GroupSum(t, keys, sums).value;
      Names(keys) <= r.rows[j].Keys && KeyOf(r.rows[j], keys) == GroupKeys(t.rows, keys)[j]
  {
    var r := GroupSum(t, keys, sums).value;
    assert Names(keys) <= Names(r.columns);
  }

  /** The output has one row per distinct key tuple of the input: the key
      tuples of its rows are pairwise different, and a tuple is the key of
      an output row exactly when some input row carries it. */
  lemma GroupSumKeys(t: Table, keys: seq<string>, sums: seq<string>)
    requires WellFormed(t) && |keys| > 0 && GroupSumValid(t, keys, sums)
    ensures var out := GroupSum(t, keys, sums).value;
      && HasColumns(out.rows, keys)
      && (forall j1, j2 :: 0 <= j1 < j2 < |out.rows| ==> KeyOf(out.rows[j1], keys) != KeyOf(out.rows[j2], keys))
      && forall g :: Occurs(out.rows, keys, g) <==> Occurs(t.rows, keys, g)
  {
    var out := GroupSum(t, keys, sums).value;
    var gs := GroupKeys(t.rows, keys);
    assert forall j :: 0 <= j < |out.rows| ==> Names(keys) <= out.rows[j].Keys;
    forall j | 0 <= j < |out.rows| ensures KeyOf(out.rows[j], keys) == gs[j] {
      assert out.rows[j] == GroupRow(t.rows, keys, sums, gs[j]);
    }
    forall g ensures Occurs(out.rows, keys, g) <==> Occurs(t.rows, keys, g) {
      if Occurs(t.rows, keys, g) {
        assert g in gs;
        var j := IndexOf(gs, g);
        assert KeyOf(out.rows[j], keys) == g;
      }
      if Occurs(out.rows, keys, g) {
        var j :| 0 <= j < |out.rows| && KeyOf(out.rows[j], keys) == g;
        assert gs[j] in gs;
      }
    }
  }

  // ----- conservation of totals -----

  /** The sum of column `c` over all rows. */
  function ColumnSum(rows: seq<Row>, c: string): int
    requires forall i :: 0 <= i < |rows| ==> c in rows[i]
    decreases |rows|
  {
    if |rows| == 0 then 0 else ColumnSum(rows[..|rows| - 1], c) + AsNumber(rows[|rows| - 1][c])
  }

  /** The group totals of `gs`, added up. */
  function SumOver(gs: seq<seq<Value>>, rows: seq<Row>, keys: seq<string>, c: string): int
    requires HasColumns(rows, keys + [c])
    decreases |gs|
  {
    if |gs| == 0 then 0 else SumOver(gs[..|gs| - 1], rows, keys, c) + GroupTotal(rows, keys, gs[|gs| - 1], c)
  }

  lemma ColumnOfKeyed(rows: seq<Row>, keys: seq<string>, c: string)
    requires HasColumns(rows, keys + [c])
    ensures HasColumns(rows, keys) && forall i :: 0 <= i < |rows| ==> c in rows[i]
  {
    assert Names(keys + [c]) == Names(keys) + {c};
  }

  /** Adding a row `x` to the input raises the added-up group totals of
      distinct tuples by `x`'s amount when its key is among them. */
  lemma {:induction false} SumOverStep(gs: seq<seq<Value>>, rows: seq<Row>, keys: seq<string>, c: string)
    requires |rows| > 0 && HasColumns(rows, keys + [c]) && Distinct(gs)
    ensures var init, x := rows[..|rows| - 1], rows[|rows| - 1];
      && HasColumns(init, keys + [c]) && Names(keys) <= x.Keys && c in x
      && SumOver(gs, rows, keys, c) == SumOver(gs, init, keys, c) + (if KeyOf(x, keys) in gs then AsNumber(x[c]) else 0)
    decreases |gs|
  {
    var init, x := rows[..|rows| - 1], rows[|rows| - 1];
    ColumnOfKeyed(rows, keys, c);
    if |gs| > 0 {
      var front, h := gs[..|gs| - 1], gs[|gs| - 1];
      DistinctInit(gs);
      SumOverStep(front, rows, keys, c);
      assert GroupTotal(rows, keys, h, c) == GroupTotal(init, keys, h, c) + (if KeyOf(x, keys) == h then AsNumber(x[c]) else 0);
    }
  }

  /** No row carries `g`: its group total is 0. */
  lemma {:induction false} GroupTotalAbsent(rows: seq<Row>, keys: seq<string>, g: seq<Value>, c: string)
    requires HasColumns(rows, keys + [c])
    requires forall i :: 0 <= i < |rows| && Names(keys) <= rows[i].Keys ==> KeyOf(rows[i], keys) != g
    ensures GroupTotal(rows, keys, g, c) == 0
    decreases |rows|
  {
    ColumnOfKeyed(rows, keys, c);
    if |rows| > 0 {
      GroupTotalAbsent(rows[..|rows| - 1], keys, g, c);
    }
  }

  /** The group totals over all groups add up to the column's total. */
  lemma {:induction false} GroupTotalsConserve(rows: seq<Row>, keys: seq<string>, c: string)
    requires HasColumns(rows, keys + [c])
    ensures HasColumns(rows, keys) && forall i :: 0 <= i < |rows| ==> c in rows[i]
    ensures SumOver(GroupKeys(rows, keys), rows, keys, c) == ColumnSum(rows, c)
    decreases |rows|
  {
    ColumnOfKeyed(rows, keys, c);
    if |rows| > 0 {
      var init, x := rows[..|rows| - 1], rows[|rows| - 1];
      var prev := GroupKeys(init, keys);
      var g := KeyOf(x, keys);
      var v := AsNumber(x[c]);
      GroupTotalsConserve(init, keys, c);
      assert ColumnSum(rows, c) == ColumnSum(init, c) + v;
      SumOverStep(prev, rows, keys, c);
      if g in prev {
        assert GroupKeys(rows, keys) == prev;
      } else {
        var gs := prev + [g];
        assert GroupKeys(rows, keys) == gs;
        assert gs[..|gs| - 1] == prev;
        assert SumOver(gs, rows, keys, c) == SumOver(prev, rows, keys, c) + GroupTotal(rows, keys, g, c);
        assert GroupTotal(rows, keys, g, c) == GroupTotal(init, keys, g, c) + v;
        assert !Occurs(init, keys, g);
        GroupTotalAbsent(init, keys, g, c);
      }
    }
  }

  /** A column of group totals sums to the added-up group totals. */
  lemma {:induction false} SumOfTotals(vs: seq<Value>, gs: seq<seq<Value>>, rows: seq<Row>, keys: seq<string>, c: string)
    requires HasColumns(rows, keys + [c]) && |vs| == |gs|
    requires forall j :: 0 <= j < |gs| ==> vs[j] == Num(GroupTotal(rows, keys, gs[j], c))
    ensures SumValues(vs) == SumOver(gs, rows, keys, c)
    decreases |gs|
  {
    if |gs| > 0 {
      SumOfTotals(vs[..|vs| - 1], gs[..|gs| - 1], rows, keys, c);
    }
  }

  /** `Total` of a column is the row-wise sum of its cells. */
  lemma {:induction false} TotalIsColumnSum(t: Table, c: string)
    requires WellFormed(t) && c in t.columns
    ensures forall i :: 0 <= i < |t.rows| ==> c in t.rows[i]
    ensures Total(t, c) == ColumnSum(t.rows, c)
    decreases |t.rows|
  {
    if |t.rows| > 0 {
      var init := Table(t.columns, t.rows[..|t.rows| - 1]);
      TotalIsColumnSum(init, c);
      assert Column(t, c)[..|t.rows| - 1] == Column(init, c);
    }
  }

  /** Grouping conserves totals: each summed column adds up to the same
      amount before and after. */
  lemma GroupSumConserves(t: Table, keys: seq<string>, sums: seq<string>, c: string)
    requires WellFormed(t) && |keys| > 0 && GroupSumValid(t, keys, sums) && c in sums
    ensures Total(GroupSum(t, keys, sums).value, c) == Total(t, c)
  {
    var out := GroupSum(t, keys, sums).value;
    var gs := GroupKeys(t.rows, keys);
    SumColumnsPresent(t, keys, sums);
    SumOfTotals(Column(out, c), gs, t.rows, keys, c);
    GroupTotalsConserve(t.rows, keys, c);
    TotalIsColumnSum(t, c);
  }

  /** Two groupings of the same rows by different keys have equal totals in
      every column both sum: the cross-dimension equality. */
  lemma GroupingsAgree(t: Table, k1: seq<string>, s1: seq<string>, k2: seq<string>, s2: seq<string>, c: string)
    requires WellFormed(t) && |k1| > 0 && |k2| > 0
    requires GroupSumValid(t, k1, s1) && GroupSumValid(t, k2, s2) && c in s1 && c in s2
    ensures Total(GroupSum(t, k1, s1).value, c) == Total(GroupSum(t, k2, s2).value, c)
  {
    GroupSumConserves(t, k1, s1, c);
    GroupSumConserves(t, k2, s2, c);
  }
}
