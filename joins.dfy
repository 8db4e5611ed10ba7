/** The outer join that brings a current-year table and its historical
    counterpart together (`df_a.join(df_b, how="full", ...)`), as a plain row
    definition:
    - the output columns are the left columns followed by the right columns
      the left table lacks;
    - a left row and a right row match when every left key equals the
      corresponding right key and is not null;
    - each left row yields one output row per matching right row, or one
      row of its own when nothing matches;
    - each right row that matches no left row is appended on its own;
    - a column both sides have takes the left value whenever the row has a
      left side; every other cell comes from the side that has the column,
      and is null when the row has no such side.
    With `left_on`/`right_on` and key names that differ, as in the
    quarterly merge, both key columns are kept and the left ones are null
    on right-only rows, as in polars. With `on=keys` the model coalesces:
    the shared key columns and any other column both sides have appear
    once, and a right-only row carries its own values there. polars' full
    join does not coalesce by default; it keeps the right copies as
    `<name>_right` columns and leaves the left ones null on right-only
    rows. The output order here (left rows in order, then the unmatched
    right rows) is one polars allows but does not promise. */
module Joins {

  import opened Wrappers
  import opened Tables

  /** The columns of `r` that `l` lacks, in `r`'s order. */
  function Missing(r: seq<string>, l: seq<string>): (m: seq<string>)
    ensures forall c :: c in m <==> c in r && c !in l
    ensures Distinct(r) ==> Distinct(m)
  {
    if |r| == 0 then []
    else
      var rest := Missing(r[1..], l);
      assert forall c :: c in r <==> c == r[0] || c in r[1..];
      if r[0] in l then rest
      else
        assert Distinct(r) ==> r[0] !in r[1..];
        [r[0]] + rest
  }

  /** The output columns: the left ones, then the right ones not on the left. */
  function JoinColumns(l: seq<string>, r: seq<string>): (cols: seq<string>)
    ensures Names(cols) == Names(l) + Names(r)
    ensures |l| <= |cols| && cols[..|l|] == l
    ensures Distinct(l) && Distinct(r) ==> Distinct(cols)
  {
    var m := Missing(r, l);
    assert Distinct(l) && Distinct(r) ==> Distinct(l + m) by {
      if Distinct(l) && Distinct(r) {
        DistinctConcat(l, m);
      }
    }
    l + m
  }

  /** Every key pair agrees and the left key is not null. */
  predicate KeysMatch(a: Row, b: Row, lk: seq<string>, rk: seq<string>)
    requires |lk| == |rk|
  {
    forall k :: 0 <= k < |lk| ==> lk[k] in a && rk[k] in b && a[lk[k]] != Null && a[lk[k]] == b[rk[k]]
  }

  /** The right rows matching left row `a`, in order. */
  function Matches(a: Row, rs: seq<Row>, lk: seq<string>, rk: seq<string>): (ms: seq<Row>)
    requires |lk| == |rk|
    ensures forall b :: b in ms ==> b in rs && KeysMatch(a, b, lk, rk)
    ensures forall j :: 0 <= j < |rs| && KeysMatch(a, rs[j], lk, rk) ==> rs[j] in ms
  {
    if |rs| == 0 then []
    else
      var rest := Matches(a, rs[1..], lk, rk);
      assert forall j :: 1 <= j < |rs| ==> rs[j] == rs[1..][j - 1];
      if KeysMatch(a, rs[0], lk, rk) then [rs[0]] + rest else rest
  }

  /** One output cell: the left side's value when it has the column, else
      the right side's, else null. */
  function Cell(a: Option<Row>, b: Option<Row>, c: string): Value {
    if a.Some? && c in a.value then a.value[c]
    else if b.Some? && c in b.value then b.value[c]
    else Null
  }

  function JoinRow(cols: seq<string>, a: Option<Row>, b: Option<Row>): (row: Row)
    ensures row.Keys == Names(cols)
    ensures forall c :: c in Names(cols) ==> row[c] == Cell(a, b, c)
  {
    map c | c in Names(cols) :: Cell(a, b, c)
  }

  /** The output rows of one left row. */
  function LeftBlock(cols: seq<string>, a: Row, rs: seq<Row>, lk: seq<string>, rk: seq<string>): (block: seq<Row>)
    requires |lk| == |rk|
    ensures |block| >= 1
    ensures forall o :: o in block ==> o.Keys == Names(cols)
  {
    var ms := Matches(a, rs, lk, rk);
    if |ms| == 0 then [JoinRow(cols, Some(a), None)]
    else seq(|ms|, j requires 0 <= j < |ms| => JoinRow(cols, Some(a), Some(ms[j])))
  }

  function LeftPart(cols: seq<string>, ls: seq<Row>, rs: seq<Row>, lk: seq<string>, rk: seq<string>): (part: seq<Row>)
    requires |lk| == |rk|
    ensures |part| >= |ls|
    ensures forall o :: o in part ==> o.Keys == Names(cols)
  {
    if |ls| == 0 then []
    else LeftBlock(cols, ls[0], rs, lk, rk) + LeftPart(cols, ls[1..], rs, lk, rk)
  }

  predicate HasPartner(b: Row, ls: seq<Row>, lk: seq<string>, rk: seq<string>)
    requires |lk| == |rk|
  {
    exists i :: 0 <= i < |ls| && KeysMatch(ls[i], b, lk, rk)
  }

  /** The right rows no left row matches, each on its own. */
  function RightOnly(cols: seq<string>, ls: seq<Row>, rs: seq<Row>, lk: seq<string>, rk: seq<string>): (part: seq<Row>)
    requires |lk| == |rk|
    ensures forall o :: o in part ==> o.Keys == Names(cols)
    ensures forall j :: 0 <= j < |rs| && !HasPartner(rs[j], ls, lk, rk) ==> JoinRow(cols, None, Some(rs[j])) in part
  {
    if |rs| == 0 then []
    else
      var rest := RightOnly(cols, ls, rs[1..], lk, rk);
      assert forall j :: 1 <= j < |rs| ==> rs[j] == rs[1..][j - 1];
      if HasPartner(rs[0], ls, lk, rk) then rest else [JoinRow(cols, None, Some(rs[0]))] + rest
  }

  /** Whether polars accepts the join: as many left as right keys, at least
      one, each of them a column of its table. */
  predicate JoinKeysValid(l: Table, r: Table, lk: seq<string>, rk: seq<string>) {
    && |lk| == |rk| && |lk| > 0
    && Names(lk) <= Names(l.columns) && Names(rk) <= Names(r.columns)
  }

  /** `l.join(r, how="full", left_on=lk, right_on=rk)`; `None` is the error
      raised for unusable keys. */
  function FullJoin(l: Table, r: Table, lk: seq<string>, rk: seq<string>): (out: Option<Table>)
    requires WellFormed(l) && WellFormed(r)
    ensures out.Some? <==> JoinKeysValid(l, r, lk, rk)
    ensures out.Some? ==> WellFormed(out.value) && out.value.columns == JoinColumns(l.columns, r.columns)
    ensures out.Some? ==> |out.value.rows| >= |l.rows|
  {
    if !JoinKeysValid(l, r, lk, rk) then None
    else
      var cols := JoinColumns(l.columns, r.columns);
      var rows := LeftPart(cols, l.rows, r.rows, lk, rk) + RightOnly(cols, l.rows, r.rows, lk, rk);
      assert forall i :: 0 <= i < |rows| ==> rows[i] in rows;
      Some(Table(cols, rows))
  }

  /** The block of left row `a` holds `a` with partner `b` (or with
      nothing, when nothing matches). */
  lemma InLeftBlock(cols: seq<string>, a: Row, rs: seq<Row>, lk: seq<string>, rk: seq<string>, b: Option<Row>)
    requires |lk| == |rk|
    requires b == None ==> |Matches(a, rs, lk, rk)| == 0
    requires b.Some? ==> b.value in Matches(a, rs, lk, rk)
    ensures JoinRow(cols, Some(a), b) in LeftBlock(cols, a, rs, lk, rk)
  {
    if b.Some? {
      var ms := Matches(a, rs, lk, rk);
      var j := IndexOf(ms, b.value);
      assert LeftBlock(cols, a, rs, lk, rk)[j] == JoinRow(cols, Some(a), b);
    }
  }

  /** Some output row of the left block holds left row `ls[i]` and right
      row `b` (or nothing, when nothing matches). */
  lemma {:induction false} InLeftPart(cols: seq<string>, ls: seq<Row>, rs: seq<Row>, lk: seq<string>, rk: seq<string>, i: nat, b: Option<Row>)
    requires |lk| == |rk| && i < |ls|
    requires b == None ==> |Matches(ls[i], rs, lk, rk)| == 0
    requires b.Some? ==> b.value in Matches(ls[i], rs, lk, rk)
    ensures JoinRow(cols, Some(ls[i]), b) in LeftPart(cols, ls, rs, lk, rk)
    decreases i
  {
    var o := JoinRow(cols, Some(ls[i]), b);
    assert LeftPart(cols, ls, rs, lk, rk) == LeftBlock(cols, ls[0], rs, lk, rk) + LeftPart(cols, ls[1..], rs, lk, rk);
    if i == 0 {
      InLeftBlock(cols, ls[0], rs, lk, rk, b);
      assert o in LeftBlock(cols, ls[0], rs, lk, rk);
    } else {
      assert ls[i] == ls[1..][i - 1];
      InLeftPart(cols, ls[1..], rs, lk, rk, i - 1, b);
      assert o in LeftPart(cols, ls[1..], rs, lk, rk);
    }
  }

  /** A full join keeps every left row: some output row holds its cells. */
  lemma LeftRowKept(l: Table, r: Table, lk: seq<string>, rk: seq<string>, i: nat) returns (k: nat)
    requires WellFormed(l) && WellFormed(r) && i < |l.rows|
    requires JoinKeysValid(l, r, lk, rk)
    ensures var out := FullJoin(l, r, lk, rk).value;
      && k < |out.rows|
      && forall c :: c in l.columns ==> out.rows[k][c] == l.rows[i][c]
  {
    var cols := JoinColumns(l.columns, r.columns);
    var ms := Matches(l.rows[i], r.rows, lk, rk);
    var b := if |ms| == 0 then None else Some(ms[0]);
    InLeftPart(cols, l.rows, r.rows, lk, rk, i, b);
    var out := FullJoin(l, r, lk, rk).value;
    var o := JoinRow(cols, Some(l.rows[i]), b);
    assert o in out.rows;
    k := IndexOf(out.rows, o);
    assert forall c :: c in l.columns ==> c in Names(cols) && c in l.rows[i];
  }

  /** A full join keeps every right row: some output row holds its cells in
      the columns the left table lacks. */
  lemma RightRowKept(l: Table, r: Table, lk: seq<string>, rk: seq<string>, j: nat) returns (k: nat)
    requires WellFormed(l) && WellFormed(r) && j < |r.rows|
    requires JoinKeysValid(l, r, lk, rk)
    ensures var out := FullJoin(l, r, lk, rk).value;
      && k < |out.rows|
      && forall c :: c in r.columns && c !in l.columns ==> out.rows[k][c] == r.rows[j][c]
  {
    var cols := JoinColumns(l.columns, r.columns);
    var out := FullJoin(l, r, lk, rk).value;
    var b := r.rows[j];
    var o: Row;
    if HasPartner(b, l.rows, lk, rk) {
      var i :| 0 <= i < |l.rows| && KeysMatch(l.rows[i], b, lk, rk);
      InLeftPart(cols, l.rows, r.rows, lk, rk, i, Some(b));
      o := JoinRow(cols, Some(l.rows[i]), Some(b));
      assert forall c :: c in r.columns && c !in l.columns ==> c !in l.rows[i];
    } else {
      o := JoinRow(cols, None, Some(b));
    }
    assert o in out.rows;
    k := IndexOf(out.rows, o);
    assert forall c :: c in r.columns ==> c in Names(cols) && c in b;
  }

  /** `l.join(r, how="left", left_on=lk, right_on=rk)`: the left part of the
      full join alone. */
  function LeftJoin(l: Table, r: Table, lk: seq<string>, rk: seq<string>): (out: Option<Table>)
    requires WellFormed(l) && WellFormed(r)
    ensures out.Some? <==> JoinKeysValid(l, r, lk, rk)
    ensures out.Some? ==> WellFormed(out.value) && out.value.columns == JoinColumns(l.columns, r.columns)
    ensures out.Some? ==> |out.value.rows| >= |l.rows|
  {
    if !JoinKeysValid(l, r, lk, rk) then None
    else
      var cols := JoinColumns(l.columns, r.columns);
      var rows := LeftPart(cols, l.rows, r.rows, lk, rk);
      assert forall i :: 0 <= i < |rows| ==> rows[i] in rows;
      Some(Table(cols, rows))
  }

  /** The right row a left row is joined with when it has at most one. */
  function Partner(a: Row, rs: seq<Row>, lk: seq<string>, rk: seq<string>): Option<Row>
    requires |lk| == |rk|
  {
    var ms := Matches(a, rs, lk, rk);
    if |ms| == 0 then None else Some(ms[0])
  }

  /** A left row no right row matches has no partner. */
  lemma {:induction false} NoMatches(a: Row, rs: seq<Row>, lk: seq<string>, rk: seq<string>)
    requires |lk| == |rk|
    requires forall j :: 0 <= j < |rs| ==> !KeysMatch(a, rs[j], lk, rk)
    ensures Matches(a, rs, lk, rk) == []
    decreases |rs|
  {
    if |rs| > 0 {
      assert forall j :: 0 <= j < |rs[1..]| ==> rs[1..][j] == rs[j + 1];
      NoMatches(a, rs[1..], lk, rk);
    }
  }

  /** A left row that no two right rows both match has at most one partner. */
  lemma {:induction false} MatchesAtMostOne(a: Row, rs: seq<Row>, lk: seq<string>, rk: seq<string>)
    requires |lk| == |rk|
    requires forall j1, j2 :: 0 <= j1 < j2 < |rs| && KeysMatch(a, rs[j1], lk, rk) ==> !KeysMatch(a, rs[j2], lk, rk)
    ensures |Matches(a, rs, lk, rk)| <= 1
    decreases |rs|
  {
    if |rs| > 0 {
      var rest := Matches(a, rs[1..], lk, rk);
      if KeysMatch(a, rs[0], lk, rk) {
        assert forall j :: 0 <= j < |rs[1..]| ==> rs[1..][j] == rs[j + 1];
        NoMatches(a, rs[1..], lk, rk);
      } else {
        MatchesAtMostOne(a, rs[1..], lk, rk);
      }
    }
  }

  /** When every left row has at most one partner, the left join keeps the
      rows one for one, in order. */
  lemma {:induction false} LeftPartOneToOne(cols: seq<string>, ls: seq<Row>, rs: seq<Row>, lk: seq<string>, rk: seq<string>)
    requires |lk| == |rk|
    requires forall i :: 0 <= i < |ls| ==> |Matches(ls[i], rs, lk, rk)| <= 1
    ensures |LeftPart(cols, ls, rs, lk, rk)| == |ls|
    ensures forall i :: 0 <= i < |ls| ==>
      LeftPart(cols, ls, rs, lk, rk)[i] == JoinRow(cols, Some(ls[i]), Partner(ls[i], rs, lk, rk))
    decreases |ls|
  {
    if |ls| > 0 {
      var tail := ls[1..];
      assert forall i :: 0 <= i < |tail| ==> tail[i] == ls[i + 1];
      LeftPartOneToOne(cols, tail, rs, lk, rk);
      var block := LeftBlock(cols, ls[0], rs, lk, rk);
      var rest := LeftPart(cols, tail, rs, lk, rk);
      assert |block| == 1 && block[0] == JoinRow(cols, Some(ls[0]), Partner(ls[0], rs, lk, rk));
      var part := LeftPart(cols, ls, rs, lk, rk);
      assert part == block + rest;
      forall i | 0 <= i < |ls| ensures part[i] == JoinRow(cols, Some(ls[i]), Partner(ls[i], rs, lk, rk)) {
        if i > 0 {
          assert part[i] == rest[i - 1] && tail[i - 1] == ls[i];
        }
      }
    }
  }
}
