/** Row sorting as `df.sort(by, descending=...)` does it: rows compared key by
    key, each key ascending or descending, nulls first in either direction
    (polars' default `nulls_last=False`), numbers by value and text by code
    point. polars does not promise a stable order for equal keys; the model
    sorts by insertion and promises only what polars does: the rows are
    ordered by the keys and are the same rows. */
module Sorting {

  import opened Wrappers
  import opened Tables

  // ----- comparing cells -----

  /** Code-point order on strings, shorter prefix first. */
  function StrCmp(s: string, t: string): (c: int)
    ensures -1 <= c <= 1
  {
    if |s| == 0 && |t| == 0 then 0
    else if |s| == 0 then -1
    else if |t| == 0 then 1
    else if s[0] < t[0] then -1
    else if s[0] > t[0] then 1
    else StrCmp(s[1..], t[1..])
  }

  lemma {:induction false} StrCmpAnti(s: string, t: string)
    ensures StrCmp(s, t) == -StrCmp(t, s)
    ensures StrCmp(s, t) == 0 <==> s == t
  {
    if |s| > 0 && |t| > 0 && s[0] == t[0] {
      StrCmpAnti(s[1..], t[1..]);
      if s[1..] == t[1..] {
        assert s == [s[0]] + s[1..] && t == [t[0]] + t[1..];
      }
    }
  }

  lemma {:induction false} StrCmpTrans(s: string, t: string, u: string)
    requires StrCmp(s, t) <= 0 && StrCmp(t, u) <= 0
    ensures StrCmp(s, u) <= 0
  {
    if |s| > 0 && |t| > 0 && |u| > 0 && s[0] == t[0] && t[0] == u[0] {
      StrCmpTrans(s[1..], t[1..], u[1..]);
    }
  }

  /** Ascending order on cells: null, then numbers, then text. */
  function ValCmp(a: Value, b: Value): (c: int)
    ensures -1 <= c <= 1
  {
    match (a, b)
    case (Null, Null) => 0
    case (Null, _) => -1
    case (_, Null) => 1
    case (Num(x), Num(y)) => if x < y then -1 else if x > y then 1 else 0
    case (Num(_), Str(_)) => -1
    case (Str(_), Num(_)) => 1
    case (Str(x), Str(y)) => StrCmp(x, y)
  }

  /** One key's comparison: nulls first whatever the direction. */
  function Cmp(a: Value, b: Value, descending: bool): (c: int)
    ensures -1 <= c <= 1
    ensures a == Null && b != Null ==> c < 0
  {
    if a == Null || b == Null || !descending then ValCmp(a, b) else ValCmp(b, a)
  }

  lemma CmpAnti(a: Value, b: Value, descending: bool)
    ensures Cmp(a, b, descending) == -Cmp(b, a, descending)
    ensures Cmp(a, b, descending) == 0 <==> a == b
  {
    if a.Str? && b.Str? {
      StrCmpAnti(a.s, b.s);
    }
  }

  lemma ValCmpTrans(a: Value, b: Value, c: Value)
    requires ValCmp(a, b) <= 0 && ValCmp(b, c) <= 0
    ensures ValCmp(a, c) <= 0
  {
    if a.Str? && b.Str? && c.Str? {
      StrCmpTrans(a.s, b.s, c.s);
    }
  }

  lemma CmpTrans(a: Value, b: Value, c: Value, descending: bool)
    requires Cmp(a, b, descending) <= 0 && Cmp(b, c, descending) <= 0
    ensures Cmp(a, c, descending) <= 0
  {
    if a != Null && b != Null && c != Null {
      if descending {
        ValCmpTrans(c, b, a);
      } else {
        ValCmpTrans(a, b, c);
      }
    }
  }

  // ----- sort keys -----

  /** The listed offices, in display order. */
  const OfficeOrder: seq<string> := ["札幌", "仙台", "東京", "大阪", "名古屋", "福岡"]

  /** `custom_order.get(x, default_order)` through `map_elements`: a listed
      office's place, 6 for any other office, null for a null cell (which
      `map_elements` passes over). */
  function OfficeRank(v: Value): (r: Value)
    ensures v == Null <==> r == Null
    ensures r != Null ==> r.Num? && 0 <= r.n <= |OfficeOrder|
    ensures v.Str? && v.s in OfficeOrder ==> r == Num(IndexOf(OfficeOrder, v.s))
    ensures v != Null && !(v.Str? && v.s in OfficeOrder) ==> r == Num(|OfficeOrder|)
  {
    if v == Null then Null
    else if v.Str? && v.s in OfficeOrder then Num(IndexOf(OfficeOrder, v.s))
    else Num(|OfficeOrder|)
  }

  /** A sort key: a column in either direction, or a column's office rank
      ascending. */
  datatype SortKey = By(col: string, descending: bool) | ByOffice(office: string)

  function KeyCell(row: Row, k: SortKey): Value {
    match k
    case By(c, _) => if c in row then row[c] else Null
    case ByOffice(c) => if c in row then OfficeRank(row[c]) else Null
  }

  function KeyDescending(k: SortKey): bool {
    k.By? && k.descending
  }

  /** Rows compared key by key: the first key that differs decides. */
  function RowCmp(a: Row, b: Row, keys: seq<SortKey>): (c: int)
    ensures -1 <= c <= 1
  {
    if |keys| == 0 then 0
    else
      var c := Cmp(KeyCell(a, keys[0]), KeyCell(b, keys[0]), KeyDescending(keys[0]));
      if c != 0 then c else RowCmp(a, b, keys[1..])
  }

  lemma {:induction false} RowCmpAnti(a: Row, b: Row, keys: seq<SortKey>)
    ensures RowCmp(a, b, keys) == -RowCmp(b, a, keys)
  {
    if |keys| > 0 {
      CmpAnti(KeyCell(a, keys[0]), KeyCell(b, keys[0]), KeyDescending(keys[0]));
      RowCmpAnti(a, b, keys[1..]);
    }
  }

  lemma {:induction false} RowCmpTrans(a: Row, b: Row, c: Row, keys: seq<SortKey>)
    requires RowCmp(a, b, keys) <= 0 && RowCmp(b, c, keys) <= 0
    ensures RowCmp(a, c, keys) <= 0
  {
    if |keys| > 0 {
      var k := keys[0];
      var d := KeyDescending(k);
      var x, y, z := KeyCell(a, k), KeyCell(b, k), KeyCell(c, k);
      CmpAnti(x, y, d);
      CmpAnti(y, z, d);
      CmpAnti(x, z, d);
      CmpTrans(x, y, z, d);
      if Cmp(x, y, d) == 0 && Cmp(y, z, d) == 0 {
        RowCmpTrans(a, b, c, keys[1..]);
      }
    }
  }

  /** A row that does not come after another is not after it on the first
      key either. */
  lemma RowCmpFirst(a: Row, b: Row, keys: seq<SortKey>)
    requires |keys| > 0 && RowCmp(a, b, keys) <= 0
    ensures Cmp(KeyCell(a, keys[0]), KeyCell(b, keys[0]), KeyDescending(keys[0])) <= 0
  {
  }

  // ----- sorting -----

  predicate Sorted(rows: seq<Row>, keys: seq<SortKey>) {
    forall i, j :: 0 <= i < j < |rows| ==> RowCmp(rows[i], rows[j], keys) <= 0
  }

  /** A row preceding every row of a sorted sequence can go in front. */
  lemma ConsSorted(y: Row, rest: seq<Row>, keys: seq<SortKey>)
    requires Sorted(rest, keys)
    requires forall o :: o in rest ==> RowCmp(y, o, keys) <= 0
    ensures Sorted([y] + rest, keys)
  {
    var r := [y] + rest;
    forall i, j | 0 <= i < j < |r| ensures RowCmp(r[i], r[j], keys) <= 0 {
      if i == 0 {
        assert r[j] == rest[j - 1] && r[j] in rest;
      } else {
        assert r[i] == rest[i - 1] && r[j] == rest[j - 1];
      }
    }
  }

  /** A row preceding the first row of a sorted sequence precedes them all. */
  lemma PrecedesAll(x: Row, rows: seq<Row>, keys: seq<SortKey>)
    requires Sorted(rows, keys) && |rows| > 0 && RowCmp(x, rows[0], keys) <= 0
    ensures forall o :: o in rows ==> RowCmp(x, o, keys) <= 0
  {
    forall o | o in rows ensures RowCmp(x, o, keys) <= 0 {
      var j :| 0 <= j < |rows| && rows[j] == o;
      if j > 0 {
        RowCmpTrans(x, rows[0], rows[j], keys);
      }
    }
  }

  /** `x` placed before the first row it precedes. */
  function Insert(x: Row, rows: seq<Row>, keys: seq<SortKey>): (r: seq<Row>)
    ensures multiset(r) == multiset(rows) + multiset{x}
  {
    if |rows| == 0 then [x]
    else if RowCmp(x, rows[0], keys) <= 0 then [x] + rows
    else
      assert rows == [rows[0]] + rows[1..];
      [rows[0]] + Insert(x, rows[1..], keys)
  }

  /** The tail of a sorted sequence is sorted. */
  lemma SortedTail(rows: seq<Row>, keys: seq<SortKey>)
    requires Sorted(rows, keys) && |rows| > 0
    ensures Sorted(rows[1..], keys)
    ensures forall o :: o in rows[1..] ==> RowCmp(rows[0], o, keys) <= 0
  {
    var tail := rows[1..];
    forall i, j | 0 <= i < j < |tail| ensures RowCmp(tail[i], tail[j], keys) <= 0 {
      assert tail[i] == rows[i + 1] && tail[j] == rows[j + 1];
    }
    forall o | o in tail ensures RowCmp(rows[0], o, keys) <= 0 {
      var j :| 0 <= j < |tail| && tail[j] == o;
      assert rows[j + 1] == o;
    }
  }

  /** Inserting into a sorted sequence keeps it sorted. */
  lemma {:induction false} InsertSorted(x: Row, rows: seq<Row>, keys: seq<SortKey>)
    requires Sorted(rows, keys)
    ensures Sorted(Insert(x, rows, keys), keys)
    decreases |rows|
  {
    if |rows| > 0 {
      if RowCmp(x, rows[0], keys) <= 0 {
        PrecedesAll(x, rows, keys);
        ConsSorted(x, rows, keys);
      } else {
        RowCmpAnti(x, rows[0], keys);
        SortedTail(rows, keys);
        var rest := Insert(x, rows[1..], keys);
        InsertSorted(x, rows[1..], keys);
        assert forall o :: o in rest ==> RowCmp(rows[0], o, keys) <= 0 by {
          forall o | o in rest ensures RowCmp(rows[0], o, keys) <= 0 {
            assert o in multiset(rest);
          }
        }
        ConsSorted(rows[0], rest, keys);
      }
    }
  }

  /** The rows in key order: a permutation of the input in which no row
      comes after one it should follow. */
  function SortRows(rows: seq<Row>, keys: seq<SortKey>): (r: seq<Row>)
    ensures Sorted(r, keys)
    ensures multiset(r) == multiset(rows)
    ensures |r| == |rows|
  {
    if |rows| == 0 then []
    else
      assert rows == [rows[0]] + rows[1..];
      var rest := SortRows(rows[1..], keys);
      InsertSorted(rows[0], rest, keys);
      Insert(rows[0], rest, keys)
  }

  /** Sorting changes the order of the rows and nothing else. */
  function SortTable(t: Table, keys: seq<SortKey>): (r: Table)
    requires WellFormed(t)
    ensures WellFormed(r) && r.columns == t.columns
    ensures Sorted(r.rows, keys) && multiset(r.rows) == multiset(t.rows)
  {
    var rows := SortRows(t.rows, keys);
    assert forall i :: 0 <= i < |rows| ==> rows[i] in multiset(t.rows);
    Table(t.columns, rows)
  }

  /** In a table sorted descending on a column, a null cell is never
      below a non-null one, and the numbers do not increase downwards. */
  lemma SortedDescending(rows: seq<Row>, c: string, i: nat, j: nat)
    requires Sorted(rows, [By(c, true)])
    requires i < j < |rows| && c in rows[i] && c in rows[j]
    ensures rows[j][c] == Null ==> rows[i][c] == Null
    ensures rows[i][c].Num? && rows[j][c].Num? ==> rows[i][c].n >= rows[j][c].n
  {
    RowCmpFirst(rows[i], rows[j], [By(c, true)]);
  }

  /** On office rank first, no office outside the list comes above a
      listed one, and the listed ones come in the list's order. */
  lemma SortedOffices(rows: seq<Row>, keys: seq<SortKey>, o: string, i: nat, j: nat)
    requires |keys| > 0 && keys[0] == ByOffice(o) && Sorted(rows, keys)
    requires i < j < |rows| && o in rows[i] && o in rows[j]
    requires rows[j][o].Str? && rows[j][o].s in OfficeOrder
    ensures rows[i][o] == Null || (rows[i][o].Str? && rows[i][o].s in OfficeOrder
      && IndexOf(OfficeOrder, rows[i][o].s) <= IndexOf(OfficeOrder, rows[j][o].s))
  {
    RowCmpFirst(rows[i], rows[j], keys);
  }
}
