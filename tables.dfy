/** The data frame the pipeline passes from step to step: an ordered list of
    column names and a sequence of rows, each row mapping every column name
    to a nullable cell. Amounts are integers. The column operations below
    are the handful of polars primitives the scripts use (`with_columns`,
    `drop`, `select`, `rename`, `fill_null`, `sum`), each a new table built
    from the old one. */
module Tables {

  import opened Wrappers
  import opened Text

  /** A cell: null, an integer amount, or text. */
  datatype Value = Null | Num(n: int) | Str(s: string)

  type Row = map<string, Value>

  datatype Table = Table(columns: seq<string>, rows: seq<Row>)

  predicate Distinct<T(==)>(s: seq<T>) {
    forall i, j :: 0 <= i < j < |s| ==> s[i] != s[j]
  }

  /** Concatenation regroups freely. */
  lemma ConcatAssoc<T>(a: seq<T>, b: seq<T>, c: seq<T>)
    ensures (a + b) + c == a + (b + c)
  {
  }

  /** A prefix one element longer. */
  lemma PrefixSnoc<T>(s: seq<T>, i: nat)
    requires i < |s|
    ensures s[..i + 1] == s[..i] + [s[i]]
  {
  }

  /** Splitting off the last element of a sequence without duplicates. */
  lemma DistinctInit<T>(s: seq<T>)
    requires |s| > 0 && Distinct(s)
    ensures Distinct(s[..|s| - 1]) && s[|s| - 1] !in s[..|s| - 1]
    ensures forall x :: x in s <==> x in s[..|s| - 1] || x == s[|s| - 1]
  {
    assert s == s[..|s| - 1] + [s[|s| - 1]];
  }

  /** Two sequences without duplicates and without common elements
      concatenate to one without duplicates. */
  lemma DistinctConcat<T>(a: seq<T>, b: seq<T>)
    requires Distinct(a) && Distinct(b)
    requires forall x :: x in a ==> x !in b
    ensures Distinct(a + b)
  {
    var r := a + b;
    forall i, j | 0 <= i < j < |r| ensures r[i] != r[j] {
      if j < |a| {
        assert r[i] == a[i] && r[j] == a[j];
      } else if i >= |a| {
        assert r[i] == b[i - |a|] && r[j] == b[j - |a|];
      } else {
        assert r[i] in a && r[j] in b;
      }
    }
  }

  function Names(cols: seq<string>): set<string> {
    set c | c in cols
  }

  /** One name list is covered by another exactly when each name is. */
  lemma NamesSubset(a: seq<string>, b: seq<string>)
    ensures Names(a) <= Names(b) <==> forall k :: k in a ==> k in b
  {
    if forall k :: k in a ==> k in b {
      forall x | x in Names(a) ensures x in Names(b) {
        assert x in a;
      }
    }
    if Names(a) <= Names(b) {
      forall k | k in a ensures k in b {
        assert k in Names(a);
      }
    }
  }

  /** Column names are distinct and every row has exactly those columns. */
  predicate WellFormed(t: Table) {
    && Distinct(t.columns)
    && forall i :: 0 <= i < |t.rows| ==> t.rows[i].Keys == Names(t.columns)
  }

  /** polars `DataFrame.is_empty()`: the frame has no rows. */
  predicate IsEmpty(t: Table) {
    |t.rows| == 0
  }

  /** A cell read as a number, null (and text) counting as 0. */
  function AsNumber(v: Value): int {
    if v.Num? then v.n else 0
  }

  /** The cells of column `c`, top to bottom. */
  function Column(t: Table, c: string): (vs: seq<Value>)
    requires WellFormed(t) && c in t.columns
    ensures |vs| == |t.rows|
    ensures forall i :: 0 <= i < |t.rows| ==> vs[i] == t.rows[i][c]
  {
    seq(|t.rows|, i requires 0 <= i < |t.rows| => t.rows[i][c])
  }

  /** `pl.lit(None)`: a column of nulls. */
  function Nulls(n: nat): (vs: seq<Value>)
    ensures |vs| == n && forall i :: 0 <= i < n ==> vs[i] == Null
  {
    seq(n, i => Null)
  }

  /** `pl.coalesce(a, b)` and `pl.when(a.is_null()).then(b).otherwise(a)`:
      the first non-null of the two cells, row by row. */
  function Coalesce(a: seq<Value>, b: seq<Value>): (vs: seq<Value>)
    requires |a| == |b|
    ensures |vs| == |a|
    ensures forall i :: 0 <= i < |a| ==> vs[i] == (if a[i] == Null then b[i] else a[i])
  {
    seq(|a|, i requires 0 <= i < |a| => if a[i] == Null then b[i] else a[i])
  }

  /** `df.with_columns(vals.alias(c))`: replaces column `c` in place when it
      exists, else appends it as the last column. */
  function WithColumn(t: Table, c: string, vals: seq<Value>): (r: Table)
    requires WellFormed(t) && |vals| == |t.rows|
    ensures WellFormed(r) && |r.rows| == |t.rows|
    ensures r.columns == if c in t.columns then t.columns else t.columns + [c]
    ensures forall i :: 0 <= i < |t.rows| ==> r.rows[i] == t.rows[i][c := vals[i]]
  {
    var cols := if c in t.columns then t.columns else t.columns + [c];
    assert Names(cols) == Names(t.columns) + {c};
    Table(cols, seq(|t.rows|, i requires 0 <= i < |t.rows| => t.rows[i][c := vals[i]]))
  }

  /** `s` without the element `x`, order kept. */
  function RemoveName(s: seq<string>, x: string): (r: seq<string>)
    ensures Names(r) == Names(s) - {x}
    ensures Distinct(s) ==> Distinct(r)
    ensures x !in s ==> r == s
  {
    if |s| == 0 then []
    else
      var rest := RemoveName(s[1..], x);
      assert Names(s) == {s[0]} + Names(s[1..]);
      if s[0] == x then rest
      else
        var r := [s[0]] + rest;
        assert Names(r) == {s[0]} + Names(rest);
        assert forall j :: 1 <= j < |r| ==> r[j] in Names(rest);
        assert Distinct(s) ==> s[0] !in Names(s[1..]);
        r
  }

  /** `df.drop(c)`. */
  function DropColumn(t: Table, c: string): (r: Table)
    requires WellFormed(t)
    ensures WellFormed(r) && |r.rows| == |t.rows|
    ensures r.columns == RemoveName(t.columns, c)
    ensures forall i :: 0 <= i < |t.rows| ==> r.rows[i] == t.rows[i] - {c}
  {
    Table(RemoveName(t.columns, c), seq(|t.rows|, i requires 0 <= i < |t.rows| => t.rows[i] - {c}))
  }

  /** `df.select(cols)` for columns that all exist. */
  function Select(t: Table, cols: seq<string>): (r: Table)
    requires WellFormed(t) && Distinct(cols) && Names(cols) <= Names(t.columns)
    ensures WellFormed(r) && r.columns == cols && |r.rows| == |t.rows|
    ensures forall i, c :: 0 <= i < |t.rows| && c in cols ==> r.rows[i][c] == t.rows[i][c]
  {
    Table(cols, seq(|t.rows|, i requires 0 <= i < |t.rows| =>
      map c | c in t.rows[i] && c in cols :: t.rows[i][c]))
  }

  /** `[col for col in cols if col in present]` */
  function Present(cols: seq<string>, present: seq<string>): (r: seq<string>)
    ensures forall c :: c in r <==> c in cols && c in present
    ensures Distinct(cols) ==> Distinct(r)
  {
    if |cols| == 0 then []
    else
      var rest := Present(cols[1..], present);
      assert forall c :: c in cols <==> c == cols[0] || c in cols[1..];
      if cols[0] in present then
        assert Distinct(cols) ==> cols[0] !in cols[1..];
        [cols[0]] + rest
      else rest
  }

  /** The first kept entry is the first entry of `cols` that is present. */
  lemma {:induction false} PresentFirst(cols: seq<string>, present: seq<string>)
    requires |Present(cols, present)| > 0
    ensures exists j :: (0 <= j < |cols| && Present(cols, present)[0] == cols[j] && cols[j] in present &&
      forall i :: 0 <= i < j ==> cols[i] !in present)
  {
    if cols[0] !in present {
      PresentFirst(cols[1..], present);
      var j :| 0 <= j < |cols[1..]| && Present(cols[1..], present)[0] == cols[1..][j] && cols[1..][j] in present &&
        forall i :: 0 <= i < j ==> cols[1..][i] !in present;
      assert forall i :: 0 <= i < j + 1 ==> cols[i] !in present by {
        forall i | 0 <= i < j + 1 ensures cols[i] !in present {
          if i > 0 { assert cols[i] == cols[1..][i - 1]; }
        }
      }
    } else {
      assert Present(cols, present)[0] == cols[0];
    }
  }

  /** Filtering a concatenation filters each part. */
  lemma {:induction false} PresentConcat(a: seq<string>, b: seq<string>, present: seq<string>)
    ensures Present(a + b, present) == Present(a, present) + Present(b, present)
    decreases |a|
  {
    if |a| == 0 {
      assert a + b == b;
    } else {
      assert (a + b)[0] == a[0] && (a + b)[1..] == a[1..] + b;
      PresentConcat(a[1..], b, present);
    }
  }

  /** Filtering twice by the same list is filtering once. */
  lemma {:induction false} PresentIdempotent(cols: seq<string>, present: seq<string>)
    ensures Present(Present(cols, present), present) == Present(cols, present)
    decreases |cols|
  {
    if |cols| > 0 {
      PresentIdempotent(cols[1..], present);
      if cols[0] in present {
        var r := Present(cols, present);
        assert r[0] == cols[0] && r[1..] == Present(cols[1..], present);
      }
    }
  }

  /** Filtering by a list that has every entry keeps everything. */
  lemma {:induction false} PresentAll(cols: seq<string>, present: seq<string>)
    requires forall c :: c in cols ==> c in present
    ensures Present(cols, present) == cols
    decreases |cols|
  {
    if |cols| > 0 {
      PresentAll(cols[1..], present);
    }
  }

  /** `r` is `s` with some entries left out, the rest in their order. */
  predicate Subsequence<T(==)>(r: seq<T>, s: seq<T>)
    decreases |s|
  {
    if |r| == 0 then true
    else if |s| == 0 then false
    else if r[0] == s[0] then Subsequence(r[1..], s[1..])
    else Subsequence(r, s[1..])
  }

  /** Every sequence is a subsequence of itself. */
  lemma {:induction false} SubsequenceRefl<T>(s: seq<T>)
    ensures Subsequence(s, s)
    decreases |s|
  {
    if |s| > 0 {
      SubsequenceRefl(s[1..]);
    }
  }

  /** Appending an entry to `s` keeps `r` a subsequence, with or without
      the entry appended to `r` as well. */
  lemma {:induction false} SubsequenceSnoc<T>(r: seq<T>, s: seq<T>, x: T, keep: bool)
    requires Subsequence(r, s)
    ensures Subsequence(if keep then r + [x] else r, s + [x])
    decreases |s|
  {
    var r' := if keep then r + [x] else r;
    if |s| == 0 {
      assert keep ==> r' == [x] && r'[1..] == [];
    } else if |r| == 0 {
      if keep && s[0] != x {
        SubsequenceSnoc(r, s[1..], x, keep);
        assert (s + [x])[1..] == s[1..] + [x];
      }
    } else {
      assert r'[0] == r[0] && (s + [x])[0] == s[0] && (s + [x])[1..] == s[1..] + [x];
      if r[0] == s[0] {
        SubsequenceSnoc(r[1..], s[1..], x, keep);
        assert r'[1..] == if keep then r[1..] + [x] else r[1..];
      } else {
        SubsequenceSnoc(r, s[1..], x, keep);
      }
    }
  }

  /** The filter keeps the order of the list it filters. */
  lemma {:induction false} PresentOrdered(cols: seq<string>, present: seq<string>)
    requires Distinct(cols)
    ensures Subsequence(Present(cols, present), cols)
    decreases |cols|
  {
    if |cols| > 0 {
      var r := Present(cols, present);
      var rest := Present(cols[1..], present);
      assert Distinct(cols[1..]);
      PresentOrdered(cols[1..], present);
      if cols[0] in present {
        assert r == [cols[0]] + rest;
        assert r[1..] == rest;
      } else {
        assert r == rest;
        assert |rest| > 0 ==> rest[0] in cols[1..] && rest[0] != cols[0];
      }
    }
  }

  /** The position of the first occurrence of `x` in `s`. */
  function IndexOf<T(==)>(s: seq<T>, x: T): (k: nat)
    requires x in s
    ensures k < |s| && s[k] == x
    ensures forall j :: 0 <= j < k ==> s[j] != x
  {
    if s[0] == x then 0 else 1 + IndexOf(s[1..], x)
  }

  /** The name a column gets under a rename mapping. */
  function NewName(m: map<string, string>, c: string): string {
    if c in m then m[c] else c
  }

  function RenamedNames(cols: seq<string>, m: map<string, string>): (r: seq<string>)
    ensures |r| == |cols| && forall j :: 0 <= j < |cols| ==> r[j] == NewName(m, cols[j])
  {
    seq(|cols|, j requires 0 <= j < |cols| => NewName(m, cols[j]))
  }

  function RenameRow(row: Row, cols: seq<string>, newCols: seq<string>): (r: Row)
    requires |cols| == |newCols| && Names(cols) <= row.Keys
    ensures r.Keys == Names(newCols)
  {
    map k | k in Names(newCols) :: row[cols[IndexOf(newCols, k)]]
  }

  /** The renamed row holds each old cell under its new name. */
  lemma RenameRowCell(row: Row, cols: seq<string>, newCols: seq<string>, j: nat)
    requires |cols| == |newCols| && Names(cols) <= row.Keys && Distinct(newCols) && j < |cols|
    ensures newCols[j] in RenameRow(row, cols, newCols) && RenameRow(row, cols, newCols)[newCols[j]] == row[cols[j]]
  {
    var k := IndexOf(newCols, newCols[j]);
    assert k == j;
  }

  /** `df.rename(m)` (strict): `None` is the error polars raises when a name
      to rename is missing or two columns would end up with the same name. */
  function Rename(t: Table, m: map<string, string>): (r: Option<Table>)
    requires WellFormed(t)
    ensures r.Some? <==> m.Keys <= Names(t.columns) && Distinct(RenamedNames(t.columns, m))
    ensures r.Some? ==> WellFormed(r.value) && |r.value.rows| == |t.rows|
    ensures r.Some? ==> r.value.columns == RenamedNames(t.columns, m)
    ensures r.Some? ==> forall i, j :: 0 <= i < |t.rows| && 0 <= j < |t.columns| ==>
      r.value.rows[i][r.value.columns[j]] == t.rows[i][t.columns[j]]
  {
    var newCols := RenamedNames(t.columns, m);
    if !(m.Keys <= Names(t.columns)) || !Distinct(newCols) then None
    else Some(RenamedTable(t, newCols))
  }

  /** The table with its columns called `newCols`, position by position. */
  function RenamedTable(t: Table, newCols: seq<string>): (r: Table)
    requires WellFormed(t) && |newCols| == |t.columns| && Distinct(newCols)
    ensures WellFormed(r) && |r.rows| == |t.rows| && r.columns == newCols
    ensures forall i, j :: 0 <= i < |t.rows| && 0 <= j < |t.columns| ==> r.rows[i][newCols[j]] == t.rows[i][t.columns[j]]
  {
    var rows := seq(|t.rows|, i requires 0 <= i < |t.rows| => RenameRow(t.rows[i], t.columns, newCols));
    forall i, j | 0 <= i < |t.rows| && 0 <= j < |t.columns|
      ensures rows[i][newCols[j]] == t.rows[i][t.columns[j]]
    {
      RenameRowCell(t.rows[i], t.columns, newCols, j);
    }
    Table(newCols, rows)
  }

  /** A rename mapping that sends different columns to different names
      leaves the column names distinct exactly when no column it keeps has
      the name some other column is renamed to. */
  lemma RenameDistinctIff(cols: seq<string>, m: map<string, string>)
    requires Distinct(cols) && m.Keys <= Names(cols)
    requires forall a, b :: a in m && b in m && a != b ==> m[a] != m[b]
    ensures Distinct(RenamedNames(cols, m)) <==> forall c, a :: c in cols && c !in m && a in m ==> m[a] != c
  {
    var r := RenamedNames(cols, m);
    if forall c, a :: c in cols && c !in m && a in m ==> m[a] != c {
      forall i, j | 0 <= i < j < |r| ensures r[i] != r[j] {
        assert cols[i] != cols[j];
      }
    }
    if Distinct(r) {
      forall c, a | c in cols && c !in m && a in m ensures m[a] != c {
        var i, j := IndexOf(cols, c), IndexOf(cols, a);
        assert a in Names(cols);
        assert i != j && r[i] == c && r[j] == m[a];
      }
    }
  }

  /** A rename of one column to a name the table does not have succeeds. */
  lemma RenameOneDefined(t: Table, src: string, dst: string)
    requires WellFormed(t) && src in t.columns && dst !in t.columns
    ensures Rename(t, map[src := dst]).Some?
    ensures forall j :: 0 <= j < |t.columns| ==>
      Rename(t, map[src := dst]).value.columns[j] == if t.columns[j] == src then dst else t.columns[j]
  {
    RenameDistinctIff(t.columns, map[src := dst]);
  }

  /** Its columns: `dst` in place of `src`. */
  lemma RenameOneColumns(t: Table, src: string, dst: string)
    requires WellFormed(t) && src in t.columns && dst !in t.columns
    ensures Rename(t, map[src := dst]).Some? &&
      forall c :: c in Rename(t, map[src := dst]).value.columns <==> c == dst || (c in t.columns && c != src)
  {
    RenameOneDefined(t, src, dst);
    var r := Rename(t, map[src := dst]).value;
    forall c ensures c in r.columns <==> c == dst || (c in t.columns && c != src) {
      if c == dst {
        assert r.columns[IndexOf(t.columns, src)] == dst;
      } else if c in t.columns && c != src {
        assert r.columns[IndexOf(t.columns, c)] == c;
      }
    }
  }

  /** Its cells: the renamed column carries the old one's. */
  lemma RenameOneCells(t: Table, src: string, dst: string)
    requires WellFormed(t) && src in t.columns && dst !in t.columns
    ensures Rename(t, map[src := dst]).Some?
    ensures var r := Rename(t, map[src := dst]).value;
      && |r.rows| == |t.rows|
      && (forall i :: 0 <= i < |t.rows| ==> dst in r.rows[i] && r.rows[i][dst] == t.rows[i][src])
      && forall i, c :: 0 <= i < |t.rows| && c in t.columns && c != src ==> c in r.rows[i] && r.rows[i][c] == t.rows[i][c]
  {
    RenameOneDefined(t, src, dst);
    var r := Rename(t, map[src := dst]).value;
    forall i | 0 <= i < |t.rows| ensures dst in r.rows[i] && r.rows[i][dst] == t.rows[i][src] {
      assert r.columns[IndexOf(t.columns, src)] == dst;
    }
    forall i, c | 0 <= i < |t.rows| && c in t.columns && c != src ensures c in r.rows[i] && r.rows[i][c] == t.rows[i][c] {
      assert r.columns[IndexOf(t.columns, c)] == c;
    }
  }

  /** A rename of one column to a name the table does not have, which
      always succeeds. */
  function RenameOne(t: Table, src: string, dst: string): (r: Table)
    requires WellFormed(t) && src in t.columns && dst !in t.columns
    ensures WellFormed(r) && |r.rows| == |t.rows| && |r.columns| == |t.columns|
    ensures forall c :: c in r.columns <==> c == dst || (c in t.columns && c != src)
    ensures forall i :: 0 <= i < |t.rows| ==> r.rows[i][dst] == t.rows[i][src]
    ensures forall i, c :: 0 <= i < |t.rows| && c in t.columns && c != src ==> r.rows[i][c] == t.rows[i][c]
  {
    RenameOneDefined(t, src, dst);
    RenameOneColumns(t, src, dst);
    RenameOneCells(t, src, dst);
    Rename(t, map[src := dst]).value
  }

  /** The sum of a sequence of cells, nulls counting as 0 (polars `sum`). */
  function SumValues(vs: seq<Value>): int
    decreases |vs|
  {
    if |vs| == 0 then 0 else SumValues(vs[..|vs| - 1]) + AsNumber(vs[|vs| - 1])
  }

  /** `df[c].sum()`. */
  function Total(t: Table, c: string): int
    requires WellFormed(t) && c in t.columns
  {
    SumValues(Column(t, c))
  }

  /** Replacing one cell of a sequence changes its sum by the difference. */
  lemma {:induction false} SumValuesUpdate(vs: seq<Value>, k: nat, v: Value)
    requires k < |vs|
    ensures SumValues(vs[k := v]) == SumValues(vs) - AsNumber(vs[k]) + AsNumber(v)
    decreases |vs|
  {
    var n := |vs|;
    if k < n - 1 {
      assert vs[k := v][..n - 1] == vs[..n - 1][k := v];
      SumValuesUpdate(vs[..n - 1], k, v);
    } else {
      assert vs[k := v][..n - 1] == vs[..n - 1];
    }
  }

  /** The sum of a concatenation is the sum of the parts. */
  lemma {:induction false} SumValuesAppend(a: seq<Value>, b: seq<Value>)
    ensures SumValues(a + b) == SumValues(a) + SumValues(b)
    decreases |b|
  {
    if |b| > 0 {
      assert (a + b)[..|a + b| - 1] == a + b[..|b| - 1];
      SumValuesAppend(a, b[..|b| - 1]);
    } else {
      assert a + b == a;
    }
  }
}
