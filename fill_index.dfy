/** Filling missing codes from the historical tables
    (`fill_missing_index_columns`): a row of the merged table whose code is
    null but whose name is known takes the code the historical table pairs
    with that name. The name-to-code mapping is the historical table's
    distinct non-null (name, code) pairs; the table is left-joined with it
    on the name and the code coalesced with the joined one. polars leaves
    the order of `unique`, `group_by(...).first()` and `unique(subset=...)`
    unspecified; here each keeps the first appearance. */
module FillIndex {

  import opened Wrappers
  import opened Tables
  import opened Joins
  import opened Aggregation
  import opened MergePast

  type Pair = (Value, Value)

  // ----- the mapping -----

  /** `df.select([name, code])` as (name, code) pairs, row by row. */
  function NamePairs(t: Table, name: string, code: string): (ps: seq<Pair>)
    requires WellFormed(t) && name in t.columns && code in t.columns
    ensures |ps| == |t.rows|
    ensures forall j :: 0 <= j < |t.rows| ==> ps[j] == (t.rows[j][name], t.rows[j][code])
  {
    seq(|t.rows|, j requires 0 <= j < |t.rows| => (t.rows[j][name], t.rows[j][code]))
  }

  /** `.unique()`: each pair once, at its first appearance, leaving out the
      pairs in `seen`. */
  function UniqueFrom(ps: seq<Pair>, seen: set<Pair>): (r: seq<Pair>)
    ensures Distinct(r)
    ensures forall p :: p in r <==> p in ps && p !in seen
    decreases |ps|
  {
    if |ps| == 0 then []
    else
      assert forall p :: p in ps <==> p == ps[0] || p in ps[1..];
      if ps[0] in seen then UniqueFrom(ps[1..], seen)
      else
        var rest := UniqueFrom(ps[1..], seen + {ps[0]});
        [ps[0]] + rest
  }

  /** `.drop_nulls()`: the pairs with neither side null. */
  function NonNull(ps: seq<Pair>): (r: seq<Pair>)
    ensures forall p :: p in r <==> p in ps && p.0 != Null && p.1 != Null
    ensures Distinct(ps) ==> Distinct(r)
  {
    if |ps| == 0 then []
    else
      var rest := NonNull(ps[1..]);
      assert forall p :: p in ps <==> p == ps[0] || p in ps[1..];
      if ps[0].0 != Null && ps[0].1 != Null then
        assert Distinct(ps) ==> ps[0] !in ps[1..];
        [ps[0]] + rest
      else rest
  }

  /** No name is paired with two codes. */
  predicate DistinctNames(ps: seq<Pair>) {
    forall j1, j2 :: 0 <= j1 < j2 < |ps| ==> ps[j1].0 != ps[j2].0
  }

  /** `.group_by(name).first()`: the first pair of each name not in `seen`. */
  function FirstPerName(ps: seq<Pair>, seen: set<Value>): (r: seq<Pair>)
    ensures DistinctNames(r)
    ensures forall p :: p in r ==> p in ps && p.0 !in seen
    decreases |ps|
  {
    if |ps| == 0 then []
    else if ps[0].0 in seen then
      var r := FirstPerName(ps[1..], seen);
      assert forall p :: p in ps[1..] ==> p in ps;
      r
    else
      var rest := FirstPerName(ps[1..], seen + {ps[0].0});
      var r := [ps[0]] + rest;
      assert forall j :: 1 <= j < |r| ==> r[j] == rest[j - 1] && r[j] in rest;
      assert forall p :: p in ps[1..] ==> p in ps;
      r
  }

  /** The code paired with `name` first, or null when there is none. */
  function Lookup(ps: seq<Pair>, name: Value): Value {
    if |ps| == 0 then Null
    else if ps[0].0 == name then ps[0].1
    else Lookup(ps[1..], name)
  }

  /** What the join brings to a row with this name cell: nothing for a null
      name, which matches no mapping row. */
  function LookupCell(ps: seq<Pair>, name: Value): Value {
    if name == Null then Null else Lookup(ps, name)
  }

  /** A code found for a name is one the name is paired with. */
  lemma {:induction false} LookupFound(ps: seq<Pair>, name: Value)
    ensures Lookup(ps, name) != Null ==> (name, Lookup(ps, name)) in ps
  {
    if |ps| > 0 && ps[0].0 != name {
      LookupFound(ps[1..], name);
    }
  }

  /** Keeping the first pair of each name does not change what any unseen
      name looks up. */
  lemma {:induction false} FirstPerNameLookup(ps: seq<Pair>, seen: set<Value>, name: Value)
    requires name !in seen
    ensures Lookup(FirstPerName(ps, seen), name) == Lookup(ps, name)
    decreases |ps|
  {
    if |ps| > 0 {
      if ps[0].0 in seen {
        assert FirstPerName(ps, seen) == FirstPerName(ps[1..], seen);
        FirstPerNameLookup(ps[1..], seen, name);
      } else if ps[0].0 != name {
        var rest := FirstPerName(ps[1..], seen + {ps[0].0});
        assert FirstPerName(ps, seen) == [ps[0]] + rest;
        assert ([ps[0]] + rest)[1..] == rest;
        FirstPerNameLookup(ps[1..], seen + {ps[0].0}, name);
      } else {
        assert FirstPerName(ps, seen)[0] == ps[0];
      }
    }
  }

  /** The duplicate check and its fallback: with a name paired with two
      codes, the pairs are collapsed to the first of each name. */
  function Collapse(ps: seq<Pair>): (r: seq<Pair>)
    ensures DistinctNames(r)
    ensures forall p :: p in r ==> p in ps
  {
    if DistinctNames(ps) then ps
    else FirstPerName(ps, {})
  }

  /** Collapsing keeps each name's first code. */
  lemma CollapseLookup(ps: seq<Pair>, name: Value)
    ensures Lookup(Collapse(ps), name) == Lookup(ps, name)
  {
    if !DistinctNames(ps) {
      FirstPerNameLookup(ps, {}, name);
    }
  }

  /** The mapping as a two-column table `[name, helper]`. */
  function MapRows(ps: seq<Pair>, name: string, helper: string): (rs: seq<Row>)
    ensures |rs| == |ps|
    ensures forall j :: 0 <= j < |ps| ==> rs[j] == map[name := ps[j].0, helper := ps[j].1]
  {
    if |ps| == 0 then [] else [map[name := ps[0].0, helper := ps[0].1]] + MapRows(ps[1..], name, helper)
  }

  function MappingTable(ps: seq<Pair>, name: string, helper: string): (m: Table)
    requires name != helper
    ensures WellFormed(m) && m.columns == [name, helper]
  {
    assert Names([name, helper]) == {name, helper};
    Table([name, helper], MapRows(ps, name, helper))
  }

  // ----- the join with the mapping -----

  /** The single-key join condition. */
  lemma KeysMatchOne(a: Row, b: Row, name: string)
    ensures KeysMatch(a, b, [name], [name]) <==> (name in a && name in b && a[name] != Null && a[name] == b[name])
  {
    var ks := [name];
    if name in a && name in b && a[name] != Null && a[name] == b[name] {
      assert KeysMatch(a, b, ks, ks) by {
        forall k | 0 <= k < |ks| ensures ks[k] in a && ks[k] in b && a[ks[k]] != Null && a[ks[k]] == b[ks[k]] {
          assert ks[k] == name;
        }
      }
    }
    if KeysMatch(a, b, ks, ks) {
      assert ks[0] == name;
    }
  }

  /** The helper cell a partner brings, null without one. */
  function HelperCell(p: Option<Row>, helper: string): Value {
    if p.Some? && helper in p.value then p.value[helper] else Null
  }

  /** The row a left row is joined with carries the code its name looks up. */
  lemma {:induction false} PartnerLookup(a: Row, ps: seq<Pair>, name: string, helper: string)
    requires name in a && name != helper
    ensures HelperCell(Partner(a, MapRows(ps, name, helper), [name], [name]), helper) == LookupCell(ps, a[name])
    decreases |ps|
  {
    var rs := MapRows(ps, name, helper);
    if |ps| > 0 {
      assert rs[1..] == MapRows(ps[1..], name, helper);
      PartnerLookup(a, ps[1..], name, helper);
      KeysMatchOne(a, rs[0], name);
    }
  }

  /** With distinct names no left row meets two mapping rows. */
  lemma OnePartner(a: Row, ps: seq<Pair>, name: string, helper: string)
    requires DistinctNames(ps) && name != helper
    ensures |Matches(a, MapRows(ps, name, helper), [name], [name])| <= 1
  {
    var rs := MapRows(ps, name, helper);
    forall j1, j2 | 0 <= j1 < j2 < |rs| && KeysMatch(a, rs[j1], [name], [name])
      ensures !KeysMatch(a, rs[j2], [name], [name])
    {
      KeysMatchOne(a, rs[j1], name);
      KeysMatchOne(a, rs[j2], name);
    }
    MatchesAtMostOne(a, rs, [name], [name]);
  }

  /** Removing the last name of a list that holds it once gives the rest. */
  lemma {:induction false} RemoveLast(s: seq<string>, x: string)
    requires x !in s
    ensures RemoveName(s + [x], x) == s
  {
    if |s| > 0 {
      assert (s + [x])[1..] == s[1..] + [x];
      RemoveLast(s[1..], x);
    }
  }

  /** The joined table's columns: the table's own, then the helper. */
  lemma MappingJoinColumns(cols: seq<string>, name: string, helper: string)
    requires name in cols && helper !in cols
    ensures JoinColumns(cols, [name, helper]) == cols + [helper]
  {
    assert Missing([name, helper], cols) == [helper] by {
      assert [name, helper][1..] == [helper];
      assert Missing([helper], cols) == [helper] + Missing([], cols);
    }
  }

  /** `df.join(mapping.rename({code: helper}), on=name, how="left")` */
  function Joined(df: Table, name: string, helper: string, ps: seq<Pair>): (r: Table)
    requires WellFormed(df) && name in df.columns && helper !in df.columns
    ensures WellFormed(r) && r.columns == df.columns + [helper] && |r.rows| >= |df.rows|
  {
    var m := MappingTable(ps, name, helper);
    assert Names([name]) <= Names(df.columns) && Names([name]) <= Names(m.columns);
    MappingJoinColumns(df.columns, name, helper);
    LeftJoin(df, m, [name], [name]).value
  }

  /** With one code per name the join pairs each row with its partner, if
      any, one for one. */
  lemma JoinedRows(df: Table, name: string, helper: string, ps: seq<Pair>)
    requires WellFormed(df) && name in df.columns && helper !in df.columns
    requires DistinctNames(ps)
    ensures |Joined(df, name, helper, ps).rows| == |df.rows|
    ensures forall i :: 0 <= i < |df.rows| ==>
      Joined(df, name, helper, ps).rows[i] == JoinRow(df.columns + [helper], Some(df.rows[i]), Partner(df.rows[i], MapRows(ps, name, helper), [name], [name]))
  {
    var m := MappingTable(ps, name, helper);
    MappingJoinColumns(df.columns, name, helper);
    forall i | 0 <= i < |df.rows| ensures |Matches(df.rows[i], m.rows, [name], [name])| <= 1 {
      OnePartner(df.rows[i], ps, name, helper);
    }
    LeftPartOneToOne(df.columns + [helper], df.rows, m.rows, [name], [name]);
  }

  /** With one code per name the join keeps every row where it is, adding
      the code the row's name looks up. */
  lemma JoinedCells(df: Table, name: string, helper: string, ps: seq<Pair>)
    requires WellFormed(df) && name in df.columns && helper !in df.columns
    requires DistinctNames(ps)
    ensures |Joined(df, name, helper, ps).rows| == |df.rows|
    ensures forall i :: 0 <= i < |df.rows| ==> Joined(df, name, helper, ps).rows[i][helper] == LookupCell(ps, df.rows[i][name])
    ensures forall i, c :: 0 <= i < |df.rows| && c in df.columns ==> Joined(df, name, helper, ps).rows[i][c] == df.rows[i][c]
  {
    var joined := Joined(df, name, helper, ps);
    var cols := df.columns + [helper];
    JoinedRows(df, name, helper, ps);
    forall i | 0 <= i < |df.rows|
      ensures joined.rows[i][helper] == LookupCell(ps, df.rows[i][name])
      ensures forall c :: c in df.columns ==> joined.rows[i][c] == df.rows[i][c]
    {
      var a := df.rows[i];
      PartnerLookup(a, ps, name, helper);
      assert helper in Names(cols);
      assert forall c :: c in df.columns ==> c in Names(cols) && c in a;
    }
  }

  /** The left join with the mapping on the name, then the coalesce of the
      code with the joined helper column and the helper's removal. */
  function FillCode(df: Table, name: string, code: string, helper: string, ps: seq<Pair>): (r: Table)
    requires WellFormed(df) && name in df.columns && code in df.columns && name != code
    requires helper !in df.columns
    ensures WellFormed(r) && r.columns == df.columns && |r.rows| >= |df.rows|
  {
    var joined := Joined(df, name, helper, ps);
    assert helper in joined.columns && code in joined.columns;
    RemoveLast(df.columns, helper);
    CoalesceDrop(joined, code, helper)
  }

  /** With one code per name the fill keeps every row where it is: a row
      keeps its code when it has one and otherwise takes the code its name
      looks up; every other cell is unchanged. */
  lemma FillCodeCells(df: Table, name: string, code: string, helper: string, ps: seq<Pair>)
    requires WellFormed(df) && name in df.columns && code in df.columns && name != code
    requires helper !in df.columns
    requires DistinctNames(ps)
    ensures |FillCode(df, name, code, helper, ps).rows| == |df.rows|
    ensures forall i :: 0 <= i < |df.rows| ==>
      FillCode(df, name, code, helper, ps).rows[i][code] ==
        if df.rows[i][code] != Null then df.rows[i][code] else LookupCell(ps, df.rows[i][name])
    ensures forall i, c :: 0 <= i < |df.rows| && c in df.columns && c != code ==>
      FillCode(df, name, code, helper, ps).rows[i][c] == df.rows[i][c]
  {
    JoinedCells(df, name, helper, ps);
    RemoveLast(df.columns, helper);
  }

  // ----- the corporation table -----

  const CorpName: string := "法人名"
  const CorpCode: string := "法人コード"
  const CorpHelper: string := "法人コード_補完"

  /** Some row has a null code and a known name. */
  predicate HasTargets(t: Table, code: string, name: string)
    requires WellFormed(t) && code in t.columns && name in t.columns
  {
    exists i :: 0 <= i < |t.rows| && t.rows[i][code] == Null && t.rows[i][name] != Null
  }

  /** The rows whose (code, name) tuple has not appeared before, in order:
      `df.unique(subset=keys)`. */
  function DedupRows(rows: seq<Row>, keys: seq<string>): (r: seq<Row>)
    requires HasColumns(rows, keys)
    ensures |r| <= |rows|
    ensures forall o :: o in r ==> o in rows
    ensures forall g :: Occurs(rows, keys, g) ==> exists o :: o in r && KeyOf(o, keys) == g
    decreases |rows|
  {
    if |rows| == 0 then []
    else
      var init := rows[..|rows| - 1];
      var last := rows[|rows| - 1];
      var prev := DedupRows(init, keys);
      assert forall g :: Occurs(rows, keys, g) ==> Occurs(init, keys, g) || KeyOf(last, keys) == g by {
        forall g | Occurs(rows, keys, g) && KeyOf(last, keys) != g ensures Occurs(init, keys, g) {
          var i :| 0 <= i < |rows| && KeyOf(rows[i], keys) == g;
          assert KeyOf(init[i], keys) == g;
        }
      }
      if Occurs(init, keys, KeyOf(last, keys)) then prev
      else
        assert forall o :: o in init ==> o in rows;
        prev + [last]
  }

  /** `df.unique(subset=keys)` */
  function DedupBy(t: Table, keys: seq<string>): (r: Table)
    requires WellFormed(t) && Names(keys) <= Names(t.columns)
    ensures WellFormed(r) && r.columns == t.columns && |r.rows| <= |t.rows|
    ensures forall o :: o in r.rows ==> o in t.rows
  {
    var rows := DedupRows(t.rows, keys);
    assert forall i :: 0 <= i < |rows| ==> rows[i] in t.rows;
    Table(t.columns, rows)
  }

  /** The corporation mapping: distinct non-null (法人名, 法人コード) pairs
      of the historical table, collapsed to one per name. */
  function CorpMapping(df1b: Table): (ps: seq<Pair>)
    requires WellFormed(df1b) && CorpName in df1b.columns && CorpCode in df1b.columns
    ensures DistinctNames(ps)
  {
    Collapse(NonNull(UniqueFrom(NamePairs(df1b, CorpName, CorpCode), {})))
  }

  /** Whether the corporation fill joins at all. */
  predicate CorpFillApplies(df1: Table, df1b: Table)
    requires WellFormed(df1)
  {
    && |df1.rows| > 0 && |df1b.rows| > 0
    && CorpCode in df1.columns && CorpName in df1.columns
    && CorpName in df1b.columns && CorpCode in df1b.columns
    && HasTargets(df1, CorpCode, CorpName)
  }

  /** The corporation half of `fill_missing_index_columns`. The code
      column is read before anything else is checked, so a non-empty table
      without it is an error. The dedup on (法人コード, 法人名) is adopted
      only when the fill has added rows and the dedup removes some. */
  function FillCorporation(df1: Table, df1b: Table): (r: Option<Table>)
    requires WellFormed(df1) && WellFormed(df1b)
    requires CorpHelper !in df1.columns
    ensures r.None? <==> |df1.rows| > 0 && |df1b.rows| > 0 && CorpCode !in df1.columns
    ensures r.Some? ==> WellFormed(r.value) && r.value.columns == df1.columns
    ensures r.Some? && !CorpFillApplies(df1, df1b) ==> r.value == df1
  {
    if |df1.rows| == 0 || |df1b.rows| == 0 then Some(df1)
    else if CorpCode !in df1.columns then None
    else if !(CorpName in df1.columns && CorpName in df1b.columns && CorpCode in df1b.columns) then Some(df1)
    else if !HasTargets(df1, CorpCode, CorpName) then Some(df1)
    else
      var filled := FillCode(df1, CorpName, CorpCode, CorpHelper, CorpMapping(df1b));
      if |filled.rows| > |df1.rows| then
        var dedup := DedupBy(filled, [CorpCode, CorpName]);
        if |dedup.rows| < |filled.rows| then Some(dedup) else Some(filled)
      else Some(filled)
  }

  /** The corporation fill keeps every row where it is and changes only
      null codes: a row with a null code and a known name takes the first
      historical code of that name, all other cells stay; in particular the
      dedup is never reached. */
  lemma FillCorporationCells(df1: Table, df1b: Table)
    requires WellFormed(df1) && WellFormed(df1b)
    requires CorpHelper !in df1.columns
    requires CorpFillApplies(df1, df1b)
    ensures FillCorporation(df1, df1b) == Some(FillCode(df1, CorpName, CorpCode, CorpHelper, CorpMapping(df1b)))
    ensures var r := FillCode(df1, CorpName, CorpCode, CorpHelper, CorpMapping(df1b));
      && |r.rows| == |df1.rows|
      && (forall i :: 0 <= i < |df1.rows| ==>
        r.rows[i][CorpCode] == if df1.rows[i][CorpCode] != Null then df1.rows[i][CorpCode]
          else LookupCell(CorpMapping(df1b), df1.rows[i][CorpName]))
      && forall i, c :: 0 <= i < |df1.rows| && c in df1.columns && c != CorpCode ==> r.rows[i][c] == df1.rows[i][c]
  {
    FillCodeCells(df1, CorpName, CorpCode, CorpHelper, CorpMapping(df1b));
  }

  /** A code the corporation fill writes is paired with the row's name in
      some historical row, and it is the first non-null code that name has
      there. */
  lemma CorpMappingFromPast(df1b: Table, name: Value)
    requires WellFormed(df1b) && CorpName in df1b.columns && CorpCode in df1b.columns
    ensures var ps := NonNull(UniqueFrom(NamePairs(df1b, CorpName, CorpCode), {}));
      Lookup(CorpMapping(df1b), name) == Lookup(ps, name)
    ensures var w := Lookup(CorpMapping(df1b), name);
      w != Null ==> exists j :: 0 <= j < |df1b.rows| && df1b.rows[j][CorpName] == name && df1b.rows[j][CorpCode] == w
  {
    var pairs := NamePairs(df1b, CorpName, CorpCode);
    var ps := NonNull(UniqueFrom(pairs, {}));
    CollapseLookup(ps, name);
    LookupFound(CorpMapping(df1b), name);
    var w := Lookup(CorpMapping(df1b), name);
    if w != Null {
      assert (name, w) in pairs;
      var j :| 0 <= j < |pairs| && pairs[j] == (name, w);
      assert df1b.rows[j][CorpName] == name && df1b.rows[j][CorpCode] == w;
    }
  }

  // ----- the client table -----

  const ClientName: string := "得意先名"
  const ClientCode: string := "得意先コード"
  const ClientHelper: string := "得意先コード_補完"

  /** The client mapping as the source builds it: distinct non-null
      (得意先名, 得意先コード) pairs, with no duplicate check. */
  function ClientPairsAsWritten(df2b: Table): seq<Pair>
    requires WellFormed(df2b) && ClientName in df2b.columns && ClientCode in df2b.columns
  {
    NonNull(UniqueFrom(NamePairs(df2b, ClientName, ClientCode), {}))
  }

  /** The client half of `fill_missing_index_columns` as written. Here the
      code column is read only after the name checks, so the error needs
      them to pass. */
  function FillClientAsWritten(df2: Table, df2b: Table): (r: Option<Table>)
    requires WellFormed(df2) && WellFormed(df2b)
    requires ClientHelper !in df2.columns
    ensures r.None? <==> (&& |df2.rows| > 0 && |df2b.rows| > 0
      && ClientName in df2.columns && ClientName in df2b.columns && ClientCode in df2b.columns
      && ClientCode !in df2.columns)
    ensures r.Some? ==> WellFormed(r.value) && r.value.columns == df2.columns && |r.value.rows| >= |df2.rows|
  {
    if |df2.rows| == 0 || |df2b.rows| == 0 then Some(df2)
    else if !(ClientName in df2.columns && ClientName in df2b.columns && ClientCode in df2b.columns) then Some(df2)
    else if ClientCode !in df2.columns then None
    else if !HasTargets(df2, ClientCode, ClientName) then Some(df2)
    else Some(FillCode(df2, ClientName, ClientCode, ClientHelper, ClientPairsAsWritten(df2b)))
  }

  /** The three client column names are different strings. */
  lemma ClientNamesDiffer()
    ensures ClientCode != ClientName && ClientName != ClientHelper && ClientCode != ClientHelper
  {
    assert ClientCode[3] != ClientName[3];
    assert |ClientName| != |ClientHelper|;
    assert |ClientCode| != |ClientHelper|;
  }

  /** A current client row with no code and the name "A". */
  function DuplicateExampleCurrent(): (t: Table)
    ensures WellFormed(t) && ClientHelper !in t.columns
  {
    assert Names([ClientCode, ClientName]) == {ClientCode, ClientName};
    Table([ClientCode, ClientName], [map[ClientCode := Null, ClientName := Str("A")]])
  }

  /** A historical client table pairing "A" with two codes. */
  function DuplicateExamplePast(): (t: Table)
    ensures WellFormed(t)
  {
    assert Names([ClientName, ClientCode]) == {ClientName, ClientCode};
    Table([ClientName, ClientCode], [
      map[ClientName := Str("A"), ClientCode := Str("c1")],
      map[ClientName := Str("A"), ClientCode := Str("c2")]])
  }

  /** Both (name, code) pairs of the example survive into the mapping. */
  lemma DuplicateExamplePairs()
    ensures ClientPairsAsWritten(DuplicateExamplePast()) == [(Str("A"), Str("c1")), (Str("A"), Str("c2"))]
  {
    ClientNamesDiffer();
    var p1, p2 := (Str("A"), Str("c1")), (Str("A"), Str("c2"));
    assert p1 != p2 by {
      assert "c1"[1] != "c2"[1];
    }
    var pairs := NamePairs(DuplicateExamplePast(), ClientName, ClientCode);
    assert pairs == [p1, p2];
    assert pairs[1..] == [p2] && [p2][1..] == [];
    var none: set<Pair> := {};
    assert none + {p1} == {p1};
    assert UniqueFrom([p2], {p1}) == [p2];
    assert UniqueFrom(pairs, none) == [p1] + UniqueFrom([p2], {p1});
    assert NonNull([p2]) == [p2];
    assert NonNull([p1, p2]) == [p1] + NonNull([p2]);
    assert ClientPairsAsWritten(DuplicateExamplePast()) == NonNull(UniqueFrom(pairs, {}));
  }

  /** The example row meets both mapping rows. */
  lemma DuplicateExampleMatches()
    ensures var rs := MapRows([(Str("A"), Str("c1")), (Str("A"), Str("c2"))], ClientName, ClientHelper);
      |Matches(DuplicateExampleCurrent().rows[0], rs, [ClientName], [ClientName])| == 2
  {
    ClientNamesDiffer();
    var row := DuplicateExampleCurrent().rows[0];
    var rs := MapRows([(Str("A"), Str("c1")), (Str("A"), Str("c2"))], ClientName, ClientHelper);
    assert row[ClientName] == Str("A");
    assert rs[0][ClientName] == Str("A") && rs[1][ClientName] == Str("A");
    KeysMatchOne(row, rs[0], ClientName);
    KeysMatchOne(row, rs[1], ClientName);
    var ks := [ClientName];
    assert rs[1..] == [rs[1]] && rs[1..][1..] == [];
    assert Matches(row, rs[1..], ks, ks) == [rs[1]] + Matches(row, [], ks, ks);
    assert Matches(row, rs, ks, ks) == [rs[0]] + Matches(row, rs[1..], ks, ks);
  }

  /** The joined rows are the left part of the join with the mapping rows. */
  lemma JoinedIsLeftPart(df: Table, name: string, helper: string, ps: seq<Pair>)
    requires WellFormed(df) && name in df.columns && helper !in df.columns
    ensures Joined(df, name, helper, ps).rows == LeftPart(df.columns + [helper], df.rows, MapRows(ps, name, helper), [name], [name])
  {
    MappingJoinColumns(df.columns, name, helper);
  }

  /** A single left row with matches yields one row per match. */
  lemma OneRowLeftPart(cols: seq<string>, a: Row, rs: seq<Row>, lk: seq<string>, rk: seq<string>)
    requires |lk| == |rk|
    ensures |Matches(a, rs, lk, rk)| > 0 ==> |LeftPart(cols, [a], rs, lk, rk)| == |Matches(a, rs, lk, rk)|
  {
    assert [a][1..] == [];
  }

  /** Joined with that mapping, the example row yields two rows. */
  lemma DuplicateExampleJoined()
    ensures |Joined(DuplicateExampleCurrent(), ClientName, ClientHelper, [(Str("A"), Str("c1")), (Str("A"), Str("c2"))]).rows| == 2
  {
    var df2 := DuplicateExampleCurrent();
    var ps := [(Str("A"), Str("c1")), (Str("A"), Str("c2"))];
    DuplicateExampleMatches();
    JoinedIsLeftPart(df2, ClientName, ClientHelper, ps);
    OneRowLeftPart(df2.columns + [ClientHelper], df2.rows[0], MapRows(ps, ClientName, ClientHelper), [ClientName], [ClientName]);
    assert df2.rows == [df2.rows[0]];
  }

  /** A client name the historical table pairs with two codes duplicates
      the current row it fills: one row becomes two. */
  lemma FillClientAsWrittenDuplicates()
    ensures var df2, df2b := DuplicateExampleCurrent(), DuplicateExamplePast();
      && |df2.rows| == 1
      && FillClientAsWritten(df2, df2b).Some?
      && |FillClientAsWritten(df2, df2b).value.rows| == 2
  {
    var df2, df2b := DuplicateExampleCurrent(), DuplicateExamplePast();
    assert HasTargets(df2, ClientCode, ClientName) by {
      assert df2.rows[0][ClientCode] == Null && df2.rows[0][ClientName] != Null;
    }
    DuplicateExamplePairs();
    DuplicateExampleJoined();
    var ps := ClientPairsAsWritten(df2b);
    assert FillClientAsWritten(df2, df2b) == Some(FillCode(df2, ClientName, ClientCode, ClientHelper, ps));
  }

  /** The client fill with the corporation fill's duplicate check: the
      mapping is collapsed to one code per name. */
  function FillClient(df2: Table, df2b: Table): (r: Option<Table>)
    requires WellFormed(df2) && WellFormed(df2b)
    requires ClientHelper !in df2.columns
    ensures r.None? <==> (&& |df2.rows| > 0 && |df2b.rows| > 0
      && ClientName in df2.columns && ClientName in df2b.columns && ClientCode in df2b.columns
      && ClientCode !in df2.columns)
    ensures r.Some? ==> WellFormed(r.value) && r.value.columns == df2.columns
  {
    if |df2.rows| == 0 || |df2b.rows| == 0 then Some(df2)
    else if !(ClientName in df2.columns && ClientName in df2b.columns && ClientCode in df2b.columns) then Some(df2)
    else if ClientCode !in df2.columns then None
    else if !HasTargets(df2, ClientCode, ClientName) then Some(df2)
    else Some(FillCode(df2, ClientName, ClientCode, ClientHelper, Collapse(ClientPairsAsWritten(df2b))))
  }

  /** Whether the client fill joins at all. */
  predicate ClientFillApplies(df2: Table, df2b: Table)
    requires WellFormed(df2)
  {
    && |df2.rows| > 0 && |df2b.rows| > 0
    && ClientName in df2.columns && ClientName in df2b.columns && ClientCode in df2b.columns
    && ClientCode in df2.columns && HasTargets(df2, ClientCode, ClientName)
  }

  /** The corrected client fill keeps every row where it is and changes
      only null codes: a row with a null code and a known name takes the
      first historical code of that name, all other cells stay. When the
      fill does not join, the table comes back as it was. */
  lemma FillClientCells(df2: Table, df2b: Table)
    requires WellFormed(df2) && WellFormed(df2b)
    requires ClientHelper !in df2.columns
    requires FillClient(df2, df2b).Some?
    ensures var r := FillClient(df2, df2b).value;
      && |r.rows| == |df2.rows|
      && (forall i :: 0 <= i < |df2.rows| && ClientCode in df2.columns && df2.rows[i][ClientCode] != Null ==> r.rows[i][ClientCode] == df2.rows[i][ClientCode])
      && forall i, c :: 0 <= i < |df2.rows| && c in df2.columns && c != ClientCode ==> r.rows[i][c] == df2.rows[i][c]
    ensures ClientFillApplies(df2, df2b) ==> var r := FillClient(df2, df2b).value;
      forall i :: 0 <= i < |df2.rows| ==>
        r.rows[i][ClientCode] == if df2.rows[i][ClientCode] != Null then df2.rows[i][ClientCode]
          else LookupCell(ClientPairsAsWritten(df2b), df2.rows[i][ClientName])
    ensures !ClientFillApplies(df2, df2b) ==> FillClient(df2, df2b) == Some(df2)
  {
    if ClientFillApplies(df2, df2b) {
      FillClientJoins(df2, df2b);
      FillCollapsedCells(df2, ClientName, ClientCode, ClientHelper, ClientPairsAsWritten(df2b));
    }
  }

  /** When the client fill joins, it is the fill with the collapsed
      mapping. */
  lemma FillClientJoins(df2: Table, df2b: Table)
    requires WellFormed(df2) && WellFormed(df2b)
    requires ClientHelper !in df2.columns
    requires ClientFillApplies(df2, df2b)
    ensures FillClient(df2, df2b) == Some(FillCode(df2, ClientName, ClientCode, ClientHelper, Collapse(ClientPairsAsWritten(df2b))))
  {
  }

  /** The fill with a collapsed mapping gives a null code the first code
      the mapping pairs with its name, and keeps every other cell. */
  lemma FillCollapsedCells(df: Table, name: string, code: string, helper: string, ps: seq<Pair>)
    requires WellFormed(df) && name in df.columns && code in df.columns && name != code
    requires helper !in df.columns
    ensures var r := FillCode(df, name, code, helper, Collapse(ps));
      && |r.rows| == |df.rows|
      && (forall i :: 0 <= i < |df.rows| ==>
        r.rows[i][code] == if df.rows[i][code] != Null then df.rows[i][code] else LookupCell(ps, df.rows[i][name]))
      && forall i, c :: 0 <= i < |df.rows| && c in df.columns && c != code ==> r.rows[i][c] == df.rows[i][c]
  {
    FillCodeCells(df, name, code, helper, Collapse(ps));
    forall i | 0 <= i < |df.rows|
      ensures LookupCell(Collapse(ps), df.rows[i][name]) == LookupCell(ps, df.rows[i][name])
    {
      CollapseLookup(ps, df.rows[i][name]);
    }
  }

  /** A code the client fill writes is paired with the row's name in some
      historical row. */
  lemma ClientMappingFromPast(df2b: Table, name: Value)
    requires WellFormed(df2b) && ClientName in df2b.columns && ClientCode in df2b.columns
    ensures var w := Lookup(Collapse(ClientPairsAsWritten(df2b)), name);
      w != Null ==> exists j :: 0 <= j < |df2b.rows| && df2b.rows[j][ClientName] == name && df2b.rows[j][ClientCode] == w
  {
    var pairs := NamePairs(df2b, ClientName, ClientCode);
    var ps := Collapse(ClientPairsAsWritten(df2b));
    LookupFound(ps, name);
    var w := Lookup(ps, name);
    if w != Null {
      assert (name, w) in pairs;
      var j :| 0 <= j < |pairs| && pairs[j] == (name, w);
      assert df2b.rows[j][ClientName] == name && df2b.rows[j][ClientCode] == w;
    }
  }

  /** `fill_missing_index_columns(df1, df2, df3, df1_b, df2_b, df3_b)`
      with the corrected client fill. Without historical corporation rows
      nothing happens; the product table is only inspected, never
      changed. */
  function FillMissingIndexColumns(df1: Table, df2: Table, df3: Table, df1b: Table, df2b: Table)
    : (r: Option<(Table, Table, Table)>)
    requires WellFormed(df1) && WellFormed(df2) && WellFormed(df1b) && WellFormed(df2b)
    requires CorpHelper !in df1.columns && ClientHelper !in df2.columns
    ensures IsEmpty(df1b) ==> r == Some((df1, df2, df3))
    ensures r.Some? ==> r.value.2 == df3
    ensures r.Some? ==> r.value.0.columns == df1.columns && r.value.1.columns == df2.columns
    ensures r.Some? ==> |r.value.0.rows| == |df1.rows| && |r.value.1.rows| == |df2.rows|
    ensures !IsEmpty(df1b) ==> (r.Some? <==> FillCorporation(df1, df1b).Some? && FillClient(df2, df2b).Some?)
    ensures !IsEmpty(df1b) && r.Some? ==>
      Some(r.value.0) == FillCorporation(df1, df1b) && Some(r.value.1) == FillClient(df2, df2b)
  {
    if IsEmpty(df1b) then Some((df1, df2, df3))
    else
      var r1 := FillCorporation(df1, df1b);
      var r2 := FillClient(df2, df2b);
      if r1.None? || r2.None? then None
      else
        assert |r1.value.rows| == |df1.rows| by {
          if CorpFillApplies(df1, df1b) {
            FillCorporationCells(df1, df1b);
          }
        }
        FillClientCells(df2, df2b);
        Some((r1.value, r2.value, df3))
  }
}
