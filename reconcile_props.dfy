/** What the reconciliation guarantees, stated against the joined table it
    starts from: the row count, the expected year columns, the removal of
    every shadow, and the rule each column class follows. */
module ReconcileProperties {

  import opened Text
  import opened Tables
  import opened Reconcile

  /** Column `c` is present in `a` exactly when in `b`, with the same cells. */
  predicate SameColumn(a: Table, b: Table, c: string)
    requires WellFormed(a) && WellFormed(b)
  {
    && |a.rows| == |b.rows|
    && (c in a.columns <==> c in b.columns)
    && (c in a.columns ==> forall i :: 0 <= i < |a.rows| ==> a.rows[i][c] == b.rows[i][c])
  }

  lemma SameColumnTrans(a: Table, b: Table, d: Table, c: string)
    requires WellFormed(a) && WellFormed(b) && WellFormed(d)
    requires SameColumn(a, b, c) && SameColumn(b, d, c)
    ensures SameColumn(a, d, c)
  {
  }

  /** Dropping other columns keeps a column as it is. */
  lemma DropAllFrame(t: Table, ps: seq<string>, c: string)
    requires WellFormed(t) && c !in ps
    ensures SameColumn(t, DropAll(t, ps), c)
  {
    var r := DropAll(t, ps);
    assert c !in Names(ps);
    assert c in t.columns <==> c in Names(t.columns);
    assert c in r.columns <==> c in Names(r.columns);
  }

  /** Year labels as the scripts build them: `str` of a non-negative year. */
  predicate YearLabels(years: seq<string>) {
    forall y :: y in years ==> AllDigits(y)
  }

  // ----- facts about column names -----

  /** A metric column and its shadow both start with their year. */
  lemma MetricMentionsYear(y: string, s: Suffix)
    ensures Contains(MetricColumn(y, s), y) && Contains(PastName(MetricColumn(y, s)), y)
  {
    var c := MetricColumn(y, s);
    assert c[..|y|] == y;
    assert PastName(c)[..|y|] == y;
  }

  /** No metric column ends with the shadow marker: every suffix ends in a
      character other than 't'. */
  lemma MetricNotShadow(y: string, s: Suffix)
    ensures !EndsWith(MetricColumn(y, s), PastMarker)
  {
    var c := MetricColumn(y, s);
    var n := SuffixName(s);
    assert c[|c| - 1] == n[|n| - 1] != PastMarker[4];
    assert |c| >= |PastMarker| ==> c[|c| - |PastMarker|..][4] == c[|c| - 1];
  }

  /** With digit-only year labels a metric column names exactly one
      `(year, suffix)` combination. */
  lemma MetricInjective(y1: string, s1: Suffix, y2: string, s2: Suffix)
    requires AllDigits(y1) && AllDigits(y2)
    requires MetricColumn(y1, s1) == MetricColumn(y2, s2)
    ensures y1 == y2 && s1 == s2
  {
    var n1, n2 := SuffixName(s1), SuffixName(s2);
    assert !IsDigit(n1[0]) && !IsDigit(n2[0]);
    DigitPrefixUnique(y1, n1, y2, n2);
  }

  /** A shadow's name with the marker cut off the end. */
  function Stem(p: string): string
    requires EndsWith(p, PastMarker)
  {
    p[..|p| - |PastMarker|]
  }

  /** Every column that holds the marker is a marker-free name plus the
      marker: the shape the suffixing steps produce. */
  predicate ShadowsWellNamed(cols: seq<string>) {
    forall c :: c in cols && Contains(c, PastMarker) ==>
      EndsWith(c, PastMarker) && !Contains(Stem(c), PastMarker)
  }

  /** For such a name, the scripts' `replace('_past', '')` is the stem. */
  lemma BaseNameIsStem(p: string)
    requires EndsWith(p, PastMarker) && !Contains(Stem(p), PastMarker)
    ensures BaseName(p) == Stem(p)
    ensures Stem(p) + PastMarker == p
  {
    assert Stem(p) + PastMarker == p;
    RemoveMarkerFromSuffixed(Stem(p));
  }

  // ----- step 1 -----

  /** The identity loop writes only marker-free base names of no year. */
  lemma {:induction false} IdFoldFrame(t: Table, ps: seq<string>, years: seq<string>, c: string)
    requires WellFormed(t) && Names(ps) <= Names(t.columns)
    requires MentionsYear(c, years) || forall q :: q in ps ==> BaseName(q) != c
    ensures SameColumn(t, IdFold(t, ps, years), c)
    decreases |ps|
  {
    if |ps| > 0 {
      var n := |ps|;
      assert Names(ps[..n - 1]) <= Names(ps) && ps[n - 1] in Names(ps);
      assert forall q :: q in ps[..n - 1] ==> q in ps;
      IdFoldFrame(t, ps[..n - 1], years, c);
    }
  }

  /** The value an identity column takes from shadow `p`: the base cell when
      it is present and non-null, otherwise the shadow's cell. */
  function IdentityValue(t: Table, p: string, i: nat): Value
    requires WellFormed(t) && p in t.columns && EndsWith(p, PastMarker) && i < |t.rows|
  {
    var b := Stem(p);
    if b in t.columns && t.rows[i][b] != Null then t.rows[i][b] else t.rows[i][p]
  }

  /** One identity step writes only the base name of its shadow. */
  lemma IdStepFrame(t: Table, q: string, years: seq<string>, c: string)
    requires WellFormed(t) && q in t.columns && BaseName(q) != c
    ensures SameColumn(t, IdStep(t, q, years), c)
  {
  }

  /** One identity step on shadow `p` fills its base column. */
  lemma IdStepFill(t: Table, p: string, years: seq<string>)
    requires WellFormed(t) && p in t.columns && EndsWith(p, PastMarker)
    requires BaseName(p) == Stem(p) != p && !MentionsYear(Stem(p), years)
    ensures var r := IdStep(t, p, years);
      && Stem(p) in r.columns
      && forall i :: 0 <= i < |r.rows| ==> r.rows[i][Stem(p)] == IdentityValue(t, p, i)
  {
  }

  lemma {:induction false} IdFoldIdentity(t: Table, ps: seq<string>, years: seq<string>, p: string)
    requires WellFormed(t) && Names(ps) <= Names(t.columns) && Distinct(ps)
    requires forall q :: q in ps ==> EndsWith(q, PastMarker) && !Contains(Stem(q), PastMarker)
    requires p in t.columns && EndsWith(p, PastMarker) && !Contains(Stem(p), PastMarker)
    requires !MentionsYear(Stem(p), years)
    ensures var r := IdFold(t, ps, years);
      && SameColumn(t, r, p)
      && (p !in ps ==> SameColumn(t, r, Stem(p)))
      && (p in ps ==>
            && Stem(p) in r.columns
            && forall i :: 0 <= i < |r.rows| ==> r.rows[i][Stem(p)] == IdentityValue(t, p, i))
    decreases |ps|
  {
    if |ps| > 0 {
      var n := |ps|;
      var q := ps[n - 1];
      var b := Stem(p);
      assert Names(ps[..n - 1]) <= Names(ps) && q in Names(ps);
      DistinctInit(ps);
      var prev := IdFold(t, ps[..n - 1], years);
      assert IdFold(t, ps, years) == IdStep(prev, q, years);
      IdFoldIdentity(t, ps[..n - 1], years, p);
      BaseNameIsStem(q);
      BaseNameIsStem(p);
      EndsWithContains(p, PastMarker);
      assert BaseName(q) != p;
      IdStepFrame(prev, q, years, p);
      if q == p {
        IdStepFill(prev, p, years);
        assert forall i :: 0 <= i < |prev.rows| ==> IdentityValue(prev, p, i) == IdentityValue(t, p, i);
      } else {
        assert BaseName(q) != b;
        IdStepFrame(prev, q, years, b);
      }
    }
  }

  // ----- step 2 -----

  /** One combination writes only its own column. */
  lemma YearStepFrame(t: Table, task: Task, current: string, policy: Policy, c: string)
    requires WellFormed(t) && TaskColumn(task) != c
    ensures SameColumn(t, YearStep(t, task, current, policy), c)
  {
  }

  /** A current-year combination keeps its column or creates it null. */
  lemma YearStepCurrent(t: Table, task: Task, current: string, policy: Policy)
    requires WellFormed(t) && task.0 == current
    ensures var c := TaskColumn(task); var r := YearStep(t, task, current, policy);
      && (c in t.columns ==> SameColumn(t, r, c))
      && (c !in t.columns ==> c in r.columns && forall i :: 0 <= i < |r.rows| ==> r.rows[i][c] == Null)
  {
  }

  /** No combination of `tasks` writes column `c`. */
  predicate NoTaskWrites(tasks: seq<Task>, c: string) {
    forall k :: 0 <= k < |tasks| ==> TaskColumn(tasks[k]) != c
  }

  /** The year loop writes only the columns of its combinations. */
  lemma {:induction false} TaskFoldFrame(t: Table, tasks: seq<Task>, current: string, policy: Policy, c: string)
    requires WellFormed(t) && NoTaskWrites(tasks, c)
    ensures SameColumn(t, TaskFold(t, tasks, current, policy), c)
    decreases |tasks|
  {
    if |tasks| > 0 {
      var prev := TaskFold(t, tasks[..|tasks| - 1], current, policy);
      assert TaskFold(t, tasks, current, policy) == YearStep(prev, tasks[|tasks| - 1], current, policy);
      TaskFoldFrame(t, tasks[..|tasks| - 1], current, policy, c);
      YearStepFrame(prev, tasks[|tasks| - 1], current, policy, c);
    }
  }

  lemma {:induction false} TaskFoldCurrent(t: Table, tasks: seq<Task>, current: string, policy: Policy, s: Suffix)
    requires WellFormed(t) && AllDigits(current)
    requires forall k :: 0 <= k < |tasks| ==> AllDigits(tasks[k].0)
    ensures var c := MetricColumn(current, s); var r := TaskFold(t, tasks, current, policy);
      && (c in t.columns ==> SameColumn(t, r, c))
      && (c !in t.columns && c in r.columns ==> forall i :: 0 <= i < |r.rows| ==> r.rows[i][c] == Null)
    decreases |tasks|
  {
    if |tasks| > 0 {
      var n := |tasks|;
      var u := tasks[n - 1];
      var prev := TaskFold(t, tasks[..n - 1], current, policy);
      assert TaskFold(t, tasks, current, policy) == YearStep(prev, u, current, policy);
      TaskFoldCurrent(t, tasks[..n - 1], current, policy, s);
      if TaskColumn(u) == MetricColumn(current, s) {
        MetricInjective(u.0, u.1, current, s);
        YearStepCurrent(prev, u, current, policy);
      } else {
        YearStepFrame(prev, u, current, policy, MetricColumn(current, s));
      }
    }
  }

  /** The value a prior-year metric column takes: the shadow's cell when
      the policy lets it overwrite or the column is missing, the first
      non-null of column and shadow under protection, the column's own cell
      without a shadow, null without either. */
  function PriorValue(t: Table, c: string, p: string, policy: Policy, i: nat): Value
    requires WellFormed(t) && i < |t.rows|
  {
    if p in t.columns then
      if policy == Authoritative || c !in t.columns then t.rows[i][p]
      else if t.rows[i][c] == Null then t.rows[i][p]
      else t.rows[i][c]
    else if c in t.columns then t.rows[i][c]
    else Null
  }

  /** The prior-year rule reads only the column and its shadow. */
  lemma PriorValueFrame(a: Table, b: Table, c: string, p: string, policy: Policy, i: nat)
    requires WellFormed(a) && WellFormed(b) && i < |a.rows|
    requires SameColumn(a, b, c) && SameColumn(a, b, p)
    ensures PriorValue(a, c, p, policy, i) == PriorValue(b, c, p, policy, i)
  {
  }

  /** A prior-year combination sets its column by the policy and leaves the
      shadow alone. */
  lemma YearStepPrior(t: Table, task: Task, current: string, policy: Policy)
    requires WellFormed(t) && task.0 != current
    ensures var c := TaskColumn(task); var p := PastName(c); var r := YearStep(t, task, current, policy);
      && SameColumn(t, r, p)
      && c in r.columns
      && forall i :: 0 <= i < |r.rows| ==> r.rows[i][c] == PriorValue(t, c, p, policy, i)
  {
    var c := TaskColumn(task);
    assert c != PastName(c) by {
      assert |PastName(c)| == |c| + |PastMarker|;
    }
  }

  /** What a fold says about one past combination's column and its past twin. */
  predicate PriorFacts(t: Table, r: Table, done: bool, policy: Policy, y: string, s: Suffix)
    requires WellFormed(t) && WellFormed(r)
  {
    var c := MetricColumn(y, s); var p := PastName(c);
    && SameColumn(t, r, p)
    && (!done ==> SameColumn(t, r, c))
    && (done ==> c in r.columns && forall i :: 0 <= i < |r.rows| ==> r.rows[i][c] == PriorValue(t, c, p, policy, i))
  }

  lemma {:induction false} TaskFoldPrior(t: Table, tasks: seq<Task>, current: string, policy: Policy, y: string, s: Suffix)
    requires WellFormed(t) && AllDigits(y) && y != current && Distinct(tasks)
    requires forall k :: 0 <= k < |tasks| ==> AllDigits(tasks[k].0)
    ensures var c := MetricColumn(y, s); var p := PastName(c); var r := TaskFold(t, tasks, current, policy);
      && SameColumn(t, r, p)
      && ((y, s) !in tasks ==> SameColumn(t, r, c))
      && ((y, s) in tasks ==>
            && c in r.columns
            && forall i :: 0 <= i < |r.rows| ==> r.rows[i][c] == PriorValue(t, c, p, policy, i))
    decreases |tasks|
  {
    var r := TaskFold(t, tasks, current, policy);
    if |tasks| > 0 {
      var n := |tasks|;
      var u := tasks[n - 1];
      DistinctInit(tasks);
      var prev := TaskFold(t, tasks[..n - 1], current, policy);
      assert r == YearStep(prev, u, current, policy);
      TaskFoldPrior(t, tasks[..n - 1], current, policy, y, s);
      assert PriorFacts(t, prev, (y, s) in tasks[..n - 1], policy, y, s);
      assert AllDigits(u.0) && (u == (y, s) ==> (y, s) !in tasks[..n - 1]);
      YearStepPriorFacts(t, prev, u, (y, s) in tasks[..n - 1], current, policy, y, s);
      assert PriorFacts(t, r, (y, s) in tasks, policy, y, s);
    }
  }

  /** One more combination keeps the facts, marking `(y, s)` done when it is the one. */
  lemma YearStepPriorFacts(t: Table, prev: Table, u: Task, done: bool, current: string, policy: Policy, y: string, s: Suffix)
    requires WellFormed(t) && WellFormed(prev) && AllDigits(y) && y != current && AllDigits(u.0)
    requires PriorFacts(t, prev, done, policy, y, s)
    requires u == (y, s) ==> !done
    ensures PriorFacts(t, YearStep(prev, u, current, policy), done || u == (y, s), policy, y, s)
  {
    var c := MetricColumn(y, s);
    var p := PastName(c);
    var r := YearStep(prev, u, current, policy);
    MetricNotShadow(u.0, u.1);
    assert EndsWith(p, PastMarker) by {
      assert p[|p| - |PastMarker|..] == PastMarker;
    }
    YearStepFrame(prev, u, current, policy, p);
    SameColumnTrans(t, prev, r, p);
    if TaskColumn(u) == c {
      MetricInjective(u.0, u.1, y, s);
      YearStepPrior(prev, u, current, policy);
      PriorValueSame(t, prev, c, p, policy);
    } else {
      YearStepFrame(prev, u, current, policy, c);
      if !done {
        SameColumnTrans(t, prev, r, c);
      }
    }
  }

  /** Prior values read only the current and the past column. */
  lemma PriorValueSame(t: Table, u: Table, c: string, p: string, policy: Policy)
    requires WellFormed(t) && WellFormed(u) && SameColumn(t, u, c) && SameColumn(t, u, p)
    ensures forall i :: 0 <= i < |t.rows| ==> PriorValue(u, c, p, policy, i) == PriorValue(t, c, p, policy, i)
  {
  }

  /** Every combination's year is a label of the list. */
  lemma TaskYears(years: seq<string>, current: string)
    requires YearLabels(years)
    ensures var tasks := YearTasks(years, current);
      forall k :: 0 <= k < |tasks| ==> tasks[k].0 in years && AllDigits(tasks[k].0)
  {
    var tasks := YearTasks(years, current);
    forall k | 0 <= k < |tasks| ensures tasks[k].0 in years {
      assert tasks[k] in tasks;
    }
  }

  // ----- the whole reconciliation -----

  /** Every shadow column of the joined table is gone afterwards. */
  lemma FixRemovesShadows(t: Table, years: seq<string>, current: string, policy: Policy)
    requires WellFormed(t)
    ensures forall p :: p in t.columns && EndsWith(p, PastMarker) ==>
      p !in FixSpec(t, years, current, policy).columns
  {
    var ps := PastColumns(t.columns);
    assert forall p :: p in t.columns && EndsWith(p, PastMarker) ==> p in Names(ps);
  }

  /** A column that is not a shadow and that no step writes is passed
      through unchanged. */
  lemma FixKeepsOthers(t: Table, years: seq<string>, current: string, policy: Policy, c: string)
    requires WellFormed(t) && !EndsWith(c, PastMarker)
    requires forall q :: q in t.columns && EndsWith(q, PastMarker) ==> BaseName(q) != c
    requires forall y, s :: y in years ==> MetricColumn(y, s) != c
    ensures SameColumn(t, FixSpec(t, years, current, policy), c)
  {
    var ps := PastColumns(t.columns);
    var t1 := IdFold(t, ps, years);
    var tasks := YearTasks(years, current);
    IdFoldFrame(t, ps, years, c);
    forall k | 0 <= k < |tasks| ensures TaskColumn(tasks[k]) != c {
      assert tasks[k] in tasks;
    }
    TaskFoldFrame(t1, tasks, current, policy, c);
    var t2 := TaskFold(t1, tasks, current, policy);
    assert FixSpec(t, years, current, policy) == DropAll(t2, ps);
    DropAllFrame(t2, ps, c);
    SameColumnTrans(t, t1, t2, c);
    SameColumnTrans(t, t2, DropAll(t2, ps), c);
  }

  /** The year loop leaves every combination's column in place. */
  lemma TaskFoldHas(t: Table, tasks: seq<Task>, current: string, policy: Policy, k: nat)
    requires WellFormed(t) && k < |tasks|
    ensures TaskColumn(tasks[k]) in TaskFold(t, tasks, current, policy).columns
  {
    var r := TaskFold(t, tasks, current, policy);
    assert TaskColumns(tasks)[k] == TaskColumn(tasks[k]);
    assert TaskColumn(tasks[k]) in Names(r.columns);
  }

  /** After reconciliation every year of the list has all of its metric
      columns: four for the current year, three for the others. */
  lemma FixHasExpectedColumns(t: Table, years: seq<string>, current: string, policy: Policy, y: string, s: Suffix)
    requires WellFormed(t) && y in years && s in SuffixesFor(y, current)
    ensures MetricColumn(y, s) in FixSpec(t, years, current, policy).columns
  {
    var c := MetricColumn(y, s);
    var ps := PastColumns(t.columns);
    var t1 := IdFold(t, ps, years);
    var tasks := YearTasks(years, current);
    var t2 := TaskFold(t1, tasks, current, policy);
    assert FixSpec(t, years, current, policy) == DropAll(t2, ps);
    TaskFoldHas(t1, tasks, current, policy, IndexOf(tasks, (y, s)));
    MetricNotShadow(y, s);
    DropAllFrame(t2, ps, c);
  }

  /** The whole year loop on a current-year column. */
  lemma YearLoopCurrent(t: Table, years: seq<string>, current: string, policy: Policy, s: Suffix, i: nat)
    requires WellFormed(t) && YearLabels(years) && current in years && i < |t.rows|
    ensures var c := MetricColumn(current, s); var r := TaskFold(t, YearTasks(years, current), current, policy);
      c in r.columns && r.rows[i][c] == (if c in t.columns then t.rows[i][c] else Null)
  {
    var tasks := YearTasks(years, current);
    TaskYears(years, current);
    TaskFoldCurrent(t, tasks, current, policy, s);
    assert (current, s) in tasks;
    TaskFoldHas(t, tasks, current, policy, IndexOf(tasks, (current, s)));
  }

  /** The whole year loop on a prior-year column. */
  lemma YearLoopPrior(t: Table, years: seq<string>, current: string, policy: Policy, y: string, s: Suffix, i: nat)
    requires WellFormed(t) && YearLabels(years) && Distinct(years)
    requires y in years && y != current && s != Quantity && i < |t.rows|
    ensures var c := MetricColumn(y, s); var r := TaskFold(t, YearTasks(years, current), current, policy);
      c in r.columns && r.rows[i][c] == PriorValue(t, c, PastName(c), policy, i)
  {
    var tasks := YearTasks(years, current);
    YearTasksDistinct(years, current);
    TaskYears(years, current);
    assert (y, s) in tasks;
    TaskFoldPrior(t, tasks, current, policy, y, s);
  }

  /** The current year's metric columns are never taken from a shadow: a
      column the joined table has keeps every cell, a missing one is all
      null. The policy plays no part. */
  lemma FixCurrentYear(t: Table, years: seq<string>, current: string, policy: Policy, s: Suffix, i: nat)
    requires WellFormed(t) && YearLabels(years) && current in years && i < |t.rows|
    ensures var c := MetricColumn(current, s); var r := FixSpec(t, years, current, policy);
      c in r.columns && r.rows[i][c] == (if c in t.columns then t.rows[i][c] else Null)
  {
    var c := MetricColumn(current, s);
    var ps := PastColumns(t.columns);
    var t1 := IdFold(t, ps, years);
    var tasks := YearTasks(years, current);
    var t2 := TaskFold(t1, tasks, current, policy);
    assert FixSpec(t, years, current, policy) == DropAll(t2, ps);
    assert SameColumn(t, t1, c) by {
      MetricMentionsYear(current, s);
      assert current in years && Contains(c, current);
      IdFoldFrame(t, ps, years, c);
    }
    YearLoopCurrent(t1, years, current, policy, s, i);
    MetricNotShadow(current, s);
    DropAllFrame(t2, ps, c);
  }

  /** A prior year's area, revenue and margin columns follow the policy:
      with a shadow, Protective fills only the nulls and Authoritative
      takes the shadow; without one the column is kept or created null. */
  lemma FixPriorYear(t: Table, years: seq<string>, current: string, policy: Policy, y: string, s: Suffix, i: nat)
    requires WellFormed(t) && YearLabels(years) && Distinct(years)
    requires y in years && y != current && s != Quantity && i < |t.rows|
    ensures var c := MetricColumn(y, s); var r := FixSpec(t, years, current, policy);
      c in r.columns && r.rows[i][c] == PriorValue(t, c, PastName(c), policy, i)
  {
    var c := MetricColumn(y, s);
    var p := PastName(c);
    var ps := PastColumns(t.columns);
    var t1 := IdFold(t, ps, years);
    var tasks := YearTasks(years, current);
    var t2 := TaskFold(t1, tasks, current, policy);
    assert FixSpec(t, years, current, policy) == DropAll(t2, ps);
    assert SameColumn(t, t1, c) && SameColumn(t, t1, p) by {
      MetricMentionsYear(y, s);
      assert y in years && Contains(c, y) && Contains(p, y);
      IdFoldFrame(t, ps, years, c);
      IdFoldFrame(t, ps, years, p);
    }
    YearLoopPrior(t1, years, current, policy, y, s, i);
    PriorValueFrame(t, t1, c, p, policy, i);
    MetricNotShadow(y, s);
    DropAllFrame(t2, ps, c);
  }

  /** No combination of the year loop writes a prior year's quantity. */
  lemma NoPriorQuantityTask(years: seq<string>, current: string, y: string)
    requires YearLabels(years) && AllDigits(y) && y != current
    ensures NoTaskWrites(YearTasks(years, current), MetricColumn(y, Quantity))
  {
    var tasks := YearTasks(years, current);
    TaskYears(years, current);
    forall k | 0 <= k < |tasks| ensures TaskColumn(tasks[k]) != MetricColumn(y, Quantity) {
      if TaskColumn(tasks[k]) == MetricColumn(y, Quantity) {
        MetricInjective(tasks[k].0, tasks[k].1, y, Quantity);
      }
    }
  }

  /** A prior year's sales quantity is not reconciled: the column is passed
      through as the join left it, and its shadow is dropped. */
  lemma FixPriorQuantity(t: Table, years: seq<string>, current: string, policy: Policy, y: string)
    requires WellFormed(t) && YearLabels(years) && y in years && y != current
    ensures SameColumn(t, FixSpec(t, years, current, policy), MetricColumn(y, Quantity))
  {
    var c := MetricColumn(y, Quantity);
    var ps := PastColumns(t.columns);
    var t1 := IdFold(t, ps, years);
    var tasks := YearTasks(years, current);
    var t2 := TaskFold(t1, tasks, current, policy);
    assert FixSpec(t, years, current, policy) == DropAll(t2, ps);
    MetricMentionsYear(y, Quantity);
    assert MentionsYear(c, years) by {
      assert y in years && Contains(c, y);
    }
    IdFoldFrame(t, ps, years, c);
    assert SameColumn(t, t1, c);
    assert AllDigits(y);
    NoPriorQuantityTask(years, current, y);
    TaskFoldFrame(t1, tasks, current, policy, c);
    assert SameColumn(t1, t2, c);
    MetricNotShadow(y, Quantity);
    DropAllFrame(t2, ps, c);
    SameColumnTrans(t, t1, t2, c);
    SameColumnTrans(t, t2, DropAll(t2, ps), c);
  }

  /** An identity column (a shadow whose base name mentions no year) keeps
      its non-null cells and takes the shadow's cell where it is null or
      missing, under either policy. */
  lemma FixIdentity(t: Table, years: seq<string>, current: string, policy: Policy, p: string, i: nat)
    requires WellFormed(t) && ShadowsWellNamed(t.columns)
    requires p in t.columns && EndsWith(p, PastMarker) && i < |t.rows|
    requires !MentionsYear(Stem(p), years)
    ensures var b := Stem(p); var r := FixSpec(t, years, current, policy);
      BaseName(p) == b && b in r.columns && r.rows[i][b] == IdentityValue(t, p, i)
  {
    var b := Stem(p);
    var ps := PastColumns(t.columns);
    var t1 := IdFold(t, ps, years);
    var tasks := YearTasks(years, current);
    var t2 := TaskFold(t1, tasks, current, policy);
    assert FixSpec(t, years, current, policy) == DropAll(t2, ps);
    EndsWithContains(p, PastMarker);
    BaseNameIsStem(p);
    forall q | q in ps ensures EndsWith(q, PastMarker) && !Contains(Stem(q), PastMarker) {
      EndsWithContains(q, PastMarker);
    }
    assert Names(ps) <= Names(t.columns);
    assert p in ps;
    IdFoldIdentity(t, ps, years, p);
    forall k | 0 <= k < |tasks| ensures TaskColumn(tasks[k]) != b {
      assert tasks[k] in tasks;
      MetricMentionsYear(tasks[k].0, tasks[k].1);
    }
    TaskFoldFrame(t1, tasks, current, policy, b);
    EndsWithContains(b, PastMarker);
    DropAllFrame(t2, ps, b);
  }
}
