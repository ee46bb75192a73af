/** The COVID-19 rows of app.py after column resolution, the period filter
    (`covid_periodo`, app.py:405-408) and the per-state summary
    (`resumo_estados`, app.py:418-423). */
module Epidemiology {
  import opened Wrappers
  import opened Text

  /** One row: the calendar year of its `data` (None when the date did not
      parse), its `estado`, and its `casos` and `mortes` (None when missing
      or not numeric). Counts are cumulative totals to date. */
  datatype EpiRow = EpiRow(year: Option<int>, state: Option<string>, cases: Option<int>, deaths: Option<int>)

  /** One line of `resumo_estados`: a state and the maxima of its counts. */
  datatype StateTotals = StateTotals(state: string, cases: Option<int>, deaths: Option<int>)

  datatype Metric = Cases | Deaths

  function Measure(r: EpiRow, m: Metric): Option<int> {
    match m
    case Cases => r.cases
    case Deaths => r.deaths
  }

  /** `data.dt.year` lies in `[from, to]`; a missing date compares false. */
  predicate InPeriod(r: EpiRow, from: int, to: int) {
    r.year.Some? && from <= r.year.value <= to
  }

  /** `covid_periodo`: the rows dated within `[from, to]`, in their order. */
  function PeriodRows(rows: seq<EpiRow>, from: int, to: int): (r: seq<EpiRow>)
    ensures |r| <= |rows|
    ensures forall x :: x in r <==> x in rows && InPeriod(x, from, to)
    ensures forall x :: multiset(r)[x] == if InPeriod(x, from, to) then multiset(rows)[x] else 0
  {
    if rows == [] then []
    else
      var n := |rows| - 1;
      assert rows == rows[..n] + [rows[n]];
      var p := PeriodRows(rows[..n], from, to);
      if InPeriod(rows[n], from, to) then p + [rows[n]] else p
  }

  /** Filtering consecutive runs of rows filters each run, in place: the
      kept rows keep their relative order. */
  lemma {:induction false} PeriodRowsAppend(a: seq<EpiRow>, b: seq<EpiRow>, from: int, to: int)
    ensures PeriodRows(a + b, from, to) == PeriodRows(a, from, to) + PeriodRows(b, from, to)
    decreases |b|
  {
    if b == [] {
      assert a + b == a;
    } else {
      var k := |b| - 1;
      PeriodRowsAppend(a, b[..k], from, to);
      InitOfConcat(a, b);
      ConcatAssoc(PeriodRows(a, from, to), PeriodRows(b[..k], from, to), [b[k]]);
    }
  }

  /** A single row is kept exactly when it is dated within the period. */
  lemma PeriodRowsOne(x: EpiRow, from: int, to: int)
    ensures PeriodRows([x], from, to) == if InPeriod(x, from, to) then [x] else []
  {
    assert [x][..0] == [];
  }

  /** pandas' NaN-skipping maximum of two optional values. */
  function MaxKnown(a: Option<int>, b: Option<int>): (r: Option<int>)
    ensures r.None? <==> a.None? && b.None?
    ensures r.Some? ==> r == a || r == b
    ensures a.Some? ==> r.Some? && a.value <= r.value
    ensures b.Some? ==> r.Some? && b.value <= r.value
  {
    if a.None? then b
    else if b.None? then a
    else if a.value >= b.value then a else b
  }

  /** `groupby("estado")[metric].max()` for one state: NaN when the state has
      no known value. */
  function StateMax(rows: seq<EpiRow>, s: string, m: Metric): (r: Option<int>)
    ensures r.None? <==> forall x :: x in rows && x.state == Some(s) ==> Measure(x, m).None?
    ensures r.Some? ==> exists x :: x in rows && x.state == Some(s) && Measure(x, m) == r
    ensures forall x :: x in rows && x.state == Some(s) && Measure(x, m).Some? ==> Measure(x, m).value <= r.value
  {
    if rows == [] then None
    else
      var n := |rows| - 1;
      assert rows == rows[..n] + [rows[n]];
      var p := StateMax(rows[..n], s, m);
      if rows[n].state == Some(s) then MaxKnown(p, Measure(rows[n], m)) else p
  }

  /** The groups of `groupby("estado")`: each known state once (rows without a
      state are dropped). */
  function States(rows: seq<EpiRow>): (r: seq<string>)
    ensures Distinct(r)
    ensures forall s :: s in r <==> exists x :: x in rows && x.state == Some(s)
  {
    if rows == [] then []
    else
      var n := |rows| - 1;
      assert rows == rows[..n] + [rows[n]];
      var p := States(rows[..n]);
      if rows[n].state.Some? && rows[n].state.value !in p then p + [rows[n].state.value] else p
  }

  /** `a` may come before `b` in `sort_values("casos", ascending=False)`:
      larger first, NaN last. */
  predicate CasesAtLeast(a: Option<int>, b: Option<int>) {
    b.None? || (a.Some? && a.value >= b.value)
  }

  predicate SortedByCases(xs: seq<StateTotals>) {
    forall i, j :: 0 <= i < j < |xs| ==> CasesAtLeast(xs[i].cases, xs[j].cases)
  }

  function InsertByCases(x: StateTotals, xs: seq<StateTotals>): (r: seq<StateTotals>)
    requires SortedByCases(xs)
    ensures SortedByCases(r)
    ensures multiset(r) == multiset(xs) + multiset{x}
  {
    if xs == [] then [x]
    else if CasesAtLeast(x.cases, xs[0].cases) then [x] + xs
    else
      var rest := InsertByCases(x, xs[1..]);
      assert xs == [xs[0]] + xs[1..];
      assert forall k :: 0 <= k < |rest| ==> CasesAtLeast(xs[0].cases, rest[k].cases) by {
        forall k | 0 <= k < |rest| ensures CasesAtLeast(xs[0].cases, rest[k].cases) {
          assert rest[k] in multiset(rest);
          if rest[k] != x {
            assert rest[k] in multiset(xs[1..]);
            var m :| 0 <= m < |xs[1..]| && xs[1..][m] == rest[k];
            assert xs[m + 1] == rest[k];
          }
        }
      }
      [xs[0]] + rest
  }

  function SortByCases(xs: seq<StateTotals>): (r: seq<StateTotals>)
    ensures SortedByCases(r)
    ensures multiset(r) == multiset(xs)
  {
    if xs == [] then []
    else
      assert xs == [xs[0]] + xs[1..];
      InsertByCases(xs[0], SortByCases(xs[1..]))
  }

  /** `resumo_estados` for the rows of the period: per state the maximum of
      `casos` and of `mortes`, sorted by `casos`, largest first. */
  function Summary(periodRows: seq<EpiRow>): (r: seq<StateTotals>)
    ensures SortedByCases(r)
    ensures multiset(r) == multiset(Totals(periodRows))
    ensures |r| == |States(periodRows)|
  {
    SortByCases(Totals(periodRows))
  }

  /** The summary lines before sorting, one per state in order of first
      appearance. */
  function Totals(periodRows: seq<EpiRow>): (r: seq<StateTotals>)
    ensures |r| == |States(periodRows)|
    ensures forall i :: 0 <= i < |r| ==> r[i].state == States(periodRows)[i]
  {
    var states := States(periodRows);
    seq(|states|, i requires 0 <= i < |states| =>
      StateTotals(states[i], StateMax(periodRows, states[i], Cases), StateMax(periodRows, states[i], Deaths)))
  }

  /** Every line of the summary of a period is the maximum, not the sum, of
      its state's cumulative counts over the rows dated in that period; and
      the lines are sorted by cases, largest first, unknown last. */
  lemma SummaryIsWindowMax(rows: seq<EpiRow>, from: int, to: int)
    ensures var summary := Summary(PeriodRows(rows, from, to));
      && SortedByCases(summary)
      && (forall e, x :: e in summary && x in rows && InPeriod(x, from, to) && x.state == Some(e.state) ==>
            && (x.cases.Some? ==> e.cases.Some? && x.cases.value <= e.cases.value)
            && (x.deaths.Some? ==> e.deaths.Some? && x.deaths.value <= e.deaths.value))
      && (forall e :: e in summary && e.cases.Some? ==>
            exists x :: x in rows && InPeriod(x, from, to) && x.state == Some(e.state) && x.cases == e.cases)
      && (forall e :: e in summary && e.deaths.Some? ==>
            exists x :: x in rows && InPeriod(x, from, to) && x.state == Some(e.state) && x.deaths == e.deaths)
  {
    var period := PeriodRows(rows, from, to);
    var totals := Totals(period);
    var summary := Summary(period);
    assert multiset(summary) == multiset(totals);
    forall e | e in summary
      ensures e.cases == StateMax(period, e.state, Cases) && e.deaths == StateMax(period, e.state, Deaths)
    {
      assert e in multiset(totals);
      var i :| 0 <= i < |totals| && totals[i] == e;
    }
    forall e, x | e in summary && x in rows && InPeriod(x, from, to) && x.state == Some(e.state)
      ensures x.cases.Some? ==> e.cases.Some? && x.cases.value <= e.cases.value
      ensures x.deaths.Some? ==> e.deaths.Some? && x.deaths.value <= e.deaths.value
    {
      assert x in period;
      assert Measure(x, Cases) == x.cases && Measure(x, Deaths) == x.deaths;
    }
    forall e | e in summary && e.cases.Some?
      ensures exists x :: x in rows && InPeriod(x, from, to) && x.state == Some(e.state) && x.cases == e.cases
    {
      var x :| x in period && x.state == Some(e.state) && Measure(x, Cases) == e.cases;
    }
    forall e | e in summary && e.deaths.Some?
      ensures exists x :: x in rows && InPeriod(x, from, to) && x.state == Some(e.state) && x.deaths == e.deaths
    {
      var x :| x in period && x.state == Some(e.state) && Measure(x, Deaths) == e.deaths;
    }
  }

  /** The summary has exactly one line per state that has a row in the
      period. */
  lemma SummaryStatesOnce(periodRows: seq<EpiRow>)
    ensures forall s :: Listed(Summary(periodRows), s) <==> Reported(periodRows, s)
    ensures StatesDistinct(Summary(periodRows))
  {
    var totals := Totals(periodRows);
    var summary := Summary(periodRows);
    forall s ensures Listed(summary, s) <==> Reported(periodRows, s) {
      PermutationKeepsListed(totals, summary, s);
      TotalsListed(periodRows, s);
    }
    PermutationKeepsStatesDistinct(totals, summary);
  }

  /** `s` has a line among `xs`. */
  predicate Listed(xs: seq<StateTotals>, s: string) {
    exists e :: e in xs && e.state == s
  }

  /** `s` has a row among `rows`. */
  predicate Reported(rows: seq<EpiRow>, s: string) {
    exists x :: x in rows && x.state == Some(s)
  }

  /** Before sorting there is a line for `s` exactly when `s` has a row. */
  lemma TotalsListed(periodRows: seq<EpiRow>, s: string)
    ensures Listed(Totals(periodRows), s) <==> Reported(periodRows, s)
  {
    var states := States(periodRows);
    var totals := Totals(periodRows);
    if Reported(periodRows, s) {
      var i :| 0 <= i < |states| && states[i] == s;
      assert totals[i] in totals;
    }
    if Listed(totals, s) {
      var e :| e in totals && e.state == s;
      var i :| 0 <= i < |totals| && totals[i] == e;
    }
  }

  /** Reordering keeps the set of states that have a line. */
  lemma PermutationKeepsListed(a: seq<StateTotals>, b: seq<StateTotals>, s: string)
    requires multiset(a) == multiset(b)
    ensures Listed(a, s) <==> Listed(b, s)
  {
    if Listed(a, s) {
      var e :| e in a && e.state == s;
      assert e in multiset(b);
    }
    if Listed(b, s) {
      var e :| e in b && e.state == s;
      assert e in multiset(a);
    }
  }

  predicate StatesDistinct(xs: seq<StateTotals>) {
    forall i, j :: 0 <= i < j < |xs| ==> xs[i].state != xs[j].state
  }

  lemma PermutationKeepsStatesDistinct(a: seq<StateTotals>, b: seq<StateTotals>)
    requires StatesDistinct(a) && multiset(a) == multiset(b)
    ensures StatesDistinct(b)
  {
    forall i, j | 0 <= i < j < |b| ensures b[i].state != b[j].state {
      if b[i].state == b[j].state {
        assert b[i] in multiset(a) && b[j] in multiset(a);
        var p :| 0 <= p < |a| && a[p] == b[i];
        var q :| 0 <= q < |a| && a[q] == b[j];
        assert p == q;
        assert multiset(b)[b[i]] >= 2 by {
          assert b == b[..j] + [b[j]] + b[j + 1..];
          assert b[i] in b[..j];
        }
        MultiplicityOfDistinct(a, p);
      }
    }
  }

  lemma {:induction false} MultiplicityOfDistinct(xs: seq<StateTotals>, a: nat)
    requires a < |xs| && StatesDistinct(xs)
    ensures multiset(xs)[xs[a]] == 1
  {
    var n := |xs| - 1;
    assert xs == xs[..n] + [xs[n]];
    if a == n {
      assert xs[n] !in xs[..n];
    } else {
      MultiplicityOfDistinct(xs[..n], a);
      assert xs[..n][a] == xs[a];
    }
  }

  /** Two observations of one cumulative counter: the summary reports the
      larger, 250, and not their sum. */
  lemma MaxNotSumExample()
    ensures Summary([EpiRow(Some(2021), Some("CA"), Some(100), Some(1)), EpiRow(Some(2021), Some("CA"), Some(250), Some(3))])
         == [StateTotals("CA", Some(250), Some(3))]
  {
    var rows := [EpiRow(Some(2021), Some("CA"), Some(100), Some(1)), EpiRow(Some(2021), Some("CA"), Some(250), Some(3))];
    assert rows[..1] == [rows[0]];
    assert States(rows) == ["CA"];
    assert StateMax(rows, "CA", Cases) == Some(250);
    assert StateMax(rows, "CA", Deaths) == Some(3);
    var states := States(rows);
    var totals := seq(|states|, i requires 0 <= i < |states| =>
      StateTotals(states[i], StateMax(rows, states[i], Cases), StateMax(rows, states[i], Deaths)));
    assert totals == [StateTotals("CA", Some(250), Some(3))];
    assert SortByCases(totals) == totals;
  }
}
