/** The opportunity heuristic of app.py:460-469: per-year article counts
    against per-year case sums, over the sorted union of their years, with
    the three-part threshold rule. */
module Correlator {
  import opened Wrappers
  import opened Text
  import opened Epidemiology

  /** The hardcoded thresholds of app.py:468. */
  const Lookback: int := 3
  const MinArticles: int := 5
  const MinCases: int := 100000

  /** One opportunity: a year, its article count and its case sum. */
  datatype Signal = Signal(year: int, articles: nat, cases: int)

  /** `value_counts()` of the non-NA article years, at `y`: the number of
      articles whose year is `y`, NA years counting for no year. */
  function ArticleCount(years: seq<Option<int>>, y: int): (n: nat)
    ensures n == multiset(years)[Some(y)]
    ensures n <= |years|
    ensures n == 0 <==> Some(y) !in years
  {
    if years == [] then 0
    else
      var k := |years| - 1;
      assert years == years[..k] + [years[k]];
      ArticleCount(years[..k], y) + (if years[k] == Some(y) then 1 else 0)
  }

  /** `groupby(data.dt.year)["casos"].sum()` at `y`: unknown counts add
      nothing; a year without rows sums to 0. */
  function CaseTotal(rows: seq<EpiRow>, y: int): (total: int)
    ensures (forall x :: x in rows ==> x.year != Some(y)) ==> total == 0
  {
    if rows == [] then 0
    else
      var k := |rows| - 1;
      assert rows == rows[..k] + [rows[k]];
      CaseTotal(rows[..k], y) + (if rows[k].year == Some(y) then rows[k].cases.GetOr(0) else 0)
  }

  /** Case totals add up over consecutive runs of rows. */
  lemma {:induction false} CaseTotalAppend(a: seq<EpiRow>, b: seq<EpiRow>, y: int)
    ensures CaseTotal(a + b, y) == CaseTotal(a, y) + CaseTotal(b, y)
    decreases |b|
  {
    if b == [] {
      assert a + b == a;
    } else {
      var k := |b| - 1;
      CaseTotalAppend(a, b[..k], y);
      assert (a + b)[..|a + b| - 1] == a + b[..k];
    }
  }

  /** One row adds its case count to its own year (an unknown count adding
      nothing) and nothing to any other year. */
  lemma CaseTotalOne(x: EpiRow, y: int)
    ensures CaseTotal([x], y) == if x.year == Some(y) then x.cases.GetOr(0) else 0
  {
    assert [x][..0] == [];
  }

  /** The known article years, with repetitions. */
  function KnownYears(years: seq<Option<int>>): (r: seq<int>)
    ensures forall y :: y in r <==> Some(y) in years
  {
    if years == [] then []
    else
      var k := |years| - 1;
      assert years == years[..k] + [years[k]];
      KnownYears(years[..k]) + (if years[k].Some? then [years[k].value] else [])
  }

  /** The years of the case rows, with repetitions. */
  function RowYears(rows: seq<EpiRow>): (r: seq<int>)
    ensures forall y :: y in r <==> exists x :: x in rows && x.year == Some(y)
  {
    if rows == [] then []
    else
      var k := |rows| - 1;
      assert rows == rows[..k] + [rows[k]];
      RowYears(rows[..k]) + (if rows[k].year.Some? then [rows[k].year.value] else [])
  }

  /** `artigos_por_ano`: article count per known year. */
  function ArticlesPerYear(years: seq<Option<int>>): (m: map<int, nat>)
    ensures forall y :: y in m <==> Some(y) in years
    ensures forall y :: y in m ==> m[y] == ArticleCount(years, y)
  {
    map y | y in KnownYears(years) :: ArticleCount(years, y)
  }

  /** `covid_por_ano`: case sum per year that has rows. */
  function CasesPerYear(rows: seq<EpiRow>): (m: map<int, int>)
    ensures forall y :: y in m <==> exists x :: x in rows && x.year == Some(y)
    ensures forall y :: y in m ==> m[y] == CaseTotal(rows, y)
  {
    map y | y in RowYears(rows) :: CaseTotal(rows, y)
  }

  predicate Increasing(xs: seq<int>) {
    forall i, j :: 0 <= i < j < |xs| ==> xs[i] < xs[j]
  }

  function InsertYear(xs: seq<int>, y: int): (r: seq<int>)
    requires Increasing(xs)
    ensures Increasing(r)
    ensures forall z :: z in r <==> z in xs || z == y
  {
    if xs == [] then [y]
    else if y < xs[0] then [y] + xs
    else if y == xs[0] then xs
    else
      assert forall z :: z in xs <==> z == xs[0] || z in xs[1..];
      var rest := InsertYear(xs[1..], y);
      assert forall k :: 0 <= k < |rest| ==> xs[0] < rest[k] by {
        forall k | 0 <= k < |rest| ensures xs[0] < rest[k] {
          assert rest[k] in rest;
          if rest[k] != y {
            var m :| 0 <= m < |xs[1..]| && xs[1..][m] == rest[k];
            assert xs[m + 1] == rest[k];
          }
        }
      }
      [xs[0]] + rest
  }

  /** `sorted(set(xs))`: each year once, ascending. */
  function SortedYears(xs: seq<int>): (r: seq<int>)
    ensures Increasing(r)
    ensures forall z :: z in r <==> z in xs
  {
    if xs == [] then []
    else
      var k := |xs| - 1;
      assert xs == xs[..k] + [xs[k]];
      InsertYear(SortedYears(xs[..k]), xs[k])
  }

  /** The rule of app.py:468; the case bound is strict. */
  predicate Qualifies(year: int, articles: int, cases: int, endYear: int) {
    year >= endYear - Lookback && articles >= MinArticles && cases > MinCases
  }

  /** The signals for the years `ys`, visited in order. */
  function Select(ys: seq<int>, articleYears: seq<Option<int>>, rows: seq<EpiRow>, endYear: int): (r: seq<Signal>)
    ensures |r| <= |ys|
    ensures forall i :: 0 <= i < |r| ==> Qualifies(r[i].year, r[i].articles, r[i].cases, endYear)
  {
    if ys == [] then []
    else
      var k := |ys| - 1;
      var y := ys[k];
      var articles := ArticleCount(articleYears, y);
      var cases := CaseTotal(rows, y);
      Select(ys[..k], articleYears, rows, endYear) + (if Qualifies(y, articles, cases, endYear) then [Signal(y, articles, cases)] else [])
  }

  /** The signals for the articles' years and the period's case rows: none
      when either side is empty, otherwise one per qualifying year of the
      union of their years, ascending. */
  function Opportunities(articleYears: seq<Option<int>>, periodRows: seq<EpiRow>, endYear: int): (r: seq<Signal>)
    ensures |articleYears| == 0 || |periodRows| == 0 ==> r == []
    ensures forall i :: 0 <= i < |r| ==> Qualifies(r[i].year, r[i].articles, r[i].cases, endYear)
  {
    if |articleYears| == 0 || |periodRows| == 0 then []
    else Select(SortedYears(KnownYears(articleYears) + RowYears(periodRows)), articleYears, periodRows, endYear)
  }

  /** The fixed pieces of the message of app.py:469, around the year, the
      article count and the case total. */
  const YearLead: string := "Ano "
  const ArticlesLead: string := ": alta produção acadêmica ("
  const CasesLead: string := ") com grande carga epidemiológica ("
  const CasesTail: string := " casos)."

  /** The message appended to `lacunas`: "Ano <year>", then the article
      count and the case total, each in its parentheses. */
  function SignalText(s: Signal): (r: string)
    ensures |r| > 4 + |IntText(s.year)| && r[..4 + |IntText(s.year)|] == YearLead + IntText(s.year)
    ensures r[4 + |IntText(s.year)|..] == ArticlesLead + IntText(s.articles) + CasesLead + IntText(s.cases) + CasesTail
  {
    var head := YearLead + IntText(s.year);
    var tail := ArticlesLead + IntText(s.articles) + CasesLead + IntText(s.cases) + CasesTail;
    assert (head + tail)[..|head|] == head && (head + tail)[|head|..] == tail;
    head + tail
  }

  /** The message names its signal: different signals give different
      messages, so each carries its year, article count and case total. */
  lemma SignalTextInjective(s: Signal, t: Signal)
    requires SignalText(s) == SignalText(t)
    ensures s == t
  {
    var ys, as_, cs := IntText(s.year), IntText(s.articles), IntText(s.cases);
    var yt, at, ct := IntText(t.year), IntText(t.articles), IntText(t.cases);
    assert ArticlesLead[0] == ':' && CasesLead[0] == ')' && CasesTail[0] == ' ';
    NotInIntText(s.year, ':');
    NotInIntText(t.year, ':');
    NotInIntText(s.articles, ')');
    NotInIntText(t.articles, ')');
    NotInIntText(s.cases, ' ');
    NotInIntText(t.cases, ' ');
    ThreeFields(YearLead, ArticlesLead, CasesLead, CasesTail, ys, as_, cs, yt, at, ct);
    IntTextInjective(s.year, t.year);
    IntTextInjective(s.articles, t.articles);
    IntTextInjective(s.cases, t.cases);
  }

  /** `lacunas`: one message per signal, in order. */
  function Texts(signals: seq<Signal>): (r: seq<string>)
    ensures |r| == |signals|
    ensures forall i :: 0 <= i < |r| ==> r[i] == SignalText(signals[i])
  {
    seq(|signals|, i requires 0 <= i < |signals| => SignalText(signals[i]))
  }

  lemma TextsAppend(signals: seq<Signal>, s: Signal)
    ensures Texts(signals + [s]) == Texts(signals) + [SignalText(s)]
  {
  }

  /** The loop of app.py:461-469: `lacunas` for the normalised articles'
      `ano` column and the rows of the period. */
  method FindOpportunities(articleYears: seq<Option<int>>, periodRows: seq<EpiRow>, endYear: int) returns (gaps: seq<string>)
    ensures gaps == Texts(Opportunities(articleYears, periodRows, endYear))
  {
    gaps := [];
    if |articleYears| > 0 && |periodRows| > 0 {
      var articlesPerYear := ArticlesPerYear(articleYears);
      var casesPerYear := CasesPerYear(periodRows);
      var years := SortedYears(KnownYears(articleYears) + RowYears(periodRows));
      for i := 0 to |years|
        invariant gaps == Texts(Select(years[..i], articleYears, periodRows, endYear))
      {
        var year := years[i];
        var articles := if year in articlesPerYear then articlesPerYear[year] else 0;
        var cases := if year in casesPerYear then casesPerYear[year] else 0;
        assert articles == ArticleCount(articleYears, year);
        assert cases == CaseTotal(periodRows, year);
        ghost var before := Select(years[..i], articleYears, periodRows, endYear);
        assert years[..i + 1][..i] == years[..i];
        SelectLast(years[..i + 1], articleYears, periodRows, endYear);
        if year >= endYear - Lookback && articles >= MinArticles && cases > MinCases {
          TextsAppend(before, Signal(year, articles, cases));
          gaps := gaps + [SignalText(Signal(year, articles, cases))];
        }
      }
      assert years[..|years|] == years;
    }
  }

  /** Signals in strictly ascending year order, each for one of `ys` and
      carrying that year's counts. */
  predicate SignalsFor(r: seq<Signal>, ys: seq<int>, articleYears: seq<Option<int>>, rows: seq<EpiRow>) {
    && (forall i, j :: 0 <= i < j < |r| ==> r[i].year < r[j].year)
    && YearsAmong(r, ys)
    && CountsOf(r, articleYears, rows)
  }

  predicate YearsAmong(r: seq<Signal>, ys: seq<int>) {
    forall i :: 0 <= i < |r| ==> r[i].year in ys
  }

  predicate CountsOf(r: seq<Signal>, articleYears: seq<Option<int>>, rows: seq<EpiRow>) {
    forall i :: 0 <= i < |r| ==> r[i] == Signal(r[i].year, ArticleCount(articleYears, r[i].year), CaseTotal(rows, r[i].year))
  }

  /** Selection appends at most the last year's signal to the signals of
      the years before it. */
  lemma SelectLast(ys: seq<int>, articleYears: seq<Option<int>>, rows: seq<EpiRow>, endYear: int)
    requires ys != []
    ensures var y := ys[|ys| - 1];
      var p := Select(ys[..|ys| - 1], articleYears, rows, endYear);
      var r := Select(ys, articleYears, rows, endYear);
      || (r == p && !Qualifies(y, ArticleCount(articleYears, y), CaseTotal(rows, y), endYear))
      || (r == p + [Signal(y, ArticleCount(articleYears, y), CaseTotal(rows, y))]
          && Qualifies(y, ArticleCount(articleYears, y), CaseTotal(rows, y), endYear))
  {
  }

  /** Every signal is for one of the years. */
  lemma {:induction false} SelectYearsAmong(ys: seq<int>, articleYears: seq<Option<int>>, rows: seq<EpiRow>, endYear: int)
    ensures YearsAmong(Select(ys, articleYears, rows, endYear), ys)
  {
    if ys != [] {
      var k := |ys| - 1;
      SelectYearsAmong(ys[..k], articleYears, rows, endYear);
      SelectLast(ys, articleYears, rows, endYear);
      assert ys == ys[..k] + [ys[k]];
    }
  }

  /** Every signal carries its year's article count and case total. */
  lemma {:induction false} SelectCounts(ys: seq<int>, articleYears: seq<Option<int>>, rows: seq<EpiRow>, endYear: int)
    ensures CountsOf(Select(ys, articleYears, rows, endYear), articleYears, rows)
  {
    if ys != [] {
      SelectCounts(ys[..|ys| - 1], articleYears, rows, endYear);
      SelectLast(ys, articleYears, rows, endYear);
    }
  }

  /** Over ascending years the signals are ascending, each for one of the
      years and carrying that year's counts. */
  lemma {:induction false} SelectOrdered(ys: seq<int>, articleYears: seq<Option<int>>, rows: seq<EpiRow>, endYear: int)
    requires Increasing(ys)
    ensures SignalsFor(Select(ys, articleYears, rows, endYear), ys, articleYears, rows)
  {
    SelectCounts(ys, articleYears, rows, endYear);
    SelectYearsAmong(ys, articleYears, rows, endYear);
    if ys != [] {
      var k := |ys| - 1;
      var y := ys[k];
      var p := Select(ys[..k], articleYears, rows, endYear);
      SelectOrdered(ys[..k], articleYears, rows, endYear);
      SelectLast(ys, articleYears, rows, endYear);
      assert forall i :: 0 <= i < |p| ==> p[i].year < y by {
        forall i | 0 <= i < |p| ensures p[i].year < y {
          assert p[i].year in ys[..k];
          var m :| 0 <= m < |ys[..k]| && ys[..k][m] == p[i].year;
          assert ys[m] == ys[..k][m];
        }
      }
    }
  }

  /** Some signal is for year z. */
  predicate Signalled(r: seq<Signal>, z: int) {
    exists i :: 0 <= i < |r| && r[i].year == z
  }

  /** A year is signalled exactly when it is one of the years and passes
      the rule. */
  lemma {:induction false} SelectMembers(ys: seq<int>, articleYears: seq<Option<int>>, rows: seq<EpiRow>, endYear: int, z: int)
    ensures Signalled(Select(ys, articleYears, rows, endYear), z) <==>
      z in ys && Qualifies(z, ArticleCount(articleYears, z), CaseTotal(rows, z), endYear)
  {
    if ys != [] {
      var k := |ys| - 1;
      var y := ys[k];
      SelectMembers(ys[..k], articleYears, rows, endYear, z);
      SelectLast(ys, articleYears, rows, endYear);
      var p := Select(ys[..k], articleYears, rows, endYear);
      var r := Select(ys, articleYears, rows, endYear);
      assert ys == ys[..k] + [y];
      var passes := Qualifies(z, ArticleCount(articleYears, z), CaseTotal(rows, z), endYear);
      assert Signalled(r, z) ==> z in ys && passes by {
        if Signalled(r, z) {
          var i :| 0 <= i < |r| && r[i].year == z;
          if i < |p| {
            assert p[i].year == z;
          }
        }
      }
      assert z in ys && passes ==> Signalled(r, z) by {
        if z in ys && passes {
          if z == y {
            assert r[|p|].year == z;
          } else {
            assert z in ys[..k];
            var i :| 0 <= i < |p| && p[i].year == z;
            assert r[i] == p[i];
          }
        }
      }
    }
  }

  lemma SelectCharacterized(ys: seq<int>, articleYears: seq<Option<int>>, rows: seq<EpiRow>, endYear: int)
    requires Increasing(ys)
    ensures var r := Select(ys, articleYears, rows, endYear);
      && (forall i, j :: 0 <= i < j < |r| ==> r[i].year < r[j].year)
      && (forall i :: 0 <= i < |r| ==> r[i].year in ys)
      && (forall i :: 0 <= i < |r| ==> r[i] == Signal(r[i].year, ArticleCount(articleYears, r[i].year), CaseTotal(rows, r[i].year)))
      && (forall y :: (exists i :: 0 <= i < |r| && r[i].year == y) <==>
            y in ys && Qualifies(y, ArticleCount(articleYears, y), CaseTotal(rows, y), endYear))
  {
    SelectOrdered(ys, articleYears, rows, endYear);
    forall y ensures var r := Select(ys, articleYears, rows, endYear);
        (exists i :: 0 <= i < |r| && r[i].year == y) <==>
          y in ys && Qualifies(y, ArticleCount(articleYears, y), CaseTotal(rows, y), endYear)
    {
      SelectMembers(ys, articleYears, rows, endYear, y);
    }
  }

  /** What the correlator emits: signals in strictly ascending year order,
      each carrying its year's article count and case sum (a side without the
      year counting 0), and a signal for a year exactly when both inputs are
      non-empty, the year is an article year or a case year, and
      year >= ano_fim - 3, articles >= 5 and cases > 100000. */
  lemma OpportunitiesCharacterized(articleYears: seq<Option<int>>, periodRows: seq<EpiRow>, endYear: int)
    ensures var r := Opportunities(articleYears, periodRows, endYear);
      && (forall i, j :: 0 <= i < j < |r| ==> r[i].year < r[j].year)
      && (forall i :: 0 <= i < |r| ==> r[i] == Signal(r[i].year, ArticleCount(articleYears, r[i].year), CaseTotal(periodRows, r[i].year)))
      && (forall y :: (exists i :: 0 <= i < |r| && r[i].year == y) <==>
            && |articleYears| > 0 && |periodRows| > 0
            && (Some(y) in articleYears || exists x :: x in periodRows && x.year == Some(y))
            && Qualifies(y, ArticleCount(articleYears, y), CaseTotal(periodRows, y), endYear))
  {
    if |articleYears| > 0 && |periodRows| > 0 {
      var ys := SortedYears(KnownYears(articleYears) + RowYears(periodRows));
      assert Opportunities(articleYears, periodRows, endYear) == Select(ys, articleYears, periodRows, endYear);
      SelectCharacterized(ys, articleYears, periodRows, endYear);
      forall y ensures y in ys <==> Some(y) in articleYears || exists x :: x in periodRows && x.year == Some(y) {
        assert y in KnownYears(articleYears) + RowYears(periodRows) <==> y in KnownYears(articleYears) || y in RowYears(periodRows);
      }
    }
  }

  /** A year that no article has counts 0 articles, so it is never
      signalled, whatever its cases. */
  lemma YearWithoutArticlesNeverSignals(articleYears: seq<Option<int>>, periodRows: seq<EpiRow>, endYear: int, y: int)
    requires Some(y) !in articleYears
    ensures forall i :: 0 <= i < |Opportunities(articleYears, periodRows, endYear)| ==>
      Opportunities(articleYears, periodRows, endYear)[i].year != y
  {
    OpportunitiesCharacterized(articleYears, periodRows, endYear);
  }

  lemma FiveOf2022(years: seq<Option<int>>)
    requires years == [Some(2022), Some(2022), Some(2022), Some(2022), Some(2022)]
    ensures ArticleCount(years, 2022) == 5
    ensures forall y :: Some(y) in years ==> y == 2022
  {
    assert ArticleCount(years[..1], 2022) == 1 by { assert years[..1][..0] == []; }
    assert ArticleCount(years[..2], 2022) == 2 by { assert years[..2][..1] == years[..1]; }
    assert ArticleCount(years[..3], 2022) == 3 by { assert years[..3][..2] == years[..2]; }
    assert ArticleCount(years[..4], 2022) == 4 by { assert years[..4][..3] == years[..3]; }
    assert years[..5] == years;
  }

  lemma FirstTwoIncrease(r: seq<Signal>)
    requires forall i, j :: 0 <= i < j < |r| ==> r[i].year < r[j].year
    ensures |r| > 1 ==> r[0].year < r[1].year
  {
  }

  /** With five articles of 2022, a single case row of 2022 and ano_fim =
      2023, the signals are those of 2022 alone, decided by its case count. */
  lemma {:induction false} SingleYearOutcome(rows: seq<EpiRow>, cases: int)
    requires rows == [EpiRow(Some(2022), Some("NY"), Some(cases), None)]
    ensures var years := [Some(2022), Some(2022), Some(2022), Some(2022), Some(2022)];
      Opportunities(years, rows, 2023) == if cases > MinCases then [Signal(2022, 5, cases)] else []
  {
    var years := [Some(2022), Some(2022), Some(2022), Some(2022), Some(2022)];
    FiveOf2022(years);
    CaseTotalOne(rows[0], 2022);
    OnlyYear(years, rows, 2022, 2023);
  }

  /** When every known article year and every case row is of year `y`, the
      signals are those of `y` alone: one signal when `y` passes the rule,
      none otherwise. */
  lemma OnlyYear(articleYears: seq<Option<int>>, rows: seq<EpiRow>, y: int, endYear: int)
    requires |articleYears| > 0 && |rows| > 0
    requires forall z :: Some(z) in articleYears ==> z == y
    requires forall x :: x in rows ==> x.year == Some(y)
    ensures var articles, cases := ArticleCount(articleYears, y), CaseTotal(rows, y);
      Opportunities(articleYears, rows, endYear)
        == if Qualifies(y, articles, cases, endYear) then [Signal(y, articles, cases)] else []
  {
    OpportunitiesCharacterized(articleYears, rows, endYear);
    var r := Opportunities(articleYears, rows, endYear);
    var articles, cases := ArticleCount(articleYears, y), CaseTotal(rows, y);
    forall i | 0 <= i < |r| ensures r[i] == Signal(y, articles, cases) {
      assert Signalled(r, r[i].year);
    }
    FirstTwoIncrease(r);
    assert |r| > 0 ==> Signalled(r, y) by {
      if |r| > 0 {
        assert r[0].year == y;
      }
    }
    assert rows[0] in rows && rows[0].year == Some(y);
    assert Signalled(r, y) <==> Qualifies(y, articles, cases, endYear);
  }

  /** Cases are summed per year, not maximised: five articles of 2021 and two
      2021 rows of 60000 and 70000 cases, with ano_fim = 2022, give one
      signal carrying 130000 cases, although neither row alone passes
      100000. */
  lemma SumNotMaxExample()
    ensures Opportunities([Some(2021), Some(2021), Some(2021), Some(2021), Some(2021)],
                          [EpiRow(Some(2021), Some("NY"), Some(60000), None),
                           EpiRow(Some(2021), Some("NY"), Some(70000), None)], 2022)
         == [Signal(2021, 5, 130000)]
  {
    var years := [Some(2021), Some(2021), Some(2021), Some(2021), Some(2021)];
    var a, b := EpiRow(Some(2021), Some("NY"), Some(60000), None), EpiRow(Some(2021), Some("NY"), Some(70000), None);
    CaseTotalAppend([a], [b], 2021);
    CaseTotalOne(a, 2021);
    CaseTotalOne(b, 2021);
    assert [a] + [b] == [a, b];
    assert multiset(years)[Some(2021)] == 5;
    OnlyYear(years, [a, b], 2021, 2022);
  }

  /** Five articles of 2022 and 150000 cases in 2022, with ano_fim = 2023:
      exactly one signal, for 2022; exactly 100000 cases gives none, since
      the case bound is strict. */
  lemma SignalExamples()
    ensures Opportunities([Some(2022), Some(2022), Some(2022), Some(2022), Some(2022)],
                          [EpiRow(Some(2022), Some("NY"), Some(150000), None)], 2023)
         == [Signal(2022, 5, 150000)]
    ensures Opportunities([Some(2022), Some(2022), Some(2022), Some(2022), Some(2022)],
                          [EpiRow(Some(2022), Some("NY"), Some(100000), None)], 2023)
         == []
  {
    SingleYearOutcome([EpiRow(Some(2022), Some("NY"), Some(150000), None)], 150000);
    SingleYearOutcome([EpiRow(Some(2022), Some("NY"), Some(100000), None)], 100000);
  }
}
