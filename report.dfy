/** `gerar_relatorio` (app.py:200-241): the Markdown report, assembled line
    by line. */
module Report {
  import opened Wrappers
  import opened Text
  import opened Values
  import opened Frames
  import opened Epidemiology

  const Title: string := "# Relatório – Jornada de Inovação\n"
  const ArticlesHeading: string := "## Artigos (amostra)\n"
  const StatesHeading: string := "\n## COVID-19 (amostra de estados)\n"
  const TopicsHeading: string := "\n## Tópicos\n"
  const GapsHeading: string := "\n## Oportunidades (heurísticas)\n"
  const Footer: string := "\n---\n" + Sources
  const Sources: string := "**Fontes:** PubMed (NCBI E-utilities), NYTimes COVID-19 dataset (https://github.com/nytimes/covid-19-data).\n"
  const Untitled: string := "(sem título)"

  /** `df.head(n)` on a sequence. */
  function Head<T>(xs: seq<T>, n: nat): (r: seq<T>)
    ensures |r| == if |xs| < n then |xs| else n
    ensures forall i :: 0 <= i < |r| ==> r[i] == xs[i]
  {
    if |xs| < n then xs else xs[..n]
  }

  /** One Markdown list item: `- `, then the item, then the rest of the
      line, which ends with its newline. */
  predicate ListItem(line: string, item: string, rest: string) {
    && |line| == |item| + |rest| + 2
    && line[..2] == "- "
    && line[2..2 + |item|] == item
    && line[2 + |item|..] == rest
    && rest != [] && rest[|rest| - 1] == '\n'
  }

  lemma ListItemOf(item: string, rest: string)
    requires |rest| > 0 && rest[|rest| - 1] == '\n'
    ensures ListItem("- " + item + rest, item, rest)
  {
    var line := "- " + item + rest;
    assert line[..2] == "- ";
    assert line[2..2 + |item|] == item;
    assert line[2 + |item|..] == rest;
  }

  /** The five opening lines (app.py:210-216): the title, then four lines of
      facts. */
  function HeaderLines(theme: string, fromYear: int, toYear: int, articleCount: nat, covidCount: nat): (r: seq<string>)
    ensures |r| == 5 && r[0] == Title
  {
    [ Title,
      "**Tema:** " + theme + "\n",
      "**Período:** " + IntText(fromYear) + "–" + IntText(toYear) + "\n",
      "**Artigos (recuperados):** " + IntText(articleCount) + "\n",
      "**Linhas COVID (NYTimes) no período:** " + IntText(covidCount) + "\n\n" ]
  }

  /** `a.get("titulo") or "(sem título)"`. */
  function TitleOf(row: Row): (t: string)
    ensures !("titulo" in row && Truthy(row["titulo"])) ==> t == Untitled
    ensures "titulo" in row && row["titulo"].Some? && row["titulo"].value.TextCell? && row["titulo"].value.s != "" ==> t == row["titulo"].value.s
    ensures "titulo" in row && row["titulo"].Some? && row["titulo"].value.IntCell? && row["titulo"].value.n != 0 ==> t == IntText(row["titulo"].value.n)
  {
    if "titulo" in row && Truthy(row["titulo"]) then Format(row["titulo"]) else Untitled
  }

  /** `a.get("ano", "")`, formatted: an int year as its digits, a missing
      one as "<NA>", no column at all as "". */
  function YearOf(row: Row): (r: string)
    ensures "ano" !in row ==> r == ""
    ensures "ano" in row && row["ano"].None? ==> r == "<NA>"
    ensures "ano" in row && row["ano"].Some? && row["ano"].value.IntCell? ==> r == IntText(row["ano"].value.n)
  {
    if "ano" in row then Format(row["ano"]) else ""
  }

  /** An article is listed under its title, its year following. */
  function ArticleLine(row: Row): (r: string)
    ensures ListItem(r, TitleOf(row), " (" + YearOf(row) + ")\n")
  {
    ListItemOf(TitleOf(row), " (" + YearOf(row) + ")\n");
    "- " + TitleOf(row) + (" (" + YearOf(row) + ")\n")
  }

  /** `int(x)` of a missing count raises. */
  predicate Printable(e: StateTotals) {
    e.cases.Some? && e.deaths.Some?
  }

  /** Every listed state can be printed. */
  predicate AllPrintable(es: seq<StateTotals>) {
    forall i :: 0 <= i < |es| ==> Printable(es[i])
  }

  /** A state is listed under its name, its counts following. */
  function StateLine(state: string, cases: int, deaths: int): (r: string)
    ensures ListItem(r, state, ": casos=" + IntText(cases) + ", mortes=" + IntText(deaths) + "\n")
  {
    ListItemOf(state, ": casos=" + IntText(cases) + ", mortes=" + IntText(deaths) + "\n");
    "- " + state + (": casos=" + IntText(cases) + ", mortes=" + IntText(deaths) + "\n")
  }

  /** Topics are numbered from 1 (`enumerate(topicos, 1)`). */
  function TopicLine(number: nat, terms: seq<string>): (r: string)
    ensures ListItem(r, "Tópico " + IntText(number), ": " + Join(", ", terms) + "\n")
  {
    ListItemOf("Tópico " + IntText(number), ": " + Join(", ", terms) + "\n");
    "- " + ("Tópico " + IntText(number)) + (": " + Join(", ", terms) + "\n")
  }

  /** A gap is listed as it is, alone on its line. */
  function GapLine(gap: string): (r: string)
    ensures ListItem(r, gap, "\n")
  {
    ListItemOf(gap, "\n");
    "- " + gap + "\n"
  }

  /** The state section is written when the period and the summary are both
      non-empty. */
  predicate ShowsStates(covidPeriod: seq<EpiRow>, states: seq<StateTotals>) {
    |covidPeriod| > 0 && |states| > 0
  }

  /** One line per item, in order; `line` gets the item's position counted
      from 1 and the item. */
  function Numbered<T>(xs: seq<T>, line: (nat, T) -> string): (r: seq<string>)
    ensures |r| == |xs|
    ensures forall i :: 0 <= i < |xs| ==> r[i] == line(i + 1, xs[i])
  {
    if xs == [] then [] else Numbered(xs[..|xs| - 1], line) + [line(|xs|, xs[|xs| - 1])]
  }

  function ArticleItem(position: nat, row: Row): string {
    ArticleLine(row)
  }

  function ArticleSection(articles: Table): (r: seq<string>)
    ensures |r| == SectionLength(!IsEmpty(articles), Min(|articles.rows|, 10))
    ensures r != [] ==> r[0] == ArticlesHeading
  {
    if IsEmpty(articles) then [] else [ArticlesHeading] + Numbered(Head(articles.rows, 10), ArticleItem)
  }

  /** The lines of the listed states, in order. */
  function StateLines(es: seq<StateTotals>): (r: seq<string>)
    ensures |r| == |es|
    ensures forall i :: 0 <= i < |es| ==> r[i] == StateLine(es[i].state, es[i].cases.GetOr(0), es[i].deaths.GetOr(0))
  {
    Numbered(es, StateItem)
  }

  /** The line of a state; only ever formatted for a printable one, whose
      counts are both present. */
  function StateItem(position: nat, e: StateTotals): string {
    StateLine(e.state, e.cases.GetOr(0), e.deaths.GetOr(0))
  }

  function StateSection(covidPeriod: seq<EpiRow>, states: seq<StateTotals>): (r: seq<string>)
    requires ShowsStates(covidPeriod, states) ==> AllPrintable(Head(states, 10))
    ensures |r| == SectionLength(ShowsStates(covidPeriod, states), Min(|states|, 10))
    ensures r != [] ==> r[0] == StatesHeading
  {
    if !ShowsStates(covidPeriod, states) then []
    else [StatesHeading] + StateLines(Head(states, 10))
  }

  function TopicSection(topics: seq<seq<string>>): (r: seq<string>)
    ensures |r| == SectionLength(topics != [], |topics|)
    ensures r != [] ==> r[0] == TopicsHeading
  {
    if topics == [] then [] else [TopicsHeading] + Numbered(topics, TopicLine)
  }

  function GapItem(position: nat, gap: string): string {
    GapLine(gap)
  }

  function GapSection(gaps: seq<string>): (r: seq<string>)
    ensures |r| == SectionLength(gaps != [], |gaps|)
    ensures r != [] ==> r[0] == GapsHeading
  {
    if gaps == [] then [] else [GapsHeading] + Numbered(gaps, GapItem)
  }

  /** The report, or None when `int()` meets a missing count of a listed
      state and raises. */
  function ReportText(theme: string, fromYear: int, toYear: int, articles: Table, covidPeriod: seq<EpiRow>,
                      topics: seq<seq<string>>, gaps: seq<string>, states: seq<StateTotals>): (r: Option<string>)
    ensures r.None? ==> |covidPeriod| > 0 && |states| > 0
  {
    if ShowsStates(covidPeriod, states) && !AllPrintable(Head(states, 10)) then None
    else Some(Concat(ReportLines(theme, fromYear, toYear, articles, covidPeriod, topics, gaps, states)))
  }

  function ReportLines(theme: string, fromYear: int, toYear: int, articles: Table, covidPeriod: seq<EpiRow>,
                       topics: seq<seq<string>>, gaps: seq<string>, states: seq<StateTotals>): (r: seq<string>)
    requires ShowsStates(covidPeriod, states) ==> AllPrintable(Head(states, 10))
    ensures |r| >= 6
  {
    var header := HeaderLines(theme, fromYear, toYear, |articles.rows|, |covidPeriod|);
    var A, S, T, G := ArticleSection(articles), StateSection(covidPeriod, states), TopicSection(topics), GapSection(gaps);
    Framed(header, A, S, T, G, Footer)
  }

  /** The loops of app.py:220-238: `linhas.append` of one line per item,
      in order. */
  method AppendNumbered<T>(lines: seq<string>, xs: seq<T>, line: (nat, T) -> string) returns (out: seq<string>)
    ensures out == lines + Numbered(xs, line)
  {
    out := lines;
    for i := 0 to |xs|
      invariant out == lines + Numbered(xs[..i], line)
    {
      assert xs[..i + 1][..i] == xs[..i];
      out := out + [line(i + 1, xs[i])];
    }
    assert xs[..|xs|] == xs;
  }

  /** Appends the article sample (app.py:218-222). */
  method AppendArticles(lines: seq<string>, articles: Table) returns (out: seq<string>)
    ensures out == lines + ArticleSection(articles)
  {
    out := lines;
    if !IsEmpty(articles) {
      out := out + [ArticlesHeading];
      out := AppendNumbered(out, Head(articles.rows, 10), ArticleItem);
    }
  }

  /** Formats the listed states; None where `int()` of a missing count
      raises. */
  method FormatStates(sample: seq<StateTotals>) returns (body: Option<seq<string>>)
    ensures body.None? <==> !AllPrintable(sample)
    ensures body.Some? ==> AllPrintable(sample) && body.value == StateLines(sample)
  {
    body := FormatChecked(sample, Printable, StateItem);
  }

  /** A loop that formats each item in turn and stops, with None, at the
      first item `ok` rejects. */
  method FormatChecked<T>(xs: seq<T>, ok: T -> bool, line: (nat, T) -> string) returns (r: Option<seq<string>>)
    ensures r.None? <==> exists i :: 0 <= i < |xs| && !ok(xs[i])
    ensures r.Some? ==> r.value == Numbered(xs, line)
  {
    var acc := [];
    for i := 0 to |xs|
      invariant forall k :: 0 <= k < i ==> ok(xs[k])
      invariant acc == Numbered(xs[..i], line)
    {
      if !ok(xs[i]) {
        return None;
      }
      assert xs[..i + 1][..i] == xs[..i];
      acc := acc + [line(i + 1, xs[i])];
    }
    assert xs[..|xs|] == xs;
    return Some(acc);
  }

  /** Appends the state sample (app.py:224-227). */
  method AppendStates(lines: seq<string>, covidPeriod: seq<EpiRow>, states: seq<StateTotals>) returns (out: Option<seq<string>>)
    ensures out.None? <==> ShowsStates(covidPeriod, states) && !AllPrintable(Head(states, 10))
    ensures out.Some? ==> out.value == lines + StateSection(covidPeriod, states)
  {
    if !ShowsStates(covidPeriod, states) {
      return Some(lines);
    }
    var body := FormatStates(Head(states, 10));
    if body.None? {
      return None;
    }
    return Some(lines + [StatesHeading] + body.value);
  }

  /** Appends the numbered topics (app.py:229-232). */
  method AppendTopics(lines: seq<string>, topics: seq<seq<string>>) returns (out: seq<string>)
    ensures out == lines + TopicSection(topics)
  {
    out := lines;
    if topics != [] {
      out := out + [TopicsHeading];
      out := AppendNumbered(out, topics, TopicLine);
    }
  }

  /** Appends the opportunities (app.py:234-237). */
  method AppendGaps(lines: seq<string>, gaps: seq<string>) returns (out: seq<string>)
    ensures out == lines + GapSection(gaps)
  {
    out := lines;
    if gaps != [] {
      out := out + [GapsHeading];
      out := AppendNumbered(out, gaps, GapItem);
    }
  }

  lemma Regroup<T>(h: seq<T>, a: seq<T>, s: seq<T>, t: seq<T>, g: seq<T>, f: seq<T>)
    ensures h + a + s + t + g + f == h + (a + (s + (t + (g + f))))
  {
  }

  /** `gerar_relatorio`: appends the sections in order and joins the lines. */
  method BuildReport(theme: string, fromYear: int, toYear: int, articles: Table, covidPeriod: seq<EpiRow>,
                     topics: seq<seq<string>>, gaps: seq<string>, states: seq<StateTotals>) returns (report: Option<string>)
    ensures report == ReportText(theme, fromYear, toYear, articles, covidPeriod, topics, gaps, states)
  {
    var header := HeaderLines(theme, fromYear, toYear, |articles.rows|, |covidPeriod|);
    var lines := AppendArticles(header, articles);
    var withStates := AppendStates(lines, covidPeriod, states);
    if withStates.None? {
      return None;
    }
    lines := AppendTopics(withStates.value, topics);
    lines := AppendGaps(lines, gaps);
    lines := lines + [Footer];
    Regroup(header, ArticleSection(articles), StateSection(covidPeriod, states), TopicSection(topics), GapSection(gaps), [Footer]);
    report := Some(Concat(lines));
  }

  /** Lines a section contributes: its heading and its items, or nothing. */
  function SectionLength(shown: bool, items: nat): nat {
    if shown then 1 + items else 0
  }

  /** The headings and the footer are five different lines. */
  lemma HeadingsDiffer()
    ensures ArticlesHeading !in {StatesHeading, TopicsHeading, GapsHeading, Footer}
    ensures StatesHeading !in {TopicsHeading, GapsHeading, Footer}
    ensures TopicsHeading !in {GapsHeading, Footer}
    ensures GapsHeading != Footer
  {
    assert ArticlesHeading[0] == '#';
    assert StatesHeading[0] == '\n' && StatesHeading[4] == 'C';
    assert TopicsHeading[0] == '\n' && TopicsHeading[1] == '#' && TopicsHeading[4] == 'T';
    assert GapsHeading[0] == '\n' && GapsHeading[1] == '#' && GapsHeading[4] == 'O';
    assert Footer[0] == '\n' && Footer[1] == '-';
  }

  /** A section is followed by a line that is not its heading; so the line
      where it would start is its heading exactly when it is shown. */
  lemma SectionStart(section: seq<string>, rest: seq<string>, heading: string, shown: bool)
    requires shown ==> |section| > 0 && section[0] == heading
    requires !shown ==> section == []
    requires |rest| > 0 && rest[0] != heading
    ensures |section + rest| > 0 && ((section + rest)[0] == heading <==> shown)
  {
  }

  /** The report begins with its title and ends with the sources footer;
      the article and state samples hold at most ten lines each, and a
      section adds lines only when its condition holds. */
  lemma ReportBounds(theme: string, fromYear: int, toYear: int, articles: Table, covidPeriod: seq<EpiRow>,
                     topics: seq<seq<string>>, gaps: seq<string>, states: seq<StateTotals>)
    requires ShowsStates(covidPeriod, states) ==> AllPrintable(Head(states, 10))
    ensures var lines := ReportLines(theme, fromYear, toYear, articles, covidPeriod, topics, gaps, states);
      && |lines| == 6 + SectionLength(!IsEmpty(articles), Min(|articles.rows|, 10))
                      + SectionLength(ShowsStates(covidPeriod, states), Min(|states|, 10))
                      + SectionLength(topics != [], |topics|) + SectionLength(gaps != [], |gaps|)
      && lines[0] == Title && lines[|lines| - 1] == Footer
  {
    var header := HeaderLines(theme, fromYear, toYear, |articles.rows|, |covidPeriod|);
    var A, S, T, G := ArticleSection(articles), StateSection(covidPeriod, states), TopicSection(topics), GapSection(gaps);
    assert ReportLines(theme, fromYear, toYear, articles, covidPeriod, topics, gaps, states)
      == Framed(header, A, S, T, G, Footer);
  }

  /** Lines between a header and the footer: the length adds up, the first
      line is the header's and the last is the footer. */
  function Framed(header: seq<string>, A: seq<string>, S: seq<string>, T: seq<string>, G: seq<string>, footer: string): (lines: seq<string>)
    requires |header| == 5
    ensures |lines| == 6 + |A| + |S| + |T| + |G|
    ensures lines[0] == header[0] && lines[|lines| - 1] == footer
  {
    header + (A + (S + (T + (G + [footer]))))
  }

  /** The shape `SectionsInOrder` needs: the report is a five-line header,
      four sections each opened by its own heading exactly when shown, and
      the footer; no heading equals a later one or the footer. */
  predicate Layout(lines: seq<string>, header: seq<string>, A: seq<string>, S: seq<string>, T: seq<string>, G: seq<string>,
                   showA: bool, showS: bool, showT: bool, showG: bool,
                   hA: string, hS: string, hT: string, hG: string, footer: string)
  {
    && lines == header + (A + (S + (T + (G + [footer]))))
    && |header| == 5
    && hA !in {hS, hT, hG, footer}
    && hS !in {hT, hG, footer}
    && hT !in {hG, footer}
    && hG != footer
    && Opens(A, showA, hA) && Opens(S, showS, hS) && Opens(T, showT, hT) && Opens(G, showG, hG)
  }

  /** `section` starts with `heading` when shown and is empty otherwise. */
  predicate Opens(section: seq<string>, shown: bool, heading: string) {
    && (shown ==> |section| > 0 && section[0] == heading)
    && (!shown ==> section == [])
  }

  /** The report's lines have that shape: the five opening lines, then the
      article sample under its heading exactly when articles were found, the
      state sample when the period has rows and the summary has states, the
      topics when there are topics, the opportunities when there are
      opportunities, and the sources footer; with `SectionsInOrder` each
      heading stands where its section begins exactly when it is shown. */
  lemma ReportLayout(theme: string, fromYear: int, toYear: int, articles: Table, covidPeriod: seq<EpiRow>,
                     topics: seq<seq<string>>, gaps: seq<string>, states: seq<StateTotals>)
    requires ShowsStates(covidPeriod, states) ==> AllPrintable(Head(states, 10))
    ensures Layout(ReportLines(theme, fromYear, toYear, articles, covidPeriod, topics, gaps, states),
                   HeaderLines(theme, fromYear, toYear, |articles.rows|, |covidPeriod|),
                   ArticleSection(articles), StateSection(covidPeriod, states), TopicSection(topics), GapSection(gaps),
                   !IsEmpty(articles), ShowsStates(covidPeriod, states), topics != [], gaps != [],
                   ArticlesHeading, StatesHeading, TopicsHeading, GapsHeading, Footer)
  {
    HeadingsDiffer();
  }

  /** Four sections after a five-line header and before the footer: each
      one's heading stands where the section would begin exactly when the
      section is shown, as long as no heading equals a later one or the
      footer. */
  lemma SectionsInOrder(lines: seq<string>, header: seq<string>, A: seq<string>, S: seq<string>, T: seq<string>, G: seq<string>,
                        showA: bool, showS: bool, showT: bool, showG: bool,
                        hA: string, hS: string, hT: string, hG: string, footer: string)
    requires Layout(lines, header, A, S, T, G, showA, showS, showT, showG, hA, hS, hT, hG, footer)
    ensures |lines| > 5 + |A| + |S| + |T| + |G|
    ensures showA <==> lines[5] == hA
    ensures showS <==> lines[5 + |A|] == hS
    ensures showT <==> lines[5 + |A| + |S|] == hT
    ensures showG <==> lines[5 + |A| + |S| + |T|] == hG
  {
    var r3 := G + [footer];
    var r2 := T + r3;
    var r1 := S + r2;
    var r0 := A + r1;
    SectionStart(G, [footer], hG, showG);
    SectionStart(T, r3, hT, showT);
    SectionStart(S, r2, hS, showS);
    SectionStart(A, r1, hA, showA);
    assert lines[5..] == r0;
    assert r0[|A|..] == r1 && r1[|S|..] == r2 && r2[|T|..] == r3;
  }

  /** The report text opens with the title line and closes with the sources
      footer. */
  lemma ReportTextFrame(theme: string, fromYear: int, toYear: int, articles: Table, covidPeriod: seq<EpiRow>,
                         topics: seq<seq<string>>, gaps: seq<string>, states: seq<StateTotals>)
    ensures var r := ReportText(theme, fromYear, toYear, articles, covidPeriod, topics, gaps, states);
      r.Some? ==> |Title| + |Footer| <= |r.value| && r.value[..|Title|] == Title && r.value[|r.value| - |Footer|..] == Footer
  {
    var r := ReportText(theme, fromYear, toYear, articles, covidPeriod, topics, gaps, states);
    if r.Some? {
      ReportBounds(theme, fromYear, toYear, articles, covidPeriod, topics, gaps, states);
      ConcatFrame(ReportLines(theme, fromYear, toYear, articles, covidPeriod, topics, gaps, states));
    }
  }

  /** The report is missing exactly when the state section is shown and
      one of the first ten states lacks a count. */
  lemma ReportFails(theme: string, fromYear: int, toYear: int, articles: Table, covidPeriod: seq<EpiRow>,
                    topics: seq<seq<string>>, gaps: seq<string>, states: seq<StateTotals>)
    ensures ReportText(theme, fromYear, toYear, articles, covidPeriod, topics, gaps, states).None?
      <==> exists i :: 0 <= i < Min(|states|, 10) && |covidPeriod| > 0 && !Printable(states[i])
  {
    var sample := Head(states, 10);
    assert |sample| == Min(|states|, 10);
    assert forall i :: 0 <= i < |sample| ==> sample[i] == states[i];
  }
}
