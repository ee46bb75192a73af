# Jornada de Inovação — a verified model of the analysis core

The application searches PubMed for articles on a theme, loads the NYTimes
COVID-19 counts and derives three things from them:
- topic clusters of the literature
- "opportunity" signals that correlate publication volume with case load year by year
- a Markdown report

This project models the parts of `app.py` and `utils/nlp.py` that compute rather
than fetch or display, and proves what they promise:

- **Year extraction.** `_extrair_ano_qualquer` and `extrair_ano` find the leftmost
  match of `(19|20)\d{2}` (module `Years`).
- **Column resolution and article normalisation.** These are
  `primeira_coluna_existente` and `normalizar_artigos`. The DataFrame is a class
  whose columns and rows the normalisation renames and overwrites in place,
  specified by a function on its value (modules `Frames` and `FramesLemmas`).
- **PubMed fields.** The publication date is assembled from the PubDate element.
  The abstract is assembled from its labelled parts (module `PubMed`).
- **Period filter and per-state summary.** The filter keeps the rows of the
  selected years. The summary takes each state's maximum, sorted by cases
  (module `Epidemiology`).
- **Opportunity correlator.** The signal loop is a method proved against a
  specification function (module `Correlator`).
- **Report.** `gerar_relatorio` is a method that appends lines section by section,
  proved against a specification of the line list (module `Report`).
- **`normalize` and `build_topics`.** `build_topics` treats the TF-IDF vectorizer
  and KMeans as deterministic oracles (module `Nlp`).

Shared pieces:
- `Text` holds Python's `str.strip`, `str(int)`, `sep.join`, and the Unicode
  whitespace set used by `strip` and `\s`.
- `Values` holds a pandas cell.
- `Wrappers` holds `Option`.

A pandas cell is `Option<Cell>`. `None` stands for every missing value (`pd.NA`,
`None`, `NaN`).

Behaviour of the code worth knowing:
- **Empty article frame.** `normalizar_artigos` of an empty frame returns a new
  frame with no rows and eight named columns
  (`FramesLemmas.EmptyNormalizesToArticleColumns`).
- **Empty vocabulary.** When every text reduces to nothing, the vectorizer
  raises instead of giving rows (`Nlp.BuildTopics` returns `EmptyVocabulary`).
- **Raising report.** `gerar_relatorio` raises when a listed state has no case
  or death count (`Report.BuildReport` returns `None`).
- **Malformed fields.** Titles, dates and other fields are kept as they are.
  A year that is not an int is re-extracted from its text, and becomes NA when
  nothing matches. No field is replaced by "".

## Model

| member | source | states |
|---|---|---|
| Text.Strip | utils/nlp.py:30 | `str.strip()`: the result has no whitespace at either end, is empty exactly when the input is all whitespace, and is the input with its leading and trailing whitespace runs removed |
| Text.StripTrimmed | utils/nlp.py:30 | stripping a string without whitespace at its ends leaves it unchanged |
| Text.IsSpace | utils/nlp.py:29-30 | the whitespace of `str.strip` and `\s` contains no ASCII lower-case letter and no digit |
| Text.NatText | app.py:213-214 | `str(n)` of a non-negative int is non-empty and starts with a digit |
| Text.Join | app.py:94 | `sep.join(parts)`: "" for no parts, the part itself for one part |
| Text.JoinTwo | app.py:94 | joining two parts puts the separator between them |
| Text.JoinThree | app.py:94 | joining three parts puts the separator between each pair |
| Text.Concat | app.py:241 | `"".join(parts)`: "" for no parts, and it ends with the last part |
| Text.NatTextValue | app.py:213-214 | `str(n)` of a non-negative int is all decimal digits and reads back as `n` |
| Text.IntText | app.py:213 | `str(n)` is non-empty and starts with a minus sign exactly when `n` is negative |
| Text.IntTextChars | app.py:469 | `str(n)` consists of ASCII digits and a minus sign |
| Text.IntTextInjective | app.py:469 | different integers have different `str(n)` |
| Text.ThreeFields | app.py:469 | a message made of fixed pieces around three fields determines the fields when no field contains the first character of the piece after it |
| Text.ConcatStartsWith | app.py:241 | `"".join(parts)` begins with the first part |
| Text.ConcatFrame | app.py:241 | `"".join(parts)` of two or more parts begins with the first part and ends with the last |
| Text.JoinEnds | app.py:94 | a join of non-empty parts starts with the first part and ends with the last part's last character |
| Text.JoinChars | app.py:94 | every character of a join comes from the separator or from one of the parts |
| Text.Min | utils/nlp.py:58 | the smaller of two ints: at most each, and equal to one of them |
| Values.Str | app.py:223 | `str(value)`: an int shows as its decimal text, a string as itself |
| Values.Truthy | app.py:222 | a value is truthy exactly when it is present and is neither 0 nor "" |
| Values.Format | app.py:221-223 | `f"{v}"`: a present value shows as `str(value)` and a missing one as "<NA>"; only a non-int value can show as "" |
| Years.MatchValue | app.py:24 | the value of a `(19|20)\d{2}` match lies in 1900..2099 |
| Years.FirstMatch | app.py:23 | `re.search` from a position: the result is a match start, with no match before it; None exactly when no match starts at or after the position |
| Years.FirstYear | app.py:23-24 | a year is found exactly when some match exists, and it lies in 1900..2099 |
| Years.ExtractYearAny | app.py:20-24 | `_extrair_ano_qualquer`: NA for "", otherwise the same year as `extrair_ano` of that string |
| Years.ExtractYear | app.py:129-136 | `extrair_ano`: NA for a missing value; otherwise a year exactly when `str(value)` contains a match, always within 1900..2099 |
| Years.FirstYearIsLeftmost | app.py:133-134 | the year returned is the one of the leftmost match, not a later or larger one |
| Years.YearOfYearText | app.py:159 | a year written as an int or as its four digits extracts to itself, so re-extracting a derived year changes nothing |
| Years.RangeYieldsFirstYear | app.py:23 | "2019-2021" gives 2019, the first year of the range |
| Years.LeftmostNotSmallest | app.py:23 | "May 2021/1999" gives 2021: the leftmost year, not the smallest |
| Years.NoMatchNoYear | app.py:24 | text without a "19"/"20" pair gives NA |
| Frames.FirstExistingColumn | app.py:122-126 | the first candidate, in list order, that is a column; None exactly when no candidate is a column |
| Frames.RenameColumn | app.py:157 | `rename(columns={k: v})`: each column keeps its position and its values in every row, and only `k` changes name |
| Frames.RenamedNames | app.py:157 | renaming one column to a fresh name keeps the names distinct and swaps the old name for the new one in their set |
| Frames.RenameStep | app.py:156-157 | one loop step keeps the frame well formed and the row and column counts unchanged |
| Frames.RenameAll | app.py:155-157 | the renaming loop keeps the frame well formed and the row and column counts unchanged |
| Frames.AliasesValid | app.py:148-154 | the `renomes` table has distinct sources, distinct targets, and no name that is both |
| Frames.CanonicalNameOfOther | app.py:155-157 | a column that is not an alias source keeps its name |
| Frames.CanonicalNameIsSourceOrTarget | app.py:155-157 | a column either keeps its name or takes the target of an alias whose source it is |
| Frames.PresenceKept | app.py:155-157 | a name no earlier alias mentions is a column after those renamings exactly when it was one before |
| Frames.RenameAllIsCanonical | app.py:155-157 | the in-place loop equals a simultaneous renaming: column `j` stays at `j`, takes its canonical name, and keeps its values in every row |
| Frames.KeepOrExtract | app.py:159 | an int or NA is kept; any other value is replaced by its extracted year; the result is always an int or NA |
| Frames.YearColumn | app.py:158-163 | the new `ano` column has one value per row, each an int or NA, and all NA when neither `ano` nor `data_publicacao` is a column |
| Frames.Normalized | app.py:139-165 | the normalised table is well formed and has an `ano` column; an empty frame gives no rows, any other keeps its row count |
| Frames.WithColumn | app.py:159-163 | `df["ano"] = values` overwrites an existing column or appends it last, and changes nothing else |
| Frames.DataFrame.Rename | app.py:157 | the in-place rename leaves the frame's value equal to the renamed table |
| Frames.DataFrame.SetColumn | app.py:159-163 | the in-place column assignment leaves the frame's value equal to the table with that column set |
| Frames.NormalizeArticles | app.py:139-165 | `normalizar_artigos`: an empty frame gives a new frame and leaves the input alone; any other frame is updated in place and returned; in both cases the result's value is `Normalized` of the input |
| FramesLemmas.CanonicalNameOfSource | app.py:155-157 | alias source `k` is renamed to `v` exactly when `v` was not already a column |
| FramesLemmas.RenamedAlias | app.py:148-157 | after renaming, `v` is a column iff `v` or `k` was; `k` remains iff both were; `v` holds its own values if it existed and otherwise `k`'s |
| FramesLemmas.RenamedAliasOf | app.py:155-157 | the same for any alias table with distinct sources and targets and no name that is both |
| FramesLemmas.EmptyNormalizesToArticleColumns | app.py:144-147 | an empty frame normalises to no rows and exactly the eight article columns, in order |
| FramesLemmas.NormalizeKeepsRows | app.py:148-165 | row count and order are kept; `ano` is a column; every column keeps its position under its canonical name and its values outside `ano` |
| FramesLemmas.CanonicalColumnWins | app.py:156-157 | when an alias and its canonical name are both columns, neither is renamed and both keep their values |
| FramesLemmas.NormalizedYear | app.py:158-163 | `ano` is an int or NA. With `ano` or `year`, ints and NA are kept and other values re-extracted. Else `data_publicacao` or `pubdate` is extracted. Else NA. |
| PubMed.TextOrEmpty | app.py:92-93 | an element's stripped text, "" when it is absent or has no text |
| PubMed.NonEmpty | app.py:94 | `[x for x in parts if x]` keeps exactly the non-empty parts, the first one first |
| PubMed.PublicationDate | app.py:90-96 | without a Year, the stripped MedlineDate or "". With a Year, a trimmed text made of the parts and spaces, starting with the stripped Year. |
| PubMed.JoinedDate | app.py:94 | the space-join of the non-empty ones among three trimmed fields is trimmed, made of their characters and spaces, and starts with the first field when it is not empty |
| PubMed.NonEmptyAppend | app.py:94 | filtering out empty parts commutes with concatenation, so order and repetitions are kept |
| PubMed.Kept | app.py:94 | the filter of one part keeps it exactly when it is not empty |
| PubMed.NonEmptyOfThree | app.py:94 | the filter of Year, Month, Day keeps each one exactly when it is not empty, in that order |
| PubMed.DateOfParts | app.py:90-94 | with a Year, the date is the space-join of the stripped Year, Month and Day, each kept exactly when not empty, in that order |
| PubMed.JoinKept | app.py:94 | with Year and Day present, the join is "Y M D", or "Y D" when Month is empty |
| PubMed.ThreeParts | app.py:90-94 | trimmed Year, Month and Day give "Year Month Day", whatever MedlineDate holds |
| PubMed.TwoParts | app.py:90-94 | trimmed Year and Day and no Month give "Year Day" |
| PubMed.YearDayExample | app.py:94 | Year "2020", no Month and Day "5" give "2020 5" |
| PubMed.YearElementIsExtracted | app.py:90-98 | when Year holds a year, the year extracted from the assembled date is that year, whatever Month and Day hold |
| PubMed.YearPrefixIsExtracted | app.py:20-24 | a text that starts with a year's four digits yields that year |
| PubMed.YearAndMonth | app.py:90-95 | a trimmed Year and Month and no Day give "Year Month", whatever MedlineDate holds |
| PubMed.YearMonthExample | app.py:94 | Year "2020", Month "Mar" and no Day give "2020 Mar"; MedlineDate is ignored |
| PubMed.MedlineDateExample | app.py:96 | without a Year, the MedlineDate is used and Month and Day are ignored |
| PubMed.MedlineDateAsIs | app.py:95-96 | without a Year a trimmed MedlineDate is the date unchanged, whatever Month and Day hold |
| PubMed.AbstractLine | app.py:76-82 | an element contributes a line exactly when its stripped text is not empty. The line is "Label: text" with a Label, else "NlmCategory: text" with an NlmCategory, else the stripped text alone. An empty Label falls through to the NlmCategory. |
| PubMed.LinesOf | app.py:77-82 | an element gives at most one line, none exactly when its text is blank, and that line is its `AbstractLine` |
| PubMed.AbstractLines | app.py:75-82 | no lines exactly when every element's text is blank; no line is blank |
| PubMed.LinesOfOne | app.py:75-82 | a single element contributes exactly its own line, if any |
| PubMed.AbstractLinesCons | app.py:75-82 | the lines of a run are the first element's line, then the lines of the rest |
| PubMed.AbstractLinesAppend | app.py:75-82 | the lines of two consecutive runs of elements are the lines of the first run followed by those of the second: each element contributes its own line, in document order |
| PubMed.Abstract | app.py:83 | `resumo_en` is the newline-join of the lines, stripped; it is trimmed, and empty exactly when every element's text is blank |
| PubMed.LinesOfThree | app.py:75-82 | the lines of three elements are their own lines, in order |
| PubMed.TaggedLines | app.py:76-82 | "a" labelled AIM gives "AIM: a"; a blank text gives no line though it has a Label; "b" with only the NlmCategory RES gives "RES: b" |
| PubMed.AbstractExample | app.py:74-83 | those three elements give the abstract "AIM: a", a newline, "RES: b" |
| Epidemiology.InPeriod | app.py:406-407 | definition: the row's year is known and lies within `[ano_inicio, ano_fim]`; a missing date compares false |
| Epidemiology.PeriodRows | app.py:405-408 | keeps exactly the rows whose year is in `[ano_inicio, ano_fim]`, each as often as in the input |
| Epidemiology.PeriodRowsAppend | app.py:405-408 | filtering two consecutive runs of rows filters each run, so the kept rows keep their order |
| Epidemiology.PeriodRowsOne | app.py:405-408 | a single row is kept exactly when its year is in the period |
| Epidemiology.MaxKnown | app.py:421 | the max of two possibly unknown counts: unknown only when both are, and at least each known one |
| Epidemiology.StateMax | app.py:419-421 | a state's value is unknown exactly when all its values are; otherwise it is attained by one of its rows and bounds all of them |
| Epidemiology.States | app.py:420 | each state of the rows appears once, and nothing else does |
| Epidemiology.InsertByCases | app.py:422 | insertion keeps the order by cases (descending, unknown last) and adds exactly one element |
| Epidemiology.SortByCases | app.py:422 | `sort_values("casos", ascending=False)`: sorted by cases descending, unknown last, a permutation of its input |
| Epidemiology.Summary | app.py:419-423 | `resumo_estados`: sorted by cases, largest first and unknown last; a reordering of the per-state lines, one per state of the period |
| Epidemiology.SummaryIsWindowMax | app.py:405-423 | each summary entry carries its state's maximum cases and deaths over the rows of the period, not their sum; the entries are sorted by cases |
| Epidemiology.Totals | app.py:419-421 | before sorting there is one line per state of the period, line i for the i-th state of `States` |
| Epidemiology.TotalsListed | app.py:419-421 | before sorting a state has a line exactly when it has a row in the period |
| Epidemiology.PermutationKeepsListed | app.py:422 | sorting keeps the set of states that have a line |
| Epidemiology.SummaryStatesOnce | app.py:419-421 | every state of the period appears in the summary exactly once, and no other state does |
| Epidemiology.PermutationKeepsStatesDistinct | app.py:422 | sorting does not duplicate or lose a state |
| Epidemiology.MultiplicityOfDistinct | app.py:422 | in a summary with distinct states each entry occurs once |
| Epidemiology.MaxNotSumExample | app.py:421 | California at 100 then 250 cumulative cases is summarised as 250, not 350 |
| Correlator.ArticleCount | app.py:462 | the number of articles whose year is y, NA years not counted; 0 exactly when no article has that year, and at most the number of articles |
| Correlator.CaseTotal | app.py:463 | a year without rows has a case total of 0 |
| Correlator.CaseTotalAppend | app.py:463 | the case total of a year over two consecutive runs of rows is the sum of the two runs' totals |
| Correlator.CaseTotalOne | app.py:463 | one row adds its cases to its own year, a missing count as 0, and nothing to other years |
| Correlator.Qualifies | app.py:468 | definition: year ≥ end year − 3, at least 5 articles, and strictly more than 100000 cases |
| Correlator.KnownYears | app.py:462 | the years of articles whose year is known, NA years dropped |
| Correlator.RowYears | app.py:463 | the years of the COVID rows |
| Correlator.ArticlesPerYear | app.py:462 | `value_counts()`: keyed by exactly the known years, each mapped to its article count |
| Correlator.CasesPerYear | app.py:463 | `groupby(year).sum()`: keyed by exactly the row years, each mapped to its case total |
| Correlator.InsertYear | app.py:465 | insertion into an ascending list of distinct years keeps it ascending and adds the year |
| Correlator.SortedYears | app.py:465 | `sorted(set(...))`: strictly ascending, with exactly the input years |
| Correlator.Select | app.py:465-469 | no more signals than visited years, each passing the rule of app.py:468 |
| Correlator.Opportunities | app.py:461-469 | no signal when either the articles or the period is empty; every signal passes the rule |
| Correlator.SignalText | app.py:469 | the message is "Ano " and the year, then ": alta produção acadêmica (", the article count, ") com grande carga epidemiológica (", the case total and " casos)." |
| Correlator.SignalTextInjective | app.py:469 | different signals give different messages: a message determines its year, article count and case total |
| Correlator.Texts | app.py:469 | one message per signal, message i being that of signal i |
| Correlator.TextsAppend | app.py:469 | appending a signal appends its message |
| Correlator.FindOpportunities | app.py:461-469 | the loop's messages are those of `Opportunities`, in order |
| Correlator.SelectLast | app.py:465-469 | visiting one more year appends at most that year's signal, and appends it exactly when the year passes the rule |
| Correlator.SelectYearsAmong | app.py:465-469 | every signal is for a visited year |
| Correlator.SelectCounts | app.py:466-469 | every signal carries its year's article count and case total |
| Correlator.SelectOrdered | app.py:465-469 | over ascending years, the signals are ascending, for visited years, with their counts |
| Correlator.SelectMembers | app.py:465-469 | a year is signalled exactly when it is visited and passes the rule |
| Correlator.SelectCharacterized | app.py:465-469 | over ascending years, the signals are ascending, each carries its year's counts, and a year is signalled exactly when it passes the rule |
| Correlator.OpportunitiesCharacterized | app.py:461-469 | signals are ascending. A year is signalled iff it is an article or case year and year ≥ end − 3, articles ≥ 5 and cases > 100000, counting a missing side as 0. Nothing is signalled when either input is empty. |
| Correlator.YearWithoutArticlesNeverSignals | app.py:466-468 | a year no article has is never signalled, whatever its cases |
| Correlator.FiveOf2022 | app.py:462 | five articles of 2022 count as five for 2022 |
| Correlator.SingleYearOutcome | app.py:468 | five 2022 articles and one 2022 row with end year 2023 give one signal iff cases > 100000 |
| Correlator.SignalExamples | app.py:468 | 150000 cases give exactly one signal for 2022; exactly 100000 give none |
| Correlator.OnlyYear | app.py:461-469 | when every article and every row has the same year, there is one signal for it exactly when it passes the rule, carrying the article count and the case total |
| Correlator.SumNotMaxExample | app.py:463-468 | two 2021 rows of 60000 and 70000 cases sum to 130000 and signal, though neither alone exceeds 100000 |
| Report.Head | app.py:220 | `head(n)`: the first n elements, or all when fewer |
| Report.HeaderLines | app.py:210-216 | five opening lines, the first being the title |
| Report.TitleOf | app.py:222 | a non-empty string title is shown as itself and a non-zero int title as its digits; a missing or falsy title is shown as "(sem título)" |
| Report.YearOf | app.py:221 | `a.get("ano", "")`: "" without an `ano` column, "<NA>" for a missing year, and the decimal digits of an int year |
| Report.ListItemOf | app.py:223 | "- ", an item and the rest of a line that ends with a newline form a list item with that item and that rest |
| Report.ArticleLine | app.py:220-223 | an article line is a list item: the title, then the year in parentheses and the newline |
| Report.StateLine | app.py:227-228 | a state line is a list item: the state name, then ": casos=" and the cases, ", mortes=" and the deaths, and the newline |
| Report.TopicLine | app.py:232-233 | a topic line is a list item: "Tópico" and its number, then ": " and the terms joined by ", ", and the newline |
| Report.GapLine | app.py:237-238 | an opportunity line is the list item of the message, alone on its line |
| Report.Numbered | app.py:220-238 | one line per item, in order: line i is made from position i + 1 and item i |
| Report.AppendNumbered | app.py:220-238 | the `for ...: linhas.append(...)` loop appends exactly one line per item, in order, each numbered by its position from 1 |
| Report.StateLines | app.py:227-228 | one line per listed state, line i being the state line of state i with its cases and deaths |
| Report.FormatChecked | app.py:227-228 | formatting every item fails exactly when one item cannot be formatted, and otherwise gives one line per item |
| Report.ArticleSection | app.py:218-223 | the article section has a heading and at most ten lines when the frame is not empty, nothing otherwise |
| Report.StateSection | app.py:225-228 | the state section has a heading and at most ten lines when both the period and the summary are non-empty, nothing otherwise |
| Report.TopicSection | app.py:230-233 | the topic section has a heading and one line per topic when there are topics |
| Report.GapSection | app.py:235-238 | the opportunity section has a heading and one line per signal when there are signals |
| Report.AppendArticles | app.py:218-223 | the loop appends exactly the article section to the lines so far |
| Report.FormatStates | app.py:227-228 | the loop formats every listed state; it fails exactly when one lacks a case or death count |
| Report.AppendStates | app.py:225-228 | appends the state section; fails exactly when the section is shown and a listed state lacks a count |
| Report.AppendTopics | app.py:230-233 | the loop appends exactly the topic section, topics numbered from 1 |
| Report.AppendGaps | app.py:235-238 | the loop appends exactly the opportunity section |
| Report.BuildReport | app.py:200-241 | `gerar_relatorio` produces `ReportText`: the joined lines, or failure when `int()` meets a missing count |
| Report.HeadingsDiffer | app.py:219-240 | the four headings and the footer are pairwise different lines |
| Report.SectionStart | app.py:218-238 | a section followed by a different line begins with its heading exactly when shown |
| Report.ReportLayout | app.py:210-240 | the report is the five opening lines, the article, state, topic and opportunity sections, each opening with its own heading exactly when its condition holds, and the footer |
| Report.SectionsInOrder | app.py:218-240 | in such a layout each heading stands where its section begins (after the five opening lines and the sections before it) exactly when the section is shown |
| Report.ReportLines | app.py:210-240 | the line list has at least the five opening lines and the footer |
| Report.ReportText | app.py:200-241 | the report fails only when both the period and the state summary are non-empty |
| Report.Framed | app.py:210-241 | lines between five opening lines and a footer: the length adds up, the first line is the first opening line and the last is the footer |
| Report.ReportBounds | app.py:210-241 | the report has 6 lines plus each shown section's heading and items, at most ten articles and ten states; it starts with the title and ends with the footer |
| Report.ReportFails | app.py:225-228 | the report fails exactly when the state section is shown and one of its first ten states lacks a count |
| Report.ReportTextFrame | app.py:210-241 | a report text begins with the title and ends with the sources footer |
| Nlp.Scrub | utils/nlp.py:29 | `re.sub(r"[^a-z0-9\s]", " ", s)` keeps the length; each character of `[a-z0-9\s]` is kept and every other becomes a space |
| Nlp.Normalize | utils/nlp.py:22-30 | "" for anything that is not a string; otherwise only `[a-z0-9]` and whitespace, with no whitespace at either end |
| Nlp.FoldAll | utils/nlp.py:26-28 | every character of the folded text comes from folding some character of the input |
| Nlp.StableAt | utils/nlp.py:26-28 | a stable fold leaves alone every kept character it produces |
| Nlp.FoldAllStable | utils/nlp.py:26-28 | after a stable fold, every kept character is left alone by the fold |
| Nlp.FoldAllFixed | utils/nlp.py:26-28 | folding characters the fold leaves alone changes nothing |
| Nlp.ScrubFixed | utils/nlp.py:29 | scrubbing keeps the characters the fold leaves alone and writes spaces, which it also leaves alone |
| Nlp.ScrubKept | utils/nlp.py:29 | scrubbing a string of `[a-z0-9\s]` characters changes nothing |
| Nlp.StripFixed | utils/nlp.py:30 | stripping keeps only characters of its input |
| Nlp.StripKept | utils/nlp.py:30 | stripping a string of `[a-z0-9\s]` characters leaves such characters |
| Nlp.NormalizeFixed | utils/nlp.py:26-30 | normalize's output consists of characters the fold leaves alone |
| Nlp.NormalizeIdempotent | utils/nlp.py:26-30 | normalising a normalised string changes nothing |
| Nlp.AsciiFold | utils/nlp.py:26 | lower-casing turns an ASCII capital into a lower-case letter |
| Nlp.AsciiFoldStable | utils/nlp.py:26-28 | ASCII lower-casing is a stable fold |
| Nlp.FoldExample | utils/nlp.py:26 | " Covid-19! " folds to " covid-19! " |
| Nlp.ScrubExample | utils/nlp.py:29 | " covid-19! " scrubs to " covid 19  " |
| Nlp.StripExample | utils/nlp.py:30 | " covid 19  " strips to "covid 19" |
| Nlp.NormalizeExample | utils/nlp.py:22-30 | " Covid-19! " normalises to "covid 19" |
| Nlp.Insert | utils/nlp.py:54 | insertion keeps the ranking (heavier first, equal weights by larger index) and adds exactly one index |
| Nlp.Ranking | utils/nlp.py:54 | `argsort()[::-1]`: every index once, in ranking order |
| Nlp.TopIndices | utils/nlp.py:58 | `[:10]`: min(10, vocabulary size) indices |
| Nlp.TopIndicesAreTop | utils/nlp.py:54-58 | the indices are distinct and in range, their weights do not increase, and no index left out weighs more than one listed |
| Nlp.TopTerms | utils/nlp.py:58 | a topic has min(10, vocabulary size) terms |
| Nlp.TopTermsIndexed | utils/nlp.py:58 | term i of a topic is the vocabulary entry at the i-th heaviest index of its centroid |
| Nlp.TopTermsDistinct | utils/nlp.py:55-58 | with a vocabulary of distinct terms, a topic's terms are distinct |
| Nlp.Requested | utils/nlp.py:41-42 | `num_clusters`, when given, overrides `n_clusters` |
| Nlp.BuildTopics | utils/nlp.py:33-61 | [] for no texts. Empty vocabulary exactly when the vectorizer finds none. [] when min(requested, texts) < 2. Otherwise exactly that many topics, topic i being the top terms of centroid i. The one demand on the clustering oracle is that it returns k weight rows of vocabulary length for each k from 2 to the number of texts. |
| Nlp.SingleTextExample | utils/nlp.py:49-51 | one text gives no topics even when eight clusters are asked for |
| Nlp.TopTermsOfTwo | utils/nlp.py:54-58 | over two terms the heavier comes first; on equal weights the second comes first |
| Nlp.TwoTextsExample | utils/nlp.py:33-61 | two texts and centroids weighting "dengue" and "zika" in turn give two topics, each led by its centroid's heavier term |

## Left out

- Fetching PubMed (app.py:37-114): HTTP requests and XML parsing. Only the date assembly (app.py:90-96) and the abstract assembly (app.py:74-83) are modelled. An XML element is represented by its text, or None when absent.
- Translation (app.py:27-34, app.py:168-176): calls to an external translator.
- `gerar_pdf` (app.py:179-197): PDF layout by reportlab.
- `get_configuracao` (app.py:115-119): reads secrets and environment variables.
- The Streamlit script (app.py:242-497): widgets, session state and charts. This includes:
  - the COVID column detection and renaming (app.py:383-403)
  - the per-date sums for the line chart (app.py:414-416)
  - the assembly of the texts given to `build_topics` (app.py:437-442)
  - The period filter, the state summary and the correlator loop are lifted out of it as functions over rows that carry a year, a state and counts.
- utils/db.py, utils/covid.py, utils/datasources.py and utils/pubmed.py: I/O only. utils/pubmed.py is not used by the application.
- TF-IDF weighting, stop words and KMeans iteration (utils/nlp.py:43-53) are floating-point work inside scikit-learn and NLTK. They are the oracle parameters of `Nlp.BuildTopics`:
  - a vocabulary, or none when it comes out empty
  - one weight row per centroid
  - With the fixed seed, KMeans is a function of its inputs, so the oracle is a function.
  - The NLTK stop-word download is I/O.
- Nlp.Normalize: lower-casing, NFKD decomposition and the removal of combining marks come from the Unicode database. They are a parameter `fold` giving what each character becomes. Only the filter and the strip are modelled exactly. Applying lower-casing and NFKD one character at a time is exact for what survives the filter. The exception is context-dependent lower-casing (final sigma), which only affects characters the filter replaces.
- Nlp.NormalizeIdempotent: assumes the fold leaves alone the kept characters it produces. This holds for lower-casing and NFKD on `[a-z0-9]` and on the whitespace NFKD keeps. It is not proved from the Unicode tables.
- Nlp.Ranking: numpy's default argsort is not stable, so the order among equal weights is not fixed by the source. The model breaks ties towards the larger index, which is what reversing a stable ascending sort gives. The guarantees of `Nlp.TopIndicesAreTop` hold for any tie order.
- Epidemiology.Totals: lists the states in order of first appearance. `groupby("estado")` orders them by name instead. The sort by cases that follows is not stable and is specified only as a descending permutation, so the two orders can differ only among states with equal cases. No contract depends on that order.
- Epidemiology.SortByCases: pandas' default sort is not stable, so the order among states with equal cases is not modelled. Only the descending order and the permutation are stated.
- Years.FirstYear: `\d` is taken as the ASCII digits. Python's `\d` also matches other Unicode decimal digits, which `int()` would accept.
- Values.Truthy: `pd.NA`, `None` and `NaN` are one missing value. The title fallback treats it as falsy. In Python, `pd.NA or x` raises and a `NaN` title is truthy and shown as "nan".
- Correlator.CaseTotal: case and death counts are integers. pandas holds them as floats once a value is missing, and `int()` then truncates them.
- Report.BuildReport: a failed report is `None`. In the source, `int()` raises ValueError on a missing count.
- Bool cells (a bool is an int in Python) are not distinguished from other objects.
