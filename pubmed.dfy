/** The pure parts of `get_dados_pubmed` (app.py:74-96): the abstract assembled
    from its labelled parts, and `data_publicacao` assembled from the PubDate
    element. The HTTP requests and the XML parsing are not part of the model;
    an element is given by its text, None when the element is absent. */
module PubMed {
  import opened Wrappers
  import opened Text
  import opened Years

  /** `el is not None and el.text`: the element exists and has non-empty text. */
  predicate Present(e: Option<string>) {
    e.Some? && e.value != ""
  }

  /** `el.text.strip() if el is not None and el.text else ""`. */
  function TextOrEmpty(e: Option<string>): (r: string)
    ensures Trimmed(r)
    ensures !Present(e) ==> r == ""
  {
    if Present(e) then Strip(e.value) else ""
  }

  /** The children of `PubDate`: Year, Month, Day and MedlineDate. */
  datatype PubDate = PubDate(year: Option<string>, month: Option<string>, day: Option<string>, medlineDate: Option<string>)

  /** `[x for x in parts if x]`. */
  function NonEmpty(parts: seq<string>): (r: seq<string>)
    ensures forall k :: 0 <= k < |r| ==> r[k] != [] && r[k] in parts
    ensures forall x :: x in parts && x != [] ==> x in r
    ensures |parts| >= 1 && parts[0] != [] ==> |r| >= 1 && r[0] == parts[0]
  {
    if parts == [] then []
    else if parts[0] == [] then NonEmpty(parts[1..])
    else [parts[0]] + NonEmpty(parts[1..])
  }

  /** `data_publicacao` (app.py:90-96): with a Year, the space-join of the
      non-empty stripped Year, Month and Day; otherwise the stripped
      MedlineDate, or "". */
  function PublicationDate(p: PubDate): (r: string)
    ensures Trimmed(r)
    ensures !Present(p.year) ==> r == TextOrEmpty(p.medlineDate)
    ensures Present(p.year) ==> forall c :: c in r ==> c == ' ' || c in Strip(p.year.value) || c in TextOrEmpty(p.month) || c in TextOrEmpty(p.day)
    ensures Present(p.year) && Strip(p.year.value) != [] ==>
      |Strip(p.year.value)| <= |r| && r[..|Strip(p.year.value)|] == Strip(p.year.value)
  {
    if Present(p.year) then
      JoinedDate(Strip(p.year.value), TextOrEmpty(p.month), TextOrEmpty(p.day));
      Join(" ", NonEmpty([Strip(p.year.value), TextOrEmpty(p.month), TextOrEmpty(p.day)]))
    else TextOrEmpty(p.medlineDate)
  }

  /** The space-join of the non-empty ones among three trimmed fields is
      trimmed, made of their characters and spaces, and starts with the
      first field when that one is not empty. */
  lemma JoinedDate(y: string, m: string, d: string)
    requires Trimmed(y) && Trimmed(m) && Trimmed(d)
    ensures var r := Join(" ", NonEmpty([y, m, d]));
      && Trimmed(r)
      && (forall c :: c in r ==> c == ' ' || c in y || c in m || c in d)
      && (y != [] ==> |y| <= |r| && r[..|y|] == y)
  {
    var parts := NonEmpty([y, m, d]);
    var r := Join(" ", parts);
    forall c | c in r ensures c == ' ' || c in y || c in m || c in d {
      JoinChars(" ", parts, c);
    }
    if parts != [] {
      JoinEnds(" ", parts);
      assert Trimmed(parts[0]) && Trimmed(parts[|parts| - 1]);
    }
  }

  /** When the Year element holds a year such as "2019", the year extracted
      from the assembled date (app.py:98) is that year, whatever Month and
      Day hold. */
  lemma YearElementIsExtracted(p: PubDate, y: int)
    requires 1900 <= y <= 2099
    requires Present(p.year) && Strip(p.year.value) == IntText(y)
    ensures ExtractYearAny(PublicationDate(p)) == Some(y)
  {
    YearOfYearText(y);
    YearPrefixIsExtracted(PublicationDate(p), y);
  }

  /** A string that starts with a year's four digits yields that year. */
  lemma YearPrefixIsExtracted(r: string, y: int)
    requires 1900 <= y <= 2099
    requires |IntText(y)| <= |r| && r[..|IntText(y)|] == IntText(y)
    ensures ExtractYearAny(r) == Some(y)
  {
    var s := IntText(y);
    YearOfYearText(y);
    assert r[0] == s[0] && r[1] == s[1] && r[2] == s[2] && r[3] == s[3];
    assert MatchAt(r, 0);
    FirstYearIsLeftmost(r, 0);
  }

  /** Year, Month and an absent Day give "2020 Mar"; MedlineDate is ignored. */
  lemma YearMonthExample()
    ensures PublicationDate(PubDate(Some("2020"), Some("Mar"), None, Some("2019 Dec"))) == "2020 Mar"
  {
    YearAndMonth("2020", "Mar", Some("2019 Dec"));
  }

  /** `[x for x in parts if x]` keeps the order and the number of the
      non-empty parts: filtering a concatenation filters each side. */
  lemma {:induction false} NonEmptyAppend(a: seq<string>, b: seq<string>)
    ensures NonEmpty(a + b) == NonEmpty(a) + NonEmpty(b)
  {
    if a != [] {
      assert (a + b)[1..] == a[1..] + b;
      NonEmptyAppend(a[1..], b);
    } else {
      assert a + b == b;
    }
  }

  /** A single part is kept exactly when it is not empty. */
  function Kept(x: string): (r: seq<string>)
    ensures r == NonEmpty([x])
  {
    assert [x][1..] == [];
    if x == [] then [] else [x]
  }

  /** With a Year, the date is the non-empty ones among the stripped Year,
      Month and Day, in that order, each once, separated by one space. */
  lemma DateOfParts(p: PubDate)
    requires Present(p.year)
    ensures PublicationDate(p)
      == Join(" ", Kept(Strip(p.year.value)) + Kept(TextOrEmpty(p.month)) + Kept(TextOrEmpty(p.day)))
  {
    NonEmptyOfThree(Strip(p.year.value), TextOrEmpty(p.month), TextOrEmpty(p.day));
  }

  lemma NonEmptyOfThree(y: string, m: string, d: string)
    ensures NonEmpty([y, m, d]) == Kept(y) + Kept(m) + Kept(d)
  {
    assert [y, m, d][1..] == [m, d] && [m, d][1..] == [d] && [d][1..] == [];
  }

  /** Year "2020" and Day "5" without a Month give "2020 5". */
  lemma YearDayExample()
    ensures PublicationDate(PubDate(Some("2020"), None, Some("5"), None)) == "2020 5"
  {
    TwoParts("2020", "5", None);
  }

  /** The space-join of the kept ones among three parts, the first and last
      not empty. */
  lemma JoinKept(y: string, m: string, d: string)
    requires y != [] && d != []
    ensures Join(" ", Kept(y) + Kept(m) + Kept(d)) == if m == [] then y + " " + d else y + " " + m + " " + d
  {
    if m == [] {
      assert Kept(y) + Kept(m) + Kept(d) == [y, d];
      JoinTwo(" ", y, d);
    } else {
      assert Kept(y) + Kept(m) + Kept(d) == [y, m, d];
      JoinThree(" ", y, m, d);
    }
  }

  /** Non-empty trimmed Year, Month and Day give "Year Month Day". */
  lemma ThreeParts(y: string, m: string, d: string, medline: Option<string>)
    requires y != [] && m != [] && d != [] && Trimmed(y) && Trimmed(m) && Trimmed(d)
    ensures PublicationDate(PubDate(Some(y), Some(m), Some(d), medline)) == y + " " + m + " " + d
  {
    StripTrimmed(y);
    StripTrimmed(m);
    StripTrimmed(d);
    DateOfParts(PubDate(Some(y), Some(m), Some(d), medline));
    JoinKept(y, m, d);
  }

  /** Non-empty trimmed Year and Day without a Month give "Year Day". */
  lemma TwoParts(y: string, d: string, medline: Option<string>)
    requires y != [] && d != [] && Trimmed(y) && Trimmed(d)
    ensures PublicationDate(PubDate(Some(y), None, Some(d), medline)) == y + " " + d
  {
    StripTrimmed(y);
    StripTrimmed(d);
    DateOfParts(PubDate(Some(y), None, Some(d), medline));
    JoinKept(y, "", d);
  }

  /** With a Year and a Month but no Day the date is "Year Month",
      whatever MedlineDate holds. */
  lemma YearAndMonth(y: string, m: string, medline: Option<string>)
    requires y != [] && m != [] && Trimmed(y) && Trimmed(m)
    ensures PublicationDate(PubDate(Some(y), Some(m), None, medline)) == y + " " + m
  {
    StripTrimmed(y);
    StripTrimmed(m);
    assert TextOrEmpty(Some(m)) == m;
    assert NonEmpty([y, m, ""]) == [y, m] by {
      assert [y, m, ""][1..] == [m, ""] && [m, ""][1..] == [""];
      assert NonEmpty([""]) == [];
    }
    assert [y, m][1..] == [m];
  }

  /** Without a Year, MedlineDate is used as it stands, Month and Day ignored. */
  lemma MedlineDateExample()
    ensures PublicationDate(PubDate(None, Some("Mar"), Some("5"), Some("2019 Dec-2020 Jan"))) == "2019 Dec-2020 Jan"
  {
    MedlineDateAsIs(Some("Mar"), Some("5"), "2019 Dec-2020 Jan");
  }

  /** Without a Year a trimmed MedlineDate is the date unchanged. */
  lemma MedlineDateAsIs(month: Option<string>, day: Option<string>, medline: string)
    requires Trimmed(medline)
    ensures PublicationDate(PubDate(None, month, day, Some(medline))) == medline
  {
    StripTrimmed(medline);
  }

  /** One `AbstractText` element: its text, its Label and NlmCategory
      attributes. */
  datatype AbstractText = AbstractText(text: string, labelText: Option<string>, nlmCategory: Option<string>)

  /** The line one element contributes (app.py:76-82), None when its text is
      blank: "Label: text" when it has a Label (or else an NlmCategory). */
  function AbstractLine(a: AbstractText): (r: Option<string>)
    ensures r.None? <==> Blank(a.text)
    ensures r.Some? ==> !Blank(r.value)
    ensures r.Some? && Present(a.labelText) ==> r.value == a.labelText.value + ": " + Strip(a.text)
    ensures r.Some? && !Present(a.labelText) && Present(a.nlmCategory) ==> r.value == a.nlmCategory.value + ": " + Strip(a.text)
    ensures r.Some? && !Present(a.labelText) && !Present(a.nlmCategory) ==> r.value == Strip(a.text)
  {
    var text := Strip(a.text);
    if text == "" then None
    else
      var tag := if Present(a.labelText) then a.labelText else a.nlmCategory;
      var line := if Present(tag) then tag.value + ": " + text else text;
      assert line[|line| - |text|] == text[0] && !IsSpace(text[0]);
      Some(line)
  }

  /** Every element's text is blank. */
  predicate AllBlank(parts: seq<AbstractText>) {
    forall k :: 0 <= k < |parts| ==> Blank(parts[k].text)
  }

  /** No line is blank. */
  predicate NoneBlank(lines: seq<string>) {
    forall k :: 0 <= k < |lines| ==> !Blank(lines[k])
  }

  /** The lines of all elements, in document order. */
  function AbstractLines(parts: seq<AbstractText>): (r: seq<string>)
    ensures r == [] <==> AllBlank(parts)
    ensures NoneBlank(r)
  {
    if parts == [] then []
    else
      AllBlankFirst(parts);
      LinesOf(parts[0]) + AbstractLines(parts[1..])
  }

  /** The lines of one element: its line, or none when its text is blank. */
  function LinesOf(a: AbstractText): (r: seq<string>)
    ensures |r| <= 1
    ensures r == [] <==> Blank(a.text)
    ensures r != [] ==> Some(r[0]) == AbstractLine(a)
  {
    if AbstractLine(a).None? then [] else [AbstractLine(a).value]
  }

  /** A single element contributes exactly its own line, if any. */
  lemma LinesOfOne(a: AbstractText)
    ensures AbstractLines([a]) == LinesOf(a)
  {
    assert [a][1..] == [];
  }

  /** The lines of a non-empty run: the first element's, then the rest's. */
  lemma AbstractLinesCons(parts: seq<AbstractText>)
    requires parts != []
    ensures AbstractLines(parts) == LinesOf(parts[0]) + AbstractLines(parts[1..])
  {
  }

  /** The lines of consecutive runs of elements are the lines of each run,
      in document order: every element contributes its own line, in place. */
  lemma {:induction false} AbstractLinesAppend(a: seq<AbstractText>, b: seq<AbstractText>)
    ensures AbstractLines(a + b) == AbstractLines(a) + AbstractLines(b)
  {
    if a == [] {
      assert a + b == b;
    } else {
      AbstractLinesAppend(a[1..], b);
      TailOfConcat(a, b);
      AbstractLinesCons(a + b);
      AbstractLinesCons(a);
      ConcatAssoc(LinesOf(a[0]), AbstractLines(a[1..]), AbstractLines(b));
    }
  }

  lemma AllBlankFirst(parts: seq<AbstractText>)
    requires parts != []
    ensures AllBlank(parts) <==> Blank(parts[0].text) && AllBlank(parts[1..])
  {
    assert forall k :: 1 <= k < |parts| ==> parts[1..][k - 1] == parts[k];
  }

  /** `resumo_en` (app.py:83): the lines joined by newlines and stripped;
      empty exactly when every element's text is blank. */
  function Abstract(parts: seq<AbstractText>): (r: string)
    ensures Trimmed(r)
    ensures r == "" <==> AllBlank(parts)
    ensures r == Strip(Join("\n", AbstractLines(parts)))
  {
    var lines := AbstractLines(parts);
    if lines == [] then ""
    else
      var joined := Join("\n", lines);
      assert !Blank(joined) by {
        JoinEnds("\n", lines);
        var k :| 0 <= k < |lines[0]| && !IsSpace(lines[0][k]);
        assert joined[k] == joined[..|lines[0]|][k];
      }
      Strip(joined)
  }

  /** The lines of three elements are their own lines, in order. */
  lemma LinesOfThree(p: AbstractText, q: AbstractText, t: AbstractText)
    ensures AbstractLines([p, q, t]) == LinesOf(p) + LinesOf(q) + LinesOf(t)
  {
    LinesOfOne(p);
    LinesOfOne(q);
    LinesOfOne(t);
    AbstractLinesAppend([p], [q]);
    AbstractLinesAppend([p] + [q], [t]);
    ThreeSingletons(p, q, t);
  }

  /** A Label tags its line, a blank text gives no line, and an NlmCategory
      tags the line when there is no Label. */
  lemma TaggedLines()
    ensures LinesOf(AbstractText("a", Some("AIM"), None)) == ["AIM: a"]
    ensures LinesOf(AbstractText(" ", Some("MET"), None)) == []
    ensures LinesOf(AbstractText("b", None, Some("RES"))) == ["RES: b"]
  {
    StripTrimmed("a");
    StripTrimmed("b");
    assert Blank(" ");
    assert "AIM" + ": " + "a" == "AIM: a";
    assert "RES" + ": " + "b" == "RES: b";
  }

  /** A labelled element, a blank one and one with only an NlmCategory: two
      tagged lines joined by a newline. */
  lemma AbstractExample()
    ensures Abstract([AbstractText("a", Some("AIM"), None),
                      AbstractText(" ", Some("MET"), None),
                      AbstractText("b", None, Some("RES"))]) == "AIM: a" + "\n" + "RES: b"
  {
    var p, q, t := AbstractText("a", Some("AIM"), None), AbstractText(" ", Some("MET"), None), AbstractText("b", None, Some("RES"));
    LinesOfThree(p, q, t);
    TaggedLines();
    var lines := ["AIM: a", "RES: b"];
    assert AbstractLines([p, q, t]) == lines;
    JoinTwo("\n", lines[0], lines[1]);
    StripTrimmed(lines[0] + "\n" + lines[1]);
  }
}
