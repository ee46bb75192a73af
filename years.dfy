/** Year extraction (app.py `_extrair_ano_qualquer` and `extrair_ano`): the
    leftmost match of the regular expression `(19|20)\d{2}`, as an int. */
module Years {
  import opened Wrappers
  import opened Text
  import opened Values

  /** The pattern `(19|20)\d{2}` matches the four characters at `i`. */
  predicate MatchAt(s: string, i: int) {
    && 0 <= i && i + 4 <= |s|
    && ((s[i] == '1' && s[i + 1] == '9') || (s[i] == '2' && s[i + 1] == '0'))
    && IsAsciiDigit(s[i + 2]) && IsAsciiDigit(s[i + 3])
  }

  /** `int(m.group(0))` for a match at `i`. */
  function MatchValue(s: string, i: int): (y: int)
    requires MatchAt(s, i)
    ensures 1900 <= y <= 2099
  {
    1000 * DigitValue(s[i]) + 100 * DigitValue(s[i + 1]) + 10 * DigitValue(s[i + 2]) + DigitValue(s[i + 3])
  }

  /** `re.search` from position `from`: the leftmost start of a match. */
  function FirstMatch(s: string, from: nat): (k: Option<nat>)
    ensures k.Some? ==> from <= k.value && MatchAt(s, k.value)
    ensures k.Some? ==> forall j :: from <= j < k.value ==> !MatchAt(s, j)
    ensures k.None? ==> forall j :: from <= j ==> !MatchAt(s, j)
    decreases |s| - from
  {
    if |s| < from + 4 then None
    else if MatchAt(s, from) then Some(from)
    else FirstMatch(s, from + 1)
  }

  /** The year of the leftmost `(19|20)\d{2}` run in `s`, if there is one. */
  function FirstYear(s: string): (y: Option<int>)
    ensures y.Some? ==> 1900 <= y.value <= 2099
    ensures y.Some? <==> exists i :: MatchAt(s, i)
  {
    match FirstMatch(s, 0)
    case Some(k) => Some(MatchValue(s, k))
    case None => None
  }

  /** `_extrair_ano_qualquer(texto)` for a string: NA for the empty string,
      otherwise the leftmost year. */
  function ExtractYearAny(text: string): (y: Option<int>)
    ensures y == ExtractYear(Some(TextCell(text)))
    ensures text == "" ==> y.None?
  {
    if text == "" then None else FirstYear(text)
  }

  /** `extrair_ano(valor)`: NA for a missing value, otherwise the leftmost
      year of `str(valor)`. */
  function ExtractYear(v: Option<Cell>): (y: Option<int>)
    ensures y.Some? ==> v.Some? && 1900 <= y.value <= 2099
    ensures v.Some? ==> (y.Some? <==> exists i :: MatchAt(Str(v.value), i))
  {
    match v
    case None => None
    case Some(c) => FirstYear(Str(c))
  }

  /** The year found is the one that starts leftmost: no match starts
      before it, and it is the value of the match at its position. */
  lemma {:induction false} FirstYearIsLeftmost(s: string, i: nat)
    requires MatchAt(s, i)
    requires forall j :: 0 <= j < i ==> !MatchAt(s, j)
    ensures FirstYear(s) == Some(MatchValue(s, i))
  {
    assert FirstMatch(s, 0) == Some(i);
  }

  /** A year in range written as decimal digits is extracted unchanged, so
      extraction is idempotent on its own results, whether the year arrives
      as an int (through `str`) or as its text. */
  lemma YearOfYearText(y: int)
    requires 1900 <= y <= 2099
    ensures |IntText(y)| == 4 && MatchAt(IntText(y), 0) && MatchValue(IntText(y), 0) == y
    ensures ExtractYear(Some(IntCell(y))) == Some(y)
    ensures ExtractYear(Some(TextCell(IntText(y)))) == Some(y)
  {
    var s := IntText(y);
    assert s == NatText(y / 10) + [DigitChar(y % 10)];
    assert NatText(y / 10) == NatText(y / 100) + [DigitChar((y / 10) % 10)];
    assert NatText(y / 100) == NatText(y / 1000) + [DigitChar((y / 100) % 10)];
    assert NatText(y / 1000) == [DigitChar(y / 1000)];
    assert s == [DigitChar(y / 1000), DigitChar((y / 100) % 10), DigitChar((y / 10) % 10), DigitChar(y % 10)];
    assert MatchAt(s, 0);
    FirstYearIsLeftmost(s, 0);
  }

  /** A date range yields its first year, not the later one. */
  lemma RangeYieldsFirstYear()
    ensures ExtractYearAny("2019-2021") == Some(2019)
  {
    assert MatchAt("2019-2021", 0);
    FirstYearIsLeftmost("2019-2021", 0);
  }

  /** The leftmost year wins over a smaller one further right, and text
      before it is skipped. */
  lemma LeftmostNotSmallest()
    ensures ExtractYearAny("May 2021/1999") == Some(2021)
  {
    var s := "May 2021/1999";
    assert MatchAt(s, 4);
    assert !MatchAt(s, 0) && !MatchAt(s, 1) && !MatchAt(s, 2) && !MatchAt(s, 3);
    FirstYearIsLeftmost(s, 4);
  }

  /** Text with no `19xx`/`20xx` run gives NA, never a guess. */
  lemma NoMatchNoYear(s: string)
    requires forall i :: 0 <= i && i + 4 <= |s| ==> !((s[i] == '1' && s[i + 1] == '9') || (s[i] == '2' && s[i + 1] == '0'))
    ensures ExtractYearAny(s).None?
    ensures ExtractYear(Some(TextCell(s))).None?
  {
  }
}
