/** A pandas cell. A DataFrame cell is `Option<Cell>`: `None` is a missing
    value (pd.NA, None, NaN), which `pd.isna` recognises; `Some` holds a Python
    int, a str, or another object, the last known only by what `str()` gives
    for it (a float such as 2019.0 shows as "2019.0"). */
module Values {
  import opened Wrappers
  import opened Text

  datatype Cell = IntCell(n: int) | TextCell(s: string) | OtherCell(shown: string)

  /** Python's `str(value)` for a present cell. */
  function Str(c: Cell): (r: string)
    ensures c.IntCell? ==> r == IntText(c.n)
    ensures c.TextCell? ==> r == c.s
  {
    match c
    case IntCell(n) => IntText(n)
    case TextCell(s) => s
    case OtherCell(shown) => shown
  }

  /** Python truthiness of a cell, as `x or default` tests it: a missing
      value, 0 and "" are false. */
  predicate Truthy(v: Option<Cell>)
    ensures Truthy(v) <==> v.Some? && v.value != IntCell(0) && v.value != TextCell("")
  {
    match v
    case None => false
    case Some(IntCell(n)) => n != 0
    case Some(TextCell(s)) => s != ""
    case Some(OtherCell(_)) => true
  }

  /** `f"{v}"`: a missing value shows as pd.NA does, "<NA>". */
  function Format(v: Option<Cell>): (r: string)
    ensures v.None? ==> r == "<NA>"
    ensures v.Some? ==> r == Str(v.value)
    ensures r == [] ==> v.Some? && !v.value.IntCell?
  {
    match v
    case None => "<NA>"
    case Some(c) => Str(c)
  }
}
