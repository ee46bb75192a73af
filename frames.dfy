/** The article DataFrame of app.py: column alias resolution
    (`primeira_coluna_existente`) and `normalizar_artigos`, which renames
    aliased columns in place and (re)derives the `ano` column. */
module Frames {
  import opened Wrappers
  import opened Text
  import opened Values
  import opened Years

  /** One DataFrame row: column name to cell, `None` for a missing value. */
  type Row = map<string, Option<Cell>>

  /** The value of a DataFrame: its columns in order and its rows in order. */
  datatype Table = Table(columns: seq<string>, rows: seq<Row>)

  /** Column names are distinct and every row has exactly the columns. */
  predicate WellFormed(t: Table) {
    && Distinct(t.columns)
    && forall i :: 0 <= i < |t.rows| ==> t.rows[i].Keys == set c | c in t.columns
  }

  /** `df.empty`: no rows or no columns. */
  predicate IsEmpty(t: Table) {
    |t.rows| == 0 || |t.columns| == 0
  }

  /** The columns of the frame returned for an empty input (app.py:145-147). */
  const ArticleColumns: seq<string> :=
    ["pmid", "titulo", "titulo_en", "periodico", "data_publicacao", "resumo", "resumo_en", "ano"]

  /** The `renomes` table (app.py:148-154), in its iteration order. */
  const Aliases: seq<(string, string)> := [
    ("title", "titulo"),
    ("year", "ano"),
    ("journal", "periodico"),
    ("pubdate", "data_publicacao"),
    ("abstract", "resumo")
  ]

  /** `primeira_coluna_existente(df, candidatas)`: the first candidate, in
      list order, that is a column of the frame; None when none is. */
  method FirstExistingColumn(columns: seq<string>, candidates: seq<string>) returns (r: Option<string>)
    ensures r.Some? ==> r.value in columns
    ensures r.Some? ==> exists k :: 0 <= k < |candidates| && candidates[k] == r.value
                                    && forall j :: 0 <= j < k ==> candidates[j] !in columns
    ensures r.None? ==> forall k :: 0 <= k < |candidates| ==> candidates[k] !in columns
  {
    for k := 0 to |candidates|
      invariant forall j :: 0 <= j < k ==> candidates[j] !in columns
    {
      if candidates[k] in columns {
        return Some(candidates[k]);
      }
    }
    return None;
  }

  /** `df.rename(columns={from: to})` on one row. */
  function RenameKey(r: Row, from: string, to: string): Row
    requires from in r
  {
    (r - {from})[to := r[from]]
  }

  /** `df.rename(columns={from: to})`: the column keeps its position and its
      values under the new name. */
  function RenameColumn(t: Table, from: string, to: string): (r: Table)
    requires WellFormed(t) && from in t.columns && to !in t.columns
    ensures WellFormed(r)
    ensures |r.columns| == |t.columns| && |r.rows| == |t.rows|
    ensures forall j :: 0 <= j < |t.columns| ==> r.columns[j] == if t.columns[j] == from then to else t.columns[j]
    ensures forall i, j :: 0 <= i < |t.rows| && 0 <= j < |t.columns| ==> r.rows[i][r.columns[j]] == t.rows[i][t.columns[j]]
  {
    var cols := seq(|t.columns|, j requires 0 <= j < |t.columns| => if t.columns[j] == from then to else t.columns[j]);
    var rows := seq(|t.rows|, i requires 0 <= i < |t.rows| => RenameKey(t.rows[i], from, to));
    RenamedNames(t.columns, from, to, cols);
    Table(cols, rows)
  }

  /** Renaming one name to a fresh one keeps the names distinct and swaps
      `from` for `to` in their set. */
  lemma RenamedNames(columns: seq<string>, from: string, to: string, cols: seq<string>)
    requires Distinct(columns) && from in columns && to !in columns
    requires |cols| == |columns|
    requires forall j :: 0 <= j < |columns| ==> cols[j] == if columns[j] == from then to else columns[j]
    ensures Distinct(cols)
    ensures (set c | c in cols) == (set c | c in columns) - {from} + {to}
  {
    forall c | c in columns && c != from ensures c in cols {
      var j :| 0 <= j < |columns| && columns[j] == c;
      assert cols[j] == c;
    }
    var jf :| 0 <= jf < |columns| && columns[jf] == from;
    assert cols[jf] == to;
  }

  /** One step of the renaming loop (app.py:155-157): rename `k` to `v` only
      when `k` is a column and `v` is not. */
  function RenameStep(t: Table, alias: (string, string)): (r: Table)
    requires WellFormed(t)
    ensures WellFormed(r) && |r.rows| == |t.rows| && |r.columns| == |t.columns|
  {
    if alias.0 in t.columns && alias.1 !in t.columns then RenameColumn(t, alias.0, alias.1) else t
  }

  /** The renaming loop over `aliases`, in order. */
  function RenameAll(t: Table, aliases: seq<(string, string)>): (r: Table)
    requires WellFormed(t)
    ensures WellFormed(r) && |r.rows| == |t.rows| && |r.columns| == |t.columns|
  {
    if aliases == [] then t else RenameStep(RenameAll(t, aliases[..|aliases| - 1]), aliases[|aliases| - 1])
  }

  /** The name a column ends up with: the alias target of `c` when `c` is an
      alias source whose canonical name was not already a column. */
  function CanonicalName(columns: seq<string>, aliases: seq<(string, string)>, c: string): string
  {
    if aliases == [] then c
    else if c == aliases[|aliases| - 1].0 && aliases[|aliases| - 1].1 !in columns then aliases[|aliases| - 1].1
    else CanonicalName(columns, aliases[..|aliases| - 1], c)
  }

  /** Sources distinct, targets distinct, and no name both a source and a
      target: then the order of the renaming loop does not matter. */
  predicate ValidAliases(aliases: seq<(string, string)>) {
    && (forall i, j :: 0 <= i < j < |aliases| ==> aliases[i].0 != aliases[j].0 && aliases[i].1 != aliases[j].1)
    && (forall i, j :: 0 <= i < |aliases| && 0 <= j < |aliases| ==> aliases[i].0 != aliases[j].1)
  }

  /** The first letter and the length of each alias and canonical name. */
  lemma AliasShapes()
    ensures |Aliases| == 5 && forall i :: 0 <= i < 5 ==> |Aliases[i].0| > 0 && |Aliases[i].1| > 0
    ensures Aliases[0].0[0] == 't' && |Aliases[0].0| == 5 && Aliases[0].1[0] == 't' && |Aliases[0].1| == 6
    ensures Aliases[1].0[0] == 'y' && |Aliases[1].0| == 4 && Aliases[1].1[0] == 'a' && |Aliases[1].1| == 3
    ensures Aliases[2].0[0] == 'j' && |Aliases[2].0| == 7 && Aliases[2].1[0] == 'p' && |Aliases[2].1| == 9
    ensures Aliases[3].0[0] == 'p' && |Aliases[3].0| == 7 && Aliases[3].1[0] == 'd' && |Aliases[3].1| == 15
    ensures Aliases[4].0[0] == 'a' && |Aliases[4].0| == 8 && Aliases[4].1[0] == 'r' && |Aliases[4].1| == 6
  {
  }

  /** The ten names differ pairwise in their first letter or their length. */
  lemma AliasesValid()
    ensures ValidAliases(Aliases)
  {
    AliasShapes();
    forall i, j | 0 <= i < 5 && 0 <= j < 5
      ensures i != j ==> Aliases[i].0 != Aliases[j].0 && Aliases[i].1 != Aliases[j].1
      ensures Aliases[i].0 != Aliases[j].1
    {
      var a, b, c, d := Aliases[i].0, Aliases[j].0, Aliases[i].1, Aliases[j].1;
      assert i != j ==> a[0] != b[0] || |a| != |b|;
      assert i != j ==> c[0] != d[0] || |c| != |d|;
      assert a[0] != d[0] || |a| != |d|;
    }
  }

  lemma {:induction false} CanonicalNameOfOther(columns: seq<string>, aliases: seq<(string, string)>, c: string)
    requires forall m :: 0 <= m < |aliases| ==> aliases[m].0 != c
    ensures CanonicalName(columns, aliases, c) == c
  {
    if aliases != [] {
      CanonicalNameOfOther(columns, aliases[..|aliases| - 1], c);
    }
  }

  lemma {:induction false} CanonicalNameIsSourceOrTarget(columns: seq<string>, aliases: seq<(string, string)>, c: string)
    ensures CanonicalName(columns, aliases, c) == c
         || exists m :: 0 <= m < |aliases| && aliases[m].0 == c && aliases[m].1 == CanonicalName(columns, aliases, c)
  {
    if aliases != [] {
      var n := |aliases| - 1;
      if !(c == aliases[n].0 && aliases[n].1 !in columns) {
        CanonicalNameIsSourceOrTarget(columns, aliases[..n], c);
        if CanonicalName(columns, aliases, c) != c {
          var m :| 0 <= m < n && aliases[..n][m].0 == c && aliases[..n][m].1 == CanonicalName(columns, aliases, c);
          assert aliases[m] == aliases[..n][m];
        }
      }
    }
  }

  /** A name that no earlier alias mentions is a column after those
      renamings exactly when it was one before. */
  lemma PresenceKept(t: Table, prefix: seq<(string, string)>, x: string)
    requires WellFormed(t)
    requires forall m :: 0 <= m < |prefix| ==> prefix[m].0 != x && prefix[m].1 != x
    requires forall j :: 0 <= j < |t.columns| ==> RenameAll(t, prefix).columns[j] == CanonicalName(t.columns, prefix, t.columns[j])
    ensures x in RenameAll(t, prefix).columns <==> x in t.columns
  {
    var p := RenameAll(t, prefix);
    if x in t.columns {
      var j :| 0 <= j < |t.columns| && t.columns[j] == x;
      CanonicalNameOfOther(t.columns, prefix, x);
      assert p.columns[j] == x;
    }
    if x in p.columns {
      var j :| 0 <= j < |p.columns| && p.columns[j] == x;
      CanonicalNameIsSourceOrTarget(t.columns, prefix, t.columns[j]);
      assert t.columns[j] == x;
    }
  }

  /** The renaming loop is a simultaneous renaming: column `j` keeps its
      position, takes its canonical name, and keeps its values in every row
      (so row count and row order are unchanged). */
  lemma {:induction false} RenameAllIsCanonical(t: Table, aliases: seq<(string, string)>)
    requires WellFormed(t) && ValidAliases(aliases)
    ensures var r := RenameAll(t, aliases);
      && (forall j :: 0 <= j < |t.columns| ==> r.columns[j] == CanonicalName(t.columns, aliases, t.columns[j]))
      && (forall i, j :: 0 <= i < |t.rows| && 0 <= j < |t.columns| ==> r.rows[i][r.columns[j]] == t.rows[i][t.columns[j]])
  {
    if aliases != [] {
      var n := |aliases| - 1;
      var prefix := aliases[..n];
      var (k, v) := aliases[n];
      assert ValidAliases(prefix);
      RenameAllIsCanonical(t, prefix);
      var p := RenameAll(t, prefix);
      // k and v are columns after the prefix exactly when they were before it
      PresenceKept(t, prefix, k);
      PresenceKept(t, prefix, v);
      forall j | 0 <= j < |t.columns|
        ensures RenameAll(t, aliases).columns[j] == CanonicalName(t.columns, aliases, t.columns[j])
      {
        if t.columns[j] == k {
          CanonicalNameOfOther(t.columns, prefix, k);
        } else if p.columns[j] == k {
          CanonicalNameIsSourceOrTarget(t.columns, prefix, t.columns[j]);
        }
      }
    }
  }

  /** Wraps an extracted year as a cell: an int, or NA. */
  function YearCell(y: Option<int>): (c: Option<Cell>)
  {
    match y
    case Some(n) => Some(IntCell(n))
    case None => None
  }

  /** The lambda of app.py:159: an int or NA is kept, anything else is
      re-extracted with `extrair_ano`. */
  function KeepOrExtract(v: Option<Cell>): (r: Option<Cell>)
    ensures r.None? || r.value.IntCell?
    ensures v.None? || v.value.IntCell? ==> r == v
    ensures v.Some? && !v.value.IntCell? ==> r == YearCell(ExtractYear(v))
  {
    if v.None? || v.value.IntCell? then v else YearCell(ExtractYear(v))
  }

  /** The new `ano` column (app.py:158-163). */
  function YearColumn(t: Table): (vals: seq<Option<Cell>>)
    requires WellFormed(t)
    ensures |vals| == |t.rows|
    ensures forall i :: 0 <= i < |vals| ==> vals[i].None? || vals[i].value.IntCell?
    ensures "ano" !in t.columns && "data_publicacao" !in t.columns ==> forall i :: 0 <= i < |vals| ==> vals[i].None?
  {
    if "ano" in t.columns then
      seq(|t.rows|, i requires 0 <= i < |t.rows| => KeepOrExtract(t.rows[i]["ano"]))
    else if "data_publicacao" in t.columns then
      seq(|t.rows|, i requires 0 <= i < |t.rows| => YearCell(ExtractYear(t.rows[i]["data_publicacao"])))
    else
      seq(|t.rows|, i => None)
  }

  /** `df[name] = values`: overwrite the column, or append it at the end. */
  function WithColumn(t: Table, name: string, vals: seq<Option<Cell>>): (r: Table)
    requires WellFormed(t) && |vals| == |t.rows|
    ensures WellFormed(r) && |r.rows| == |t.rows|
    ensures r.columns == if name in t.columns then t.columns else t.columns + [name]
    ensures forall i :: 0 <= i < |t.rows| ==> r.rows[i] == t.rows[i][name := vals[i]]
  {
    var cols := if name in t.columns then t.columns else t.columns + [name];
    assert (set c | c in cols) == (set c | c in t.columns) + {name};
    Table(cols, seq(|t.rows|, i requires 0 <= i < |t.rows| => t.rows[i][name := vals[i]]))
  }

  /** What `normalizar_artigos` returns for a frame whose value is `t`. */
  function Normalized(t: Table): (r: Table)
    requires WellFormed(t)
    ensures WellFormed(r)
    ensures "ano" in r.columns
    ensures IsEmpty(t) ==> r.rows == []
    ensures !IsEmpty(t) ==> |r.rows| == |t.rows|
  {
    if IsEmpty(t) then
      assert Distinct(ArticleColumns);
      assert ArticleColumns[7] == "ano";
      Table(ArticleColumns, [])
    else
      var renamed := RenameAll(t, Aliases);
      WithColumn(renamed, "ano", YearColumn(renamed))
  }

  /** A DataFrame, which `normalizar_artigos` updates in place. */
  class DataFrame {
    var columns: seq<string>
    var rows: seq<Row>

    function Value(): Table
      reads this
    {
      Table(columns, rows)
    }

    predicate Valid()
      reads this
    {
      WellFormed(Value())
    }

    predicate Empty()
      reads this
    {
      IsEmpty(Value())
    }

    constructor (t: Table)
      requires WellFormed(t)
      ensures Valid() && Value() == t
    {
      columns := t.columns;
      rows := t.rows;
    }

    /** `df.rename(columns={from: to}, inplace=True)`. */
    method Rename(from: string, to: string)
      requires Valid() && from in columns && to !in columns
      modifies this
      ensures Valid() && Value() == RenameColumn(old(Value()), from, to)
    {
      var r := RenameColumn(Value(), from, to);
      columns, rows := r.columns, r.rows;
    }

    /** `df[name] = values`. */
    method SetColumn(name: string, vals: seq<Option<Cell>>)
      requires Valid() && |vals| == |rows|
      modifies this
      ensures Valid() && Value() == WithColumn(old(Value()), name, vals)
    {
      var r := WithColumn(Value(), name, vals);
      columns, rows := r.columns, r.rows;
    }
  }

  /** `normalizar_artigos(df)`: an empty frame gives a new empty frame with
      the eight article columns; otherwise `df` itself is renamed and given
      its `ano` column, and returned. */
  method NormalizeArticles(df: DataFrame) returns (r: DataFrame)
    requires df.Valid()
    modifies df
    ensures r.Valid() && r.Value() == Normalized(old(df.Value()))
    ensures old(df.Empty()) ==> fresh(r) && unchanged(df)
    ensures !old(df.Empty()) ==> r == df
  {
    if df.Empty() {
      assert Distinct(ArticleColumns);
      r := new DataFrame(Table(ArticleColumns, []));
      return;
    }
    for n := 0 to |Aliases|
      invariant df.Valid() && df.Value() == RenameAll(old(df.Value()), Aliases[..n])
    {
      var alias := Aliases[n];
      if alias.0 in df.columns && alias.1 !in df.columns {
        df.Rename(alias.0, alias.1);
      }
      assert Aliases[..n + 1][..n] == Aliases[..n];
    }
    assert Aliases[..|Aliases|] == Aliases;
    var t := df.Value();
    if "ano" in df.columns {
      df.SetColumn("ano", seq(|t.rows|, i requires 0 <= i < |t.rows| => KeepOrExtract(t.rows[i]["ano"])));
    } else if "data_publicacao" in df.columns {
      df.SetColumn("ano", seq(|t.rows|, i requires 0 <= i < |t.rows| => YearCell(ExtractYear(t.rows[i]["data_publicacao"]))));
    } else {
      df.SetColumn("ano", seq(|t.rows|, i => None));
    }
    r := df;
  }
}
