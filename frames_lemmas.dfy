/** What `normalizar_artigos` promises, proved about `Frames.Normalized`. */
module FramesLemmas {
  import opened Wrappers
  import opened Values
  import opened Years
  import opened Frames

  lemma {:induction false} CanonicalNameOfSource(columns: seq<string>, aliases: seq<(string, string)>, m: nat)
    requires ValidAliases(aliases) && m < |aliases|
    ensures CanonicalName(columns, aliases, aliases[m].0) == if aliases[m].1 in columns then aliases[m].0 else aliases[m].1
  {
    var n := |aliases| - 1;
    if m == n {
      if aliases[m].1 in columns {
        CanonicalNameOfOther(columns, aliases[..n], aliases[m].0);
      }
    } else {
      assert ValidAliases(aliases[..n]);
      CanonicalNameOfSource(columns, aliases[..n], m);
    }
  }

  /** Where a name of the alias table ends up after the renaming loop:
      `(k, v) = Aliases[m]`; the canonical `v` keeps its own values when it
      was already a column, otherwise it takes over `k`'s values. */
  lemma RenamedAlias(t: Table, m: nat)
    requires WellFormed(t) && m < |Aliases|
    ensures var r := RenameAll(t, Aliases);
            var (k, v) := Aliases[m];
      && (v in r.columns <==> v in t.columns || k in t.columns)
      && (k in r.columns <==> k in t.columns && v in t.columns)
      && (v in t.columns ==> forall i :: 0 <= i < |t.rows| ==> r.rows[i][v] == t.rows[i][v])
      && (v !in t.columns && k in t.columns ==> forall i :: 0 <= i < |t.rows| ==> r.rows[i][v] == t.rows[i][k])
      && (k in r.columns ==> forall i :: 0 <= i < |t.rows| ==> r.rows[i][k] == t.rows[i][k])
  {
    AliasesValid();
    RenamedAliasOf(t, Aliases, m);
  }

  /** `RenamedAlias` for any alias table with distinct, unchained names. */
  lemma RenamedAliasOf(t: Table, aliases: seq<(string, string)>, m: nat)
    requires WellFormed(t) && ValidAliases(aliases) && m < |aliases|
    ensures var r := RenameAll(t, aliases);
            var (k, v) := aliases[m];
      && (v in r.columns <==> v in t.columns || k in t.columns)
      && (k in r.columns <==> k in t.columns && v in t.columns)
      && (v in t.columns ==> forall i :: 0 <= i < |t.rows| ==> r.rows[i][v] == t.rows[i][v])
      && (v !in t.columns && k in t.columns ==> forall i :: 0 <= i < |t.rows| ==> r.rows[i][v] == t.rows[i][k])
      && (k in r.columns ==> forall i :: 0 <= i < |t.rows| ==> r.rows[i][k] == t.rows[i][k])
  {
    RenameAllIsCanonical(t, aliases);
    var r := RenameAll(t, aliases);
    var (k, v) := aliases[m];
    CanonicalNameOfSource(t.columns, aliases, m);
    CanonicalNameOfOther(t.columns, aliases, v);
    if v in r.columns {
      var j :| 0 <= j < |r.columns| && r.columns[j] == v;
      CanonicalNameIsSourceOrTarget(t.columns, aliases, t.columns[j]);
    }
    if k in r.columns {
      var j :| 0 <= j < |r.columns| && r.columns[j] == k;
      CanonicalNameIsSourceOrTarget(t.columns, aliases, t.columns[j]);
    }
    if v in t.columns {
      var j :| 0 <= j < |t.columns| && t.columns[j] == v;
      assert r.columns[j] == v;
    }
    if k in t.columns {
      var j :| 0 <= j < |t.columns| && t.columns[j] == k;
      assert r.columns[j] == if v in t.columns then k else v;
    }
  }

  /** An empty frame (no rows or no columns) normalises to a fresh empty
      frame with exactly the eight article columns. */
  lemma EmptyNormalizesToArticleColumns(t: Table)
    requires WellFormed(t) && IsEmpty(t)
    ensures Normalized(t).rows == []
    ensures Normalized(t).columns == ["pmid", "titulo", "titulo_en", "periodico", "data_publicacao", "resumo", "resumo_en", "ano"]
  {
  }

  /** Normalising keeps the row count and the row order: column `j` keeps
      its position under its canonical name, and every value outside the
      `ano` column is the input's value in the same row. */
  lemma NormalizeKeepsRows(t: Table)
    requires WellFormed(t) && !IsEmpty(t)
    ensures var r := Normalized(t);
      && |r.rows| == |t.rows|
      && "ano" in r.columns
      && (forall j :: 0 <= j < |t.columns| ==> r.columns[j] == CanonicalName(t.columns, Aliases, t.columns[j]))
      && (forall i, j :: 0 <= i < |t.rows| && 0 <= j < |t.columns| && r.columns[j] != "ano" ==>
            r.rows[i][r.columns[j]] == t.rows[i][t.columns[j]])
  {
    AliasesValid();
    RenameAllIsCanonical(t, Aliases);
  }

  /** An alias is renamed only when its canonical name is absent: when both
      are columns, the canonical column keeps its own values and the alias
      stays as it was. */
  lemma CanonicalColumnWins(t: Table, m: nat)
    requires WellFormed(t) && !IsEmpty(t) && m < |Aliases|
    requires Aliases[m].0 in t.columns && Aliases[m].1 in t.columns
    ensures var r := Normalized(t);
      && Aliases[m].0 in r.columns && Aliases[m].1 in r.columns
      && (forall i :: 0 <= i < |t.rows| ==> r.rows[i][Aliases[m].0] == t.rows[i][Aliases[m].0])
      && (Aliases[m].1 != "ano" ==> forall i :: 0 <= i < |t.rows| ==> r.rows[i][Aliases[m].1] == t.rows[i][Aliases[m].1])
  {
    RenamedAlias(t, m);
  }

  /** The derived `ano` column (app.py:158-163), in terms of the input's
      columns: an existing `ano` (or `year`, renamed to it) keeps its ints
      and NAs and has everything else re-extracted; otherwise the year is
      extracted from `data_publicacao` (or `pubdate`); otherwise it is NA. */
  lemma NormalizedYear(t: Table, i: nat)
    requires WellFormed(t) && !IsEmpty(t) && i < |t.rows|
    ensures var y := Normalized(t).rows[i]["ano"];
      && (y.None? || y.value.IntCell?)
      && (y.Some? && y.value.IntCell? ==> 1900 <= y.value.n <= 2099 || (("ano" in t.columns || "year" in t.columns) && y == t.rows[i][if "ano" in t.columns then "ano" else "year"]))
      && ("ano" in t.columns ==> y == KeepOrExtract(t.rows[i]["ano"]))
      && ("ano" !in t.columns && "year" in t.columns ==> y == KeepOrExtract(t.rows[i]["year"]))
      && ("ano" !in t.columns && "year" !in t.columns && "data_publicacao" in t.columns ==>
            y == YearCell(ExtractYear(t.rows[i]["data_publicacao"])))
      && ("ano" !in t.columns && "year" !in t.columns && "data_publicacao" !in t.columns && "pubdate" in t.columns ==>
            y == YearCell(ExtractYear(t.rows[i]["pubdate"])))
      && ("ano" !in t.columns && "year" !in t.columns && "data_publicacao" !in t.columns && "pubdate" !in t.columns ==>
            y == None)
  {
    RenamedAlias(t, 1);
    RenamedAlias(t, 3);
    var r := RenameAll(t, Aliases);
    var y := Normalized(t).rows[i]["ano"];
    assert y == YearColumn(r)[i];
    if "ano" in r.columns {
      var v := r.rows[i]["ano"];
      if v.Some? && !v.value.IntCell? {
        assert y == YearCell(ExtractYear(v));
      }
    } else if "data_publicacao" in r.columns {
      assert y == YearCell(ExtractYear(r.rows[i]["data_publicacao"]));
    }
  }
}
