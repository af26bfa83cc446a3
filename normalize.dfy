/** Cleaning the raw stats table: splitting "made/attempted" cells and coercing every numeric
    column to its type (nba_analysis.py, lines 46-56). */
module Normalize {
  import opened Cells
  import opened Fraction
  import opened Rounding
  import opened Frame

  /** Columns kept as nullable integer percentages. */
  const PercentColumns: seq<string> := ["FG%", "FT%"]

  /** The columns the normalisation loop visits, in its order. */
  const NumericColumns: seq<string> :=
    ["3PTM", "AST", "BLK", "FG%", "FT%", "PTS", "REB", "ST", "TO", "FGM", "FGA", "FTM", "FTA"]

  /** One half of a `parse_fraction` result stored in a column: a float, or None. */
  function FractionCell(v: Option<real>): Cell
  {
    match v
    case Some(x) => Float(x)
    case None => Missing
  }

  /** The first halves of `parse_fraction` over a column (the made counts of lines 46-47). */
  function MadeColumn(col: seq<Cell>): (r: seq<Cell>)
    ensures |r| == |col|
    ensures forall k :: 0 <= k < |col| ==> r[k].Missing? || r[k].Float?
  {
    seq(|col|, k requires 0 <= k < |col| => FractionCell(ParseFraction(col[k]).0))
  }

  /** The second halves of `parse_fraction` over a column (the attempted counts). */
  function AttemptedColumn(col: seq<Cell>): (r: seq<Cell>)
    ensures |r| == |col|
    ensures forall k :: 0 <= k < |col| ==> r[k].Missing? || r[k].Float?
  {
    seq(|col|, k requires 0 <= k < |col| => FractionCell(ParseFraction(col[k]).1))
  }

  /** The table after lines 46-47: FGM/FGA from "FGM/A", FTM/FTA from "FTM/A". */
  function SplitFractions(cols: Columns): (r: Columns)
    requires "FGM/A" in cols && "FTM/A" in cols
    ensures r.Keys == cols.Keys + {"FGM", "FGA", "FTM", "FTA"}
    ensures forall h :: Rectangular(cols, h) ==> Rectangular(r, h)
  {
    cols["FGM" := MadeColumn(cols["FGM/A"])]["FGA" := AttemptedColumn(cols["FGM/A"])]
        ["FTM" := MadeColumn(cols["FTM/A"])]["FTA" := AttemptedColumn(cols["FTM/A"])]
  }

  /** Row by row, the made and attempted cells are both numbers or both missing, and a
      cell "x/y" with two numeric sides gives x made and y attempted. */
  lemma FractionColumnsAgree(col: seq<Cell>, k: nat)
    requires k < |col|
    ensures MadeColumn(col)[k].Missing? <==> AttemptedColumn(col)[k].Missing?
    ensures MadeColumn(col)[k].Missing? || (MadeColumn(col)[k].Float? && AttemptedColumn(col)[k].Float?)
    ensures forall x, y ::
              (col[k] == Text(x + "/" + y) && '/' !in x && '/' !in y &&
               ParseDecimal(x).Some? && ParseDecimal(y).Some?) ==>
              (MadeColumn(col)[k] == Float(ParseDecimal(x).value) &&
               AttemptedColumn(col)[k] == Float(ParseDecimal(y).value))
  {
    forall x, y | col[k] == Text(x + "/" + y) && '/' !in x && '/' !in y &&
                  ParseDecimal(x).Some? && ParseDecimal(y).Some?
      ensures MadeColumn(col)[k] == Float(ParseDecimal(x).value)
      ensures AttemptedColumn(col)[k] == Float(ParseDecimal(y).value)
    {
      ParseFractionOfPair(x, y);
    }
  }

  /** Lines 46-47. `zip(*column)` of an empty column yields nothing to unpack into two
      names, so an empty table stops the script with a ValueError (ok == false). */
  method SplitFractionColumns(df: DataFrame) returns (ok: bool)
    requires df.Valid() && "FGM/A" in df.columns && "FTM/A" in df.columns
    modifies df
    ensures df.Valid() && df.height == old(df.height)
    ensures ok == (old(df.height) > 0)
    ensures df.columns == if ok then SplitFractions(old(df.columns)) else old(df.columns)
  {
    if df.height == 0 {
      return false;
    }
    var fgma := df.columns["FGM/A"];
    df.Assign("FGM", MadeColumn(fgma));
    df.Assign("FGA", AttemptedColumn(fgma));
    var ftma := df.columns["FTM/A"];
    df.Assign("FTM", MadeColumn(ftma));
    df.Assign("FTA", AttemptedColumn(ftma));
    ok := true;
  }

  /** Lines 52-56 for one cell of column `name`: `pd.to_numeric(errors='coerce')`, then a
      percentage is scaled by 100, rounded and kept nullable, and any other count has its
      NaN filled with 0 and is cast to int. */
  function NormalizeCell(name: string, c: Cell): (r: Cell)
    ensures name in PercentColumns ==> (r.Missing? <==> ToNumeric(c).None?)
    ensures name in PercentColumns ==> r.Missing? || r.Int?
    ensures name in PercentColumns && r.Int? ==>
              var v := 100.0 * ToNumeric(c).value;
              -0.5 <= v - r.i as real <= 0.5 && ((v - r.i as real == 0.5 || r.i as real - v == 0.5) ==> r.i % 2 == 0)
    ensures name !in PercentColumns ==> r.Int?
    ensures name !in PercentColumns && ToNumeric(c).None? ==> r == Int(0)
    ensures name !in PercentColumns && ToNumeric(c).Some? ==>
              var v := ToNumeric(c).value;
              v - 1.0 < r.i as real < v + 1.0 &&
              (0.0 <= v ==> 0.0 <= r.i as real <= v) && (v <= 0.0 ==> v <= r.i as real <= 0.0)
  {
    var v := ToNumeric(c);
    if name in PercentColumns then
      match v
      case Some(x) => Int(RoundHalfEven(100.0 * x))
      case None => Missing
    else
      match v
      case Some(x) => Int(TruncateToInt(x))
      case None => Int(0)
  }

  function NormalizeColumn(name: string, col: seq<Cell>): (r: seq<Cell>)
    ensures |r| == |col|
  {
    seq(|col|, k requires 0 <= k < |col| => NormalizeCell(name, col[k]))
  }

  /** The table after the loop at lines 51-56 has visited `names`, one column per round. */
  function NormalizeColumns(cols: Columns, names: seq<string>): (r: Columns)
    requires forall k :: 0 <= k < |names| ==> names[k] in cols
    ensures r.Keys == cols.Keys
    ensures forall name :: name in r ==> |r[name]| == |cols[name]|
    decreases |names|
  {
    if names == [] then cols
    else
      var prev := NormalizeColumns(cols, names[..|names| - 1]);
      var last := names[|names| - 1];
      prev[last := NormalizeColumn(last, prev[last])]
  }

  /** With distinct names, every visited column is normalised exactly once, from its value
      before the loop, and every other column is left as it was. */
  lemma {:induction false} NormalizeColumnsAt(cols: Columns, names: seq<string>, name: string)
    requires forall k :: 0 <= k < |names| ==> names[k] in cols
    requires Distinct(names) && name in cols
    ensures NormalizeColumns(cols, names)[name] ==
              if name in names then NormalizeColumn(name, cols[name]) else cols[name]
    decreases |names|
  {
    if names != [] {
      var init := names[..|names| - 1];
      var last := names[|names| - 1];
      NormalizeColumnsAt(cols, init, name);
      NormalizeColumnsAt(cols, init, last);
      assert last !in init;
      assert name in names <==> name in init || name == last;
    }
  }

  /** The loop at lines 51-56 over the column list `names` (the script passes
      NumericColumns), overwriting one column per round. */
  method NormalizeNumericColumns(df: DataFrame, names: seq<string>)
    requires df.Valid()
    requires forall k :: 0 <= k < |names| ==> names[k] in df.columns
    modifies df
    ensures df.Valid() && df.height == old(df.height)
    ensures df.columns == NormalizeColumns(old(df.columns), names)
  {
    var k := 0;
    while k < |names|
      invariant 0 <= k <= |names|
      invariant df.Valid() && df.height == old(df.height)
      invariant df.columns == NormalizeColumns(old(df.columns), names[..k])
    {
      var name := names[k];
      assert names[..k + 1][..k] == names[..k];
      df.Assign(name, NormalizeColumn(name, df.columns[name]));
      k := k + 1;
    }
    assert names[..k] == names;
  }

  /** The columns the raw table must hold for lines 46-56 (and the export) not to fail
      with a KeyError. */
  ghost predicate HasInputColumns(cols: Columns)
  {
    && "FGM/A" in cols && "FTM/A" in cols
    && "full_name" in cols && "editorial_team_abbr" in cols && "primary_position" in cols
    && forall k :: 0 <= k < 9 ==> NumericColumns[k] in cols
  }

  /** The facts about the two column lists the cleaning proofs use. */
  lemma ColumnListFacts()
    ensures Distinct(NumericColumns)
    ensures forall p :: p in PercentColumns ==> p in NumericColumns && p !in {"FGM", "FGA", "FTM", "FTA"}
    ensures forall p :: p in {"FGM", "FGA", "FTM", "FTA"} ==> p in NumericColumns
  {
  }

  lemma SplitFractionsHasNumeric(cols: Columns)
    requires HasInputColumns(cols)
    ensures forall j :: 0 <= j < |NumericColumns| ==> NumericColumns[j] in SplitFractions(cols)
  {
  }

  lemma SplitFractionsAt(cols: Columns, name: string)
    requires "FGM/A" in cols && "FTM/A" in cols
    requires name in cols && name !in {"FGM", "FGA", "FTM", "FTA"}
    ensures SplitFractions(cols)[name] == cols[name]
  {
  }

  /** The whole cleaning step, lines 46-56. */
  function CleanColumns(cols: Columns): (r: Columns)
    requires HasInputColumns(cols)
    ensures r.Keys == cols.Keys + {"FGM", "FGA", "FTM", "FTA"}
    ensures forall h :: Rectangular(cols, h) ==> Rectangular(r, h)
  {
    var split := SplitFractions(cols);
    SplitFractionsHasNumeric(cols);
    NormalizeColumns(split, NumericColumns)
  }

  /** After cleaning, the two percentage columns hold integers or nulls (a null exactly where
      the raw cell was missing or not a number), every other numeric column holds integers
      only, and the identity columns are untouched. */
  lemma CleanColumnsTyped(cols: Columns, height: nat, name: string, k: nat)
    requires HasInputColumns(cols) && Rectangular(cols, height)
    requires name in CleanColumns(cols) && k < height
    ensures name in PercentColumns ==>
              (CleanColumns(cols)[name][k].Missing? <==> ToNumeric(cols[name][k]).None?) &&
              (CleanColumns(cols)[name][k].Missing? || CleanColumns(cols)[name][k].Int?)
    ensures name in NumericColumns && name !in PercentColumns ==> CleanColumns(cols)[name][k].Int?
    ensures name !in NumericColumns ==> CleanColumns(cols)[name] == cols[name]
  {
    var split := SplitFractions(cols);
    ColumnListFacts();
    SplitFractionsHasNumeric(cols);
    NormalizeColumnsAt(split, NumericColumns, name);
    if name !in {"FGM", "FGA", "FTM", "FTA"} {
      SplitFractionsAt(cols, name);
    }
  }

  /** The cleaned made and attempted columns are the normalised halves of the raw column. */
  lemma CleanedFractionColumns(cols: Columns, raw: string, made: string, attempted: string)
    requires HasInputColumns(cols)
    requires (raw == "FGM/A" && made == "FGM" && attempted == "FGA") ||
             (raw == "FTM/A" && made == "FTM" && attempted == "FTA")
    ensures CleanColumns(cols)[made] == NormalizeColumn(made, MadeColumn(cols[raw]))
    ensures CleanColumns(cols)[attempted] == NormalizeColumn(attempted, AttemptedColumn(cols[raw]))
  {
    var split := SplitFractions(cols);
    ColumnListFacts();
    SplitFractionsHasNumeric(cols);
    NormalizeColumnsAt(split, NumericColumns, made);
    NormalizeColumnsAt(split, NumericColumns, attempted);
  }

  /** A count read from a "made/attempted" half: 0 when missing, else truncated toward zero. */
  lemma NormalizeFractionCell(name: string, v: Option<real>)
    requires name in {"FGM", "FGA", "FTM", "FTA"}
    ensures NormalizeCell(name, FractionCell(v)) == if v.Some? then Int(TruncateToInt(v.value)) else Int(0)
  {
    ColumnListFacts();
  }

  /** Lines 46-56 on a "made/attempted" cell: after cleaning, a row whose raw cell is "x/y"
      with two numeric sides holds x and y truncated toward zero as its made and attempted
      counts, and a row whose raw cell does not parse holds 0 for both. */
  lemma CleanedFractionCells(cols: Columns, height: nat, raw: string, made: string, attempted: string, k: nat)
    requires HasInputColumns(cols) && Rectangular(cols, height) && k < height
    requires (raw == "FGM/A" && made == "FGM" && attempted == "FGA") ||
             (raw == "FTM/A" && made == "FTM" && attempted == "FTA")
    ensures ParseFraction(cols[raw][k]).0.None? ==>
              CleanColumns(cols)[made][k] == Int(0) && CleanColumns(cols)[attempted][k] == Int(0)
    ensures forall x, y ::
              (cols[raw][k] == Text(x + "/" + y) && '/' !in x && '/' !in y &&
               ParseDecimal(x).Some? && ParseDecimal(y).Some?) ==>
              (CleanColumns(cols)[made][k] == Int(TruncateToInt(ParseDecimal(x).value)) &&
               CleanColumns(cols)[attempted][k] == Int(TruncateToInt(ParseDecimal(y).value)))
  {
    var col := cols[raw];
    CleanedFractionColumns(cols, raw, made, attempted);
    NormalizeFractionCell(made, ParseFraction(col[k]).0);
    NormalizeFractionCell(attempted, ParseFraction(col[k]).1);
    FractionColumnsAgree(col, k);
  }

  /** 0.453 in a percentage column is stored as 45; a missing or unreadable percentage
      stays null; a missing or unreadable count becomes 0. */
  lemma NormalizeCellExamples()
    ensures NormalizeCell("FG%", Float(0.453)) == Int(45)
    ensures NormalizeCell("FT%", Missing) == Missing
    ensures NormalizeCell("FT%", Text("n/a")) == Missing
    ensures NormalizeCell("PTS", Missing) == Int(0)
    ensures NormalizeCell("REB", Text("n/a")) == Int(0)
  {
    ConversionExamples();
    assert "n/a"[0] == 'n';
  }
}
