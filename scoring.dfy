/** The composite score (nba_analysis.py, lines 66-88): on a copy of the cleaned table, each
    of the nine categories is filled and standardised into a `Z_` column, the turnover column
    is inverted, and Fantasy_Score is the row sum of the nine z columns. */
module Scoring {
  import opened Cells
  import opened Stats
  import opened Frame
  import opened Normalize

  /** The nine categories, in the order of line 67. */
  const FantasyCategories: seq<string> := ["PTS", "REB", "AST", "ST", "BLK", "3PTM", "FG%", "FT%", "TO"]

  const ScoreName: string := "Fantasy_Score"

  /** The name of a category's z-score column. */
  function ZName(category: string): string
  {
    "Z_" + category
  }

  function ZNames(categories: seq<string>): (r: seq<string>)
    ensures |r| == |categories|
    ensures forall k :: 0 <= k < |r| ==> r[k] == ZName(categories[k])
  {
    seq(|categories|, k requires 0 <= k < |categories| => ZName(categories[k]))
  }

  lemma ZNamesPrefix(categories: seq<string>)
    requires categories != []
    ensures ZNames(categories)[..|categories| - 1] == ZNames(categories[..|categories| - 1])
  {
  }

  /** The names of the z columns of `categories`. */
  function ZKeys(categories: seq<string>): (r: set<string>)
    ensures forall k :: 0 <= k < |categories| ==> ZName(categories[k]) in r
    decreases |categories|
  {
    if categories == [] then {}
    else ZKeys(categories[..|categories| - 1]) + {ZName(categories[|categories| - 1])}
  }

  /** Category names that can live beside their z columns: distinct, and none of them itself
      of the form "Z_...". */
  predicate ValidCategories(categories: seq<string>)
  {
    Distinct(categories) &&
    forall k :: 0 <= k < |categories| ==> |categories[k]| > 0 && categories[k][0] != 'Z'
  }

  lemma ZNameFacts(a: string, b: string)
    ensures ZName(a)[0] == 'Z'
    ensures ZName(a) == ZName(b) ==> a == b
  {
    assert ZName(a)[2..] == a && ZName(b)[2..] == b;
  }

  /** Line 74 for one cell: `pd.to_numeric(errors='coerce').fillna(0)`. */
  function FillZero(c: Cell): (r: Cell)
    ensures r.Int? || r.Float?
    ensures ToNumeric(c).None? ==> SkipNaValue(r) == 0.0
    ensures ToNumeric(c).Some? ==> SkipNaValue(r) == ToNumeric(c).value
    ensures c.Int? || c.Float? ==> r == c
  {
    match c
    case Int(_) => c
    case Float(_) => c
    case Missing => Int(0)
    case Text(s) =>
      match ParseDecimal(s)
      case Some(x) => Float(x)
      case None => Int(0)
  }

  function FilledColumn(col: seq<Cell>): (r: seq<Cell>)
    ensures |r| == |col|
  {
    seq(|col|, k requires 0 <= k < |col| => FillZero(col[k]))
  }

  /** The numbers of a column that holds no text. */
  function Values(col: seq<Cell>): (xs: seq<real>)
    ensures |xs| == |col|
  {
    seq(|col|, k requires 0 <= k < |col| => SkipNaValue(col[k]))
  }

  /** The numbers a category contributes to its mean and standard deviation. */
  function CategoryValues(col: seq<Cell>): (xs: seq<real>)
    ensures |xs| == |col|
    ensures forall k :: 0 <= k < |col| ==>
              xs[k] == if ToNumeric(col[k]).Some? then ToNumeric(col[k]).value else 0.0
  {
    Values(FilledColumn(col))
  }

  /** One round of the loop at lines 73-82: the category column is replaced by its filled
      form and its z-score column is added. */
  function AddCategoryZ(cols: Columns, category: string, sqrt: real -> real): Columns
    requires category in cols
  {
    var filled := FilledColumn(cols[category]);
    cols[category := filled][ZName(category) := ZScores(Values(filled), sqrt)]
  }

  /** The table after the loop at lines 73-82 has visited `categories`. */
  function AddZColumns(cols: Columns, categories: seq<string>, sqrt: real -> real): (r: Columns)
    requires forall k :: 0 <= k < |categories| ==> categories[k] in cols
    ensures r.Keys == cols.Keys + ZKeys(categories)
    ensures forall h :: Rectangular(cols, h) ==> Rectangular(r, h)
    decreases |categories|
  {
    if categories == [] then cols
    else AddCategoryZ(AddZColumns(cols, categories[..|categories| - 1], sqrt), categories[|categories| - 1], sqrt)
  }

  /** A column name that does not start with 'Z' is never a z column. */
  lemma {:induction false} ZKeysExclude(categories: seq<string>, name: string)
    requires |name| > 0 && name[0] != 'Z'
    ensures name !in ZKeys(categories)
    decreases |categories|
  {
    if categories != [] {
      ZKeysExclude(categories[..|categories| - 1], name);
      ZNameFacts(categories[|categories| - 1], name);
    }
  }

  /** The loop leaves every column that is neither a visited category nor one of their z
      columns as it was. */
  lemma {:induction false} AddZColumnsKeep(cols: Columns, categories: seq<string>, sqrt: real -> real, name: string)
    requires forall k :: 0 <= k < |categories| ==> categories[k] in cols
    requires name in cols && name !in categories && name !in ZKeys(categories)
    ensures AddZColumns(cols, categories, sqrt)[name] == cols[name]
    decreases |categories|
  {
    if categories != [] {
      var init := categories[..|categories| - 1];
      assert name !in init && name !in ZKeys(init);
      AddZColumnsKeep(cols, init, sqrt, name);
    }
  }

  /** A round of the loop touches only its own category and z column. */
  lemma AddCategoryZOther(cols: Columns, category: string, sqrt: real -> real, name: string)
    requires category in cols && name in cols && name != category && name != ZName(category)
    ensures AddCategoryZ(cols, category, sqrt)[name] == cols[name]
  {
  }

  /** The last category visited holds its filled column and its z-scores. */
  lemma AddZColumnsLast(cols: Columns, categories: seq<string>, sqrt: real -> real)
    requires forall k :: 0 <= k < |categories| ==> categories[k] in cols
    requires ValidCategories(categories) && categories != []
    ensures var last := categories[|categories| - 1];
            && AddZColumns(cols, categories, sqrt)[last] == FilledColumn(cols[last])
            && AddZColumns(cols, categories, sqrt)[ZName(last)] == ZScores(CategoryValues(cols[last]), sqrt)
  {
    var init := categories[..|categories| - 1];
    var last := categories[|categories| - 1];
    assert last !in init && |last| > 0 && last[0] != 'Z';
    ZKeysExclude(init, last);
    AddZColumnsKeep(cols, init, sqrt, last);
  }

  /** After the loop, each visited category holds its filled column and its z column holds
      the z-scores of its own filled values. */
  lemma {:induction false} AddZColumnsAt(cols: Columns, categories: seq<string>, sqrt: real -> real, name: string)
    requires forall k :: 0 <= k < |categories| ==> categories[k] in cols
    requires ValidCategories(categories) && name in categories
    ensures AddZColumns(cols, categories, sqrt)[name] == FilledColumn(cols[name])
    ensures AddZColumns(cols, categories, sqrt)[ZName(name)] == ZScores(CategoryValues(cols[name]), sqrt)
    decreases |categories|
  {
    var init := categories[..|categories| - 1];
    var last := categories[|categories| - 1];
    if name == last {
      AddZColumnsLast(cols, categories, sqrt);
    } else {
      assert ValidCategories(init) && name in init && |last| > 0 && last[0] != 'Z';
      var j :| 0 <= j < |init| && init[j] == name;
      assert |name| > 0 && name[0] != 'Z';
      ZNameFacts(name, last);
      ZNameFacts(last, last);
      AddZColumnsAt(cols, init, sqrt, name);
      var prev := AddZColumns(cols, init, sqrt);
      AddCategoryZOther(prev, last, sqrt, name);
      AddCategoryZOther(prev, last, sqrt, ZName(name));
    }
  }

  /** Whether the guard `std == 0` at line 79 raises for `category`. The percentage
      columns are nullable Int64 (line 54) and stay so through line 74; pandas' `std()` of
      such a column with fewer than two values is NA rather than NaN, and taking the truth
      value of `NA == 0` is a TypeError. On the plain int64 columns `std()` is NaN there,
      and `NaN == 0` is simply false. */
  predicate StdGuardRaises(category: string, height: nat)
  {
    category in PercentColumns && height < 2
  }

  /** The position of the first category whose guard raises, or |categories| when none does. */
  function FirstRaising(categories: seq<string>, height: nat): (j: nat)
    ensures j <= |categories|
    ensures forall k :: 0 <= k < j ==> !StdGuardRaises(categories[k], height)
    ensures j < |categories| ==> StdGuardRaises(categories[j], height)
  {
    if categories == [] then 0
    else if StdGuardRaises(categories[0], height) then 0
    else 1 + FirstRaising(categories[1..], height)
  }

  /** The loop at lines 73-82 over the category list `categories` (the script passes
      FantasyCategories), one category per round. It stops with the TypeError of line 79
      at the first category whose guard raises, after that category has been refilled at
      line 74; otherwise it visits every category. */
  method AddZScoreColumns(df: DataFrame, categories: seq<string>, sqrt: real -> real) returns (ok: bool)
    requires df.Valid()
    requires forall k :: 0 <= k < |categories| ==> categories[k] in df.columns
    modifies df
    ensures df.Valid() && df.height == old(df.height)
    ensures ok <==> FirstRaising(categories, old(df.height)) == |categories|
    ensures ok ==> df.columns == AddZColumns(old(df.columns), categories, sqrt)
    ensures !ok ==>
              var j := FirstRaising(categories, old(df.height));
              var done := AddZColumns(old(df.columns), categories[..j], sqrt);
              df.columns == done[categories[j] := FilledColumn(done[categories[j]])]
  {
    var k := 0;
    while k < |categories|
      invariant 0 <= k <= |categories|
      invariant k <= FirstRaising(categories, old(df.height))
      invariant df.Valid() && df.height == old(df.height)
      invariant df.columns == AddZColumns(old(df.columns), categories[..k], sqrt)
    {
      var category := categories[k];
      var filled := FilledColumn(df.columns[category]);
      df.Assign(category, filled);
      if StdGuardRaises(category, df.height) {
        return false;
      }
      assert categories[..k + 1][..k] == categories[..k];
      df.Assign(ZName(category), ZScores(Values(filled), sqrt));
      k := k + 1;
    }
    assert categories[..k] == categories;
    ok := true;
  }

  /** With one player (or none) the loop gets through PTS, REB, AST, ST, BLK and 3PTM, and
      stops at FG%, the seventh category; with two or more it visits all nine. */
  lemma ScoringStopsAtFieldGoalPercentage(height: nat)
    ensures FirstRaising(FantasyCategories, height) == if height < 2 then 6 else |FantasyCategories|
  {
    var c := FantasyCategories;
    assert c[6] == "FG%" && c[6] in PercentColumns;
    assert c[..6] == ["PTS", "REB", "AST", "ST", "BLK", "3PTM"];
    if height < 2 {
      assert !StdGuardRaises(c[0], height) && !StdGuardRaises(c[1], height);
    }
  }

  /** Line 85: unary minus on a column; NaN stays NaN. */
  function Negated(col: seq<Cell>): (r: seq<Cell>)
    ensures |r| == |col|
    ensures forall k :: 0 <= k < |col| ==> (r[k].Missing? <==> col[k].Missing?)
    ensures forall k :: 0 <= k < |col| ==> SkipNaValue(r[k]) == -SkipNaValue(col[k])
  {
    seq(|col|, k requires 0 <= k < |col| =>
      match col[k]
      case Int(i) => Int(-i)
      case Float(x) => Float(-x)
      case c => c)
  }

  lemma {:induction false} SkipNaSumNegated(col: seq<Cell>)
    requires forall k :: 0 <= k < |col| ==> !col[k].Text?
    ensures SkipNaSum(Negated(col)) == -SkipNaSum(col)
  {
    if col != [] {
      var n := |col|;
      SkipNaSumNegated(col[..n - 1]);
      assert Negated(col)[..n - 1] == Negated(col[..n - 1]);
    }
  }

  /** Line 85 applied to the frame. */
  method InvertTurnovers(df: DataFrame)
    requires df.Valid() && ZName("TO") in df.columns
    modifies df
    ensures df.Valid() && df.height == old(df.height)
    ensures df.columns == old(df.columns)[ZName("TO") := Negated(old(df.columns)[ZName("TO")])]
  {
    df.Assign(ZName("TO"), Negated(df.columns[ZName("TO")]));
  }

  /** Row `r` summed over the columns `names`, NaN skipped (`sum(axis=1)`). */
  function RowSum(cols: Columns, names: seq<string>, r: nat): (s: real)
    requires forall k :: 0 <= k < |names| ==> names[k] in cols && r < |cols[names[k]]|
    ensures (forall k :: 0 <= k < |names| ==> cols[names[k]][r].Missing?) ==> s == 0.0
    ensures (forall k :: 0 <= k < |names| ==> SkipNaValue(cols[names[k]][r]) >= 0.0) ==> s >= 0.0
    decreases |names|
  {
    if names == [] then 0.0
    else RowSum(cols, names[..|names| - 1], r) + SkipNaValue(cols[names[|names| - 1]][r])
  }

  /** Line 88: the column of row sums over `names` for the first `n` rows. */
  function ScoreCells(cols: Columns, names: seq<string>, n: nat): (r: seq<Cell>)
    requires forall k :: 0 <= k < |names| ==> names[k] in cols && n <= |cols[names[k]]|
    ensures |r| == n
    ensures forall i :: 0 <= i < n ==> r[i] == Float(RowSum(cols, names, i))
  {
    if n == 0 then [] else ScoreCells(cols, names, n - 1) + [Float(RowSum(cols, names, n - 1))]
  }

  /** Line 88 applied to the frame. */
  method AddFantasyScore(df: DataFrame)
    requires df.Valid()
    requires forall k :: 0 <= k < |FantasyCategories| ==> ZName(FantasyCategories[k]) in df.columns
    modifies df
    ensures df.Valid() && df.height == old(df.height)
    ensures df.columns == old(df.columns)[ScoreName := ScoreCells(old(df.columns), ZNames(FantasyCategories), old(df.height))]
  {
    df.Assign(ScoreName, ScoreCells(df.columns, ZNames(FantasyCategories), df.height));
  }

  lemma TurnoversListed()
    ensures FantasyCategories[8] == "TO"
  {
  }

  ghost predicate HasCategories(cols: Columns)
  {
    forall k :: 0 <= k < |FantasyCategories| ==> FantasyCategories[k] in cols
  }

  lemma FantasyCategoriesValid()
    ensures ValidCategories(FantasyCategories)
    ensures ZName("TO") != ScoreName && ScoreName !in FantasyCategories
    ensures forall c :: c in FantasyCategories ==> ZName(c) != ScoreName
  {
    forall c | c in FantasyCategories ensures ZName(c) != ScoreName {
      ZNameFacts(c, c);
    }
  }

  /** Lines 73-85: the table with its z columns, the turnover one inverted. */
  function ZTable(cols: Columns, height: nat, sqrt: real -> real): (r: Columns)
    requires Rectangular(cols, height) && HasCategories(cols)
    ensures Rectangular(r, height)
    ensures r.Keys == cols.Keys + ZKeys(FantasyCategories)
  {
    var z := AddZColumns(cols, FantasyCategories, sqrt);
    TurnoversListed();
    z[ZName("TO") := Negated(z[ZName("TO")])]
  }

  lemma ZTableHasZNames(cols: Columns, height: nat, sqrt: real -> real)
    requires Rectangular(cols, height) && HasCategories(cols)
    ensures forall k :: 0 <= k < |FantasyCategories| ==> ZNames(FantasyCategories)[k] in ZTable(cols, height, sqrt)
  {
  }

  /** Lines 73-88: the table with z columns, the turnover z inverted and the score added. */
  function ScoredColumns(cols: Columns, height: nat, sqrt: real -> real): (r: Columns)
    requires Rectangular(cols, height) && HasCategories(cols)
    ensures Rectangular(r, height)
    ensures r.Keys == cols.Keys + ZKeys(FantasyCategories) + {ScoreName}
    ensures forall i :: 0 <= i < height ==> r[ScoreName][i].Float?
  {
    var inverted := ZTable(cols, height, sqrt);
    var names := ZNames(FantasyCategories);
    ZTableHasZNames(cols, height, sqrt);
    inverted[ScoreName := ScoreCells(inverted, names, height)]
  }

  /** Lines 66-88 on the frame: a copy of the cleaned table gets its z columns, the inverted
      turnover z and the score; the cleaned table itself is left as it is. With fewer than
      two players line 79 raises at FG% (ok == false) and the copy is abandoned. */
  method ScoreFrame(df: DataFrame, sqrt: real -> real) returns (ok: bool, scored: DataFrame)
    requires df.Valid() && HasCategories(df.columns)
    ensures fresh(scored) && scored.Valid() && scored.height == df.height
    ensures ok <==> df.height >= 2
    ensures ok ==> scored.columns == ScoredColumns(df.columns, df.height, sqrt)
  {
    scored := df.Copy();
    ok := AddZScoreColumns(scored, FantasyCategories, sqrt);
    ScoringStopsAtFieldGoalPercentage(df.height);
    if !ok {
      return;
    }
    TurnoversListed();
    InvertTurnovers(scored);
    AddFantasyScore(scored);
  }

  /** Every column after line 85: a category holds its filled values, its z column holds
      its z-scores (negated for turnovers), and any other input column is unchanged. */
  lemma ZTableAt(cols: Columns, height: nat, sqrt: real -> real, name: string)
    requires Rectangular(cols, height) && HasCategories(cols)
    ensures name in FantasyCategories ==>
              ZTable(cols, height, sqrt)[name] == FilledColumn(cols[name])
    ensures name in FantasyCategories ==>
              ZTable(cols, height, sqrt)[ZName(name)] ==
                if name == "TO" then Negated(ZScores(CategoryValues(cols[name]), sqrt))
                else ZScores(CategoryValues(cols[name]), sqrt)
    ensures name in cols && name !in FantasyCategories && name !in ZKeys(FantasyCategories) ==>
              ZTable(cols, height, sqrt)[name] == cols[name]
  {
    FantasyCategoriesValid();
    ZNameFacts(name, "TO");
    ZNameFacts("TO", "TO");
    if name in FantasyCategories {
      AddZColumnsAt(cols, FantasyCategories, sqrt, name);
      var j :| 0 <= j < |FantasyCategories| && FantasyCategories[j] == name;
      assert name[0] != 'Z';
    } else if name in cols && name !in ZKeys(FantasyCategories) {
      AddZColumnsKeep(cols, FantasyCategories, sqrt, name);
    }
  }

  /** Every column of the scored table other than the score itself is as line 85 left it. */
  lemma ScoredColumnsAt(cols: Columns, height: nat, sqrt: real -> real, name: string)
    requires Rectangular(cols, height) && HasCategories(cols)
    ensures name in FantasyCategories ==>
              ScoredColumns(cols, height, sqrt)[name] == FilledColumn(cols[name])
    ensures name in FantasyCategories ==>
              ScoredColumns(cols, height, sqrt)[ZName(name)] ==
                if name == "TO" then Negated(ZScores(CategoryValues(cols[name]), sqrt))
                else ZScores(CategoryValues(cols[name]), sqrt)
    ensures name in cols && name !in FantasyCategories && name !in ZKeys(FantasyCategories) && name != ScoreName ==>
              ScoredColumns(cols, height, sqrt)[name] == cols[name]
  {
    ZTableAt(cols, height, sqrt, name);
    FantasyCategoriesValid();
  }

  /** Category `c`'s contribution to row `i`'s score, from the input columns: its z-score,
      with the sign flipped for turnovers, NaN counting as nothing. */
  function SignedTerm(cols: Columns, c: string, i: nat, sqrt: real -> real): real
    requires c in cols && i < |cols[c]|
  {
    var z := SkipNaValue(ZScores(CategoryValues(cols[c]), sqrt)[i]);
    if c == "TO" then -z else z
  }

  /** The nine contributions added up, unweighted. */
  function TermSum(cols: Columns, categories: seq<string>, i: nat, sqrt: real -> real): real
    requires forall k :: 0 <= k < |categories| ==> categories[k] in cols && i < |cols[categories[k]]|
    decreases |categories|
  {
    if categories == [] then 0.0
    else TermSum(cols, categories[..|categories| - 1], i, sqrt) + SignedTerm(cols, categories[|categories| - 1], i, sqrt)
  }

  lemma {:induction false} RowSumOfTerms(cols: Columns, scored: Columns, categories: seq<string>, i: nat, sqrt: real -> real)
    requires forall k :: 0 <= k < |categories| ==> categories[k] in cols && i < |cols[categories[k]]|
    requires forall k :: 0 <= k < |categories| ==> ZName(categories[k]) in scored && i < |scored[ZName(categories[k])]|
    requires forall k :: 0 <= k < |categories| ==>
               SkipNaValue(scored[ZName(categories[k])][i]) == SignedTerm(cols, categories[k], i, sqrt)
    ensures RowSum(scored, ZNames(categories), i) == TermSum(cols, categories, i, sqrt)
    decreases |categories|
  {
    if categories != [] {
      var n := |categories|;
      ZNamesPrefix(categories);
      RowSumOfTerms(cols, scored, categories[..n - 1], i, sqrt);
    }
  }

  /** Each z column holds, row by row, its category's signed term. */
  lemma ZColumnIsSignedTerm(cols: Columns, height: nat, sqrt: real -> real, c: string, i: nat)
    requires Rectangular(cols, height) && HasCategories(cols) && c in FantasyCategories && i < height
    ensures SkipNaValue(ZTable(cols, height, sqrt)[ZName(c)][i]) == SignedTerm(cols, c, i, sqrt)
  {
    ZTableAt(cols, height, sqrt, c);
  }

  /** Line 88: a player's Fantasy_Score is the plain sum of the nine category terms, the
      turnover term counted with its sign flipped. */
  lemma FantasyScoreIsSumOfTerms(cols: Columns, height: nat, sqrt: real -> real, i: nat)
    requires Rectangular(cols, height) && HasCategories(cols) && i < height
    ensures ScoredColumns(cols, height, sqrt)[ScoreName][i] == Float(TermSum(cols, FantasyCategories, i, sqrt))
  {
    var inverted := ZTable(cols, height, sqrt);
    forall k | 0 <= k < |FantasyCategories|
      ensures SkipNaValue(inverted[ZName(FantasyCategories[k])][i]) == SignedTerm(cols, FantasyCategories[k], i, sqrt)
    {
      ZColumnIsSignedTerm(cols, height, sqrt, FantasyCategories[k], i);
    }
    RowSumOfTerms(cols, inverted, FantasyCategories, i, sqrt);
  }

  /** The sums of the columns `names` over their first `n` cells. */
  function ColumnSums(cols: Columns, names: seq<string>, n: nat): real
    requires forall k :: 0 <= k < |names| ==> names[k] in cols && n <= |cols[names[k]]|
    decreases |names|
  {
    if names == [] then 0.0
    else ColumnSums(cols, names[..|names| - 1], n) + SkipNaSum(cols[names[|names| - 1]][..n])
  }

  /** Adding one more row to every column adds that row's sum. */
  lemma {:induction false} ColumnSumsStep(cols: Columns, names: seq<string>, n: nat)
    requires forall k :: 0 <= k < |names| ==> names[k] in cols && n < |cols[names[k]]|
    ensures ColumnSums(cols, names, n + 1) == ColumnSums(cols, names, n) + RowSum(cols, names, n)
    decreases |names|
  {
    if names != [] {
      var col := cols[names[|names| - 1]];
      ColumnSumsStep(cols, names[..|names| - 1], n);
      assert col[..n + 1][..n] == col[..n];
    }
  }

  lemma {:induction false} ColumnSumsOfNoRows(cols: Columns, names: seq<string>)
    requires forall k :: 0 <= k < |names| ==> names[k] in cols
    ensures ColumnSums(cols, names, 0) == 0.0
    decreases |names|
  {
    if names != [] {
      ColumnSumsOfNoRows(cols, names[..|names| - 1]);
      assert cols[names[|names| - 1]][..0] == [];
    }
  }

  /** Summing the score column adds up every cell of the summed columns, row by row or
      column by column alike. */
  lemma {:induction false} ScoreCellsTotal(cols: Columns, names: seq<string>, n: nat)
    requires forall k :: 0 <= k < |names| ==> names[k] in cols && n <= |cols[names[k]]|
    ensures SkipNaSum(ScoreCells(cols, names, n)) == ColumnSums(cols, names, n)
  {
    if n == 0 {
      ColumnSumsOfNoRows(cols, names);
    } else {
      var sc := ScoreCells(cols, names, n);
      assert sc[..n - 1] == ScoreCells(cols, names, n - 1);
      assert SkipNaSum(sc) == SkipNaSum(ScoreCells(cols, names, n - 1)) + RowSum(cols, names, n - 1);
      ScoreCellsTotal(cols, names, n - 1);
      ColumnSumsStep(cols, names, n - 1);
    }
  }

  lemma {:induction false} ColumnSumsOfZeroColumns(cols: Columns, names: seq<string>, n: nat)
    requires forall k :: 0 <= k < |names| ==> names[k] in cols && n <= |cols[names[k]]|
    requires forall k :: 0 <= k < |names| ==> SkipNaSum(cols[names[k]][..n]) == 0.0
    ensures ColumnSums(cols, names, n) == 0.0
    decreases |names|
  {
    if names != [] {
      ColumnSumsOfZeroColumns(cols, names[..|names| - 1], n);
    }
  }

  lemma WholePrefix(col: seq<Cell>, n: nat)
    requires |col| == n
    ensures SkipNaSum(col[..n]) == SkipNaSum(col)
  {
    assert col[..n] == col;
  }

  /** Each z column, the inverted turnover one included, sums to zero over the roster. */
  lemma ZColumnSumsToZero(cols: Columns, height: nat, sqrt: real -> real, c: string)
    requires Rectangular(cols, height) && HasCategories(cols) && c in FantasyCategories
    ensures SkipNaSum(ZTable(cols, height, sqrt)[ZName(c)]) == 0.0
  {
    ZTableAt(cols, height, sqrt, c);
    ZScoresSumToZero(CategoryValues(cols[c]), sqrt);
    SkipNaSumNegated(ZScores(CategoryValues(cols[c]), sqrt));
  }

  /** Over the whole roster the Fantasy_Scores add up to zero: every term is a z-score
      (or its negation), and each category's z-scores sum to zero. */
  lemma FantasyScoresSumToZero(cols: Columns, height: nat, sqrt: real -> real)
    requires Rectangular(cols, height) && HasCategories(cols)
    ensures SkipNaSum(ScoredColumns(cols, height, sqrt)[ScoreName]) == 0.0
  {
    var inverted := ZTable(cols, height, sqrt);
    var names := ZNames(FantasyCategories);
    forall k | 0 <= k < |names| ensures SkipNaSum(inverted[names[k]][..height]) == 0.0 {
      ZColumnSumsToZero(cols, height, sqrt, FantasyCategories[k]);
      WholePrefix(inverted[names[k]], height);
    }
    ScoreCellsTotal(inverted, names, height);
    ColumnSumsOfZeroColumns(inverted, names, height);
  }

  /** Turnovers count against a player (line 85): with at least two players, the turnover
      z column is negative exactly for players above the league mean and positive exactly
      for those below it. */
  lemma TurnoverTermNegative(cols: Columns, height: nat, sqrt: real -> real, i: nat)
    requires IsSqrt(sqrt) && Rectangular(cols, height) && HasCategories(cols)
    requires 2 <= height && i < height
    ensures var xs := CategoryValues(cols["TO"]);
            && (SkipNaValue(ScoredColumns(cols, height, sqrt)[ZName("TO")][i]) < 0.0 <==> xs[i] > Mean(xs))
            && (SkipNaValue(ScoredColumns(cols, height, sqrt)[ZName("TO")][i]) > 0.0 <==> xs[i] < Mean(xs))
  {
    ScoredColumnsAt(cols, height, sqrt, "TO");
    ZScoreSign(CategoryValues(cols["TO"]), sqrt, i);
  }

  /** Every other category counts for the player: its z column is positive exactly for
      players above the category mean and negative exactly for those below it. */
  lemma CategoryTermSign(cols: Columns, height: nat, sqrt: real -> real, c: string, i: nat)
    requires IsSqrt(sqrt) && Rectangular(cols, height) && HasCategories(cols)
    requires c in FantasyCategories && c != "TO" && 2 <= height && i < height
    ensures var xs := CategoryValues(cols[c]);
            && (SkipNaValue(ScoredColumns(cols, height, sqrt)[ZName(c)][i]) > 0.0 <==> xs[i] > Mean(xs))
            && (SkipNaValue(ScoredColumns(cols, height, sqrt)[ZName(c)][i]) < 0.0 <==> xs[i] < Mean(xs))
  {
    ScoredColumnsAt(cols, height, sqrt, c);
    ZScoreSign(CategoryValues(cols[c]), sqrt, i);
  }
}
