/** The script as a whole (nba_analysis.py, lines 46-101): clean the loaded table, score a
    copy of it, rank the players and export the top 150. */
module Analysis {
  import opened Cells
  import opened Stats
  import opened Frame
  import opened Normalize
  import opened Scoring
  import opened Ranking

  /** Where each of the nine categories sits in the cleaning loop's column list. */
  const CategoryPosition: seq<nat> := [5, 6, 1, 7, 2, 0, 3, 4, 8]

  /** The nine categories are among the first nine columns the cleaning loop visits. */
  lemma CategoriesAreCleaned()
    ensures forall k :: 0 <= k < |FantasyCategories| ==>
              CategoryPosition[k] < 9 && FantasyCategories[k] == NumericColumns[CategoryPosition[k]]
  {
    assert FantasyCategories[0] == NumericColumns[5] && FantasyCategories[1] == NumericColumns[6];
    assert FantasyCategories[2] == NumericColumns[1] && FantasyCategories[3] == NumericColumns[7];
    assert FantasyCategories[4] == NumericColumns[2] && FantasyCategories[5] == NumericColumns[0];
    assert FantasyCategories[6] == NumericColumns[3] && FantasyCategories[7] == NumericColumns[4];
    assert FantasyCategories[8] == NumericColumns[8];
  }

  /** Every category the score uses survives cleaning. */
  lemma CleanHasCategories(cols: Columns)
    requires HasInputColumns(cols)
    ensures HasCategories(CleanColumns(cols))
  {
    CategoriesAreCleaned();
    forall k | 0 <= k < |FantasyCategories| ensures FantasyCategories[k] in CleanColumns(cols) {
      assert NumericColumns[CategoryPosition[k]] in cols;
    }
  }

  /** The cleaned table with its z columns and scores (lines 46-88). */
  function ScoredTable(cols: Columns, height: nat, sqrt: real -> real): (r: Columns)
    requires Rectangular(cols, height) && HasInputColumns(cols)
    ensures Rectangular(r, height) && cols.Keys <= r.Keys && ScoreName in r
    ensures forall i :: 0 <= i < height ==> !r[ScoreName][i].Missing?
  {
    CleanHasCategories(cols);
    ScoredColumns(CleanColumns(cols), height, sqrt)
  }

  /** The row order the ranking step takes (line 91): since no score is NaN, it orders every
      player of the scored table. */
  function RankOrder(cols: Columns, height: nat, sqrt: real -> real): (order: seq<nat>)
    requires Rectangular(cols, height) && HasInputColumns(cols)
    ensures IsIndexPermutation(order, height)
    ensures IsSortOrder(order, ScoreKey(ScoredTable(cols, height, sqrt)))
  {
    var scored := ScoredTable(cols, height, sqrt);
    DropNaOfComplete(scored, height, ScoreName);
    SortOrder(ScoreKey(DropNa(scored, height, ScoreName)))
  }

  /** The ranked table (lines 91-94); dropna removes no one, so it is the scored table in
      rank order. */
  function RankedTable(cols: Columns, height: nat, sqrt: real -> real): (r: Columns)
    requires Rectangular(cols, height) && HasInputColumns(cols)
    ensures r == Ranked(ScoredTable(cols, height, sqrt), height, RankOrder(cols, height, sqrt))
  {
    var scored := ScoredTable(cols, height, sqrt);
    DropNaOfComplete(scored, height, ScoreName);
    var kept := DropNa(scored, height, ScoreName);
    Ranked(kept, |KeptRows(scored[ScoreName])|, RankOrder(cols, height, sqrt))
  }

  lemma OutputColumnsListed()
    ensures OutputColumns ==
              [RankName, "full_name", "editorial_team_abbr", "primary_position", ScoreName] + FantasyCategories
  {
  }

  lemma OutputColumnsCovered(keys: set<string>)
    requires forall k :: 0 <= k < |FantasyCategories| ==> FantasyCategories[k] in keys
    requires RankName in keys && ScoreName in keys
    requires "full_name" in keys && "editorial_team_abbr" in keys && "primary_position" in keys
    ensures forall j :: 0 <= j < |OutputColumns| ==> OutputColumns[j] in keys
  {
    OutputColumnsListed();
  }

  lemma ScoredTableColumns(cols: Columns, height: nat, sqrt: real -> real)
    requires Rectangular(cols, height) && HasInputColumns(cols)
    ensures HasCategories(ScoredTable(cols, height, sqrt))
  {
    CleanHasCategories(cols);
  }

  /** Every column line 97 selects exists in the ranked table. */
  lemma OutputColumnsPresent(cols: Columns, height: nat, sqrt: real -> real)
    requires Rectangular(cols, height) && HasInputColumns(cols)
    ensures HasOutputColumns(RankedTable(cols, height, sqrt))
  {
    ScoredTableColumns(cols, height, sqrt);
    var ranked := RankedTable(cols, height, sqrt);
    assert ScoredTable(cols, height, sqrt).Keys + {RankName} == ranked.Keys;
    OutputColumnsCovered(ranked.Keys);
  }

  /** What the script writes, or None when it stops before writing: on an empty table at
      line 46, and on a table of one player at line 79 (the FG% guard). */
  function Analysis(cols: Columns, height: nat, sqrt: real -> real): (r: Option<Csv>)
    requires Rectangular(cols, height) && HasInputColumns(cols)
    ensures r.None? <==> height < 2
    ensures r.Some? ==> r.value.header == OutputColumns && |r.value.rows| == Min(ExportLimit, height)
    ensures r.Some? ==> forall i :: 0 <= i < |r.value.rows| ==> |r.value.rows[i]| == |OutputColumns|
  {
    if height == 0 then None
    else if FirstRaising(FantasyCategories, height) < |FantasyCategories| then
      ScoringStopsAtFieldGoalPercentage(height);
      None
    else
      ScoringStopsAtFieldGoalPercentage(height);
      var scored := ScoredTable(cols, height, sqrt);
      var n := |KeptRows(scored[ScoreName])|;
      DropNaOfComplete(scored, height, ScoreName);
      OutputColumnsPresent(cols, height, sqrt);
      Some(Export(RankedTable(cols, height, sqrt), n))
  }

  lemma IdentityNames(name: string)
    requires name == "full_name" || name == "editorial_team_abbr" || name == "primary_position"
    ensures name !in FantasyCategories && name != ScoreName && name !in ZKeys(FantasyCategories)
  {
    ZKeysExclude(FantasyCategories, name);
  }

  /** Every player's Fantasy_Score computed from the raw table: the sum of the nine
      category terms of the cleaned table. */
  function PlayerScores(cols: Columns, height: nat, sqrt: real -> real): (s: seq<Cell>)
    requires Rectangular(cols, height) && HasInputColumns(cols)
    ensures |s| == height
  {
    CleanHasCategories(cols);
    seq(height, p requires 0 <= p < height => Float(TermSum(CleanColumns(cols), FantasyCategories, p, sqrt)))
  }

  /** The score column of the scored table holds exactly those sums. */
  lemma ScoreColumnIsPlayerScores(cols: Columns, height: nat, sqrt: real -> real)
    requires Rectangular(cols, height) && HasInputColumns(cols)
    ensures ScoredTable(cols, height, sqrt)[ScoreName] == PlayerScores(cols, height, sqrt)
  {
    CleanHasCategories(cols);
    var clean := CleanColumns(cols);
    forall p | 0 <= p < height
      ensures ScoredTable(cols, height, sqrt)[ScoreName][p] == PlayerScores(cols, height, sqrt)[p]
    {
      FantasyScoreIsSumOfTerms(clean, height, sqrt, p);
    }
  }

  /** The identity columns pass through cleaning untouched. */
  lemma IdentityColumnCleaned(cols: Columns, height: nat, name: string)
    requires Rectangular(cols, height) && HasInputColumns(cols)
    requires name == "full_name" || name == "editorial_team_abbr" || name == "primary_position"
    ensures CleanColumns(cols)[name] == cols[name]
  {
    assert name !in NumericColumns;
    if height > 0 {
      CleanColumnsTyped(cols, height, name, 0);
    } else {
      assert CleanColumns(cols)[name] == [] == cols[name];
    }
  }

  /** ... and scoring untouched. */
  lemma IdentityColumnUnchanged(cols: Columns, height: nat, sqrt: real -> real, name: string)
    requires Rectangular(cols, height) && HasInputColumns(cols)
    requires name == "full_name" || name == "editorial_team_abbr" || name == "primary_position"
    ensures ScoredTable(cols, height, sqrt)[name] == cols[name]
  {
    IdentityColumnCleaned(cols, height, name);
    CleanHasCategories(cols);
    IdentityNames(name);
    ScoredColumnsAt(CleanColumns(cols), height, sqrt, name);
  }

  /** With two or more players the script writes the head of the ranked table. */
  lemma AnalysisIsExport(cols: Columns, height: nat, sqrt: real -> real)
    requires Rectangular(cols, height) && HasInputColumns(cols) && height >= 2
    ensures HasOutputColumns(RankedTable(cols, height, sqrt))
    ensures Analysis(cols, height, sqrt) == Some(Export(RankedTable(cols, height, sqrt), height))
  {
    OutputColumnsPresent(cols, height, sqrt);
    DropNaOfComplete(ScoredTable(cols, height, sqrt), height, ScoreName);
  }

  /** The exported file `t`: one row per player up to 150; row r is ranked r + 1 and is
      the record of input player order[r], with that player's name in column 1 and in
      column 4 the sum of the player's nine category terms; the scores never increase down
      the file. */
  lemma AnalysisExport(cols: Columns, height: nat, sqrt: real -> real, t: Csv, order: seq<nat>)
    requires Rectangular(cols, height) && HasInputColumns(cols)
    requires Analysis(cols, height, sqrt) == Some(t) && order == RankOrder(cols, height, sqrt)
    ensures |t.rows| == Min(ExportLimit, height)
    ensures forall r :: 0 <= r < |t.rows| ==> t.rows[r][0] == Int(r + 1)
    ensures ListsInOrder(t, 1, cols["full_name"], order)
    ensures ListsInOrder(t, 4, PlayerScores(cols, height, sqrt), order)
    ensures forall r, s :: 0 <= r < s < |t.rows| ==> SkipNaValue(t.rows[r][4]) >= SkipNaValue(t.rows[s][4])
  {
    AnalysisIsExport(cols, height, sqrt);
    var scored := ScoredTable(cols, height, sqrt);
    IdentityColumnUnchanged(cols, height, sqrt, "full_name");
    ScoreColumnIsPlayerScores(cols, height, sqrt);
    OutputColumnPositions();
    ExportListsInOrder(scored, height, order, 1, "full_name");
    ExportListsInOrder(scored, height, order, 4, ScoreName);
    ExportIsTopOfRanking(scored, height, order);
  }

  /** Every player missing from the export has a score no higher than every exported one. */
  lemma LeftOutPlayersDoNotOutscore(cols: Columns, height: nat, sqrt: real -> real, p: nat)
    requires Rectangular(cols, height) && HasInputColumns(cols)
    requires p < height && p !in RankOrder(cols, height, sqrt)[..Min(ExportLimit, height)]
    ensures var order := RankOrder(cols, height, sqrt);
            var key := ScoreKey(ScoredTable(cols, height, sqrt));
            forall r :: 0 <= r < Min(ExportLimit, height) ==> key[order[r]] >= key[p]
  {
    LeftOutPlayersScoreLower(ScoredTable(cols, height, sqrt), height, RankOrder(cols, height, sqrt), p);
  }

  /** Lines 46-101 run on the loaded frame `df`: the frame is cleaned in place, a scored copy
      is ranked, and the head of the ranking is returned as the CSV it would write. An empty
      table stops at line 46 with the frame untouched; a single player stops at line 79 with
      the frame already cleaned; neither writes a file (ok == false). */
  method RunAnalysis(df: DataFrame, sqrt: real -> real) returns (ok: bool, csv: Csv)
    requires df.Valid() && HasInputColumns(df.columns)
    modifies df
    ensures ok == (old(df.height) >= 2)
    ensures ok ==> Analysis(old(df.columns), old(df.height), sqrt) == Some(csv)
    ensures df.columns == if old(df.height) == 0 then old(df.columns) else CleanColumns(old(df.columns))
  {
    ok := SplitFractionColumns(df);
    if !ok {
      return ok, Csv(OutputColumns, []);
    }
    assert forall k :: 0 <= k < |NumericColumns| ==> NumericColumns[k] in df.columns;
    NormalizeNumericColumns(df, NumericColumns);
    CleanHasCategories(old(df.columns));
    var scored;
    ok, scored := ScoreFrame(df, sqrt);
    if !ok {
      return ok, Csv(OutputColumns, []);
    }
    var ranked := RankPlayers(scored);
    OutputColumnsPresent(old(df.columns), old(df.height), sqrt);
    csv := Export(ranked.columns, ranked.height);
  }
}
