# Fantasy basketball ranking: a Dafny model

This project models the stat-cleaning and 9-category ranking script
`nba_analysis_scripts/nba_analysis.py`, which:

1. reads a table of NBA player season stats;
2. splits the "made/attempted" strings (`FGM/A`, `FTM/A`) with `parse_fraction`;
3. coerces every numeric column;
4. fills and standardises nine fantasy categories into `Z_` columns;
5. inverts the turnover z-score;
6. adds the nine z columns into `Fantasy_Score`;
7. sorts the players by that score, ranks them from 1 and writes out the top 150.

The model follows the script's own structure:

- **Cells.** A pandas cell is a `Cell`: `Missing` (NaN/None/NA), `Int`, `Float` or `Text`.
  - Python's `float(s)` is `ParseDecimal`.
  - `pd.to_numeric(errors='coerce')` is `ToNumeric`.
- **Fraction.** `parse_fraction` is the pure function `ParseFraction`, with `str.split` modelled as `Split`.
- **Frame.** The DataFrame is the class `DataFrame`. Its `columns` field is a map from column name to cells, and every column has length `height`. `df[name] = ...` is the method `Assign`, and `df.copy()` is `Copy`.
- **Methods and specifications.** Each step of the script that changes the frame is a method on it. The method is proved to leave exactly the table computed by a specification function:
  - `SplitFractionColumns`, `NormalizeNumericColumns` (the loop at lines 51-56);
  - `AddZScoreColumns` (the loop at lines 73-82), `InvertTurnovers`, `AddFantasyScore`;
  - `RankPlayers` and `RunAnalysis`.

  The script's promises are proved as lemmas about those functions.
- **Statistics.** The statistics are pandas' `mean()` and the sample `std()` (ddof = 1):
  - the guard `std == 0` yields the integer 0 for every player;
  - with fewer than two players, `std()` of a plain int64 category is NaN, and every z-score of it is NaN;
  - FG% and FT% are nullable `Int64` columns (line 54), and for them `std()` of fewer than two values is NA. The guard at line 79 then asks for the truth value of NA and raises a TypeError. So a table of one player stops in the FG% round and writes no file, just as an empty table stops at line 46.

  The square root is a parameter `sqrt` that every property assumes to be the non-negative square root (`IsSqrt`).
- **Arithmetic.** All arithmetic is over `real`. `round()` is round-half-to-even (`RoundHalfEven`) and `astype(int)` truncates toward zero (`TruncateToInt`).
- **Sorting.** `sort_values(ascending=False)` is not stable, so its contract is `IsSortOrder`: a permutation of the rows by non-increasing score, with no promise about ties.
  - `SortOrder` (insertion sort) is one order that meets it.
  - `RankedScoresIndependentOfTies` shows the ranked score column is the same whichever such order pandas picks.

The model follows the code in four places where a description of the intended behaviour says otherwise:

- The code divides by the **sample** standard deviation, not the population one.
- It breaks score ties by nothing at all, not by player id.
- It neither clamps percentages to [0, 100] nor forces counts to be non-negative.
- Line 74 overwrites the nine category columns of the scored copy with their zero-filled values. A null FG%/FT% is therefore exported as 0 in the top-150 file, even though the cleaned table keeps it null.

## Model

| member | source | states |
|---|---|---|
| Cells.ParseDecimal | nba_analysis_scripts/nba_analysis.py:40 | Python's `float()` on a decimal literal; a parsed string holds only digits, '.', '+' and '-' |
| Cells.DecimalValueOfParts | nba_analysis_scripts/nba_analysis.py:40 | the value of `whole.frac` is the whole digits plus the fraction digits divided by 10^abs(frac) |
| Cells.ParseDecimalOfLiteral | nba_analysis_scripts/nba_analysis.py:40 | any literal `sign whole . frac` (sign empty, '-' or '+'; digits on either side, not both empty) parses to the value of `whole.frac`, negated exactly under '-' |
| Cells.ParseDecimalOfFraction | nba_analysis_scripts/nba_analysis.py:40 | "0.453" parses to 0.453 |
| Cells.ParseDecimalOfNegative | nba_analysis_scripts/nba_analysis.py:40 | "-2.5" parses to -2.5 |
| Cells.ToNumeric | nba_analysis_scripts/nba_analysis.py:52 | `pd.to_numeric(errors='coerce')`: NaN stays NaN, integers and floats keep their value, text goes through `float()` |
| Cells.ParseDecimalOfNatToString | nba_analysis_scripts/nba_analysis.py:40 | round trip: the decimal text of any natural number parses back to that number |
| Cells.ParseUnsignedOfDigits | nba_analysis_scripts/nba_analysis.py:40 | a non-empty digit string parses as `float()` would, to its decimal value |
| Fraction.Split | nba_analysis_scripts/nba_analysis.py:40 | `s.split('/')` gives one more piece than `s` has slashes, no piece holds a slash, and joining the pieces back with '/' gives `s` |
| Fraction.SplitOfOneSlash | nba_analysis_scripts/nba_analysis.py:40 | a string with exactly one '/' splits into the text before it and the text after it |
| Fraction.ParseFraction | nba_analysis_scripts/nba_analysis.py:27-44 | both halves are present or both are None; a non-string, or a string whose slash count is not one, gives (None, None); a present result is the two sides of the single '/', parsed |
| Fraction.ParseFractionOfPair | nba_analysis_scripts/nba_analysis.py:38-41 | `x + "/" + y` with slash-free numeric `x`, `y` parses to exactly (x, y), in that order |
| Fraction.ParseFractionOfTenTwenty | nba_analysis_scripts/nba_analysis.py:38-41 | "10/20" gives (10.0, 20.0) |
| Fraction.ParseFractionRejects | nba_analysis_scripts/nba_analysis.py:38-44 | "abc", "1/2/3", "a/b", "" and a non-string cell all give (None, None) |
| Rounding.RoundHalfEven | nba_analysis_scripts/nba_analysis.py:54 | the result is within 0.5 of the input, and an exact half goes to the even neighbour |
| Rounding.RoundHalfEvenUnique | nba_analysis_scripts/nba_analysis.py:54 | any integer within 0.5 that is even on a tie is the rounded value, so the contract above defines the rounding |
| Rounding.RoundHalfEvenOfInteger | nba_analysis_scripts/nba_analysis.py:54 | rounding leaves an integer unchanged |
| Rounding.TruncateToInt | nba_analysis_scripts/nba_analysis.py:56 | `astype(int)`: the integer between 0 and x that is less than 1 away from x |
| Rounding.ConversionExamples | nba_analysis_scripts/nba_analysis.py:54-56 | 100 · 0.453 rounds to 45; 0.5, 1.5, 2.5 round to 0, 2, 2; 2.7 and -2.7 truncate to 2 and -2 |
| Frame.DataFrame.constructor | nba_analysis_scripts/nba_analysis.py:25 | the loaded frame holds the given columns at the given height |
| Frame.DataFrame.Assign | nba_analysis_scripts/nba_analysis.py:46-56 | `df[name] = col` replaces or adds that one column and changes nothing else |
| Frame.DataFrame.Copy | nba_analysis_scripts/nba_analysis.py:70 | `df.copy()` is a fresh frame with the same columns and height |
| Frame.Take | nba_analysis_scripts/nba_analysis.py:91 | taking rows by position gives, at each position k, the cell of row `rows[k]` |
| Normalize.MadeColumn | nba_analysis_scripts/nba_analysis.py:46-47 | the first halves of `parse_fraction` over a column: one cell per row, each a float or null |
| Normalize.AttemptedColumn | nba_analysis_scripts/nba_analysis.py:46-47 | the second halves of `parse_fraction` over a column: one cell per row, each a float or null |
| Normalize.FractionColumnsAgree | nba_analysis_scripts/nba_analysis.py:46-47 | in every row the made and attempted cells are both numbers or both missing, and "x/y" gives x made and y attempted |
| Normalize.SplitFractions | nba_analysis_scripts/nba_analysis.py:46-47 | the split adds exactly the columns FGM, FGA, FTM, FTA and keeps the table rectangular |
| Normalize.SplitFractionColumns | nba_analysis_scripts/nba_analysis.py:46-47 | on a non-empty frame the frame becomes `SplitFractions` of itself; an empty frame fails (the `zip` unpacking raises) and is left unchanged |
| Normalize.NormalizeCell | nba_analysis_scripts/nba_analysis.py:52-56 | a percentage becomes 100·v rounded (ties to even), or stays null exactly when the input is missing or unparsable; any other count becomes an integer: 0 for missing or unparsable, otherwise v truncated toward zero |
| Normalize.NormalizeColumns | nba_analysis_scripts/nba_analysis.py:51-56 | the loop keeps the set of columns and every column's length |
| Normalize.NormalizeColumnsAt | nba_analysis_scripts/nba_analysis.py:51-56 | with distinct names, each visited column is normalised exactly once from its value before the loop; others are untouched |
| Normalize.NormalizeNumericColumns | nba_analysis_scripts/nba_analysis.py:50-56 | the loop method leaves exactly `NormalizeColumns` of the old table |
| Normalize.CleanColumns | nba_analysis_scripts/nba_analysis.py:46-56 | cleaning adds exactly FGM, FGA, FTM, FTA and keeps the table rectangular |
| Normalize.CleanColumnsTyped | nba_analysis_scripts/nba_analysis.py:50-56 | after cleaning, FG%/FT% cells are integers or null, null exactly when the raw cell was missing or unparsable; every other numeric column is all integers; the remaining columns are untouched |
| Normalize.CleanedFractionColumns | nba_analysis_scripts/nba_analysis.py:46-56 | after cleaning, FGM/FGA (FTM/FTA) are the normalised made and attempted halves of the raw FGM/A (FTM/A) column |
| Normalize.CleanedFractionCells | nba_analysis_scripts/nba_analysis.py:46-56 | a raw cell "x/y" with numeric slash-free sides cleans to made = x and attempted = y, each truncated toward zero; a raw cell `parse_fraction` rejects cleans to 0 made and 0 attempted |
| Normalize.NormalizeCellExamples | nba_analysis_scripts/nba_analysis.py:52-56 | 0.453 in FG% is stored as 45; a missing or "n/a" percentage stays null; a missing or "n/a" count becomes 0 |
| Stats.Mean | nba_analysis_scripts/nba_analysis.py:76 | `mean()` of a column without NaN: the sum of the values over their count |
| Stats.MeanBetween | nba_analysis_scripts/nba_analysis.py:76 | the mean lies between any lower and any upper bound of the values |
| Stats.SampleVariance | nba_analysis_scripts/nba_analysis.py:77 | the squared deviations from the mean divided by n - 1 (ddof = 1), never negative |
| Stats.SampleStd | nba_analysis_scripts/nba_analysis.py:77 | `std()` is NaN exactly for fewer than two values; otherwise it is non-negative and its square is the sample variance |
| Stats.SampleVarianceZeroIffAllEqual | nba_analysis_scripts/nba_analysis.py:77 | the sample variance is zero if and only if every player has the same value |
| Stats.StdZeroIffAllEqual | nba_analysis_scripts/nba_analysis.py:77-79 | the guard `std == 0` fires if and only if all players are equal in the category |
| Stats.ZScores | nba_analysis_scripts/nba_analysis.py:76-82 | one z per player; all NaN exactly when there are fewer than two players; every z is 0 when std is 0 |
| Stats.ZScoresOfEqualCategory | nba_analysis_scripts/nba_analysis.py:79-80 | with two or more players who are all equal, every z-score is exactly the integer 0 |
| Stats.ZScoreSign | nba_analysis_scripts/nba_analysis.py:82 | z > 0 if and only if v > mean, and z < 0 if and only if v < mean |
| Stats.ZScoresSumToZero | nba_analysis_scripts/nba_analysis.py:76-82 | a category's z-scores, NaN skipped, sum to zero over the population |
| Scoring.FillZero | nba_analysis_scripts/nba_analysis.py:74 | the filled cell is a number: the parsed value when there is one, 0 otherwise; numbers pass unchanged |
| Scoring.CategoryValues | nba_analysis_scripts/nba_analysis.py:74 | the values a category is standardised over are its parsed numbers, 0 for missing or unparsable cells |
| Scoring.AddZColumns | nba_analysis_scripts/nba_analysis.py:73-82 | the loop adds exactly the z columns of the visited categories and keeps the table rectangular |
| Scoring.AddZColumnsKeep | nba_analysis_scripts/nba_analysis.py:73-82 | a column that is neither a visited category nor a z column is unchanged by the loop |
| Scoring.AddZColumnsAt | nba_analysis_scripts/nba_analysis.py:73-82 | each visited category holds its filled column and its z column holds the z-scores of its own filled values |
| Scoring.FirstRaising | nba_analysis_scripts/nba_analysis.py:73-80 | the position of the first category whose guard at line 79 raises (a nullable percentage column with fewer than two values); every category before it passes the guard |
| Scoring.AddZScoreColumns | nba_analysis_scripts/nba_analysis.py:73-82 | the loop succeeds exactly when no category's guard raises, and then leaves exactly `AddZColumns` of the old table; otherwise it stops after refilling the first raising category, with the earlier rounds done |
| Scoring.ScoringStopsAtFieldGoalPercentage | nba_analysis_scripts/nba_analysis.py:54-80 | over the nine categories, with fewer than two players the loop stops at FG%, the seventh, and with two or more it visits all nine |
| Scoring.Negated | nba_analysis_scripts/nba_analysis.py:85 | unary minus keeps NaN as NaN and flips the sign of every number |
| Scoring.SkipNaSumNegated | nba_analysis_scripts/nba_analysis.py:85 | the NaN-skipping sum of a negated column is minus the sum of the column |
| Scoring.InvertTurnovers | nba_analysis_scripts/nba_analysis.py:85 | only `Z_TO` changes, to its negation |
| Scoring.RowSum | nba_analysis_scripts/nba_analysis.py:88 | `sum(axis=1)` of one row with NaN skipped: a row of NaN sums to 0, and a row of non-negative numbers has a non-negative sum |
| Scoring.ScoreCells | nba_analysis_scripts/nba_analysis.py:88 | row i of the score column is the NaN-skipping sum of row i over the z columns |
| Scoring.AddFantasyScore | nba_analysis_scripts/nba_analysis.py:88 | only `Fantasy_Score` is added or replaced, by `ScoreCells` of the old table |
| Scoring.ZTable | nba_analysis_scripts/nba_analysis.py:73-85 | after line 85 the table has exactly the nine z columns added and stays rectangular |
| Scoring.ZTableAt | nba_analysis_scripts/nba_analysis.py:73-85 | after line 85 a category holds its filled values; its z column holds its z-scores, negated for TO; every column that is neither a category nor a z column is unchanged |
| Scoring.ScoredColumns | nba_analysis_scripts/nba_analysis.py:73-88 | the scored copy has exactly the nine z columns and the score added, and every score is a number |
| Scoring.ScoreFrame | nba_analysis_scripts/nba_analysis.py:70-88 | the method succeeds exactly with two or more players, and then returns a fresh frame holding `ScoredColumns` of the cleaned table, which it leaves unchanged |
| Scoring.ScoredColumnsAt | nba_analysis_scripts/nba_analysis.py:70-88 | in the scored copy each category is its filled column, each z column its (for TO negated) z-scores, and every column that is not a category, a z column or the score is as cleaned |
| Scoring.RowSumOfTerms | nba_analysis_scripts/nba_analysis.py:88 | when each z cell equals its category's signed term, the row sum equals the sum of the terms |
| Scoring.ZColumnIsSignedTerm | nba_analysis_scripts/nba_analysis.py:85-88 | each z cell contributes its category's z-score, sign flipped for turnovers |
| Scoring.FantasyScoreIsSumOfTerms | nba_analysis_scripts/nba_analysis.py:88 | each player's Fantasy_Score is the unweighted sum of the nine z terms, TO counted negatively |
| Scoring.ScoreCellsTotal | nba_analysis_scripts/nba_analysis.py:88 | summing the score column equals summing all z columns (row sums versus column sums) |
| Scoring.ZColumnSumsToZero | nba_analysis_scripts/nba_analysis.py:76-85 | every z column, the inverted TO column included, sums to zero |
| Scoring.FantasyScoresSumToZero | nba_analysis_scripts/nba_analysis.py:73-88 | the Fantasy_Scores of the whole population add up to zero |
| Scoring.TurnoverTermNegative | nba_analysis_scripts/nba_analysis.py:85 | with two or more players, the TO term is negative exactly for above-mean turnovers and positive exactly for below-mean |
| Scoring.CategoryTermSign | nba_analysis_scripts/nba_analysis.py:82 | for any other category the term is positive exactly above the mean and negative exactly below it |
| Ranking.KeptRows | nba_analysis_scripts/nba_analysis.py:91 | dropna keeps, in increasing order, only rows whose score is not NaN |
| Ranking.KeptRowsComplete | nba_analysis_scripts/nba_analysis.py:91 | no row with a non-NaN score is dropped |
| Ranking.DropNa | nba_analysis_scripts/nba_analysis.py:91 | dropna keeps every column and gives a table as tall as the kept rows |
| Ranking.DropNaOfComplete | nba_analysis_scripts/nba_analysis.py:91 | with no NaN score, dropna keeps every row and returns the table unchanged |
| Ranking.Insert | nba_analysis_scripts/nba_analysis.py:91 | inserting a row adds exactly that row to the multiset of rows |
| Ranking.InsertDescending | nba_analysis_scripts/nba_analysis.py:91 | insertion keeps a list ordered by non-increasing score |
| Ranking.IsSortOrder | nba_analysis_scripts/nba_analysis.py:91 | what `sort_values(ascending=False)` promises: a permutation of the rows by non-increasing score, ties in any order |
| Ranking.SortRows | nba_analysis_scripts/nba_analysis.py:91 | the sort returns a permutation of its rows in non-increasing score order |
| Ranking.SortOrder | nba_analysis_scripts/nba_analysis.py:91 | one valid `sort_values(ascending=False)` order: a permutation of all rows by non-increasing score |
| Ranking.RankColumn | nba_analysis_scripts/nba_analysis.py:94 | `index + 1` after `reset_index(drop=True)`: the first rank is 1 and ranks rise by exactly one per row |
| Ranking.Ranked | nba_analysis_scripts/nba_analysis.py:91-94 | the ranked table has every input column plus `rank`, all of the same height |
| Ranking.RankPlayers | nba_analysis_scripts/nba_analysis.py:91-94 | the method returns a fresh frame: the non-NaN rows sorted by descending score, with the rank column added |
| Ranking.RankedRowsArePermuted | nba_analysis_scripts/nba_analysis.py:91-94 | row k of the ranked table is input row `order[k]` in every column, and each column holds the same multiset of cells as before |
| Ranking.TakePermuted | nba_analysis_scripts/nba_analysis.py:91 | two orderings of the same rows take the same multiset of cells |
| Ranking.RankedScoresNonIncreasing | nba_analysis_scripts/nba_analysis.py:91 | down the ranked table the score never increases |
| Ranking.RankAgreesWithScore | nba_analysis_scripts/nba_analysis.py:94 | row a has rank a + 1 (so ranks are 1..N without gaps or repeats), and a better rank never has a lower score |
| Ranking.SortedUnique | nba_analysis_scripts/nba_analysis.py:91 | two non-increasing lists of the same numbers are equal |
| Ranking.RankedScoresIndependentOfTies | nba_analysis_scripts/nba_analysis.py:91 | whichever valid order the unstable sort picks, the ranked score column is the same |
| Ranking.Export | nba_analysis_scripts/nba_analysis.py:97-101 | the file has the 14 output columns as header and min(150, N) rows of 14 cells |
| Ranking.ExportListsInOrder | nba_analysis_scripts/nba_analysis.py:97-101 | every exported column other than rank lists the table's cells in rank order |
| Ranking.ExportIsTopOfRanking | nba_analysis_scripts/nba_analysis.py:91-101 | row r of the file has rank r + 1 and the (r + 1)-th best score, at least every score beyond the cut |
| Ranking.LeftOutPlayersScoreLower | nba_analysis_scripts/nba_analysis.py:101 | a player not in the first 150 scores no more than any exported player |
| Analysis.CategoriesAreCleaned | nba_analysis_scripts/nba_analysis.py:50-67 | each of the nine categories is one of the first nine columns the cleaning loop visits |
| Analysis.CleanHasCategories | nba_analysis_scripts/nba_analysis.py:50-67 | every category the score uses survives cleaning |
| Analysis.ScoredTable | nba_analysis_scripts/nba_analysis.py:46-88 | the scored table keeps every input column, is rectangular, and no score is NaN |
| Analysis.RankOrder | nba_analysis_scripts/nba_analysis.py:91 | the order chosen at line 91 is a permutation of all players by non-increasing score |
| Analysis.RankedTable | nba_analysis_scripts/nba_analysis.py:91-94 | since dropna drops no one, the ranked table is the whole scored table in rank order |
| Analysis.OutputColumnsPresent | nba_analysis_scripts/nba_analysis.py:97 | every column line 97 selects exists, so the selection raises no KeyError |
| Analysis.Analysis | nba_analysis_scripts/nba_analysis.py:46-101 | the script writes nothing exactly when the table has fewer than two players (line 46 raises on an empty table, line 79 on a single player); otherwise a file of min(150, N) rows under the 14 output columns |
| Analysis.PlayerScores | nba_analysis_scripts/nba_analysis.py:74-88 | one score per player: the sum of that player's nine signed category terms over the cleaned raw table |
| Analysis.ScoreColumnIsPlayerScores | nba_analysis_scripts/nba_analysis.py:88 | the score column is, player by player, the sum of that player's nine category terms from the cleaned raw table |
| Analysis.IdentityColumnUnchanged | nba_analysis_scripts/nba_analysis.py:46-88 | full_name, team and position pass through cleaning and scoring unchanged |
| Analysis.AnalysisIsExport | nba_analysis_scripts/nba_analysis.py:91-101 | with two or more players the file is the head of the ranked table |
| Analysis.AnalysisExport | nba_analysis_scripts/nba_analysis.py:91-101 | the file has min(150, N) rows; row r has rank r + 1, the name of input player order[r] and that player's sum of nine terms; scores never increase down the file |
| Analysis.LeftOutPlayersDoNotOutscore | nba_analysis_scripts/nba_analysis.py:91-101 | any player missing from the file scores no more than every exported player |
| Analysis.RunAnalysis | nba_analysis_scripts/nba_analysis.py:46-101 | the method succeeds exactly with two or more players, and then returns the file `Analysis` describes; an empty frame is left untouched, and any other frame is cleaned in place to `CleanColumns` (a single player's frame too, before line 79 raises) |

## Left out

- Reading the CSV, building paths, writing the output file and every `print` (lines 14-25, 58-61, 100-105): file I/O and logging. The model returns the file's contents as a `Csv` value.
- The unused `MinMaxScaler` import (line 12): a foreign library with no effect.
- Floating point: the model computes over exact reals, so binary rounding, NaN arithmetic beyond the skip-NaN sum, and the float representation of `round` inputs are not modelled.
- The square root inside `std()`: a parameter assumed to return the non-negative root (`IsSqrt`).
- Cells.ParseDecimal: accepts only an optional sign, digits and at most one '.', because that is the form the stats hold. The other spellings Python's `float()` accepts (exponents, `inf`, `nan`, surrounding whitespace, underscores) are read as unparsable.
- pandas dtypes: `Int64`, `int64` and `float64` columns are all `Cell` sequences. Only the distinction between an integer cell, a float cell and a null is kept. The one place where a column's dtype changes the outcome, the NA standard deviation of the nullable percentage columns, is modelled by `StdGuardRaises`.
- Scoring.ScoredColumns: the score column always holds float cells. When every one of the nine categories has std 0, pandas' nine z columns are int64 zeros and the score column is int64. The values agree (all 0); only the dtype differs.
- 64-bit integer width: `astype(int)` and `Int64` at lines 54-56 wrap or raise on values beyond the int64 range; the model's unbounded `int` accepts them.
- Ranking.SortOrder: one insertion-sort order standing for whatever order pandas' unstable sort picks. The properties of the ranking are proved for every order satisfying `IsSortOrder`.
- Analysis.Analysis: requires the input columns the script reads. The script raises a KeyError when one is missing, and the model does not cover that error path.
- Frame.DataFrame: the frame's index is not modelled. Rows are identified by position, which is all `reset_index(drop=True)` and `to_csv(index=False)` leave visible.
- The other files of the repository (the dashboard, the API handler, the CLI entry point and `show_data.py`) are not part of this model: they are UI, network and display code.
