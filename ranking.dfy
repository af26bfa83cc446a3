/** Ranking the scored table and the top-150 export (nba_analysis.py, lines 90-101). */
module Ranking {
  import opened Cells
  import opened Stats
  import opened Frame
  import opened Scoring

  const RankName: string := "rank"

  /** At most this many players are written out (line 101). */
  const ExportLimit: nat := 150

  /** The columns of the exported table, in the order of line 97. */
  const OutputColumns: seq<string> :=
    ["rank", "full_name", "editorial_team_abbr", "primary_position", "Fantasy_Score",
     "PTS", "REB", "AST", "ST", "BLK", "3PTM", "FG%", "FT%", "TO"]

  /** Where the name and the score sit in the file, and neither is the rank. */
  lemma OutputColumnPositions()
    ensures OutputColumns[1] == "full_name" && OutputColumns[4] == ScoreName
    ensures "full_name" != RankName && ScoreName != RankName
  {
  }

  function Min(a: nat, b: nat): nat
  {
    if a <= b then a else b
  }

  /** The row positions 0, 1, ..., n - 1. */
  function Range(n: nat): (r: seq<nat>)
    ensures |r| == n && forall k :: 0 <= k < n ==> r[k] == k
  {
    seq(n, k requires 0 <= k < n => k)
  }

  /** Taking every row in order gives the column back. */
  lemma TakeRange<T>(col: seq<T>)
    ensures Take(col, Range(|col|)) == col
  {
  }

  // ---------------------------------------------------------------- dropna (line 91)

  /** The positions of the rows whose cell in `col` is not NaN, top to bottom. */
  function KeptRows(col: seq<Cell>): (rows: seq<nat>)
    ensures InBounds(rows, |col|) && |rows| <= |col|
    ensures forall k :: 0 <= k < |rows| ==> !col[rows[k]].Missing?
    ensures forall a, b :: 0 <= a < b < |rows| ==> rows[a] < rows[b]
  {
    if col == [] then []
    else
      var init := KeptRows(col[..|col| - 1]);
      if col[|col| - 1].Missing? then init else init + [|col| - 1]
  }

  /** No row with a non-NaN cell is dropped. */
  lemma {:induction false} KeptRowsComplete(col: seq<Cell>, i: nat)
    requires i < |col| && !col[i].Missing?
    ensures i in KeptRows(col)
  {
    var n := |col|;
    if i < n - 1 {
      KeptRowsComplete(col[..n - 1], i);
    }
  }

  /** `dropna(subset=[name])`: the rows whose `name` cell is NaN are removed from every column. */
  function DropNa(cols: Columns, height: nat, name: string): (r: Columns)
    requires Rectangular(cols, height) && name in cols
    ensures r.Keys == cols.Keys && Rectangular(r, |KeptRows(cols[name])|)
  {
    var rows := KeptRows(cols[name]);
    map c | c in cols :: Take(cols[c], rows)
  }

  /** A column without NaN keeps every row, and then dropna changes nothing. */
  lemma {:induction false} DropNaOfComplete(cols: Columns, height: nat, name: string)
    requires Rectangular(cols, height) && name in cols
    requires forall k :: 0 <= k < height ==> !cols[name][k].Missing?
    ensures KeptRows(cols[name]) == Range(height)
    ensures DropNa(cols, height, name) == cols
  {
    var rows := KeptRows(cols[name]);
    forall i | 0 <= i < height ensures i in rows {
      KeptRowsComplete(cols[name], i);
    }
    IncreasingCover(rows, height);
    forall c | c in cols ensures Take(cols[c], rows) == cols[c] {
      TakeRange(cols[c]);
    }
  }

  /** An increasing list of positions below `n` that holds every one of them is 0, ..., n - 1. */
  lemma {:induction false} IncreasingCover(rows: seq<nat>, n: nat)
    requires InBounds(rows, n)
    requires forall a, b :: 0 <= a < b < |rows| ==> rows[a] < rows[b]
    requires forall i :: 0 <= i < n ==> i in rows
    ensures rows == Range(n)
    decreases n
  {
    if n > 0 {
      assert n - 1 in rows;
      var j :| 0 <= j < |rows| && rows[j] == n - 1;
      assert rows[j] <= rows[|rows| - 1] < n;
      var init := rows[..|rows| - 1];
      forall i | 0 <= i < n - 1 ensures i in init {
        assert i in rows;
        var t :| 0 <= t < |rows| && rows[t] == i;
        assert t != |rows| - 1;
        assert init[t] == i;
      }
      forall k | 0 <= k < |init| ensures init[k] < n - 1 {
        assert rows[k] < rows[|rows| - 1];
      }
      IncreasingCover(init, n - 1);
    }
  }

  // ---------------------------------------------------------------- sort_values (line 91)

  /** `order` lists every row position below `n` exactly once. */
  predicate IsIndexPermutation(order: seq<nat>, n: nat)
  {
    |order| == n && InBounds(order, n) && multiset(order) == multiset(Range(n))
  }

  /** Visiting the rows in `order` never meets a larger key after a smaller one. */
  predicate DescendingBy(order: seq<nat>, key: seq<real>)
    requires InBounds(order, |key|)
  {
    forall a, b :: 0 <= a < b < |order| ==> key[order[a]] >= key[order[b]]
  }

  /** What `sort_values(ascending=False)` promises about the row order it picks: a
      permutation of the rows, by non-increasing key. Its default algorithm is not stable,
      so the order among equal keys is left open. */
  predicate IsSortOrder(order: seq<nat>, key: seq<real>)
  {
    IsIndexPermutation(order, |key|) && DescendingBy(order, key)
  }

  /** Inserts row `x` in front of the first row whose key is not larger than its own. */
  function Insert(x: nat, sorted: seq<nat>, key: seq<real>): (r: seq<nat>)
    requires x < |key| && InBounds(sorted, |key|)
    ensures InBounds(r, |key|)
    ensures multiset(r) == multiset(sorted) + multiset{x}
  {
    if sorted == [] || key[x] >= key[sorted[0]] then
      [x] + sorted
    else
      assert sorted == [sorted[0]] + sorted[1..];
      [sorted[0]] + Insert(x, sorted[1..], key)
  }

  /** Inserting a row under a bound into rows under that bound keeps every row under it. */
  lemma {:induction false} InsertUnder(x: nat, sorted: seq<nat>, key: seq<real>, bound: real)
    requires x < |key| && InBounds(sorted, |key|) && key[x] <= bound
    requires forall k :: 0 <= k < |sorted| ==> key[sorted[k]] <= bound
    ensures forall k :: 0 <= k < |Insert(x, sorted, key)| ==> key[Insert(x, sorted, key)[k]] <= bound
    decreases |sorted|
  {
    if sorted != [] && key[x] < key[sorted[0]] {
      InsertUnder(x, sorted[1..], key, bound);
    }
  }

  /** Inserting into a descending list keeps it descending. */
  lemma {:induction false} InsertDescending(x: nat, sorted: seq<nat>, key: seq<real>)
    requires x < |key| && InBounds(sorted, |key|) && DescendingBy(sorted, key)
    ensures DescendingBy(Insert(x, sorted, key), key)
    decreases |sorted|
  {
    if sorted != [] && key[x] < key[sorted[0]] {
      var top := sorted[0];
      var tail := sorted[1..];
      InsertDescending(x, tail, key);
      assert forall k :: 0 <= k < |tail| ==> key[tail[k]] <= key[top] by {
        forall k | 0 <= k < |tail| ensures key[tail[k]] <= key[top] {
          assert tail[k] == sorted[k + 1];
        }
      }
      InsertUnder(x, tail, key, key[top]);
    }
  }

  /** One order `sort_values` may pick: the rows inserted one by one. */
  function SortRows(rows: seq<nat>, key: seq<real>): (r: seq<nat>)
    requires InBounds(rows, |key|)
    ensures InBounds(r, |key|) && multiset(r) == multiset(rows) && DescendingBy(r, key)
  {
    if rows == [] then []
    else
      assert rows == rows[..|rows| - 1] + [rows[|rows| - 1]];
      var init := SortRows(rows[..|rows| - 1], key);
      InsertDescending(rows[|rows| - 1], init, key);
      Insert(rows[|rows| - 1], init, key)
  }

  /** The rows of a table with score column `key`, best first. */
  function SortOrder(key: seq<real>): (order: seq<nat>)
    ensures IsSortOrder(order, key)
  {
    var order := SortRows(Range(|key|), key);
    assert |order| == |multiset(order)| == |multiset(Range(|key|))| == |key|;
    order
  }

  // ---------------------------------------------------------------- rank (lines 91-94)

  /** `reset_index(drop=True)` then `index + 1`: the ranks 1, 2, ..., n. */
  function RankColumn(n: nat): (r: seq<Cell>)
    ensures |r| == n
    ensures n > 0 ==> r[0] == Int(1)
    ensures forall a, b :: 0 <= a < b < n ==> r[a].Int? && r[b].Int? && r[b].i - r[a].i == b - a
  {
    seq(n, k requires 0 <= k < n => Int(k + 1))
  }

  /** The ranked table: every column reordered by `order`, and the rank column added. */
  function Ranked(cols: Columns, height: nat, order: seq<nat>): (r: Columns)
    requires Rectangular(cols, height) && IsIndexPermutation(order, height)
    ensures r.Keys == cols.Keys + {RankName} && Rectangular(r, height)
  {
    (map c | c in cols :: Take(cols[c], order))[RankName := RankColumn(height)]
  }

  /** The score of every row, NaN skipped. */
  function ScoreKey(cols: Columns): (key: seq<real>)
    requires ScoreName in cols
    ensures |key| == |cols[ScoreName]|
  {
    Values(cols[ScoreName])
  }

  /** Lines 91-94 on the frame: a new table, NaN scores dropped, sorted by descending score
      and ranked from 1. */
  method RankPlayers(df: DataFrame) returns (ranked: DataFrame)
    requires df.Valid() && ScoreName in df.columns
    ensures fresh(ranked) && ranked.Valid()
    ensures var kept := DropNa(df.columns, df.height, ScoreName);
            && ranked.height == |KeptRows(df.columns[ScoreName])|
            && ranked.columns == Ranked(kept, ranked.height, SortOrder(ScoreKey(kept)))
  {
    var kept := DropNa(df.columns, df.height, ScoreName);
    var n := |KeptRows(df.columns[ScoreName])|;
    var order := SortOrder(ScoreKey(kept));
    ranked := new DataFrame(Ranked(kept, n, order), n);
  }

  /** Every row of the ranked table is one whole input row (rank aside), and the input rows
      all appear, each once: per column the cells are the same multiset. */
  lemma RankedRowsArePermuted(cols: Columns, height: nat, order: seq<nat>, name: string)
    requires Rectangular(cols, height) && IsIndexPermutation(order, height)
    requires name in cols && name != RankName
    ensures forall k :: 0 <= k < height ==> Ranked(cols, height, order)[name][k] == cols[name][order[k]]
    ensures multiset(Ranked(cols, height, order)[name]) == multiset(cols[name])
  {
    TakePermuted(cols[name], order, Range(height));
    TakeRange(cols[name]);
  }

  lemma {:induction false} TakeAppend<T>(col: seq<T>, a: seq<nat>, b: seq<nat>)
    requires InBounds(a, |col|) && InBounds(b, |col|)
    ensures InBounds(a + b, |col|) && Take(col, a + b) == Take(col, a) + Take(col, b)
  {
    var r := Take(col, a + b);
    assert forall k :: 0 <= k < |a| + |b| ==> r[k] == (Take(col, a) + Take(col, b))[k];
  }

  lemma RemoveAt(b: seq<nat>, j: nat)
    requires j < |b|
    ensures multiset(b[..j] + b[j + 1..]) == multiset(b) - multiset{b[j]}
  {
    assert b == b[..j] + ([b[j]] + b[j + 1..]);
  }

  lemma TakeAround<T>(col: seq<T>, b: seq<nat>, j: nat)
    requires InBounds(b, |col|) && j < |b|
    ensures Take(col, b) == Take(col, b[..j]) + ([col[b[j]]] + Take(col, b[j + 1..]))
  {
    assert b == b[..j] + ([b[j]] + b[j + 1..]);
    TakeAppend(col, b[..j], [b[j]] + b[j + 1..]);
    TakeAppend(col, [b[j]], b[j + 1..]);
  }

  /** Removing position `j` from a list of row positions removes one cell from what it takes. */
  lemma MultisetAround<T>(p: seq<T>, x: T, q: seq<T>)
    ensures multiset(p + ([x] + q)) == multiset(p + q) + multiset{x}
  {
  }

  /** Taking the rows of `b` collects the same cells as taking them without `b[j]`, plus
      the cell at `b[j]`. */
  lemma TakeWithout<T>(col: seq<T>, b: seq<nat>, j: nat)
    requires InBounds(b, |col|) && j < |b|
    ensures InBounds(b[..j] + b[j + 1..], |col|)
    ensures multiset(Take(col, b)) == multiset(Take(col, b[..j] + b[j + 1..])) + multiset{col[b[j]]}
  {
    TakeAround(col, b, j);
    TakeAppend(col, b[..j], b[j + 1..]);
    MultisetAround(Take(col, b[..j]), col[b[j]], Take(col, b[j + 1..]));
  }

  lemma TakeFirst<T>(col: seq<T>, a: seq<nat>)
    requires InBounds(a, |col|) && a != []
    ensures multiset(Take(col, a)) == multiset{col[a[0]]} + multiset(Take(col, a[1..]))
  {
    assert Take(col, a) == [col[a[0]]] + Take(col, a[1..]);
  }

  lemma TakeRemove<T>(col: seq<T>, a: seq<nat>, b: seq<nat>, j: nat)
    requires InBounds(a, |col|) && InBounds(b, |col|) && a != [] && j < |b| && b[j] == a[0]
    requires multiset(Take(col, a[1..])) == multiset(Take(col, b[..j] + b[j + 1..]))
    ensures multiset(Take(col, a)) == multiset(Take(col, b))
  {
    TakeWithout(col, b, j);
    TakeFirst(col, a);
  }

  lemma RemoveFirst(a: seq<nat>)
    requires a != []
    ensures multiset(a[1..]) == multiset(a) - multiset{a[0]}
  {
    assert a == [a[0]] + a[1..];
  }

  /** Two lists of the same row positions take the same multiset of cells. */
  lemma {:induction false} TakePermuted<T>(col: seq<T>, a: seq<nat>, b: seq<nat>)
    requires InBounds(a, |col|) && InBounds(b, |col|) && multiset(a) == multiset(b)
    ensures multiset(Take(col, a)) == multiset(Take(col, b))
    decreases |a|
  {
    if a == [] {
      assert |multiset(b)| == 0;
    } else {
      assert a[0] in multiset(b);
      var j :| 0 <= j < |b| && b[j] == a[0];
      RemoveAt(b, j);
      RemoveFirst(a);
      TakePermuted(col, a[1..], b[..j] + b[j + 1..]);
      TakeRemove(col, a, b, j);
    }
  }

  /** Down the ranked table the scores never increase. */
  lemma RankedScoresNonIncreasing(cols: Columns, height: nat, order: seq<nat>)
    requires Rectangular(cols, height) && ScoreName in cols && IsSortOrder(order, ScoreKey(cols))
    ensures forall a, b :: 0 <= a < b < height ==>
              ScoreKey(Ranked(cols, height, order))[a] >= ScoreKey(Ranked(cols, height, order))[b]
  {
    var r := Ranked(cols, height, order);
    RankedRowsArePermuted(cols, height, order, ScoreName);
  }

  /** The rank column counts 1, 2, ..., and a better (smaller) rank never carries a lower
      score. */
  lemma RankAgreesWithScore(cols: Columns, height: nat, order: seq<nat>, a: nat, b: nat)
    requires Rectangular(cols, height) && ScoreName in cols && IsSortOrder(order, ScoreKey(cols))
    requires a < height && b < height
    ensures Ranked(cols, height, order)[RankName][a] == Int(a + 1)
    ensures Ranked(cols, height, order)[RankName][a].i < Ranked(cols, height, order)[RankName][b].i ==>
              ScoreKey(Ranked(cols, height, order))[a] >= ScoreKey(Ranked(cols, height, order))[b]
  {
    RankedScoresNonIncreasing(cols, height, order);
  }

  /** The head of a non-increasing list is its largest element. */
  lemma HeadIsLargest(xs: seq<real>, k: nat)
    requires forall a, b :: 0 <= a < b < |xs| ==> xs[a] >= xs[b]
    requires k < |xs|
    ensures xs[0] >= xs[k]
  {
    if k > 0 {
      assert xs[0] >= xs[k];
    }
  }

  /** Two non-increasing lists holding the same numbers start with the same number. */
  lemma SortedHeads(xs: seq<real>, ys: seq<real>)
    requires multiset(xs) == multiset(ys) && xs != []
    requires forall a, b :: 0 <= a < b < |xs| ==> xs[a] >= xs[b]
    requires forall a, b :: 0 <= a < b < |ys| ==> ys[a] >= ys[b]
    ensures ys != [] && xs[0] == ys[0]
  {
    assert xs[0] in multiset(ys);
    var i :| 0 <= i < |ys| && ys[i] == xs[0];
    assert ys[0] in multiset(xs);
    var j :| 0 <= j < |xs| && xs[j] == ys[0];
    HeadIsLargest(xs, j);
    HeadIsLargest(ys, i);
  }

  /** Removing the same first element from two equal multisets leaves equal multisets. */
  lemma SameTails(xs: seq<real>, ys: seq<real>)
    requires multiset(xs) == multiset(ys) && xs != [] && ys != [] && xs[0] == ys[0]
    ensures multiset(xs[1..]) == multiset(ys[1..])
  {
    assert xs == [xs[0]] + xs[1..] && ys == [ys[0]] + ys[1..];
    assert multiset(xs[1..]) == multiset(xs) - multiset{xs[0]};
    assert multiset(ys[1..]) == multiset(ys) - multiset{ys[0]};
  }

  /** Two non-increasing lists holding the same numbers are the same list. */
  lemma {:induction false} SortedUnique(xs: seq<real>, ys: seq<real>)
    requires multiset(xs) == multiset(ys)
    requires forall a, b :: 0 <= a < b < |xs| ==> xs[a] >= xs[b]
    requires forall a, b :: 0 <= a < b < |ys| ==> ys[a] >= ys[b]
    ensures xs == ys
    decreases |xs|
  {
    if xs == [] {
      assert |multiset(ys)| == 0;
    } else {
      SortedHeads(xs, ys);
      SameTails(xs, ys);
      SortedUnique(xs[1..], ys[1..]);
      assert xs == [xs[0]] + xs[1..] && ys == [ys[0]] + ys[1..];
    }
  }

  /** However `sort_values` breaks ties, the ranked score column is the same. */
  lemma RankedScoresIndependentOfTies(cols: Columns, height: nat, order1: seq<nat>, order2: seq<nat>)
    requires Rectangular(cols, height) && ScoreName in cols
    requires IsSortOrder(order1, ScoreKey(cols)) && IsSortOrder(order2, ScoreKey(cols))
    ensures ScoreKey(Ranked(cols, height, order1)) == ScoreKey(Ranked(cols, height, order2))
  {
    var key := ScoreKey(cols);
    var r1 := Ranked(cols, height, order1);
    var r2 := Ranked(cols, height, order2);
    assert ScoreKey(r1) == Take(key, order1);
    assert ScoreKey(r2) == Take(key, order2);
    TakePermuted(key, order1, order2);
    RankedScoresNonIncreasing(cols, height, order1);
    RankedScoresNonIncreasing(cols, height, order2);
    SortedUnique(ScoreKey(r1), ScoreKey(r2));
  }

  // ---------------------------------------------------------------- export (lines 96-101)

  /** A CSV file: a header line and rows of cells in header order. */
  datatype Csv = Csv(header: seq<string>, rows: seq<seq<Cell>>)

  ghost predicate HasOutputColumns(cols: Columns)
  {
    forall j :: 0 <= j < |OutputColumns| ==> OutputColumns[j] in cols
  }

  /** `df[output_cols_csv].head(150)`, written without the index. */
  function Export(cols: Columns, height: nat): (t: Csv)
    requires Rectangular(cols, height) && HasOutputColumns(cols)
    ensures t.header == OutputColumns && |t.rows| == Min(ExportLimit, height)
    ensures forall r :: 0 <= r < |t.rows| ==> |t.rows[r]| == |OutputColumns|
  {
    var m := Min(ExportLimit, height);
    Csv(OutputColumns, seq(m, r requires 0 <= r < m =>
      seq(|OutputColumns|, j requires 0 <= j < |OutputColumns| => cols[OutputColumns[j]][r])))
  }

  /** Column `j` of the file `t` lists the cells of `col` in the row order `order`. */
  ghost predicate ListsInOrder(t: Csv, j: nat, col: seq<Cell>, order: seq<nat>)
  {
    forall r :: 0 <= r < |t.rows| ==>
      r < |order| && order[r] < |col| && j < |t.rows[r]| && t.rows[r][j] == col[order[r]]
  }

  /** Every column of the file other than the rank is the table's own column, its rows taken
      in rank order. */
  lemma ExportListsInOrder(cols: Columns, height: nat, order: seq<nat>, j: nat, name: string)
    requires Rectangular(cols, height) && IsIndexPermutation(order, height)
    requires HasOutputColumns(Ranked(cols, height, order))
    requires j < |OutputColumns| && OutputColumns[j] == name && name != RankName && name in cols
    ensures ListsInOrder(Export(Ranked(cols, height, order), height), j, cols[name], order)
  {
    var ranked := Ranked(cols, height, order);
    assert ranked[name] == Take(cols[name], order);
  }

  /** The export is the head of the ranked table: row r is ranked r + 1 and carries the
      (r + 1)-th best score, and no player left out of the file scores more than any player
      in it. */
  lemma ExportIsTopOfRanking(cols: Columns, height: nat, order: seq<nat>)
    requires Rectangular(cols, height) && ScoreName in cols && IsSortOrder(order, ScoreKey(cols))
    requires HasOutputColumns(Ranked(cols, height, order))
    ensures var t := Export(Ranked(cols, height, order), height);
            && |t.rows| == Min(ExportLimit, height)
            && (forall r :: 0 <= r < |t.rows| ==> t.rows[r][0] == Int(r + 1))
            && (forall r :: 0 <= r < |t.rows| ==> SkipNaValue(t.rows[r][4]) == ScoreKey(cols)[order[r]])
            && (forall r, s :: 0 <= r < |t.rows| <= s < height ==>
                  SkipNaValue(t.rows[r][4]) >= ScoreKey(cols)[order[s]])
  {
    var rk := Ranked(cols, height, order);
    RankedRowsArePermuted(cols, height, order, ScoreName);
    RankedScoresNonIncreasing(cols, height, order);
    assert OutputColumns[0] == RankName && OutputColumns[4] == ScoreName;
  }

  /** Every player left out of the export scores no more than every exported player. */
  lemma LeftOutPlayersScoreLower(cols: Columns, height: nat, order: seq<nat>, p: nat)
    requires Rectangular(cols, height) && ScoreName in cols && IsSortOrder(order, ScoreKey(cols))
    requires p < height && p !in order[..Min(ExportLimit, height)]
    ensures forall r :: 0 <= r < Min(ExportLimit, height) ==> ScoreKey(cols)[order[r]] >= ScoreKey(cols)[p]
  {
    assert Range(height)[p] == p;
    assert p in multiset(Range(height));
    assert p in order;
    var s :| 0 <= s < |order| && order[s] == p;
    if s < Min(ExportLimit, height) {
      assert false;
    }
  }
}
