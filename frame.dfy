/** The pandas DataFrame the analysis script works on: named columns of one common height. */
module Frame {
  import opened Cells

  /** A table as a map from column name to the cells of that column, top row first. */
  type Columns = map<string, seq<Cell>>

  ghost predicate Rectangular(cols: Columns, height: nat)
  {
    forall name :: name in cols ==> |cols[name]| == height
  }

  /** No column name listed twice. */
  predicate Distinct(names: seq<string>)
  {
    forall a, b :: 0 <= a < b < |names| ==> names[a] != names[b]
  }

  predicate InBounds(rows: seq<nat>, height: nat)
  {
    forall k :: 0 <= k < |rows| ==> rows[k] < height
  }

  /** `col.take(rows)`: the entries of `col` at the listed row positions, in that order. */
  function Take<T>(col: seq<T>, rows: seq<nat>): (r: seq<T>)
    requires InBounds(rows, |col|)
    ensures |r| == |rows|
    ensures forall k :: 0 <= k < |rows| ==> r[k] == col[rows[k]]
  {
    if rows == [] then [] else [col[rows[0]]] + Take(col, rows[1..])
  }

  /** A mutable DataFrame: `df[name] = ...` replaces or adds a whole column in place. */
  class DataFrame {
    var columns: Columns
    var height: nat

    ghost predicate Valid()
      reads this
    {
      Rectangular(columns, height)
    }

    /** A frame as `pd.read_csv` hands it over. */
    constructor (cols: Columns, h: nat)
      requires Rectangular(cols, h)
      ensures Valid() && columns == cols && height == h
    {
      columns := cols;
      height := h;
    }

    /** `df[name] = col`: overwrites the column, or adds it when it is new. */
    method Assign(name: string, col: seq<Cell>)
      requires Valid() && |col| == height
      modifies this
      ensures Valid() && height == old(height)
      ensures columns == old(columns)[name := col]
    {
      columns := columns[name := col];
    }

    /** `df.copy()`: a new frame with the same cells; later changes to either leave the other alone. */
    method Copy() returns (c: DataFrame)
      requires Valid()
      ensures fresh(c) && c.Valid() && c.columns == columns && c.height == height
    {
      c := new DataFrame(columns, height);
    }
  }
}
