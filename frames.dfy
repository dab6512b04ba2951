/**
 * pandas DataFrames, row by row: a list of column names, a dtype per
 * column, and rows mapping column names to cells.  The class DataFrame is
 * the object the dashboards rewrite in place with `df[col] = ...`.
 */
module Frames {
  import opened Cells
  import opened Sorting

  type Row = map<string, Cell>

  datatype Frame = Frame(columns: seq<string>, dtypes: map<string, Kind>, rows: seq<Row>)

  /** `row[col]`; a column a row lacks reads as missing. */
  function Get(row: Row, col: string): Cell
  {
    if col in row then row[col] else Missing
  }

  /**
   * What pandas guarantees of every DataFrame: distinct column names, one
   * dtype per column, every row has every column, every cell fits its
   * column's dtype.
   */
  ghost predicate WellFormed(f: Frame)
  {
    && NoDups(f.columns)
    && (forall c :: c in f.dtypes <==> c in f.columns)
    && (forall i :: 0 <= i < |f.rows| ==> f.rows[i].Keys == f.dtypes.Keys)
    && (forall i, c :: 0 <= i < |f.rows| && c in f.rows[i] ==> c in f.dtypes && Fits(f.dtypes[c], f.rows[i][c]))
  }

  /** `df[col]` as a list of cells. */
  function Column(rows: seq<Row>, col: string): (cells: seq<Cell>)
    ensures |cells| == |rows|
    ensures forall i :: 0 <= i < |rows| ==> cells[i] == Get(rows[i], col)
  {
    seq(|rows|, i requires 0 <= i < |rows| => Get(rows[i], col))
  }

  /** `df.select_dtypes(include=[k]).columns`: the columns of dtype k, in column order. */
  function ColumnsOfKind(f: Frame, k: Kind): (r: seq<string>)
    ensures forall c :: c in r <==> c in f.columns && c in f.dtypes && f.dtypes[c] == k
    ensures NoDups(f.columns) ==> NoDups(r)
  {
    KindFilter(f.columns, f.dtypes, k)
  }

  function KindFilter(cols: seq<string>, dtypes: map<string, Kind>, k: Kind): (r: seq<string>)
    ensures forall c :: c in r <==> c in cols && c in dtypes && dtypes[c] == k
    ensures NoDups(cols) ==> NoDups(r)
  {
    if cols == [] then []
    else
      var rest := KindFilter(cols[1..], dtypes, k);
      assert forall c :: c in cols <==> c == cols[0] || c in cols[1..] by {
        assert cols == [cols[0]] + cols[1..];
      }
      if cols[0] in dtypes && dtypes[cols[0]] == k then [cols[0]] + rest else rest
  }

  /** Every row with `col` set to the matching new cell. */
  function SetCells(rows: seq<Row>, col: string, cells: seq<Cell>): (r: seq<Row>)
    requires |cells| == |rows|
    ensures |r| == |rows|
    ensures forall i :: 0 <= i < |rows| ==> r[i] == rows[i][col := cells[i]]
  {
    seq(|rows|, i requires 0 <= i < |rows| => rows[i][col := cells[i]])
  }

  /** Read after write: the assigned column reads back as the new cells, every other column as before. */
  lemma ColumnAfterSetCells(rows: seq<Row>, col: string, cells: seq<Cell>, c: string)
    requires |cells| == |rows|
    ensures Column(SetCells(rows, col, cells), col) == cells
    ensures c != col ==> Column(SetCells(rows, col, cells), c) == Column(rows, c)
  {
    var r := SetCells(rows, col, cells);
    assert forall i :: 0 <= i < |rows| ==> Get(r[i], col) == cells[i];
  }

  function MapCells(cells: seq<Cell>, h: Cell -> Cell): (r: seq<Cell>)
    ensures |r| == |cells|
    ensures forall i :: 0 <= i < |cells| ==> r[i] == h(cells[i])
  {
    seq(|cells|, i requires 0 <= i < |cells| => h(cells[i]))
  }

  /** `df[col] = df[col].<h>` with the column's new dtype k. */
  function Rewrite(f: Frame, col: string, k: Kind, h: Cell -> Cell): Frame
  {
    Frame(f.columns, f.dtypes[col := k], SetCells(f.rows, col, MapCells(Column(f.rows, col), h)))
  }

  /** Rewrite applied to each of cols in turn, as a `for col in cols:` loop does. */
  function RewriteEach(f: Frame, cols: seq<string>, k: Kind, h: Cell -> Cell): (r: Frame)
    ensures r.columns == f.columns && |r.rows| == |f.rows|
  {
    if cols == [] then f
    else Rewrite(RewriteEach(f, cols[..|cols| - 1], k, h), cols[|cols| - 1], k, h)
  }

  /**
   * The frame r is f with exactly the columns cols rewritten by h to dtype
   * k: same column list, same number of rows, same keys in every row
   * (when cols are columns of f), and every other column untouched.
   */
  ghost predicate RewrittenFrom(r: Frame, f: Frame, cols: seq<string>, k: Kind, h: Cell -> Cell)
  {
    && r.columns == f.columns
    && |r.rows| == |f.rows|
    && (forall c :: c in r.dtypes <==> c in f.dtypes || c in cols)
    && (forall c :: c in r.dtypes ==> r.dtypes[c] == if c in cols then k else f.dtypes[c])
    && (forall i :: 0 <= i < |r.rows| ==> r.rows[i].Keys == f.rows[i].Keys + set c | c in cols)
    && (forall i, c :: 0 <= i < |r.rows| ==>
          Get(r.rows[i], c) == if c in cols then h(Get(f.rows[i], c)) else Get(f.rows[i], c))
  }

  lemma {:induction false} RewriteEachSpec(f: Frame, cols: seq<string>, k: Kind, h: Cell -> Cell)
    requires NoDups(cols)
    ensures RewrittenFrom(RewriteEach(f, cols, k, h), f, cols, k, h)
  {
    if cols != [] {
      var init, last := cols[..|cols| - 1], cols[|cols| - 1];
      assert cols == init + [last];
      RewriteEachSpec(f, init, k, h);
      var g := RewriteEach(f, init, k, h);
      assert last !in init;
      var r := Rewrite(g, last, k, h);
      assert (set c | c in cols) == (set c | c in init) + {last};
      forall i, c | 0 <= i < |r.rows|
        ensures Get(r.rows[i], c) == if c in cols then h(Get(f.rows[i], c)) else Get(f.rows[i], c)
      {
        assert r.rows[i] == g.rows[i][last := h(Get(g.rows[i], last))];
      }
    }
  }

  /** Rewriting columns of a well-formed frame into cells that fit the new dtype keeps it well formed. */
  lemma RewriteEachWellFormed(f: Frame, cols: seq<string>, k: Kind, h: Cell -> Cell)
    requires WellFormed(f) && NoDups(cols)
    requires forall c :: c in cols ==> c in f.columns
    requires forall x :: Fits(k, h(x))
    ensures WellFormed(RewriteEach(f, cols, k, h))
  {
    var r := RewriteEach(f, cols, k, h);
    RewriteEachSpec(f, cols, k, h);
    forall i, c | 0 <= i < |r.rows| && c in r.rows[i]
      ensures c in r.dtypes && Fits(r.dtypes[c], r.rows[i][c])
    {
      assert Get(r.rows[i], c) == r.rows[i][c];
    }
  }

  /** Rewriting the same columns again with an idempotent h changes nothing. */
  lemma RewriteEachIdempotent(f: Frame, cols: seq<string>, k: Kind, h: Cell -> Cell)
    requires NoDups(cols)
    requires forall x :: h(h(x)) == h(x)
    ensures RewriteEach(RewriteEach(f, cols, k, h), cols, k, h) == RewriteEach(f, cols, k, h)
  {
    var g := RewriteEach(f, cols, k, h);
    var r := RewriteEach(g, cols, k, h);
    RewriteEachSpec(f, cols, k, h);
    RewriteEachSpec(g, cols, k, h);
    assert r.dtypes.Keys == g.dtypes.Keys;
    forall c | c in r.dtypes ensures r.dtypes[c] == g.dtypes[c] {
      if c in cols { assert r.dtypes[c] == k == g.dtypes[c]; }
    }
    assert r.dtypes == g.dtypes;
    forall i | 0 <= i < |r.rows| ensures r.rows[i] == g.rows[i] {
      assert r.rows[i].Keys == g.rows[i].Keys;
      forall c | c in r.rows[i] ensures r.rows[i][c] == g.rows[i][c] {
        assert Get(r.rows[i], c) == r.rows[i][c] && Get(g.rows[i], c) == g.rows[i][c];
      }
    }
    assert r.rows == g.rows;
  }

  /** The pandas DataFrame object that a dashboard rewrites column by column. */
  class DataFrame {
    var columns: seq<string>
    var dtypes: map<string, Kind>
    var rows: seq<Row>

    function Value(): Frame
      reads this
    {
      Frame(columns, dtypes, rows)
    }

    ghost predicate Valid()
      reads this
    {
      WellFormed(Value())
    }

    /** A DataFrame holding the table f (what `read_file` and `copy()` produce). */
    constructor (f: Frame)
      ensures Value() == f
    {
      columns, dtypes, rows := f.columns, f.dtypes, f.rows;
    }

    /** `df[col]` */
    function ColumnCells(col: string): (cells: seq<Cell>)
      reads this
      ensures cells == Column(rows, col)
    {
      Column(rows, col)
    }

    /** `df[col] = cells`, the new column having dtype k; an unknown name is appended. */
    method SetColumn(col: string, k: Kind, cells: seq<Cell>)
      requires |cells| == |rows|
      modifies this
      ensures columns == if col in old(columns) then old(columns) else old(columns) + [col]
      ensures dtypes == old(dtypes)[col := k]
      ensures rows == SetCells(old(rows), col, cells)
      ensures old(Valid()) && col in old(columns) && (forall i :: 0 <= i < |cells| ==> Fits(k, cells[i]))
              ==> Valid()
    {
      if col !in columns {
        columns := columns + [col];
      }
      dtypes := dtypes[col := k];
      rows := SetCells(rows, col, cells);
    }
  }

  /**
   * `for col in cols: df[col] = df[col].<h>`, each rewritten column getting
   * dtype k: the frame afterwards is f with exactly cols rewritten.
   */
  method RewriteColumns(df: DataFrame, cols: seq<string>, k: Kind, h: Cell -> Cell)
    requires forall c :: c in cols ==> c in df.columns
    modifies df
    ensures df.Value() == RewriteEach(old(df.Value()), cols, k, h)
  {
    ghost var f := df.Value();
    var i := 0;
    while i < |cols|
      invariant 0 <= i <= |cols|
      invariant df.Value() == RewriteEach(f, cols[..i], k, h)
    {
      var col := cols[i];
      assert cols[..i + 1][..i] == cols[..i];
      df.SetColumn(col, k, MapCells(df.ColumnCells(col), h));
      i := i + 1;
    }
    assert cols[..i] == cols;
  }
}
