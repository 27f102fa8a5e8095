/** The line-clear engine: after a placement, every full row and every full
    column of the resulting board is emptied at once. */
module Clear {
  import opened Board

  predicate FullRow(g: Grid, r: int)
    requires ValidGrid(g) && 0 <= r < GridSize
  {
    forall c :: 0 <= c < GridSize ==> g[r][c] == 1
  }

  predicate FullCol(g: Grid, c: int)
    requires ValidGrid(g) && 0 <= c < GridSize
  {
    forall r :: 0 <= r < GridSize ==> g[r][c] == 1
  }

  /** Cell (r, c) lies on a full row or a full column of g. */
  predicate OnFullLine(g: Grid, r: int, c: int)
    requires ValidGrid(g)
  {
    InBounds(r, c) && (FullRow(g, r) || FullCol(g, c))
  }

  /** Number of full rows among rows 0 .. n-1. */
  function FullRowsBelow(g: Grid, n: int): (k: nat)
    requires ValidGrid(g) && 0 <= n <= GridSize
    ensures k <= n
  {
    if n == 0 then 0 else FullRowsBelow(g, n - 1) + Ind(FullRow(g, n - 1))
  }

  /** Number of full columns among columns 0 .. n-1. */
  function FullColsBelow(g: Grid, n: int): (k: nat)
    requires ValidGrid(g) && 0 <= n <= GridSize
    ensures k <= n
  {
    if n == 0 then 0 else FullColsBelow(g, n - 1) + Ind(FullCol(g, n - 1))
  }

  function FullRows(g: Grid): nat requires ValidGrid(g) { FullRowsBelow(g, GridSize) }
  function FullCols(g: Grid): nat requires ValidGrid(g) { FullColsBelow(g, GridSize) }

  /** The board after clearing: cells on a full line become 0, all others keep their value. */
  function Cleared(g: Grid): (h: Grid)
    requires ValidGrid(g)
    ensures ValidGrid(h)
  {
    seq(GridSize, r requires 0 <= r < GridSize =>
      seq(GridSize, c requires 0 <= c < GridSize =>
        if OnFullLine(g, r, c) then 0 else g[r][c]))
  }

  /** Cell by cell: a cell on a full line becomes 0, every other cell keeps its value. */
  lemma ClearedCells(g: Grid)
    requires ValidGrid(g)
    ensures forall r, c :: InBounds(r, c) ==> Cleared(g)[r][c] == if OnFullLine(g, r, c) then 0 else g[r][c]
  {
  }

  /** No two entries of the list are the same cell. */
  predicate Distinct(cells: seq<(int, int)>) {
    forall i, j :: 0 <= i < j < |cells| ==> cells[i] != cells[j]
  }

  /** clearLines: count the full rows, then the full columns, collect the
      union of their cells once each (rows first, then the column cells not
      already listed), and zero those cells in a copy of the grid. The three
      phases are the three loops of the source. */
  method ClearLines(g: Grid) returns (newGrid: Grid, linesCleared: nat, cellsToClear: seq<(int, int)>)
    requires ValidGrid(g)
    ensures linesCleared == FullRows(g) + FullCols(g)
    ensures forall r, c :: (r, c) in cellsToClear <==> OnFullLine(g, r, c)
    ensures Distinct(cellsToClear)
    ensures |cellsToClear| == 8 * FullRows(g) + 8 * FullCols(g) - FullRows(g) * FullCols(g)
    ensures newGrid == Cleared(g)
    ensures CountOnes(newGrid) + |cellsToClear| == CountOnes(g)
  {
    var rowLines, rowCells := CollectFullRows(g);
    var colLines;
    colLines, cellsToClear := CollectFullCols(g, rowCells);
    linesCleared := rowLines + colLines;
    newGrid := ZeroCells(g, cellsToClear);
    assert forall r, c :: (r, c) in cellsToClear <==> OnFullLine(g, r, c);
    UnionSize(FullRows(g), FullCols(g));
  }

  /** R full rows and C full columns cover 8R + C(8 - R) = 8R + 8C - RC cells. */
  lemma UnionSize(rows: int, cols: int)
    ensures GridSize * rows + cols * (GridSize - rows) == 8 * rows + 8 * cols - rows * cols
  {
    assert cols * (GridSize - rows) == cols * GridSize - cols * rows;
  }

  /** The row loop: one line per full row, and the 8 cells of each full row
      in row-major order. */
  method CollectFullRows(g: Grid) returns (lines: nat, cells: seq<(int, int)>)
    requires ValidGrid(g)
    ensures lines == FullRows(g)
    ensures |cells| == GridSize * FullRows(g)
    ensures forall p :: p in cells <==> InBounds(p.0, p.1) && FullRow(g, p.0)
    ensures Distinct(cells)
  {
    lines, cells := 0, [];
    for r := 0 to GridSize
      invariant lines == FullRowsBelow(g, r)
      invariant |cells| == GridSize * FullRowsBelow(g, r)
      invariant forall p :: p in cells <==> InBounds(p.0, p.1) && p.0 < r && FullRow(g, p.0)
      invariant Distinct(cells)
    {
      if FullRow(g, r) {
        lines := lines + 1;
        for c := 0 to GridSize
          invariant |cells| == GridSize * FullRowsBelow(g, r) + c
          invariant forall p :: p in cells <==>
            InBounds(p.0, p.1) && ((p.0 < r && FullRow(g, p.0)) || (p.0 == r && p.1 < c))
          invariant Distinct(cells)
        {
          cells := cells + [(r, c)];
        }
      }
    }
  }

  /** The column loop: one line per full column; a full column adds only
      those of its cells that no full row has listed, 8 - FullRows(g) each. */
  method CollectFullCols(g: Grid, rowCells: seq<(int, int)>) returns (lines: nat, cells: seq<(int, int)>)
    requires ValidGrid(g)
    requires |rowCells| == GridSize * FullRows(g)
    requires forall p :: p in rowCells <==> InBounds(p.0, p.1) && FullRow(g, p.0)
    requires Distinct(rowCells)
    ensures lines == FullCols(g)
    ensures |cells| == GridSize * FullRows(g) + FullCols(g) * (GridSize - FullRows(g))
    ensures forall p :: p in cells <==> InBounds(p.0, p.1) && (FullRow(g, p.0) || FullCol(g, p.1))
    ensures Distinct(cells)
  {
    lines, cells := 0, rowCells;
    for c := 0 to GridSize
      invariant lines == FullColsBelow(g, c)
      invariant |cells| == GridSize * FullRows(g) + ColumnCellsBelow(g, c, GridSize - FullRows(g))
      invariant forall p :: p in cells <==>
        InBounds(p.0, p.1) && (FullRow(g, p.0) || (p.1 < c && FullCol(g, p.1)))
      invariant Distinct(cells)
    {
      if FullCol(g, c) {
        lines := lines + 1;
        ghost var before := |cells|;
        for r := 0 to GridSize
          invariant |cells| == before + (r - FullRowsBelow(g, r))
          invariant forall p :: p in cells <==>
            InBounds(p.0, p.1) && (FullRow(g, p.0) || (p.1 < c && FullCol(g, p.1)) || (p.1 == c && p.0 < r))
          invariant Distinct(cells)
        {
          if (r, c) !in cells {
            cells := cells + [(r, c)];
          }
        }
      }
    }
    ColumnCellsCount(g, GridSize, GridSize - FullRows(g));
  }

  /** Cells the full columns among columns 0 .. n-1 add to the list: each
      adds its cells outside the full rows. */
  function ColumnCellsBelow(g: Grid, n: int, perColumn: int): int
    requires ValidGrid(g) && 0 <= n <= GridSize
  {
    if n == 0 then 0
    else ColumnCellsBelow(g, n - 1, perColumn) + (if FullCol(g, n - 1) then perColumn else 0)
  }

  lemma {:induction false} ColumnCellsCount(g: Grid, n: int, perColumn: int)
    requires ValidGrid(g) && 0 <= n <= GridSize
    ensures ColumnCellsBelow(g, n, perColumn) == FullColsBelow(g, n) * perColumn
    decreases n
  {
    if n > 0 {
      ColumnCellsCount(g, n - 1, perColumn);
      var k := FullColsBelow(g, n - 1);
      assert (k + 1) * perColumn == k * perColumn + perColumn;
    }
  }

  /** The forEach that zeroes each listed cell of the copy; each listed
      cell was occupied, so the occupied count drops by the list's length. */
  method ZeroCells(g: Grid, cells: seq<(int, int)>) returns (ng: Grid)
    requires ValidGrid(g)
    requires forall r, c :: (r, c) in cells <==> OnFullLine(g, r, c)
    requires Distinct(cells)
    ensures ng == Cleared(g)
    ensures CountOnes(ng) + |cells| == CountOnes(g)
  {
    ng := g;
    for i := 0 to |cells|
      invariant ValidGrid(ng)
      invariant forall r, c :: InBounds(r, c) ==>
        ng[r][c] == if (r, c) in cells[..i] then 0 else g[r][c]
      invariant CountOnes(ng) + i == CountOnes(g)
    {
      var (r, c) := cells[i];
      assert (r, c) in cells;
      assert (r, c) !in cells[..i];
      ng := SetCell(ng, r, c, 0);
      assert cells[..i + 1] == cells[..i] + [(r, c)];
    }
    assert cells[..|cells|] == cells;
    ClearedCells(g);
    GridExt(ng, Cleared(g));
  }

  // ---------------------------------------------------------------------
  // What clearing guarantees

  lemma {:induction false} NoFullRowsBelow(g: Grid, n: int)
    requires ValidGrid(g) && 0 <= n <= GridSize
    requires forall r :: 0 <= r < GridSize ==> !FullRow(g, r)
    ensures FullRowsBelow(g, n) == 0
    decreases n
  {
    if n > 0 { NoFullRowsBelow(g, n - 1); }
  }

  lemma {:induction false} NoFullColsBelow(g: Grid, n: int)
    requires ValidGrid(g) && 0 <= n <= GridSize
    requires forall c :: 0 <= c < GridSize ==> !FullCol(g, c)
    ensures FullColsBelow(g, n) == 0
    decreases n
  {
    if n > 0 { NoFullColsBelow(g, n - 1); }
  }

  /** After clearing, no row and no column is full: a full row of the
      cleared board would have been full before, and then it was emptied
      (and likewise for columns). */
  lemma NothingFullAfterClear(g: Grid)
    requires ValidGrid(g)
    ensures forall r :: 0 <= r < GridSize ==> !FullRow(Cleared(g), r)
    ensures forall c :: 0 <= c < GridSize ==> !FullCol(Cleared(g), c)
    ensures FullRows(Cleared(g)) == 0 && FullCols(Cleared(g)) == 0
  {
    var h := Cleared(g);
    ClearedCells(g);
    forall r | 0 <= r < GridSize ensures !FullRow(h, r) {
      if FullRow(g, r) {
        assert h[r][0] == 0;
      } else {
        var c :| 0 <= c < GridSize && g[r][c] != 1;
        assert h[r][c] != 1;
      }
    }
    forall c | 0 <= c < GridSize ensures !FullCol(h, c) {
      if FullCol(g, c) {
        assert h[0][c] == 0;
      } else {
        var r :| 0 <= r < GridSize && g[r][c] != 1;
        assert h[r][c] != 1;
      }
    }
    NoFullRowsBelow(h, GridSize);
    NoFullColsBelow(h, GridSize);
  }

  /** Clearing is idempotent: a second pass finds no line and changes nothing. */
  lemma ClearIdempotent(g: Grid)
    requires ValidGrid(g)
    ensures FullRows(Cleared(g)) + FullCols(Cleared(g)) == 0
    ensures Cleared(Cleared(g)) == Cleared(g)
  {
    var h := Cleared(g);
    NothingFullAfterClear(g);
    ClearedCells(h);
    forall r, c | InBounds(r, c) ensures Cleared(h)[r][c] == h[r][c] {
      assert !OnFullLine(h, r, c);
    }
    GridExt(Cleared(h), h);
  }

  /** A board with no full line is left as it is. */
  lemma ClearWithoutLines(g: Grid)
    requires ValidGrid(g)
    requires forall r :: 0 <= r < GridSize ==> !FullRow(g, r)
    requires forall c :: 0 <= c < GridSize ==> !FullCol(g, c)
    ensures Cleared(g) == g
  {
    ClearedCells(g);
    GridExt(Cleared(g), g);
  }
}
