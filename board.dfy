/** The 8x8 occupancy grid of a Block Blast round: cell counting, the
    placement validator and the stamping of a piece onto the grid. */
module Board {

  const GridSize: int := 8
  const CellCount: int := GridSize * GridSize

  /** A row-major grid (or a piece mask) of 0/1 cells. */
  type Grid = seq<seq<int>>

  predicate InBounds(r: int, c: int) {
    0 <= r < GridSize && 0 <= c < GridSize
  }

  /** The board invariant: 8 rows of 8 cells, each 0 (empty) or 1 (occupied). */
  predicate ValidGrid(g: Grid) {
    |g| == GridSize &&
    forall r :: 0 <= r < GridSize ==>
      |g[r]| == GridSize && forall c :: 0 <= c < GridSize ==> g[r][c] == 0 || g[r][c] == 1
  }

  function EmptyGrid(): (g: Grid)
    ensures ValidGrid(g)
    ensures forall r, c :: InBounds(r, c) ==> g[r][c] == 0
  {
    seq(GridSize, _ => seq(GridSize, _ => 0))
  }

  /** Two valid grids that agree cell by cell are the same grid. */
  lemma GridExt(a: Grid, b: Grid)
    requires ValidGrid(a) && ValidGrid(b)
    requires forall r, c :: InBounds(r, c) ==> a[r][c] == b[r][c]
    ensures a == b
  {
    forall r | 0 <= r < GridSize ensures a[r] == b[r] {
      assert forall c :: 0 <= c < GridSize ==> a[r][c] == b[r][c];
    }
  }

  // ---------------------------------------------------------------------
  // Counting cells

  function Ind(b: bool): nat { if b then 1 else 0 }

  /** Number of entries equal to 1 in a row. */
  function RowOnes(row: seq<int>): nat
  {
    if row == [] then 0 else Ind(row[0] == 1) + RowOnes(row[1..])
  }

  /** Number of entries equal to 0 in a row. */
  function RowZeros(row: seq<int>): nat
  {
    if row == [] then 0 else Ind(row[0] == 0) + RowZeros(row[1..])
  }

  /** Number of 1-cells of a grid or of a piece mask (a mask's 1-count is its piece size). */
  function CountOnes(m: Grid): nat
  {
    if m == [] then 0 else RowOnes(m[0]) + CountOnes(m[1..])
  }

  /** Number of 0-cells of a grid: the free cells. */
  function CountZeros(m: Grid): nat
  {
    if m == [] then 0 else RowZeros(m[0]) + CountZeros(m[1..])
  }

  lemma {:induction false} RowCountsAppend(s: seq<int>, x: int)
    ensures RowOnes(s + [x]) == RowOnes(s) + Ind(x == 1)
    ensures RowZeros(s + [x]) == RowZeros(s) + Ind(x == 0)
    decreases |s|
  {
    if s != [] {
      assert (s + [x])[1..] == s[1..] + [x];
      RowCountsAppend(s[1..], x);
    }
  }

  lemma {:induction false} CountsAppend(m: Grid, row: seq<int>)
    ensures CountOnes(m + [row]) == CountOnes(m) + RowOnes(row)
    ensures CountZeros(m + [row]) == CountZeros(m) + RowZeros(row)
    decreases |m|
  {
    if m != [] {
      assert (m + [row])[1..] == m[1..] + [row];
      CountsAppend(m[1..], row);
    }
  }

  /** Overwriting one entry changes the row's 1-count by the difference of the two values' indicators. */
  lemma {:induction false} RowOnesUpdate(s: seq<int>, i: int, v: int)
    requires 0 <= i < |s|
    ensures RowOnes(s[i := v]) + Ind(s[i] == 1) == RowOnes(s) + Ind(v == 1)
    decreases |s|
  {
    var t := s[i := v];
    if i > 0 {
      assert t[1..] == s[1..][i - 1 := v];
      RowOnesUpdate(s[1..], i - 1, v);
    } else {
      assert t[1..] == s[1..];
    }
  }

  /** Overwriting one cell changes the grid's 1-count by the difference of the two values' indicators. */
  lemma {:induction false} CountOnesUpdate(m: Grid, r: int, c: int, v: int)
    requires 0 <= r < |m| && 0 <= c < |m[r]|
    ensures CountOnes(m[r := m[r][c := v]]) + Ind(m[r][c] == 1) == CountOnes(m) + Ind(v == 1)
    decreases |m|
  {
    var t := m[r := m[r][c := v]];
    if r > 0 {
      assert t[1..] == m[1..][r - 1 := m[r][c := v]];
      CountOnesUpdate(m[1..], r - 1, c, v);
    } else {
      assert t[1..] == m[1..];
      RowOnesUpdate(m[r], c, v);
    }
  }

  /** Write one cell of the board: only that cell changes, and the occupied
      count moves by the difference of the old and new indicators. */
  function SetCell(g: Grid, r: int, c: int, v: int): (h: Grid)
    requires ValidGrid(g) && InBounds(r, c) && (v == 0 || v == 1)
    ensures ValidGrid(h)
    ensures forall gr, gc :: InBounds(gr, gc) ==> h[gr][gc] == if gr == r && gc == c then v else g[gr][gc]
    ensures CountOnes(h) + Ind(g[r][c] == 1) == CountOnes(g) + Ind(v == 1)
  {
    CountOnesUpdate(g, r, c, v);
    g[r := g[r][c := v]]
  }

  lemma {:induction false} RowOnesPlusZeros(row: seq<int>)
    requires forall c :: 0 <= c < |row| ==> row[c] == 0 || row[c] == 1
    ensures RowOnes(row) + RowZeros(row) == |row|
    decreases |row|
  {
    if row != [] {
      RowOnesPlusZeros(row[1..]);
    }
  }

  lemma {:induction false} OnesPlusZerosRows(m: Grid, k: nat)
    requires ValidGrid(m) && k <= GridSize
    ensures CountOnes(m[..k]) + CountZeros(m[..k]) == GridSize * k
    decreases k
  {
    if k > 0 {
      assert m[..k] == m[..k - 1] + [m[k - 1]];
      OnesPlusZerosRows(m, k - 1);
      CountsAppend(m[..k - 1], m[k - 1]);
      RowOnesPlusZeros(m[k - 1]);
    }
  }

  /** On a valid board every cell is either free or occupied. */
  lemma FreePlusOccupied(g: Grid)
    requires ValidGrid(g)
    ensures CountOnes(g) + CountZeros(g) == CellCount
  {
    OnesPlusZerosRows(g, GridSize);
    assert g[..GridSize] == g;
  }

  /** countFreeCells: scan all 64 cells and count the empty ones. */
  method CountFreeCells(g: Grid) returns (count: nat)
    requires ValidGrid(g)
    ensures count == CountZeros(g)
    ensures count + CountOnes(g) == CellCount
  {
    count := 0;
    for r := 0 to GridSize
      invariant count == CountZeros(g[..r])
    {
      for c := 0 to GridSize
        invariant count == CountZeros(g[..r]) + RowZeros(g[r][..c])
      {
        assert g[r][..c + 1] == g[r][..c] + [g[r][c]];
        RowCountsAppend(g[r][..c], g[r][c]);
        if g[r][c] == 0 {
          count := count + 1;
        }
      }
      assert g[r][..GridSize] == g[r];
      assert g[..r + 1] == g[..r] + [g[r]];
      CountsAppend(g[..r], g[r]);
    }
    assert g[..GridSize] == g;
    FreePlusOccupied(g);
  }

  // ---------------------------------------------------------------------
  // Placement validator

  /** A piece mask fits at anchor (row, col): every 1-cell of the mask lands
      inside the board on a cell that is not occupied. */
  predicate CanPlace(shape: Grid, row: int, col: int, g: Grid)
    requires ValidGrid(g)
  {
    forall dr, dc :: 0 <= dr < |shape| && 0 <= dc < |shape[dr]| && shape[dr][dc] == 1 ==>
      InBounds(row + dr, col + dc) && g[row + dr][col + dc] != 1
  }

  /** canPlace: scans the mask row by row and stops at the first 1-cell that
      falls off the board or on an occupied cell. */
  method CanPlaceScan(shape: Grid, row: int, col: int, g: Grid) returns (ok: bool)
    requires ValidGrid(g)
    ensures ok <==> CanPlace(shape, row, col, g)
  {
    for r := 0 to |shape|
      invariant forall dr, dc :: 0 <= dr < r && 0 <= dc < |shape[dr]| && shape[dr][dc] == 1 ==>
        InBounds(row + dr, col + dc) && g[row + dr][col + dc] != 1
    {
      for c := 0 to |shape[r]|
        invariant forall dr, dc :: 0 <= dr < r && 0 <= dc < |shape[dr]| && shape[dr][dc] == 1 ==>
          InBounds(row + dr, col + dc) && g[row + dr][col + dc] != 1
        invariant forall dc :: 0 <= dc < c && shape[r][dc] == 1 ==>
          InBounds(row + r, col + dc) && g[row + r][col + dc] != 1
      {
        if shape[r][c] == 1 {
          var gr, gc := row + r, col + c;
          if gr < 0 || gr >= GridSize || gc < 0 || gc >= GridSize {
            return false;
          }
          if g[gr][gc] == 1 {
            return false;
          }
        }
      }
    }
    return true;
  }

  // ---------------------------------------------------------------------
  // Stamping a piece onto the grid

  /** Cell (r, c) of the board is under a 1-cell of the mask anchored at
      (row, col), counting only mask rows before k and, in row k, mask
      cells before j. */
  predicate CoveredUpTo(shape: Grid, row: int, col: int, r: int, c: int, k: int, j: int)
  {
    var dr, dc := r - row, c - col;
    0 <= dr < |shape| && 0 <= dc < |shape[dr]| && shape[dr][dc] == 1 &&
    (dr < k || (dr == k && dc < j))
  }

  /** Cell (r, c) of the board is under a 1-cell of the mask anchored at (row, col). */
  predicate Covers(shape: Grid, row: int, col: int, r: int, c: int)
  {
    CoveredUpTo(shape, row, col, r, c, |shape|, 0)
  }

  /** The board after writing the piece's 1-cells, before any line is cleared. */
  function Stamp(g: Grid, shape: Grid, row: int, col: int): (s: Grid)
    requires ValidGrid(g)
    ensures ValidGrid(s)
  {
    seq(GridSize, r requires 0 <= r < GridSize =>
      seq(GridSize, c requires 0 <= c < GridSize =>
        if Covers(shape, row, col, r, c) then 1 else g[r][c]))
  }

  /** Cell by cell: a covered cell becomes 1, every other cell keeps its value. */
  lemma StampCells(g: Grid, shape: Grid, row: int, col: int)
    requires ValidGrid(g)
    ensures forall r, c :: InBounds(r, c) ==>
      Stamp(g, shape, row, col)[r][c] == if Covers(shape, row, col, r, c) then 1 else g[r][c]
  {
  }

  /** The grid-update loop of placePiece: copy the grid and set every cell under
      a 1-cell of the mask to 1. On a validated anchor it adds exactly the
      piece's 1-count to the occupied cells. */
  method PlaceCells(g: Grid, shape: Grid, row: int, col: int) returns (ng: Grid)
    requires ValidGrid(g)
    requires CanPlace(shape, row, col, g)
    ensures ng == Stamp(g, shape, row, col)
    ensures CountOnes(ng) == CountOnes(g) + CountOnes(shape)
  {
    ng := g;
    for r := 0 to |shape|
      invariant ValidGrid(ng)
      invariant forall gr, gc :: InBounds(gr, gc) ==>
        ng[gr][gc] == if CoveredUpTo(shape, row, col, gr, gc, r, 0) then 1 else g[gr][gc]
      invariant CountOnes(ng) == CountOnes(g) + CountOnes(shape[..r])
    {
      for c := 0 to |shape[r]|
        invariant ValidGrid(ng)
        invariant forall gr, gc :: InBounds(gr, gc) ==>
          ng[gr][gc] == if CoveredUpTo(shape, row, col, gr, gc, r, c) then 1 else g[gr][gc]
        invariant CountOnes(ng) == CountOnes(g) + CountOnes(shape[..r]) + RowOnes(shape[r][..c])
      {
        assert shape[r][..c + 1] == shape[r][..c] + [shape[r][c]];
        RowCountsAppend(shape[r][..c], shape[r][c]);
        if shape[r][c] == 1 {
          assert !CoveredUpTo(shape, row, col, row + r, col + c, r, c);
          ng := SetCell(ng, row + r, col + c, 1);
        }
      }
      assert shape[r][..|shape[r]|] == shape[r];
      assert shape[..r + 1] == shape[..r] + [shape[r]];
      CountsAppend(shape[..r], shape[r]);
    }
    assert shape[..|shape|] == shape;
    StampCells(g, shape, row, col);
    GridExt(ng, Stamp(g, shape, row, col));
  }
}
