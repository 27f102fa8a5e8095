/** The game-over test: the round is lost when pieces remain to be placed
    and none of them fits anywhere on the board. */
module Terminal {
  import opened Board
  import opened Catalog
  import opened Draw

  /** The pieces of the draw not placed yet (currentPieces.filter(p => !p.used)). */
  function Unused(pieces: seq<DrawnPiece>): (r: seq<DrawnPiece>)
    ensures forall d :: d in r <==> d in pieces && !d.used
    ensures |r| <= |pieces|
  {
    if pieces == [] then []
    else if !pieces[0].used then [pieces[0]] + Unused(pieces[1..])
    else Unused(pieces[1..])
  }

  /** The mask fits at some anchor on the board. */
  predicate FitsSomewhere(shape: Grid, g: Grid)
    requires ValidGrid(g)
  {
    exists r, c :: 0 <= r < GridSize && 0 <= c < GridSize && CanPlace(shape, r, c, g)
  }

  /** Game over: at least one piece is still unused, and no unused piece
      fits anywhere. A draw whose pieces are all used is never game over. */
  predicate IsGameOver(g: Grid, pieces: seq<DrawnPiece>)
    requires ValidGrid(g)
  {
    (exists d :: d in pieces && !d.used) &&
    forall d :: d in pieces && !d.used ==> !FitsSomewhere(d.piece.shape, g)
  }

  /** checkGameOver: tries every unused piece at every anchor of the board,
      in order, and answers false at the first fit. */
  method CheckGameOver(g: Grid, pieces: seq<DrawnPiece>) returns (over: bool)
    requires ValidGrid(g)
    ensures over <==> IsGameOver(g, pieces)
  {
    var unused := Unused(pieces);
    if |unused| == 0 {
      return false;
    }
    assert unused[0] in pieces;
    for i := 0 to |unused|
      invariant forall k :: 0 <= k < i ==> !FitsSomewhere(unused[k].piece.shape, g)
    {
      var shape := unused[i].piece.shape;
      for r := 0 to GridSize
        invariant forall r', c' :: 0 <= r' < r && 0 <= c' < GridSize ==> !CanPlace(shape, r', c', g)
      {
        for c := 0 to GridSize
          invariant forall r', c' :: 0 <= r' < r && 0 <= c' < GridSize ==> !CanPlace(shape, r', c', g)
          invariant forall c' :: 0 <= c' < c ==> !CanPlace(shape, r, c', g)
        {
          var ok := CanPlaceScan(shape, r, c, g);
          if ok {
            assert unused[i] in pieces;
            return false;
          }
        }
      }
    }
    forall d | d in pieces && !d.used ensures !FitsSomewhere(d.piece.shape, g) {
      assert d in unused;
    }
    return true;
  }

  /** A catalog piece can only fit at an anchor inside the board: its mask
      has a 1 in its first row and a 1 in its first column, and that cell
      lands on row `row` and column `col`. */
  lemma CatalogAnchorInBounds(p: Piece, row: int, col: int, g: Grid)
    requires p in Pieces && ValidGrid(g)
    requires CanPlace(p.shape, row, col, g)
    ensures InBounds(row, col)
  {
    CatalogWellFormed(p);
    var k :| 0 <= k < |p.shape[0]| && p.shape[0][k] == 1;
    var j :| 0 <= j < |p.shape| && |p.shape[j]| > 0 && p.shape[j][0] == 1;
    assert InBounds(row + 0, col + k);
    assert InBounds(row + j, col + 0);
  }

  /** So the 8 x 8 anchor search of checkGameOver misses no placement of a
      catalog piece: it fits at some integer anchor exactly when it fits at
      an anchor the search tries. */
  lemma AnchorSearchComplete(p: Piece, g: Grid)
    requires p in Pieces && ValidGrid(g)
    ensures (exists r, c :: CanPlace(p.shape, r, c, g)) <==> FitsSomewhere(p.shape, g)
  {
    if r, c :| CanPlace(p.shape, r, c, g) {
      CatalogAnchorInBounds(p, r, c, g);
    }
  }
}
