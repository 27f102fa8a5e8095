/** One round of Block Blast: the board, the running score and combo, the
    three drawn pieces with their used flags, the game-over flag, the best
    score and the balance earned when the round ended. */
module Round {
  import opened Board
  import opened Catalog
  import opened Clear
  import opened Scoring
  import opened Draw
  import opened Terminal

  /** No row and no column of the board is full. */
  predicate NoFullLine(g: Grid)
    requires ValidGrid(g)
  {
    (forall r :: 0 <= r < GridSize ==> !FullRow(g, r)) &&
    (forall c :: 0 <= c < GridSize ==> !FullCol(g, c))
  }

  /** newPieces.every(p => p.used): nothing is left of the draw to place. */
  predicate AllUsed(pieces: seq<DrawnPiece>): (all: bool)
    ensures all <==> Unused(pieces) == []
  {
    NothingUnusedLeft(pieces);
    forall i :: 0 <= i < |pieces| ==> pieces[i].used
  }

  lemma NothingUnusedLeft(pieces: seq<DrawnPiece>)
    ensures (forall i :: 0 <= i < |pieces| ==> pieces[i].used) <==> Unused(pieces) == []
  {
  }

  /** The draw after piece i has been placed: only its used flag changes. */
  function MarkUsed(pieces: seq<DrawnPiece>, i: int): (r: seq<DrawnPiece>)
    requires 0 <= i < |pieces|
    ensures |r| == |pieces| && r[i].used && r[i].piece == pieces[i].piece
    ensures forall k :: 0 <= k < |pieces| && k != i ==> r[k] == pieces[k]
  {
    pieces[i := pieces[i].(used := true)]
  }

  /** The balance the game-over effect records: floor(score / 100) when
      the game has just ended with a positive score that earns something,
      otherwise what was recorded before. */
  function BalanceOnGameOver(ended: bool, score: nat, before: nat): (b: nat)
    ensures ended && Earned(score) > 0 ==> b * ScoreToBalanceRatio <= score < (b + 1) * ScoreToBalanceRatio
    ensures !(ended && Earned(score) > 0) ==> b == before
  {
    if ended && score > 0 && Earned(score) > 0 then Earned(score) else before
  }

  /** Everything a round keeps in React state: the board, score, combo,
      the current draw, the game-over flag, the best score and the balance
      recorded when the round ended. */
  datatype State = State(
    grid: Grid, score: nat, combo: nat, pieces: seq<DrawnPiece>,
    gameOver: bool, best: nat, balanceAdded: nat)

  /** The round invariant: an 8 x 8 0/1 board with no full line left on
      it, a draw of three catalog pieces, a best score at least the
      current score, and a lost round always has a piece left to place. */
  predicate Inv(s: State) {
    && ValidGrid(s.grid)
    && NoFullLine(s.grid)
    && |s.pieces| == DrawSize
    && (forall i :: 0 <= i < |s.pieces| ==> s.pieces[i].piece in Pieces)
    && s.best >= s.score
    && (s.gameOver ==> exists i :: 0 <= i < |s.pieces| && !s.pieces[i].used)
  }

  /** What placePiece does to state s when asked to put piece `index` with
      its top-left cell at (row, col): a placement the validator rejects
      changes nothing, an accepted one moves the state as Accepted says. */
  predicate Placement(s: State, index: int, row: int, col: int,
                      classRolls: seq<real>, indexRolls: seq<real>, placed: bool, t: State)
    requires Inv(s) && 0 <= index < |s.pieces|
    requires ValidRolls(classRolls) && ValidRolls(indexRolls)
  {
    && (placed <==> CanPlace(s.pieces[index].piece.shape, row, col, s.grid))
    && (!placed ==> t == s)
    && (placed ==> Accepted(s, index, row, col, classRolls, indexRolls, t))
  }

  /** An accepted placement: the piece's cells are stamped, the full lines
      of the result are cleared, score and combo are updated, the best score
      follows the score and the piece is marked used. Then, when all three
      pieces are used, a new draw is made on the cleared board; otherwise the
      game-over test on the cleared board decides whether the round is lost,
      and a newly lost round records its earned balance. */
  predicate Accepted(s: State, index: int, row: int, col: int,
                     classRolls: seq<real>, indexRolls: seq<real>, t: State)
    requires Inv(s) && 0 <= index < |s.pieces|
    requires ValidRolls(classRolls) && ValidRolls(indexRolls)
  {
    var shape := s.pieces[index].piece.shape;
    var stamped := Stamp(s.grid, shape, row, col);
    var marked := MarkUsed(s.pieces, index);
    && t.grid == Cleared(stamped)
    && Tally(t.score, t.combo) == ScoreUpdate(Tally(s.score, s.combo), CountOnes(shape), FullRows(stamped) + FullCols(stamped))
    && t.best == NewBest(s.best, t.score)
    && (AllUsed(marked) ==>
          IsDrawOf(t.grid, classRolls, indexRolls, t.pieces) && t.gameOver == s.gameOver)
    && (!AllUsed(marked) ==>
          t.pieces == marked && t.gameOver == (s.gameOver || IsGameOver(t.grid, marked)))
    && t.balanceAdded == BalanceOnGameOver(!s.gameOver && t.gameOver, t.score, s.balanceAdded)
  }

  /** placePiece on state values: validate, then place. */
  method Place(s: State, index: int, row: int, col: int, classRolls: seq<real>, indexRolls: seq<real>)
    returns (placed: bool, t: State)
    requires Inv(s) && 0 <= index < |s.pieces|
    requires ValidRolls(classRolls) && ValidRolls(indexRolls)
    ensures Inv(t)
    ensures Placement(s, index, row, col, classRolls, indexRolls, placed, t)
  {
    placed := CanPlaceScan(s.pieces[index].piece.shape, row, col, s.grid);
    if placed {
      t := PlaceAccepted(s, index, row, col, classRolls, indexRolls);
    } else {
      t := s;
    }
  }

  /** The accepted path of placePiece. */
  method PlaceAccepted(s: State, index: int, row: int, col: int, classRolls: seq<real>, indexRolls: seq<real>)
    returns (t: State)
    requires Inv(s) && 0 <= index < |s.pieces|
    requires ValidRolls(classRolls) && ValidRolls(indexRolls)
    requires CanPlace(s.pieces[index].piece.shape, row, col, s.grid)
    ensures Inv(t)
    ensures Accepted(s, index, row, col, classRolls, indexRolls, t)
  {
    var cleared, tally := PlaceAndScore(s.grid, s.pieces[index].piece.shape, row, col, Tally(s.score, s.combo));
    var marked := MarkUsed(s.pieces, index);
    var next, over := AfterPlacement(cleared, marked, classRolls, indexRolls);
    var ended := over && !s.gameOver;
    t := State(cleared, tally.score, tally.combo, next, s.gameOver || over, NewBest(s.best, tally.score),
               BalanceOnGameOver(ended, tally.score, s.balanceAdded));
  }

  /** Every placement, accepted or not, keeps the round invariant. */
  lemma PlacementKeepsInv(s: State, index: int, row: int, col: int,
                          classRolls: seq<real>, indexRolls: seq<real>, placed: bool, t: State)
    requires Inv(s) && 0 <= index < |s.pieces|
    requires ValidRolls(classRolls) && ValidRolls(indexRolls)
    requires Placement(s, index, row, col, classRolls, indexRolls, placed, t)
    ensures Inv(t)
  {
    if placed {
      var stamped := Stamp(s.grid, s.pieces[index].piece.shape, row, col);
      var marked := MarkUsed(s.pieces, index);
      NothingFullAfterClear(stamped);
      if AllUsed(marked) {
        DrawIsSound(t.grid, classRolls, indexRolls, t.pieces);
        SoundDrawInCatalog(t.grid, classRolls, t.pieces);
        assert !t.pieces[0].used;
      } else {
        var i :| 0 <= i < |marked| && !marked[i].used;
        assert !t.pieces[i].used;
      }
    }
  }

  /** An accepted placement earns at least the piece's own points, 10 per
      cell; every catalog piece has a cell, so the score rises by at least 10. */
  lemma PlacementScore(s: State, index: int, row: int, col: int,
                       classRolls: seq<real>, indexRolls: seq<real>, t: State)
    requires Inv(s) && 0 <= index < |s.pieces|
    requires ValidRolls(classRolls) && ValidRolls(indexRolls)
    requires Placement(s, index, row, col, classRolls, indexRolls, true, t)
    ensures t.score >= s.score + PointsPerCell * s.pieces[index].piece.size
    ensures t.score >= s.score + PointsPerCell
  {
    CatalogWellFormed(s.pieces[index].piece);
  }

  /** A lost round stays lost whatever is placed, and the balance it
      recorded is never recorded again. */
  lemma LostRoundStaysLost(s: State, index: int, row: int, col: int,
                           classRolls: seq<real>, indexRolls: seq<real>, placed: bool, t: State)
    requires Inv(s) && 0 <= index < |s.pieces|
    requires ValidRolls(classRolls) && ValidRolls(indexRolls)
    requires Placement(s, index, row, col, classRolls, indexRolls, placed, t)
    requires s.gameOver
    ensures t.gameOver && t.balanceAdded == s.balanceAdded
  {
  }

  class Round {
    var grid: Grid
    var score: nat
    var combo: nat
    var pieces: seq<DrawnPiece>
    var gameOver: bool
    var best: nat
    var balanceAdded: nat

    /** The fields as one state value. */
    function Snapshot(): State
      reads this
    {
      State(grid, score, combo, pieces, gameOver, best, balanceAdded)
    }

    predicate Valid()
      reads this
    {
      Inv(Snapshot())
    }

    /** A fresh round: empty board, zero score and combo, a first draw on the
        empty board, and the best score read back from storage. */
    constructor(storedBest: nat, classRolls: seq<real>, indexRolls: seq<real>)
      requires ValidRolls(classRolls) && ValidRolls(indexRolls)
      ensures Valid()
      ensures grid == EmptyGrid() && score == 0 && combo == 0 && !gameOver
      ensures best == storedBest && balanceAdded == 0
      ensures IsDrawOf(EmptyGrid(), classRolls, indexRolls, pieces)
    {
      var empty := EmptyGrid();
      var drawn := SpawnPieces(empty, classRolls, indexRolls);
      EmptyNoFullLine();
      grid := empty;
      score, combo := 0, 0;
      pieces := drawn;
      gameOver := false;
      best := storedBest;
      balanceAdded := 0;
      SoundDrawInCatalog(empty, classRolls, drawn);
    }

    /** restartGame: a new round on an empty board; the best score and the
        recorded balance are kept. */
    method Restart(classRolls: seq<real>, indexRolls: seq<real>)
      requires Valid()
      requires ValidRolls(classRolls) && ValidRolls(indexRolls)
      modifies this
      ensures Valid()
      ensures grid == EmptyGrid() && score == 0 && combo == 0 && !gameOver
      ensures best == old(best) && balanceAdded == old(balanceAdded)
      ensures IsDrawOf(EmptyGrid(), classRolls, indexRolls, pieces)
    {
      var empty := EmptyGrid();
      var drawn := SpawnPieces(empty, classRolls, indexRolls);
      EmptyNoFullLine();
      grid := empty;
      score, combo := 0, 0;
      gameOver := false;
      pieces := drawn;
      SoundDrawInCatalog(empty, classRolls, drawn);
    }

    /** placePiece: the fields move as Placement says. */
    method PlacePiece(index: int, row: int, col: int, classRolls: seq<real>, indexRolls: seq<real>)
      returns (placed: bool)
      requires Valid()
      requires 0 <= index < |pieces|
      requires ValidRolls(classRolls) && ValidRolls(indexRolls)
      modifies this
      ensures Valid()
      ensures Placement(old(Snapshot()), index, row, col, classRolls, indexRolls, placed, Snapshot())
    {
      var t;
      placed, t := Place(Snapshot(), index, row, col, classRolls, indexRolls);
      grid, score, combo, pieces := t.grid, t.score, t.combo, t.pieces;
      gameOver, best, balanceAdded := t.gameOver, t.best, t.balanceAdded;
      assert Snapshot() == t;
    }
  }

  /** The grid and score part of placePiece: stamp the piece's cells into a
      copy of the board, clear the full lines of the result, and apply the
      score and combo update for the piece's cell count and the lines cleared.
      The occupied count grows by the piece's cells and drops by the cells
      cleared, 8R + 8C - RC for R full rows and C full columns. */
  method PlaceAndScore(g: Grid, shape: Grid, row: int, col: int, t: Tally) returns (cleared: Grid, u: Tally)
    requires ValidGrid(g)
    requires CanPlace(shape, row, col, g)
    ensures
      var stamped := Stamp(g, shape, row, col);
      var rows, cols := FullRows(stamped), FullCols(stamped);
      && cleared == Cleared(stamped)
      && u == ScoreUpdate(t, CountOnes(shape), rows + cols)
      && CountOnes(cleared) + 8 * rows + 8 * cols - rows * cols == CountOnes(g) + CountOnes(shape)
    ensures ValidGrid(cleared) && NoFullLine(cleared)
  {
    var stamped := PlaceCells(g, shape, row, col);
    var linesCleared, cellsToClear;
    cleared, linesCleared, cellsToClear := ClearLines(stamped);
    NothingFullAfterClear(stamped);
    u := ScoreUpdate(t, CountOnes(shape), linesCleared);
  }

  /** The rule applied once a piece is placed and marked used: when every
      piece of the draw is used, a new draw is made on the cleared board and
      the round goes on; otherwise the draw stays and the game-over test on
      the cleared board decides. Either way a piece is left to place. */
  method AfterPlacement(g: Grid, marked: seq<DrawnPiece>, classRolls: seq<real>, indexRolls: seq<real>)
    returns (next: seq<DrawnPiece>, over: bool)
    requires ValidGrid(g)
    requires |marked| == DrawSize && forall i :: 0 <= i < |marked| ==> marked[i].piece in Pieces
    requires ValidRolls(classRolls) && ValidRolls(indexRolls)
    ensures AllUsed(marked) ==> IsDrawOf(g, classRolls, indexRolls, next) && !over
    ensures !AllUsed(marked) ==> next == marked && (over <==> IsGameOver(g, marked))
    ensures |next| == DrawSize && forall i :: 0 <= i < |next| ==> next[i].piece in Pieces
    ensures exists i :: 0 <= i < |next| && !next[i].used
  {
    if AllUsed(marked) {
      next := SpawnPieces(g, classRolls, indexRolls);
      SoundDrawInCatalog(g, classRolls, next);
      assert !next[0].used;
      over := false;
    } else {
      next := marked;
      over := CheckGameOver(g, marked);
    }
  }

  lemma EmptyNoFullLine()
    ensures NoFullLine(EmptyGrid())
  {
    var e := EmptyGrid();
    forall r | 0 <= r < GridSize ensures !FullRow(e, r) {
      assert e[r][0] == 0;
    }
    forall c | 0 <= c < GridSize ensures !FullCol(e, c) {
      assert e[0][c] == 0;
    }
  }

  lemma SoundDrawInCatalog(g: Grid, classRolls: seq<real>, drawn: seq<DrawnPiece>)
    requires ValidGrid(g) && |drawn| <= |classRolls|
    requires SoundDraw(g, classRolls, drawn)
    ensures forall i :: 0 <= i < |drawn| ==> drawn[i].piece in Pieces && !drawn[i].used
  {
    forall i | 0 <= i < |drawn| ensures drawn[i].piece in Pieces && !drawn[i].used {
      assert SoundPick(g, classRolls[i], DrawnIds(drawn[..i]), drawn[i]);
    }
  }
}
