/** The fixed catalog of 16 piece shapes and the three size pools the
    adaptive drawer chooses from. */
module Catalog {
  import opened Board

  /** A catalog entry: a stable id, a 0/1 mask (rows may differ in length)
      and the declared cell count. */
  datatype Piece = Piece(id: int, shape: Grid, size: int)

  /** The catalog table, entry by entry (index i holds id i + 1). */
  function Entry(i: int): Piece
    requires 0 <= i < 16
  {
    match i
    case 0 => Piece(1, [[1]], 1)
    case 1 => Piece(2, [[1, 1]], 2)
    case 2 => Piece(3, [[1], [1]], 2)
    case 3 => Piece(4, [[1, 1], [1, 1]], 4)
    case 4 => Piece(5, [[1, 1, 1]], 3)
    case 5 => Piece(6, [[1], [1], [1]], 3)
    case 6 => Piece(7, [[1, 1, 1], [1, 0, 0]], 4)
    case 7 => Piece(8, [[1, 0], [1, 0], [1, 1]], 4)
    case 8 => Piece(9, [[1, 1, 1], [0, 0, 1]], 4)
    case 9 => Piece(10, [[0, 1], [0, 1], [1, 1]], 4)
    case 10 => Piece(11, [[1, 1, 0], [0, 1, 1]], 4)
    case 11 => Piece(12, [[0, 1], [1, 1], [1, 0]], 4)
    case 12 => Piece(13, [[0, 1, 1], [1, 1, 0]], 4)
    case 13 => Piece(14, [[1, 0], [1, 1], [0, 1]], 4)
    case 14 => Piece(15, [[1, 1, 1], [0, 1, 0]], 4)
    case _ => Piece(16, [[0, 1], [1, 1], [0, 1]], 4)
  }

  /** PIECES: the 16 entries in catalog order. */
  const Pieces: seq<Piece> := [
    Entry(0), Entry(1), Entry(2), Entry(3), Entry(4), Entry(5), Entry(6), Entry(7),
    Entry(8), Entry(9), Entry(10), Entry(11), Entry(12), Entry(13), Entry(14), Entry(15)
  ]

  /** The three pools of the drawer. They are not a partition: the small
      pool is "size at most 3" and so also holds the 1-cell piece. */
  datatype SizeClass = Tiny | Small | Medium

  predicate InClass(cls: SizeClass, p: Piece) {
    match cls
    case Tiny => p.size == 1
    case Small => p.size <= 3
    case Medium => p.size == 4
  }

  /** The catalog entries of a class, in catalog order (Array.prototype.filter). */
  function FilterClass(ps: seq<Piece>, cls: SizeClass, i: nat): (r: seq<Piece>)
    requires i <= |ps|
    ensures forall p :: p in r <==> p in ps[i..] && InClass(cls, p)
    decreases |ps| - i
  {
    if i == |ps| then []
    else if InClass(cls, ps[i]) then [ps[i]] + FilterClass(ps, cls, i + 1)
    else FilterClass(ps, cls, i + 1)
  }

  function Pool(cls: SizeClass): (r: seq<Piece>)
    ensures forall p :: p in r <==> p in Pieces && InClass(cls, p)
  {
    assert Pieces[0..] == Pieces;
    FilterClass(Pieces, cls, 0)
  }

  /** The small pool also holds the 1-cell piece: every tiny entry is small. */
  lemma TinyWithinSmall(i: int)
    requires 0 <= i < |Pieces| && Pieces[i].size == 1
    ensures Pieces[i] in Pool(Tiny) && Pieces[i] in Pool(Small)
  {
  }

  /** The mask has a 1 in its first row and a 1 in its first column, so the
      top-left corner of the bounding box is reached by the piece. */
  predicate Anchored(shape: Grid) {
    |shape| > 0 && 1 in shape[0] && FirstColumnHasOne(shape)
  }

  predicate FirstColumnHasOne(shape: Grid) {
    shape != [] && ((|shape[0]| > 0 && shape[0][0] == 1) || FirstColumnHasOne(shape[1..]))
  }

  lemma {:induction false} FirstColumnWitness(shape: Grid) returns (k: int)
    requires FirstColumnHasOne(shape)
    ensures 0 <= k < |shape| && |shape[k]| > 0 && shape[k][0] == 1
    decreases |shape|
  {
    if |shape[0]| > 0 && shape[0][0] == 1 {
      k := 0;
    } else {
      k := FirstColumnWitness(shape[1..]);
      k := k + 1;
    }
  }

  /** What every catalog entry is checked against: the declared size is the
      mask's 1-count, the size is between 1 and 4, and the mask is anchored. */
  predicate WellFormed(p: Piece) {
    CountOnes(p.shape) == p.size && 1 <= p.size <= 4 && Anchored(p.shape)
  }

  /** Each catalog entry is well formed. */
  lemma EntryWellFormed(i: int)
    requires 0 <= i < 16
    ensures WellFormed(Entry(i))
  {
    if i < 4 { EntriesWellFormed1(i); }
    else if i < 8 { EntriesWellFormed2(i); }
    else if i < 12 { EntriesWellFormed3(i); }
    else { EntriesWellFormed4(i); }
  }

  // The entries are checked four at a time, one lemma per quarter.

  lemma EntriesWellFormed1(i: int)
    requires 0 <= i < 4
    ensures WellFormed(Entry(i))
  {
    assert i == 0 || i == 1 || i == 2 || i == 3;
  }

  lemma EntriesWellFormed2(i: int)
    requires 4 <= i < 8
    ensures WellFormed(Entry(i))
  {
    assert i == 4 || i == 5 || i == 6 || i == 7;
  }

  lemma EntriesWellFormed3(i: int)
    requires 8 <= i < 12
    ensures WellFormed(Entry(i))
  {
    assert i == 8 || i == 9 || i == 10 || i == 11;
  }

  lemma EntriesWellFormed4(i: int)
    requires 12 <= i < 16
    ensures WellFormed(Entry(i))
  {
    assert i == 12 || i == 13 || i == 14 || i == 15;
  }

  /** Every catalog entry's size field equals the number of 1s in its mask
      (the pieceSize placePiece computes), lies between 1 and 4, and its mask
      is anchored. */
  lemma CatalogWellFormed(p: Piece)
    requires p in Pieces
    ensures CountOnes(p.shape) == p.size && 1 <= p.size <= 4
    ensures |p.shape| > 0
    ensures exists k :: 0 <= k < |p.shape[0]| && p.shape[0][k] == 1
    ensures exists k :: 0 <= k < |p.shape| && |p.shape[k]| > 0 && p.shape[k][0] == 1
  {
    var j :| 0 <= j < |Pieces| && Pieces[j] == p;
    EntryWellFormed(j);
    var k := FirstColumnWitness(p.shape);
  }

  /** Every pool is non-empty, so the drawer always has something to pick. */
  /** One step of the filter: entry i adds one to the count exactly when it is in the class. */
  lemma FilterStep(cls: SizeClass, i: int)
    requires 0 <= i < |Pieces|
    ensures |FilterClass(Pieces, cls, i)| == |FilterClass(Pieces, cls, i + 1)| + (if InClass(cls, Pieces[i]) then 1 else 0)
  {
  }

  /** The pools hold 1, 5 and 11 entries: the pick index ranges over these lengths. */
  lemma PoolSizes()
    ensures |Pool(Tiny)| == 1 && |Pool(Small)| == 5 && |Pool(Medium)| == 11
  {
    TinyPoolSize();
    SmallPoolSize();
    MediumPoolSize();
  }

  lemma TinyPoolSize()
    ensures |Pool(Tiny)| == 1
  {
    FilterStep(Tiny, 15);
    FilterStep(Tiny, 14);
    FilterStep(Tiny, 13);
    FilterStep(Tiny, 12);
    FilterStep(Tiny, 11);
    FilterStep(Tiny, 10);
    FilterStep(Tiny, 9);
    FilterStep(Tiny, 8);
    FilterStep(Tiny, 7);
    FilterStep(Tiny, 6);
    FilterStep(Tiny, 5);
    FilterStep(Tiny, 4);
    FilterStep(Tiny, 3);
    FilterStep(Tiny, 2);
    FilterStep(Tiny, 1);
    FilterStep(Tiny, 0);
    assert Pieces[0..] == Pieces;
  }

  lemma SmallPoolSize()
    ensures |Pool(Small)| == 5
  {
    FilterStep(Small, 15);
    FilterStep(Small, 14);
    FilterStep(Small, 13);
    FilterStep(Small, 12);
    FilterStep(Small, 11);
    FilterStep(Small, 10);
    FilterStep(Small, 9);
    FilterStep(Small, 8);
    FilterStep(Small, 7);
    FilterStep(Small, 6);
    FilterStep(Small, 5);
    FilterStep(Small, 4);
    FilterStep(Small, 3);
    FilterStep(Small, 2);
    FilterStep(Small, 1);
    FilterStep(Small, 0);
    assert Pieces[0..] == Pieces;
  }

  lemma MediumPoolSize()
    ensures |Pool(Medium)| == 11
  {
    FilterStep(Medium, 15);
    FilterStep(Medium, 14);
    FilterStep(Medium, 13);
    FilterStep(Medium, 12);
    FilterStep(Medium, 11);
    FilterStep(Medium, 10);
    FilterStep(Medium, 9);
    FilterStep(Medium, 8);
    FilterStep(Medium, 7);
    FilterStep(Medium, 6);
    FilterStep(Medium, 5);
    FilterStep(Medium, 4);
    FilterStep(Medium, 3);
    FilterStep(Medium, 2);
    FilterStep(Medium, 1);
    FilterStep(Medium, 0);
    assert Pieces[0..] == Pieces;
  }

  lemma PoolsNonEmpty(cls: SizeClass)
    ensures |Pool(cls)| > 0
  {
    var p := if cls == Medium then Pieces[3] else Pieces[0];
    assert p in Pool(cls);
  }
}
