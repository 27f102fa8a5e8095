/** The adaptive drawer: the fuller the board, the more likely a small
    piece. The two random numbers the source takes from Math.random are
    parameters here: a class roll that picks the pool and an index roll
    that picks the entry, both in [0, 1). */
module Draw {
  import opened Board
  import opened Catalog

  /** A piece offered to the player in the current draw of three. */
  datatype DrawnPiece = DrawnPiece(piece: Piece, used: bool)

  const DrawSize: int := 3

  /** fillPercent = 1 - free / 64: the share of the 64 cells that are
      occupied, so 64 times it is the occupied count. */
  function FillPercent(free: int): (f: real)
    ensures f * CellCount as real == (CellCount - free) as real
    ensures 0 <= free <= CellCount ==> 0.0 <= f <= 1.0
  {
    1.0 - (free as real / (CellCount as real))
  }

  /** The three band limits of fillPercent are integer counts of occupied
      cells, because every fill value is a multiple of 1/64. */
  lemma FillBands(free: int)
    requires 0 <= free <= CellCount
    ensures FillPercent(free) > 0.7 <==> CellCount - free >= 45
    ensures FillPercent(free) > 0.5 <==> CellCount - free >= 33
    ensures FillPercent(free) > 0.3 <==> CellCount - free >= 20
  {
  }

  /** The class roll below which the tiny pool is chosen, per fill band. */
  function TinyLimit(fill: real): real {
    if fill > 0.7 then 0.6 else if fill > 0.5 then 0.3 else if fill > 0.3 then 0.15 else 0.1
  }

  /** The class roll from which on the medium pool is chosen, per fill band. */
  function MediumFrom(fill: real): real {
    if fill > 0.7 then 0.9 else if fill > 0.5 then 0.7 else if fill > 0.3 then 0.5 else 0.35
  }

  /** The pool chosen by the class roll within the fill band (thresholds
      0.6/0.9, 0.3/0.7, 0.15/0.5 and 0.1/0.35): the roll range [0, 1) is cut
      into a tiny, a small and a medium interval, in that order, and every
      band gives each interval a positive width. */
  function ChooseClass(fill: real, roll: real): (cls: SizeClass)
    ensures cls == Tiny <==> roll < TinyLimit(fill)
    ensures cls == Medium <==> roll >= MediumFrom(fill)
    ensures 0.0 < TinyLimit(fill) < MediumFrom(fill) < 1.0
  {
    if fill > 0.7 then
      (if roll < 0.6 then Tiny else if roll < 0.9 then Small else Medium)
    else if fill > 0.5 then
      (if roll < 0.3 then Tiny else if roll < 0.7 then Small else Medium)
    else if fill > 0.3 then
      (if roll < 0.15 then Tiny else if roll < 0.5 then Small else Medium)
    else
      (if roll < 0.1 then Tiny else if roll < 0.35 then Small else Medium)
  }

  /** The same table read off the number of occupied cells. */
  function ClassByOccupied(occupied: int, roll: real): SizeClass
  {
    if occupied >= 45 then
      (if roll < 0.6 then Tiny else if roll < 0.9 then Small else Medium)
    else if occupied >= 33 then
      (if roll < 0.3 then Tiny else if roll < 0.7 then Small else Medium)
    else if occupied >= 20 then
      (if roll < 0.15 then Tiny else if roll < 0.5 then Small else Medium)
    else
      (if roll < 0.1 then Tiny else if roll < 0.35 then Small else Medium)
  }

  lemma ClassByOccupiedAgrees(free: int, roll: real)
    requires 0 <= free <= CellCount
    ensures ChooseClass(FillPercent(free), roll) == ClassByOccupied(CellCount - free, roll)
  {
    FillBands(free);
  }

  function ClassRank(cls: SizeClass): int
  {
    match cls
    case Tiny => 0
    case Small => 1
    case Medium => 2
  }

  /** For the same class roll, a fuller board never gets a larger class. */
  lemma FullerBoardSmallerClass(fewer: int, more: int, roll: real)
    requires 0 <= fewer <= more <= CellCount
    ensures ClassRank(ClassByOccupied(more, roll)) <= ClassRank(ClassByOccupied(fewer, roll))
  {
  }

  /** The pool pickAdaptivePiece draws from on board g with this class roll. */
  function PoolFor(g: Grid, classRoll: real): seq<Piece>
    requires ValidGrid(g)
  {
    Pool(ChooseClass(FillPercent(CountZeros(g)), classRoll))
  }

  /** Math.floor(roll * n): a valid index into a list of n > 0 entries. */
  function IndexOf(roll: real, n: int): (i: int)
    requires 0.0 <= roll < 1.0 && n > 0
    ensures 0 <= i < n
  {
    ScaledBelow(roll, n);
    (roll * n as real).Floor
  }

  lemma ScaledBelow(roll: real, n: int)
    requires 0.0 <= roll < 1.0 && n > 0
    ensures 0.0 <= roll * n as real < n as real
  {
    assert (1.0 - roll) * n as real > 0.0;
  }

  /** The pool entries whose id has not been drawn yet (pool.filter(p => !usedIds.includes(p.id))). */
  function NotYetUsed(pool: seq<Piece>, usedIds: seq<int>): (r: seq<Piece>)
    ensures forall p :: p in r <==> p in pool && p.id !in usedIds
  {
    if pool == [] then []
    else if pool[0].id !in usedIds then [pool[0]] + NotYetUsed(pool[1..], usedIds)
    else NotYetUsed(pool[1..], usedIds)
  }

  /** pickAdaptivePiece: choose the pool from the fill band and the class
      roll, then pick by the index roll among the entries not drawn yet, or
      among the whole pool when every entry has been drawn. */
  function PickAdaptivePiece(g: Grid, usedIds: seq<int>, classRoll: real, indexRoll: real): (p: Piece)
    requires ValidGrid(g)
    requires 0.0 <= indexRoll < 1.0
    ensures p in PoolFor(g, classRoll) && p in Pieces
    ensures p.id in usedIds ==> forall q :: q in PoolFor(g, classRoll) ==> q.id in usedIds
  {
    var pool := PoolFor(g, classRoll);
    PoolsNonEmpty(ChooseClass(FillPercent(CountZeros(g)), classRoll));
    var available := NotYetUsed(pool, usedIds);
    if |available| == 0 then
      pool[IndexOf(indexRoll, |pool|)]
    else
      assert available[IndexOf(indexRoll, |available|)] in available;
      available[IndexOf(indexRoll, |available|)]
  }

  predicate ValidRolls(rolls: seq<real>)
  {
    |rolls| == DrawSize && forall i :: 0 <= i < |rolls| ==> 0.0 <= rolls[i] < 1.0
  }

  function DrawnIds(drawn: seq<DrawnPiece>): (ids: seq<int>)
    ensures |ids| == |drawn| && forall i :: 0 <= i < |drawn| ==> ids[i] == drawn[i].piece.id
  {
    if drawn == [] then [] else [drawn[0].piece.id] + DrawnIds(drawn[1..])
  }

  lemma DrawnIdsAppend(drawn: seq<DrawnPiece>, d: DrawnPiece)
    ensures DrawnIds(drawn + [d]) == DrawnIds(drawn) + [d.piece.id]
  {
    var a, b := DrawnIds(drawn + [d]), DrawnIds(drawn) + [d.piece.id];
    assert |a| == |b|;
    forall k | 0 <= k < |a| ensures a[k] == b[k] {
      if k < |drawn| {
        assert (drawn + [d])[k] == drawn[k];
      }
    }
  }

  /** Entries 0 .. n-1 of the list are the picks spawnPieces makes on board
      g: entry k is what pickAdaptivePiece returns with the ids of entries
      0 .. k-1 excluded and the k-th pair of rolls, marked unused. */
  predicate PicksUpTo(g: Grid, classRolls: seq<real>, indexRolls: seq<real>, drawn: seq<DrawnPiece>, n: int)
    requires ValidGrid(g)
    requires ValidRolls(classRolls) && ValidRolls(indexRolls)
    requires 0 <= n <= |drawn| && n <= DrawSize
  {
    forall k {:trigger DrawnIds(drawn[..k])} :: 0 <= k < n ==>
      drawn[k] == DrawnPiece(PickAdaptivePiece(g, DrawnIds(drawn[..k]), classRolls[k], indexRolls[k]), false)
  }

  /** The draw of three that spawnPieces makes on board g with these rolls. */
  predicate IsDrawOf(g: Grid, classRolls: seq<real>, indexRolls: seq<real>, drawn: seq<DrawnPiece>)
    requires ValidGrid(g)
    requires ValidRolls(classRolls) && ValidRolls(indexRolls)
  {
    |drawn| == DrawSize && PicksUpTo(g, classRolls, indexRolls, drawn, DrawSize)
  }

  /** The rolls determine the draw: two draws of the same board with the
      same rolls are the same list. */
  lemma DrawDeterminedByRolls(g: Grid, classRolls: seq<real>, indexRolls: seq<real>, a: seq<DrawnPiece>, b: seq<DrawnPiece>)
    requires ValidGrid(g)
    requires ValidRolls(classRolls) && ValidRolls(indexRolls)
    requires IsDrawOf(g, classRolls, indexRolls, a) && IsDrawOf(g, classRolls, indexRolls, b)
    ensures a == b
  {
    PrefixesAgree(g, classRolls, indexRolls, a, b, DrawSize);
    assert a == a[..DrawSize] && b == b[..DrawSize];
  }

  lemma {:induction false} PrefixesAgree(g: Grid, classRolls: seq<real>, indexRolls: seq<real>, a: seq<DrawnPiece>, b: seq<DrawnPiece>, n: int)
    requires ValidGrid(g)
    requires ValidRolls(classRolls) && ValidRolls(indexRolls)
    requires IsDrawOf(g, classRolls, indexRolls, a) && IsDrawOf(g, classRolls, indexRolls, b)
    requires 0 <= n <= DrawSize
    ensures a[..n] == b[..n]
    decreases n
  {
    if n > 0 {
      PrefixesAgree(g, classRolls, indexRolls, a, b, n - 1);
      SamePrefixSamePick(g, classRolls, indexRolls, a, b, n - 1);
      assert a[..n] == a[..n - 1] + [a[n - 1]];
      assert b[..n] == b[..n - 1] + [b[n - 1]];
    }
  }

  /** One step of PrefixesAgree: equal earlier picks give an equal next pick. */
  lemma SamePrefixSamePick(g: Grid, classRolls: seq<real>, indexRolls: seq<real>, a: seq<DrawnPiece>, b: seq<DrawnPiece>, n: int)
    requires ValidGrid(g)
    requires ValidRolls(classRolls) && ValidRolls(indexRolls)
    requires IsDrawOf(g, classRolls, indexRolls, a) && IsDrawOf(g, classRolls, indexRolls, b)
    requires 0 <= n < DrawSize && a[..n] == b[..n]
    ensures a[n] == b[n]
  {
    assert a[n] == DrawnPiece(PickAdaptivePiece(g, DrawnIds(a[..n]), classRolls[n], indexRolls[n]), false);
    assert b[n] == DrawnPiece(PickAdaptivePiece(g, DrawnIds(b[..n]), classRolls[n], indexRolls[n]), false);
  }

  /** Every draw spawnPieces makes is sound. */
  lemma DrawIsSound(g: Grid, classRolls: seq<real>, indexRolls: seq<real>, drawn: seq<DrawnPiece>)
    requires ValidGrid(g)
    requires ValidRolls(classRolls) && ValidRolls(indexRolls)
    requires IsDrawOf(g, classRolls, indexRolls, drawn)
    ensures SoundDraw(g, classRolls, drawn)
  {
    forall i | 0 <= i < |drawn|
      ensures SoundPick(g, classRolls[i], DrawnIds(drawn[..i]), drawn[i])
    {
      assert drawn[i] == DrawnPiece(PickAdaptivePiece(g, DrawnIds(drawn[..i]), classRolls[i], indexRolls[i]), false);
    }
  }

  /** A draw is sound on board g when every entry is an unused catalog
      piece from the pool its class roll chose, and an entry repeats an
      earlier id only when every entry of its pool had been drawn before. */
  predicate SoundDraw(g: Grid, classRolls: seq<real>, drawn: seq<DrawnPiece>)
    requires ValidGrid(g) && |drawn| <= |classRolls|
  {
    forall i :: 0 <= i < |drawn| ==> SoundPick(g, classRolls[i], DrawnIds(drawn[..i]), drawn[i])
  }

  predicate SoundPick(g: Grid, classRoll: real, earlierIds: seq<int>, d: DrawnPiece)
    requires ValidGrid(g)
  {
    && !d.used
    && d.piece in Pieces
    && d.piece in PoolFor(g, classRoll)
    && (d.piece.id in earlierIds ==> forall q :: q in PoolFor(g, classRoll) ==> q.id in earlierIds)
  }

  /** spawnPieces: three picks on the same board, each excluding the ids of
      the earlier picks; every drawn piece starts unused. */
  method SpawnPieces(g: Grid, classRolls: seq<real>, indexRolls: seq<real>) returns (drawn: seq<DrawnPiece>)
    requires ValidGrid(g)
    requires ValidRolls(classRolls) && ValidRolls(indexRolls)
    ensures IsDrawOf(g, classRolls, indexRolls, drawn)
    ensures SoundDraw(g, classRolls, drawn)
  {
    drawn := [];
    var usedIds: seq<int> := [];
    for i := 0 to DrawSize
      invariant |drawn| == i
      invariant PicksUpTo(g, classRolls, indexRolls, drawn, i)
      invariant usedIds == DrawnIds(drawn)
    {
      var piece := PickAdaptivePiece(g, usedIds, classRolls[i], indexRolls[i]);
      DrawnIdsAppend(drawn, DrawnPiece(piece, false));
      ghost var before := drawn;
      drawn := drawn + [DrawnPiece(piece, false)];
      usedIds := usedIds + [piece.id];
      forall k | 0 <= k < i + 1 ensures drawn[..k] == before[..k] || k == i {
        if k < i {
          assert drawn[..k] == before[..k];
        }
      }
      assert drawn[..i] == before;
    }
    DrawIsSound(g, classRolls, indexRolls, drawn);
  }
}
