/** Score and combo bookkeeping of a placement, and the two end-of-game
    figures derived from the score: the balance earned and the best score. */
module Scoring {

  const PointsPerCell: int := 10
  const PointsPerLine: int := 100
  /** SCORE_TO_BALANCE_RATIO: 100 points earn one unit of balance. */
  const ScoreToBalanceRatio: int := 100

  datatype Tally = Tally(score: nat, combo: nat)

  /** The update placePiece applies: 10 points per cell of the piece; a
      placement that clears lines adds them to the combo and earns
      lines * 100 * (combo + 1), with the combo as it was BEFORE this
      placement; a placement that clears nothing resets the combo. */
  function ScoreUpdate(t: Tally, pieceSize: nat, lines: nat): (u: Tally)
    ensures u.score >= t.score + PointsPerCell * pieceSize
    ensures u.combo == 0 <==> lines == 0
    ensures lines > 0 ==> u.combo > t.combo && u.score >= t.score + PointsPerCell * pieceSize + PointsPerLine
  {
    if lines > 0 then
      Tally(t.score + pieceSize * PointsPerCell + lines * PointsPerLine * (t.combo + 1), t.combo + lines)
    else
      Tally(t.score + pieceSize * PointsPerCell, 0)
  }

  /** The line bonus of a placement is whatever the update adds beyond the
      piece's own points. */
  function LineBonus(t: Tally, pieceSize: nat, lines: nat): int
  {
    ScoreUpdate(t, pieceSize, lines).score - t.score - PointsPerCell * pieceSize
  }

  /** A streak: after a clearing placement of l1 lines, the next placement
      clearing l2 lines is paid at the raised multiplier combo + l1 + 1. */
  lemma StreakMultiplier(t: Tally, size1: nat, l1: nat, size2: nat, l2: nat)
    requires l1 > 0
    ensures LineBonus(ScoreUpdate(t, size1, l1), size2, l2) == l2 * PointsPerLine * (t.combo + l1 + 1)
  {
  }

  /** After a placement that clears nothing, the next clearing placement is
      paid at the base multiplier 1, whatever the streak was. */
  lemma ResetMultiplier(t: Tally, size1: nat, size2: nat, l2: nat)
    ensures LineBonus(ScoreUpdate(t, size1, 0), size2, l2) == l2 * PointsPerLine
  {
  }

  /** The score never decreases over any sequence of placements. */
  lemma {:induction false} ScoreMonotone(t: Tally, sizes: seq<nat>, lines: seq<nat>)
    requires |sizes| == |lines|
    ensures ScoreAfter(t, sizes, lines).score >= t.score + PointsPerCell * SumOf(sizes)
    decreases |sizes|
  {
    if sizes != [] {
      ScoreMonotone(ScoreUpdate(t, sizes[0], lines[0]), sizes[1..], lines[1..]);
    }
  }

  function SumOf(s: seq<nat>): nat
  {
    if s == [] then 0 else s[0] + SumOf(s[1..])
  }

  /** The tally after a run of placements with the given piece sizes and
      line counts. */
  function ScoreAfter(t: Tally, sizes: seq<nat>, lines: seq<nat>): Tally
    requires |sizes| == |lines|
    decreases |sizes|
  {
    if sizes == [] then t else ScoreAfter(ScoreUpdate(t, sizes[0], lines[0]), sizes[1..], lines[1..])
  }

  /** Balance earned at game over: floor(score / 100). */
  function Earned(score: nat): (e: nat)
    ensures e * ScoreToBalanceRatio <= score < (e + 1) * ScoreToBalanceRatio
  {
    score / ScoreToBalanceRatio
  }

  /** The best score kept across rounds: raised to the score whenever the
      score exceeds it. */
  function NewBest(best: nat, score: nat): (b: nat)
    ensures b >= best && b >= score
    ensures b == best || b == score
  {
    if score > best then score else best
  }
}
