/**
 * Score arithmetic shared by every evaluator and by the search: the bounds
 * of a score, the encoding of "mate in n plies" as a score close to the
 * maximum, the conversion of mate scores to and from the ply-independent
 * form the transposition table stores, the piece values, and the change of
 * perspective from White to the side to move.
 *
 * Scores are C# 32-bit integers. Every operation the source performs on
 * them is written with `Wrap32`, which is the two's-complement wrap-around
 * of unchecked C# arithmetic; `Math.Abs` throws on `int.MinValue`, so the
 * functions that call it require a score other than `Int32Min`.
 */
module StaticEvaluator {
  import opened Globals

  const Int32Min: int := -0x8000_0000
  const Int32Max: int := 0x7fff_ffff

  type Int32 = x: int | -0x8000_0000 <= x <= 0x7fff_ffff

  /** Two's-complement wrap-around of an integer into 32 bits. */
  function Wrap32(x: int): (r: Int32)
    ensures Int32Min <= x <= Int32Max ==> r == x
    ensures (r - x) % 0x1_0000_0000 == 0
  {
    var m := (x + 0x8000_0000) % 0x1_0000_0000;
    m - 0x8000_0000
  }

  const MinScore: Int32 := Int32Min + 1
  const MaxScore: Int32 := Int32Max
  const SmallestMateScore: Int32 := MaxScore - 1050
  const LargestMateScore: Int32 := MaxScore - 50

  /** The value of each piece kind, indexed by kind (none, pawn .. king). */
  const PieceValue: seq<Int32> := [0, 100, 300, 300, 500, 900, Int32Max]

  lemma PieceValues()
    ensures |PieceValue| == 7
    ensures PieceValue[NoPiece] == 0 && PieceValue[Pawn] == 100
    ensures PieceValue[Knight] == 300 && PieceValue[Bishop] == 300
    ensures PieceValue[Rook] == 500 && PieceValue[Queen] == 900
    ensures PieceValue[King] == Int32Max
  {
  }

  /** `Math.Abs` on a 32-bit integer; it throws for `int.MinValue`. */
  function Abs(x: Int32): (r: Int32)
    requires x != Int32Min
    ensures r >= 0 && (r == x || r == -x)
  {
    if x < 0 then -x else x
  }

  function Sign(x: int): (r: int)
    ensures r == -1 || r == 0 || r == 1
    ensures (r == 1 <==> x > 0) && (r == -1 <==> x < 0)
  {
    if x > 0 then 1 else if x < 0 then -1 else 0
  }

  /** The score of being mated (negated: of mating) `ply` plies from the root. */
  function MateScoreFromPly(ply: Int32): (r: Int32)
    ensures 0 <= ply ==> r == LargestMateScore - ply
  {
    Wrap32(LargestMateScore as int - ply as int)
  }

  function PlyFromMateScore(score: Int32): (r: Int32)
    requires score != Int32Min
    ensures r <= LargestMateScore
  {
    LargestMateScore - Abs(score)
  }

  predicate IsMate(score: Int32)
    requires score != Int32Min
  {
    Abs(score) >= SmallestMateScore
  }

  /** The form a score is stored in: every mate score becomes ±LargestMateScore. */
  function RemovePlyDependence(score: Int32): (r: Int32)
    requires score != Int32Min
    ensures r != Int32Min
    ensures IsMate(score) ==> Abs(r) == LargestMateScore && Sign(r) == Sign(score)
    ensures !IsMate(score) ==> r == score
  {
    if Abs(score) >= SmallestMateScore then Sign(score) * LargestMateScore else score
  }

  /** The inverse of `RemovePlyDependence` at `ply` plies from the root. */
  function AddPlyDependence(score: Int32, ply: Int32): (r: Int32)
    requires score != Int32Min
    ensures Abs(score) != LargestMateScore ==> r == score
    ensures Abs(score) == LargestMateScore && 0 <= ply ==> r == Sign(score) * (LargestMateScore - ply)
  {
    if Abs(score) == LargestMateScore then Wrap32(Sign(score) * (Wrap32(LargestMateScore as int - ply as int) as int)) else score
  }

  /** The draw score: zero whatever the ply and the side. */
  function DrawScore(ply: Int32, fromWhosePerspective: Side): (r: Int32)
    ensures r == 0
  {
    0
  }

  /** A score from White's point of view, seen by `fromWhosePerspective`. */
  function FromPerspective(score: Int32, fromWhosePerspective: Side): (r: Int32)
    ensures fromWhosePerspective == White ==> r == score
    ensures fromWhosePerspective == Black && score != Int32Min ==> r == -score
  {
    if fromWhosePerspective == White then score else Wrap32(-(score as int))
  }

  // ----------------------------------------------------------------- lemmas

  /** A mate score and its negation both decode to the ply they encode. */
  lemma MatePlyRoundTrip(ply: Int32)
    requires 0 <= ply <= LargestMateScore
    ensures MateScoreFromPly(ply) != Int32Min && PlyFromMateScore(MateScoreFromPly(ply)) == ply
    ensures -MateScoreFromPly(ply) != Int32Min && PlyFromMateScore(-MateScoreFromPly(ply)) == ply
  {
  }

  /** Mating `ply` plies from the root counts as a mate score exactly up to 1000 plies. */
  lemma MateScoreIsMate(ply: Int32)
    requires 0 <= ply
    ensures MateScoreFromPly(ply) != Int32Min
    ensures IsMate(MateScoreFromPly(ply)) <==> ply <= 1000
    ensures IsMate(-MateScoreFromPly(ply)) <==> ply <= 1000
  {
  }

  /**
   * Storing a score and reading it back at the same ply gives the score
   * again, for the mate scores of every ply and for every score that is not
   * a mate score.
   */
  lemma PlyDependenceRoundTrip(ply: Int32)
    requires 0 <= ply
    ensures AddPlyDependence(RemovePlyDependence(MateScoreFromPly(ply)), ply) == MateScoreFromPly(ply)
    ensures AddPlyDependence(RemovePlyDependence(-MateScoreFromPly(ply)), ply) == -MateScoreFromPly(ply)
  {
    MateScoreIsMate(ply);
  }

  /** A score that is not a mate passes through both conversions unchanged, at any ply. */
  lemma NonMatePassesThrough(score: Int32, ply: Int32)
    requires score != Int32Min && !IsMate(score)
    ensures RemovePlyDependence(score) == score
    ensures AddPlyDependence(score, ply) == score
  {
  }

  /**
   * Within MinScore..MaxScore the two perspectives are exact negations of
   * each other, with no overflow, and changing perspective twice is the
   * identity.
   */
  lemma PerspectiveNegates(score: Int32)
    requires MinScore <= score <= MaxScore
    ensures FromPerspective(score, Black) == -FromPerspective(score, White)
    ensures MinScore <= FromPerspective(score, Black) <= MaxScore
    ensures FromPerspective(FromPerspective(score, Black), Black) == score
  {
  }

  /** The one score outside MinScore..MaxScore is its own negation under wrap-around. */
  lemma PerspectiveOfInt32Min()
    ensures FromPerspective(Int32Min, Black) == Int32Min
  {
  }
}
