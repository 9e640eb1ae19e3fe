/**
 * The material-only evaluator: the value of White's pawns, bishops,
 * knights, rooks and queens minus the value of Black's, each piece board
 * counted with the source's population count, and the change of
 * perspective to the side asking.
 *
 * Because the population count is blind to a board that holds A8 (its loop
 * stops at once on a negative word), the material of a piece standing on
 * A8 is not counted (`A8PieceIgnored`); on every position without a
 * non-king piece on A8 the score is the signed sum of the values of the
 * pieces on the board (`MaterialCountsOccupants`).
 */
module MaterialEvaluation {
  import opened Globals
  import opened BitOperations
  import opened Zobrist
  import opened Positions
  import opened StaticEvaluator
  import opened MoveMaking

  /** The largest material one side can be credited with: 64 squares of every counted kind. */
  const MaterialBound: int := 64 * (100 + 300 + 300 + 500 + 900)

  /** The five counted piece boards of one side, weighted by the piece values, in the source's order. */
  function SideMaterial(bb: seq<bv64>, white: bool): (r: int)
    requires |bb| == 19
    ensures 0 <= r <= MaterialBound
  {
    var base := if white then 6 else 0;
    CountBound(bb[base + Pawn]);
    CountBound(bb[base + Bishop]);
    CountBound(bb[base + Knight]);
    CountBound(bb[base + Rook]);
    CountBound(bb[base + Queen]);
    PieceValue[Pawn] * PositiveLoopCount(bb[base + Pawn]) +
    PieceValue[Bishop] * PositiveLoopCount(bb[base + Bishop]) +
    PieceValue[Knight] * PositiveLoopCount(bb[base + Knight]) +
    PieceValue[Rook] * PositiveLoopCount(bb[base + Rook]) +
    PieceValue[Queen] * PositiveLoopCount(bb[base + Queen])
  }

  /** `EvaluateInternal`: White's material minus Black's; it never leaves the 32-bit range. */
  function EvaluateInternal(p: Position): (r: Int32)
    requires WellFormed(p)
    ensures -MaterialBound <= r <= MaterialBound
  {
    SideMaterial(p.bitBoard, true) - SideMaterial(p.bitBoard, false)
  }

  /** The sum of `SideMaterial` with the piece values written out. */
  lemma SideMaterialValues(bb: seq<bv64>, white: bool)
    requires |bb| == 19
    ensures var base := if white then 6 else 0;
      SideMaterial(bb, white) ==
        100 * PositiveLoopCount(bb[base + Pawn]) + 300 * PositiveLoopCount(bb[base + Bishop]) +
        300 * PositiveLoopCount(bb[base + Knight]) + 500 * PositiveLoopCount(bb[base + Rook]) +
        900 * PositiveLoopCount(bb[base + Queen])
  {
    PieceValues();
  }

  /** Two sets of boards whose counted boards have the same counts score the same. */
  lemma SameCountsSameScore(p: Position, q: Position)
    requires WellFormed(p) && WellFormed(q)
    requires forall k :: 1 <= k <= 12 ==> PositiveLoopCount(q.bitBoard[k]) == PositiveLoopCount(p.bitBoard[k])
    ensures EvaluateInternal(q) == EvaluateInternal(p)
  {
    assert PositiveLoopCount(q.bitBoard[WhitePawn]) == PositiveLoopCount(p.bitBoard[WhitePawn]);
    assert PositiveLoopCount(q.bitBoard[WhiteBishop]) == PositiveLoopCount(p.bitBoard[WhiteBishop]);
    assert PositiveLoopCount(q.bitBoard[WhiteKnight]) == PositiveLoopCount(p.bitBoard[WhiteKnight]);
    assert PositiveLoopCount(q.bitBoard[WhiteRook]) == PositiveLoopCount(p.bitBoard[WhiteRook]);
    assert PositiveLoopCount(q.bitBoard[WhiteQueen]) == PositiveLoopCount(p.bitBoard[WhiteQueen]);
    assert PositiveLoopCount(q.bitBoard[BlackPawn]) == PositiveLoopCount(p.bitBoard[BlackPawn]);
    assert PositiveLoopCount(q.bitBoard[BlackBishop]) == PositiveLoopCount(p.bitBoard[BlackBishop]);
    assert PositiveLoopCount(q.bitBoard[BlackKnight]) == PositiveLoopCount(p.bitBoard[BlackKnight]);
    assert PositiveLoopCount(q.bitBoard[BlackRook]) == PositiveLoopCount(p.bitBoard[BlackRook]);
    assert PositiveLoopCount(q.bitBoard[BlackQueen]) == PositiveLoopCount(p.bitBoard[BlackQueen]);
  }

  /** The score from the point of view of `fromWhosePerspective`. */
  function Evaluate(p: Position, fromWhosePerspective: Side): (r: Int32)
    requires WellFormed(p)
    ensures -MaterialBound <= r <= MaterialBound
  {
    FromPerspective(EvaluateInternal(p), fromWhosePerspective)
  }

  // -------------------------------------------------- reference: the squares

  /** The value a piece adds to White's score: positive for White, negative for Black, nothing for kings and empty squares. */
  function SignedValue(piece: Byte): (r: int)
    ensures IsKing(piece) || piece == NoPiece ==> r == 0
  {
    if IsPieceCode(piece) && !IsKing(piece) then
      if IsWhite(piece) then PieceValue[GetKind(piece)] else if IsBlack(piece) then -PieceValue[piece] else 0
    else 0
  }

  /** The signed values of the occupants of squares `from`..63. */
  function OccupantMaterial(occ: seq<Byte>, from: nat): int
    requires |occ| == 64
    decreases 64 - from
  {
    if from >= 64 then 0 else SignedValue(occ[from]) + OccupantMaterial(occ, from + 1)
  }

  /** The number of squares `from`..63 that hold `piece`. */
  function Occurrences(occ: seq<Byte>, piece: Byte, from: nat): nat
    requires |occ| == 64
    decreases 64 - from
  {
    if from >= 64 then 0 else (if occ[from] == piece then 1 else 0) + Occurrences(occ, piece, from + 1)
  }

  /** The material of squares `from`..63 counted kind by kind, as the evaluator's sum does. */
  function KindTally(occ: seq<Byte>, from: nat): int
    requires |occ| == 64
  {
    100 * (Occurrences(occ, WhitePawn, from) - Occurrences(occ, BlackPawn, from)) +
    300 * (Occurrences(occ, WhiteBishop, from) - Occurrences(occ, BlackBishop, from)) +
    300 * (Occurrences(occ, WhiteKnight, from) - Occurrences(occ, BlackKnight, from)) +
    500 * (Occurrences(occ, WhiteRook, from) - Occurrences(occ, BlackRook, from)) +
    900 * (Occurrences(occ, WhiteQueen, from) - Occurrences(occ, BlackQueen, from))
  }

  lemma {:induction false} KindTallyIsMaterial(occ: seq<Byte>, from: nat)
    requires |occ| == 64
    ensures KindTally(occ, from) == OccupantMaterial(occ, from)
    decreases 64 - from
  {
    if from < 64 {
      KindTallyIsMaterial(occ, from + 1);
    }
  }

  /** A board that holds exactly the squares of `piece` has as many members from `from` on as there are such squares. */
  lemma {:induction false} BitsFromCountsOccurrences(b: bv64, occ: seq<Byte>, piece: Byte, from: nat)
    requires |occ| == 64
    requires forall j: nat :: j < 64 ==> (Has(b, j) <==> occ[j] == piece)
    ensures |BitsFrom(b, from)| == Occurrences(occ, piece, from)
    decreases 64 - from
  {
    if from < 64 {
      BitsFromCountsOccurrences(b, occ, piece, from + 1);
    }
  }

  /** The source's count of a piece board of a consistent position, when A8 does not hold that piece. */
  lemma PieceBoardCount(p: Position, keys: ZobristKeys, piece: Byte)
    requires Consistent(p, keys) && 1 <= piece <= 12 && p.occupant[A8] != piece
    ensures PositiveLoopCount(p.bitBoard[piece]) == Occurrences(p.occupant, piece, 0)
  {
    var b := p.bitBoard[piece];
    forall j: nat | j < 64
      ensures Has(b, j) <==> p.occupant[j] == piece
    {
      assert SquareAgrees(p.occupant, p.bitBoard, j, NoPiece, 0);
    }
    BitsFromCountsOccurrences(b, p.occupant, piece, 0);
    PositiveLoopCountMeaning(b);
  }

  // ----------------------------------------------------------------- lemmas

  /**
   * On a consistent position with no pawn, knight, bishop, rook or queen on
   * A8, the evaluator's score is the signed sum of the values of the pieces
   * on the board.
   */
  lemma MaterialCountsOccupants(p: Position, keys: ZobristKeys)
    requires Consistent(p, keys)
    requires p.occupant[A8] == NoPiece || IsKing(p.occupant[A8])
    ensures EvaluateInternal(p) == OccupantMaterial(p.occupant, 0)
  {
    forall k | 1 <= k <= 12 && !IsKing(k)
      ensures PositiveLoopCount(p.bitBoard[k]) == Occurrences(p.occupant, k, 0)
    {
      PieceBoardCount(p, keys, k);
    }
    ScoreFromCounts(p);
    KindTallyIsMaterial(p.occupant, 0);
  }

  lemma ScoreFromCounts(p: Position)
    requires WellFormed(p)
    requires forall k :: 1 <= k <= 12 && !IsKing(k) ==> PositiveLoopCount(p.bitBoard[k]) == Occurrences(p.occupant, k, 0)
    ensures EvaluateInternal(p) == KindTally(p.occupant, 0)
  {
    SideMaterialValues(p.bitBoard, true);
    SideMaterialValues(p.bitBoard, false);
    assert PositiveLoopCount(p.bitBoard[WhitePawn]) == Occurrences(p.occupant, WhitePawn, 0);
    assert PositiveLoopCount(p.bitBoard[WhiteBishop]) == Occurrences(p.occupant, WhiteBishop, 0);
    assert PositiveLoopCount(p.bitBoard[WhiteKnight]) == Occurrences(p.occupant, WhiteKnight, 0);
    assert PositiveLoopCount(p.bitBoard[WhiteRook]) == Occurrences(p.occupant, WhiteRook, 0);
    assert PositiveLoopCount(p.bitBoard[WhiteQueen]) == Occurrences(p.occupant, WhiteQueen, 0);
    assert PositiveLoopCount(p.bitBoard[BlackPawn]) == Occurrences(p.occupant, BlackPawn, 0);
    assert PositiveLoopCount(p.bitBoard[BlackBishop]) == Occurrences(p.occupant, BlackBishop, 0);
    assert PositiveLoopCount(p.bitBoard[BlackKnight]) == Occurrences(p.occupant, BlackKnight, 0);
    assert PositiveLoopCount(p.bitBoard[BlackRook]) == Occurrences(p.occupant, BlackRook, 0);
    assert PositiveLoopCount(p.bitBoard[BlackQueen]) == Occurrences(p.occupant, BlackQueen, 0);
  }

  /** The king boards (and every board other than the ten counted ones) never change the score. */
  lemma KingsNeverContribute(p: Position, whiteKings: bv64, blackKings: bv64)
    requires WellFormed(p)
    ensures var q := p.(bitBoard := p.bitBoard[WhiteKing := whiteKings][BlackKing := blackKings]);
      WellFormed(q) && EvaluateInternal(q) == EvaluateInternal(p)
  {
  }

  /** A position whose ten counted piece boards are empty scores 0 for either side. */
  lemma NoPiecesScoreZero(p: Position, side: Side)
    requires WellFormed(p)
    requires forall k :: 1 <= k <= 12 && k != WhiteKing && k != BlackKing ==> p.bitBoard[k] == 0
    ensures Evaluate(p, side) == 0
  {
    CountZero();
    assert !Has(0, 63) by { HasZero(63); }
    PositiveLoopCountMeaning(0);
    assert p.bitBoard[WhitePawn] == 0 && p.bitBoard[WhiteBishop] == 0 && p.bitBoard[WhiteKnight] == 0;
    assert p.bitBoard[WhiteRook] == 0 && p.bitBoard[WhiteQueen] == 0;
    assert p.bitBoard[BlackPawn] == 0 && p.bitBoard[BlackBishop] == 0 && p.bitBoard[BlackKnight] == 0;
    assert p.bitBoard[BlackRook] == 0 && p.bitBoard[BlackQueen] == 0;
  }

  /**
   * A counted piece board that holds A8 adds nothing: the score is the one
   * of the same position with that board emptied, however many pieces it
   * holds.
   */
  lemma A8PieceIgnored(p: Position, piece: Byte)
    requires WellFormed(p) && 1 <= piece <= 12 && !IsKing(piece) && Has(p.bitBoard[piece], A8)
    ensures var q := p.(bitBoard := p.bitBoard[piece := 0]);
      WellFormed(q) && EvaluateInternal(q) == EvaluateInternal(p) && Count(p.bitBoard[piece]) >= 1
  {
    var q := p.(bitBoard := p.bitBoard[piece := 0]);
    PositiveLoopCountMissesA8(p.bitBoard[piece]);
    CountZero();
    assert !Has(0, 63) by { HasZero(63); }
    PositiveLoopCountMeaning(0);
    SameCountsSameScore(p, q);
  }

  /** The two perspectives are exact negations of each other. */
  lemma EvaluateNegates(p: Position)
    requires WellFormed(p)
    ensures Evaluate(p, Black) == -Evaluate(p, White)
  {
    PerspectiveNegates(EvaluateInternal(p));
  }
}
