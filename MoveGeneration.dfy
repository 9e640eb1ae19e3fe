/**
 * The moves the generator produces for a position, as values. Every
 * generator of the source takes the squares of a bitboard off one at a
 * time, lowest first, and appends the moves each square gives; here an
 * `Emitter` names what one square gives, `EmitAll` walks a list of
 * squares, and `Emitted` walks the squares of a bitboard lowest first.
 * The maps themselves are the source's shift-and-mask expressions. The
 * imperative generator (module Generators) is proved to append exactly
 * these sequences, and the enumerator (module MoveEnumeration) to yield
 * them; the lemmas at the end say what the moves are.
 */
module MoveGeneration {
  import opened Globals
  import opened BitOperations
  import opened Moves
  import opened Positions
  import BoardTables

  // ------------------------------------------------------------ squares

  predicate AllOnBoard(s: seq<nat>)
  {
    forall i :: 0 <= i < |s| ==> s[i] < 64
  }

  lemma SquaresOnBoard(b: bv64)
    ensures AllOnBoard(Squares(b))
  {
    SquaresMeaning(b);
    forall i | 0 <= i < |Squares(b)|
      ensures Squares(b)[i] < 64
    {
      assert Squares(b)[i] in Squares(b);
    }
  }

  // ------------------------------------------------------- what a square gives

  function PawnPiece(white: bool): Byte { if white then WhitePawn else BlackPawn }

  function KingPiece(white: bool): Byte { if white then WhiteKing else BlackKing }

  function OwnKing(p: Position, white: bool): int { if white then p.whiteKingSquare else p.blackKingSquare }

  /**
   * The moves a pawn move becomes on the last rank: the queen promotion,
   * then (when asked for) the rook, bishop and knight promotions.
   */
  function Promotions(m: Move, white: bool, allPromotions: bool): (r: seq<Move>)
    ensures |r| == if allPromotions then 4 else 1
    ensures r[0] == m.(promotionPiece := if white then WhiteQueen else BlackQueen)
    ensures forall x :: x in r ==>
      x == m.(promotionPiece := x.promotionPiece) && IsWhite(x.promotionPiece) == white &&
      GetKind(x.promotionPiece) in {Knight, Bishop, Rook, Queen}
  {
    if white then
      [m.(promotionPiece := WhiteQueen)] +
      (if allPromotions then [m.(promotionPiece := WhiteRook), m.(promotionPiece := WhiteBishop), m.(promotionPiece := WhiteKnight)] else [])
    else
      [m.(promotionPiece := BlackQueen)] +
      (if allPromotions then [m.(promotionPiece := BlackRook), m.(promotionPiece := BlackBishop), m.(promotionPiece := BlackKnight)] else [])
  }

  /**
   * What one square taken off a map gives, for each loop body of the
   * generator:
   *  - `Targets`: the square is a target of the piece on `from`; a capture
   *    names what stands there.
   *  - `PawnCaptures`: a pawn capture onto the square from `offset` behind
   *    it, promoting on the last rank.
   *  - `PushPromotions`: a pawn push onto the last rank.
   *  - `PawnPushes`: a single push, then the double push when the pawn is
   *    on its first rank and the square beyond is empty.
   * The check-escape loop bodies have functions of their own below.
   */
  datatype Emitter =
    | Targets(from: int, piece: Byte, capture: bool)
    | PawnCaptures(offset: int, white: bool, allPromotions: bool)
    | PushPromotions(white: bool, allPromotions: bool)
    | PawnPushes(white: bool)

  function EmitAt(p: Position, e: Emitter, sq: nat): seq<Move>
    requires WellFormed(p) && sq < 64
  {
    match e
    case Targets(from, piece, capture) => [TargetMove(p, from, piece, capture, sq)]
    case PawnCaptures(offset, white, allPromotions) => PawnCaptureAt(p, offset, white, allPromotions, sq)
    case PushPromotions(white, allPromotions) => PushPromotionAt(p, white, allPromotions, sq)
    case PawnPushes(white) => PawnPushAt(p, white, sq)
  }

  /** The move of the piece on `from` to `sq`; a capture names what stands there. */
  function TargetMove(p: Position, from: int, piece: Byte, capture: bool, sq: nat): Move
    requires WellFormed(p) && sq < 64
  {
    if capture then NewMove(from, sq, piece, p.occupant[sq]) else NewMove(from, sq, piece)
  }

  /** A pawn capture onto `sq` from `offset` squares behind it, promoting on the last rank. */
  function PawnCaptureAt(p: Position, offset: int, white: bool, allPromotions: bool, sq: nat): seq<Move>
    requires WellFormed(p) && sq < 64
  {
    var m := NewMove(if white then sq - offset else sq + offset, sq, PawnPiece(white), p.occupant[sq]);
    if (if white then sq >= H8 else sq <= A1) then Promotions(m, white, allPromotions) else [m]
  }

  /** A pawn push onto `sq` on the last rank. */
  function PushPromotionAt(p: Position, white: bool, allPromotions: bool, sq: nat): seq<Move>
    requires WellFormed(p) && sq < 64
  {
    Promotions(NewMove(if white then sq - 8 else sq + 8, sq, PawnPiece(white), p.occupant[sq]), white, allPromotions)
  }

  /** A single push onto `sq`, then the double push from the first rank when the square beyond is empty. */
  function PawnPushAt(p: Position, white: bool, sq: nat): seq<Move>
    requires WellFormed(p) && sq < 64
  {
    if white then
      var single := NewMove(sq - 8, sq, WhitePawn);
      if sq < 24 && p.occupant[sq + 8] == NoPiece then [single, NewMove(sq - 8, sq + 8, WhitePawn)] else [single]
    else
      var single := NewMove(sq + 8, sq, BlackPawn);
      if sq > 39 && p.occupant[sq - 8] == NoPiece then [single, NewMove(sq + 8, sq - 8, BlackPawn)] else [single]
  }

  /** The moves of the squares of `tos`, in order. */
  function EmitAll(p: Position, e: Emitter, tos: seq<nat>): seq<Move>
    requires WellFormed(p) && AllOnBoard(tos)
  {
    if tos == [] then [] else EmitAt(p, e, tos[0]) + EmitAll(p, e, tos[1..])
  }

  /** The moves of the squares of a map, lowest square first. */
  function Emitted(p: Position, e: Emitter, bits: bv64): seq<Move>
    requires WellFormed(p)
  {
    SquaresOnBoard(bits);
    EmitAll(p, e, Squares(bits))
  }

  // ------------------------------------------------------ piece moves

  function EnemySet(p: Position, white: bool): bv64
    requires WellFormed(p)
  {
    if white then p.bitBoard[AllBlack] else p.bitBoard[AllWhite]
  }

  function OwnSet(p: Position, white: bool): bv64
    requires WellFormed(p)
  {
    if white then p.bitBoard[AllWhite] else p.bitBoard[AllBlack]
  }

  /** The targets a generator keeps: enemy pieces for captures, empty squares for quiet moves. */
  function TargetMask(p: Position, white: bool, capture: bool): bv64
    requires WellFormed(p)
  {
    if capture then EnemySet(p, white) else !p.bitBoard[All]
  }

  /** The three kinds of piece generators that loop over a map of from-squares. */
  datatype Mover = Knights | BishopsQueens | RooksQueens

  function MoverFroms(p: Position, mover: Mover, white: bool): bv64
    requires WellFormed(p)
  {
    var bb := p.bitBoard;
    match mover
    case Knights => if white then bb[WhiteKnight] else bb[BlackKnight]
    case BishopsQueens => if white then bb[WhiteBishop] | bb[WhiteQueen] else bb[BlackBishop] | bb[BlackQueen]
    case RooksQueens => if white then bb[WhiteRook] | bb[WhiteQueen] else bb[BlackRook] | bb[BlackQueen]
  }

  /** The squares the piece on `from` reaches: its knight table, or its rays through the occupancy. */
  function MoverTargets(p: Position, mover: Mover, from: nat): bv64
    requires WellFormed(p) && from < 64
  {
    MoverTargetsAt(p, mover, from, from + 1)
  }

  /** `MoverTargets` with its tables one call deeper, so that proofs about the moves do not open them. */
  function MoverTargetsAt(p: Position, mover: Mover, from: nat, depth: nat): bv64
    requires WellFormed(p) && from < 64
    decreases depth
  {
    if depth > 0 then MoverTargetsAt(p, mover, from, depth - 1) else
    match mover
    case Knights => BoardTables.KnightMoves(from)
    case BishopsQueens => DiagonalAttacks(from, BoardOccupancy(p))
    case RooksQueens => StraightAttacks(from, BoardOccupancy(p))
  }

  /** The moved piece the generators record: the knight by name, a slider as the board holds it. */
  function MoverPiece(p: Position, mover: Mover, white: bool, from: nat): Byte
    requires WellFormed(p) && from < 64
  {
    match mover
    case Knights => if white then WhiteKnight else BlackKnight
    case _ => p.occupant[from]
  }

  /**
   * For each square, the targets of a piece there that the mask keeps, so
   * that the loop over the from-squares works on one bitboard per square.
   */
  function MoverReaches(p: Position, mover: Mover, white: bool, capture: bool): (r: seq<bv64>)
    requires WellFormed(p)
    ensures |r| == 64
    ensures forall from :: 0 <= from < 64 ==> r[from] == MoverTargets(p, mover, from) & TargetMask(p, white, capture)
  {
    seq(64, from requires 0 <= from < 64 => MoverTargets(p, mover, from) & TargetMask(p, white, capture))
  }

  /** For each square, the piece a move from there records. */
  function MoverPieces(p: Position, mover: Mover, white: bool): (r: seq<Byte>)
    requires WellFormed(p)
    ensures |r| == 64 && forall from :: 0 <= from < 64 ==> r[from] == MoverPiece(p, mover, white, from)
  {
    seq(64, from requires 0 <= from < 64 => MoverPiece(p, mover, white, from))
  }

  /**
   * The loop over the from-squares of a piece generator: for each, a move
   * to each square of its bitboard of targets, lowest first.
   */
  function TargetsFromAll(p: Position, capture: bool, froms: seq<nat>, pieces: seq<Byte>, targets: seq<bv64>): seq<Move>
    requires WellFormed(p) && AllOnBoard(froms) && |pieces| == 64 && |targets| == 64
  {
    if froms == [] then []
    else
      Emitted(p, Targets(froms[0], pieces[froms[0]], capture), targets[froms[0]]) +
      TargetsFromAll(p, capture, froms[1..], pieces, targets)
  }

  /** `Generate{White,Black}{Knight,BishopQueen,RookQueen}{Captures,NonCaptures}`. */
  function PieceMoves(p: Position, mover: Mover, white: bool, capture: bool): seq<Move>
    requires WellFormed(p)
  {
    SquaresOnBoard(MoverFroms(p, mover, white));
    TargetsFromAll(p, capture, Squares(MoverFroms(p, mover, white)), MoverPieces(p, mover, white), MoverReaches(p, mover, white, capture))
  }

  /** `Generate{White,Black}King{Captures,NonCaptures}`. */
  function KingMoves(p: Position, white: bool, capture: bool): seq<Move>
    requires WellFormed(p)
  {
    var king := OwnKing(p, white);
    Emitted(p, Targets(king, KingPiece(white), capture), BoardTables.KingMoves(king) & TargetMask(p, white, capture))
  }

  // ------------------------------------------------------- pawn moves

  /**
   * The squares the pawns reach by capturing towards the a-file side of
   * the board (white: up 9 from pawns off the a-file; black: down 7), and
   * towards the h-file side (white: up 7; black: down 9). The black shifts
   * are the signed ones of the source.
   */
  function LeftReach(p: Position, white: bool): bv64
    requires WellFormed(p)
  {
    if white then (p.bitBoard[WhitePawn] & BoardTables.ZeroLeft) << 9
    else SignedShiftRight(p.bitBoard[BlackPawn] & BoardTables.ZeroLeft, 7)
  }

  function RightReach(p: Position, white: bool): bv64
    requires WellFormed(p)
  {
    if white then (p.bitBoard[WhitePawn] & BoardTables.ZeroRight) << 7
    else SignedShiftRight(p.bitBoard[BlackPawn] & BoardTables.ZeroRight, 9)
  }

  function LeftOffset(white: bool): int { if white then 9 else 7 }

  function RightOffset(white: bool): int { if white then 7 else 9 }

  /** The squares one step ahead of the pawns. */
  function PushReach(p: Position, white: bool): bv64
    requires WellFormed(p)
  {
    if white then p.bitBoard[WhitePawn] << 8 else SignedShiftRight(p.bitBoard[BlackPawn], 8)
  }

  function LastRank(white: bool): bv64
  {
    BoardTables.RankMask(if white then 7 else 0)
  }

  /** The enemy pieces a pawn of the side to move attacks towards its left. */
  function LeftCaptureTargets(p: Position, white: bool): bv64
    requires WellFormed(p)
  {
    LeftReach(p, white) & EnemySet(p, white)
  }

  /** The enemy pieces a pawn of the side to move attacks towards its right. */
  function RightCaptureTargets(p: Position, white: bool): bv64
    requires WellFormed(p)
  {
    RightReach(p, white) & EnemySet(p, white)
  }

  /** The empty squares one step ahead of a pawn. */
  function PushTargets(p: Position, white: bool): bv64
    requires WellFormed(p)
  {
    Except(PushReach(p, white), p.bitBoard[All])
  }

  /** The empty squares of the last rank one step ahead of a pawn. */
  function PromotionPushTargets(p: Position, white: bool): bv64
    requires WellFormed(p)
  {
    Intersection(PushTargets(p, white), LastRank(white))
  }

  /** The empty squares off the last rank one step ahead of a pawn. */
  function QuietPushTargets(p: Position, white: bool): bv64
    requires WellFormed(p)
  {
    Except(PushTargets(p, white), LastRank(white))
  }

  /** `Generate{White,Black}PawnCaptures`: both capture directions, then the pushes onto the last rank. */
  function PawnCaptureMoves(p: Position, white: bool, allPromotions: bool): seq<Move>
    requires WellFormed(p)
  {
    Emitted(p, PawnCaptures(LeftOffset(white), white, allPromotions), LeftCaptureTargets(p, white)) +
    Emitted(p, PawnCaptures(RightOffset(white), white, allPromotions), RightCaptureTargets(p, white)) +
    Emitted(p, PushPromotions(white, allPromotions), PromotionPushTargets(p, white))
  }

  function EnPassantMove(from: int, to: int, white: bool): Move
  {
    Move(from, to, PawnPiece(white), PawnPiece(!white), EnPassant, NoPiece)
  }

  /** The square `offset` steps behind `sq`, seen from the side to move. */
  function Behind(sq: int, offset: int, white: bool): int
  {
    if white then sq - offset else sq + offset
  }

  /** `Generate{White,Black}PawnEnPassantCaptures`: a capture onto the en-passant square from each side that reaches it. */
  function EnPassantMoves(p: Position, white: bool): seq<Move>
    requires WellFormed(p)
  {
    if p.enPassantSquare == SquareNone then []
    else EnPassantFrom(p, LeftReach(p, white), LeftOffset(white), white) + EnPassantFrom(p, RightReach(p, white), RightOffset(white), white)
  }

  /** The en-passant capture from `offset` behind the square, when the pawns' reach `reach` covers it. */
  function EnPassantFrom(p: Position, reach: bv64, offset: int, white: bool): seq<Move>
    requires WellFormed(p) && p.enPassantSquare != SquareNone
  {
    if Has(reach, p.enPassantSquare)
    then [EnPassantMove(Behind(p.enPassantSquare, offset, white), p.enPassantSquare, white)] else []
  }

  /** `Generate{White,Black}PawnNonCaptures`: the pushes that stop short of the last rank. */
  function PawnQuietMoves(p: Position, white: bool): seq<Move>
    requires WellFormed(p)
  {
    Emitted(p, PawnPushes(white), QuietPushTargets(p, white))
  }

  // ---------------------------------------------------------- castling

  function CastleMove(from: int, to: int, white: bool, modifier: MoveModifier): Move
  {
    Move(from, to, KingPiece(white), NoPiece, modifier, NoPiece)
  }

  function EnemyAttacks(p: Position, sq: int, white: bool): bv64
    requires WellFormed(p) && 0 <= sq < 64
  {
    if white then BlackAttacks(p, sq) else WhiteAttacks(p, sq)
  }

  /**
   * The castling moves of `GenerateAll`: king side when the right is held,
   * the two squares between king and rook are empty and the king's square
   * and the two next to it are not attacked; queen side likewise over the
   * three squares towards the a-file rook and the king's squares E, D and C.
   */
  function CastlingMoves(p: Position, white: bool): seq<Move>
    requires WellFormed(p)
  {
    KingSideCastling(p, white) + QueenSideCastling(p, white)
  }

  /** The king's starting square. */
  function HomeSquare(white: bool): int { if white then E1 else E8 }

  /** King-side castling: the right is held, the way is clear and no square the king crosses is attacked. */
  function KingSideCastling(p: Position, white: bool): seq<Move>
    requires WellFormed(p)
  {
    if KingSideClear(p, white) && KingSideSafe(p, white)
    then [CastleMove(HomeSquare(white), HomeSquare(white) - 2, white, KingSideCastle)] else []
  }

  /** The king-side right is held and the two squares between king and rook are empty. */
  predicate KingSideClear(p: Position, white: bool)
    requires WellFormed(p)
  {
    HasFlag(p.castleFlags, if white then WhiteCanCastleKingSide else BlackCanCastleKingSide) &&
    p.occupant[HomeSquare(white) - 1] == NoPiece && p.occupant[HomeSquare(white) - 2] == NoPiece
  }

  /** The enemy attacks none of the king's square and the two squares towards the king-side rook. */
  predicate KingSideSafe(p: Position, white: bool)
    requires WellFormed(p)
  {
    var e := HomeSquare(white);
    EnemyAttacks(p, e, white) | EnemyAttacks(p, e - 1, white) | EnemyAttacks(p, e - 2, white) == 0
  }

  /** Queen-side castling, as king side over the squares towards the a-file rook. */
  function QueenSideCastling(p: Position, white: bool): seq<Move>
    requires WellFormed(p)
  {
    if QueenSideClear(p, white) && QueenSideSafe(p, white)
    then [CastleMove(HomeSquare(white), HomeSquare(white) + 2, white, QueenSideCastle)] else []
  }

  /** The queen-side right is held and the three squares between king and rook are empty. */
  predicate QueenSideClear(p: Position, white: bool)
    requires WellFormed(p)
  {
    HasFlag(p.castleFlags, if white then WhiteCanCastleQueenSide else BlackCanCastleQueenSide) &&
    p.occupant[HomeSquare(white) + 3] == NoPiece && p.occupant[HomeSquare(white) + 1] == NoPiece &&
    p.occupant[HomeSquare(white) + 2] == NoPiece
  }

  /** The enemy attacks none of the king's square and the two squares towards the queen-side rook. */
  predicate QueenSideSafe(p: Position, white: bool)
    requires WellFormed(p)
  {
    var e := HomeSquare(white);
    EnemyAttacks(p, e, white) | EnemyAttacks(p, e + 1, white) | EnemyAttacks(p, e + 2, white) == 0
  }

  // --------------------------------------------------- the full generators

  /** The capture half of `GenerateAll`: pawns, en passant, knights, bishops and queens, rooks and queens, king. */
  function CapturesFirst(p: Position, white: bool): seq<Move>
    requires WellFormed(p)
  {
    PawnCaptureMoves(p, white, true) + EnPassantMoves(p, white) +
    PieceMoves(p, Knights, white, true) + PieceMoves(p, BishopsQueens, white, true) +
    PieceMoves(p, RooksQueens, white, true) + KingMoves(p, white, true)
  }

  /** The quiet half of `GenerateAll`: knights, bishops and queens, rooks and queens, pawns, king. */
  function QuietLast(p: Position, white: bool): seq<Move>
    requires WellFormed(p)
  {
    PieceMoves(p, Knights, white, false) + PieceMoves(p, BishopsQueens, white, false) +
    PieceMoves(p, RooksQueens, white, false) + PawnQuietMoves(p, white) + KingMoves(p, white, false)
  }

  /** `GenerateAll`: the captures, then castling, then the quiet moves of the side to move. */
  function AllMoves(p: Position): seq<Move>
    requires WellFormed(p)
  {
    var white := p.side == White;
    CapturesFirst(p, white) + CastlingMoves(p, white) + QuietLast(p, white)
  }

  /**
   * `GenerateCaptures` (all promotions) and `GenerateQuiescenceCaptures`
   * (queen promotions only): knights, pawns, en passant, rooks and queens,
   * bishops and queens, king.
   */
  function CaptureMoves(p: Position, allPromotions: bool): seq<Move>
    requires WellFormed(p)
  {
    var white := p.side == White;
    PieceMoves(p, Knights, white, true) + PawnCaptureMoves(p, white, allPromotions) + EnPassantMoves(p, white) +
    PieceMoves(p, RooksQueens, white, true) + PieceMoves(p, BishopsQueens, white, true) + KingMoves(p, white, true)
  }

  // ------------------------------------------------------- exposed check

  /** The direction of the switch in `ExposedCheck*` for each step from the moving piece towards its king: the way away from the king. */
  function AwayFromKing(increment: int): Option<BoardTables.Direction>
  {
    if increment == 1 then Some(BoardTables.Right)
    else if increment == -1 then Some(BoardTables.Left)
    else if increment == 8 then Some(BoardTables.Down)
    else if increment == -8 then Some(BoardTables.Up)
    else if increment == 9 then Some(BoardTables.DownRight)
    else if increment == -9 then Some(BoardTables.UpLeft)
    else if increment == 7 then Some(BoardTables.DownLeft)
    else if increment == -7 then Some(BoardTables.UpRight)
    else None
  }

  predicate IsStraight(d: BoardTables.Direction)
  {
    d == BoardTables.Right || d == BoardTables.Left || d == BoardTables.Up || d == BoardTables.Down
  }

  /** The one ray table a direction of `ExposedCheck*` reads: the rank, file or diagonal through `from`. */
  function LineAttacks(p: Position, from: nat, d: BoardTables.Direction): bv64
    requires WellFormed(p) && from < 64
  {
    var bb := p.bitBoard;
    BoardTables.Rotated135ShiftBounds(from);
    BoardTables.Rotated45ShiftBounds(from);
    match d
    case Right => BoardTables.RookAttacksHorizontal(from, OccupancyIndex(bb[All], BoardTables.HorizontalShift(from), 0xff))
    case Left => BoardTables.RookAttacksHorizontal(from, OccupancyIndex(bb[All], BoardTables.HorizontalShift(from), 0xff))
    case Up => BoardTables.RookAttacksVertical(from, OccupancyIndex(bb[AllRotated90], BoardTables.VerticalShift(from), 0xff))
    case Down => BoardTables.RookAttacksVertical(from, OccupancyIndex(bb[AllRotated90], BoardTables.VerticalShift(from), 0xff))
    case DownRight => BoardTables.AttacksRotated135(from, OccupancyIndex(bb[AllRotated135], BoardTables.Rotated135Shift(from), BoardTables.Rotated135SquareMask(from)))
    case UpLeft => BoardTables.AttacksRotated135(from, OccupancyIndex(bb[AllRotated135], BoardTables.Rotated135Shift(from), BoardTables.Rotated135SquareMask(from)))
    case DownLeft => BoardTables.AttacksRotated45(from, OccupancyIndex(bb[AllRotated45], BoardTables.Rotated45Shift(from), BoardTables.Rotated45SquareMask(from)))
    case UpRight => BoardTables.AttacksRotated45(from, OccupancyIndex(bb[AllRotated45], BoardTables.Rotated45Shift(from), BoardTables.Rotated45SquareMask(from)))
  }

  /** The enemy pieces that attack along a direction: rooks and queens on lines, bishops and queens on diagonals. */
  function LineEnemies(p: Position, d: BoardTables.Direction, white: bool): bv64
    requires WellFormed(p)
  {
    var bb := p.bitBoard;
    if IsStraight(d) then (if white then bb[BlackRook] | bb[BlackQueen] else bb[WhiteRook] | bb[WhiteQueen])
    else (if white then bb[BlackBishop] | bb[BlackQueen] else bb[WhiteBishop] | bb[WhiteQueen])
  }

  /**
   * `ExposedCheck{White,Black}`: moving the piece on `from` to `to` opens a
   * line from an enemy slider to the king. It is not when `from` is off the
   * king's lines, when the move stays on the line to the king, or when a
   * piece already stands between `from` and the king; otherwise it is when
   * the ray from `from` away from the king meets an enemy slider of that
   * line first. The test itself (`OpensLine`) sits one call deeper, so
   * that proofs about the move lists do not reopen its bit arithmetic;
   * `ExposedCheckMeaning` states it.
   */
  predicate ExposedCheck(p: Position, from: nat, to: int, white: bool)
    requires WellFormed(p) && from < 64
  {
    ExposedCheckAt(p, from, to, white, from + 1)
  }

  predicate ExposedCheckAt(p: Position, from: nat, to: int, white: bool, depth: nat)
    requires WellFormed(p) && from < 64
    decreases depth
  {
    if depth == 0 then OpensLine(p, from, to, white) else ExposedCheckAt(p, from, to, white, depth - 1)
  }

  lemma ExposedCheckMeaning(p: Position, from: nat, to: int, white: bool)
    requires WellFormed(p) && from < 64
    ensures ExposedCheck(p, from, to, white) <==> OpensLine(p, from, to, white)
  {
    ExposedCheckAtMeaning(p, from, to, white, from + 1);
  }

  lemma {:induction false} ExposedCheckAtMeaning(p: Position, from: nat, to: int, white: bool, depth: nat)
    requires WellFormed(p) && from < 64
    ensures ExposedCheckAt(p, from, to, white, depth) <==> OpensLine(p, from, to, white)
  {
    if depth > 0 {
      ExposedCheckAtMeaning(p, from, to, white, depth - 1);
    }
  }

  predicate OpensLine(p: Position, from: nat, to: int, white: bool)
    requires WellFormed(p) && from < 64
  {
    var king := OwnKing(p, white);
    var increment := BoardTables.DirectionIncrement(from, king);
    if increment == 0 || BoardTables.AbsInt(increment) == BoardTables.AbsInt(BoardTables.DirectionIncrement(to, from)) ||
       BoardTables.Obstructed(from, king) & p.bitBoard[All] != 0 then false
    else
      match AwayFromKing(increment)
      case None => false
      case Some(d) => BoardTables.ToEdgeMask(from, d) & LineAttacks(p, from, d) & LineEnemies(p, d, white) != 0
  }

  // ------------------------------------------------------- check escapes

  /** The squares next to the king that hold no piece of its own side. */
  function EscapeSquares(p: Position, white: bool): bv64
    requires WellFormed(p)
  {
    Except(BoardTables.KingMoves(OwnKing(p, white)), OwnSet(p, white))
  }

  predicate AttackedWithoutKing(p: Position, sq: nat, white: bool)
    requires WellFormed(p) && sq < 64
  {
    (if white then BlackAttacksKingRemoved(p, sq) else WhiteAttacksKingRemoved(p, sq)) != 0
  }

  /** The `attacked` word of the escape loop: `acc` with each square of `tos` that the enemy attacks once the king is gone. */
  function AttackedAmong(p: Position, white: bool, acc: bv64, tos: seq<nat>): bv64
    requires WellFormed(p) && AllOnBoard(tos)
    decreases |tos|
  {
    if tos == [] then acc
    else AttackedAmong(p, white, if AttackedWithoutKing(p, tos[0], white) then With(acc, tos[0]) else acc, tos[1..])
  }

  /** The escape squares the enemy attacks once the king is gone. */
  function AttackedEscapes(p: Position, white: bool): bv64
    requires WellFormed(p)
  {
    SquaresOnBoard(EscapeSquares(p, white));
    AttackedAmong(p, white, 0, Squares(EscapeSquares(p, white)))
  }

  /** The squares the king may step to. */
  function SafeEscapes(p: Position, white: bool): bv64
    requires WellFormed(p)
  {
    Except(EscapeSquares(p, white), AttackedEscapes(p, white))
  }

  /** The king moves of `GenerateCheckEscapes`. */
  function KingEscapes(p: Position, white: bool): seq<Move>
    requires WellFormed(p)
  {
    var king := OwnKing(p, white);
    Emitted(p, Targets(king, KingPiece(white), true), SafeEscapes(p, white))
  }

  /** The checking piece the source goes on with: the lowest square among the king's attackers. */
  function CheckingSquare(p: Position, white: bool): nat
    requires WellFormed(p)
  {
    LeastSignificantBit(EnemyAttacks(p, OwnKing(p, white), white))
  }

  /**
   * The pieces that may take the checker: every attacker of its square but
   * the king, and a pawn beside a checking pawn that has just made its
   * double push (the en-passant capture).
   */
  function CaptureSources(p: Position, white: bool, attacker: nat): bv64
    requires WellFormed(p) && attacker < 64
  {
    var ep := p.enPassantSquare;
    var direct := if white then WhiteNonKingAttacks(p, attacker) else BlackNonKingAttacks(p, attacker);
    if ep == (if white then attacker + 8 else attacker - 8) then EnPassantTakers(p, white, direct) else direct
  }

  /** `direct` with the pawns on either side of the one that has just made its double push. */
  function EnPassantTakers(p: Position, white: bool, direct: bv64): bv64
    requires WellFormed(p)
  {
    var ep := p.enPassantSquare;
    var left := ep + (if white then -9 else 7);
    var right := ep + (if white then -7 else 9);
    var withLeft := if PawnBeside(p, left, white, BoardTables.File(ep) > 0) then With(direct, left) else direct;
    if PawnBeside(p, right, white, BoardTables.File(ep) < 7) then With(withLeft, right) else withLeft
  }

  /** A pawn of the side to move on `sq`, which the file test keeps on the board. */
  predicate PawnBeside(p: Position, sq: int, white: bool, fileTest: bool)
    requires WellFormed(p)
    ensures PawnBeside(p, sq, white, fileTest) ==> 0 <= sq < 64
  {
    fileTest && 0 <= sq < 64 && p.occupant[sq] == PawnPiece(white)
  }

  /**
   * The capture of the checker from `from`, unless it exposes the king: a
   * pawn promotes when the checker stands on rank 8 (the test is the same
   * for both sides), takes en passant when the checker stands beside it,
   * and otherwise captures plainly.
   */
  function AttackerCapture(p: Position, from: nat, attacker: nat, white: bool): seq<Move>
    requires WellFormed(p) && from < 64 && attacker < 64
  {
    var occ := p.occupant;
    var pawn := PawnPiece(white);
    if ExposedCheck(p, from, attacker, white) then []
    else if occ[from] == pawn then
      if attacker >= H8 then Promotions(NewMove(from, attacker, pawn, occ[attacker]), white, true)
      else if BoardTables.Rank(attacker) == BoardTables.Rank(from) then
        [EnPassantMove(from, if white then attacker + 8 else attacker - 8, white)]
      else [NewMove(from, attacker, pawn, occ[attacker])]
    else [NewMove(from, attacker, occ[from], occ[attacker])]
  }

  /** The captures of the checker from each square of `froms`, in order. */
  function CapturesOfChecker(p: Position, attacker: nat, white: bool, froms: seq<nat>): seq<Move>
    requires WellFormed(p) && attacker < 64 && AllOnBoard(froms)
  {
    if froms == [] then [] else AttackerCapture(p, froms[0], attacker, white) + CapturesOfChecker(p, attacker, white, froms[1..])
  }

  /**
   * The pieces that can move onto the empty square `to`: every non-king,
   * non-pawn attacker, and the pawns one or two squares behind it. The
   * word itself sits one call deeper (`BlockSourcesAt`), so that proofs
   * about the loops over it do not reopen its bit arithmetic.
   */
  function BlockSources(p: Position, white: bool, to: nat): bv64
    requires WellFormed(p) && to < 64
  {
    BlockSourcesAt(p, white, to, to + 1)
  }

  function BlockSourcesAt(p: Position, white: bool, to: nat, depth: nat): bv64
    requires WellFormed(p) && to < 64
    decreases depth
  {
    var bb := p.bitBoard;
    if depth > 0 then BlockSourcesAt(p, white, to, depth - 1)
    else if white then
      WhiteNonKingOrPawnAttacks(p, to) | (SignedShiftRight(SquareMask(to), 8) & bb[WhitePawn]) |
      (SignedShiftRight(SquareMask(to), 16) & bb[WhitePawn] & BoardTables.RankMask(1) & SignedShiftRight(!bb[All], 8))
    else
      BlackNonKingOrPawnAttacks(p, to) | ((SquareMask(to) << 8) & bb[BlackPawn]) |
      ((SquareMask(to) << 16) & bb[BlackPawn] & BoardTables.RankMask(6) & (!bb[All] << 8))
  }

  /** The block of the check on `to` from `from`, unless it exposes the king; pawns promote when the checker stands on rank 8. */
  function Block(p: Position, from: nat, to: nat, attacker: nat, white: bool): seq<Move>
    requires WellFormed(p) && from < 64 && to < 64 && attacker < 64
  {
    var pawn := PawnPiece(white);
    if ExposedCheck(p, from, to, white) then []
    else if p.occupant[from] == pawn then
      if attacker >= H8 then Promotions(NewMove(from, to, pawn), white, true) else [NewMove(from, to, pawn)]
    else [NewMove(from, to, p.occupant[from])]
  }

  function BlocksAt(p: Position, white: bool, attacker: nat, tos: seq<nat>): seq<Move>
    requires WellFormed(p) && attacker < 64 && AllOnBoard(tos)
  {
    if tos == [] then []
    else
      var sources := BlockSources(p, white, tos[0]);
      SquaresOnBoard(sources);
      BlocksFrom(p, tos[0], attacker, white, Squares(sources)) + BlocksAt(p, white, attacker, tos[1..])
  }

  /** The blocks onto `to` from each square of `froms`, in order. */
  function BlocksFrom(p: Position, to: nat, attacker: nat, white: bool, froms: seq<nat>): seq<Move>
    requires WellFormed(p) && to < 64 && attacker < 64 && AllOnBoard(froms)
  {
    if froms == [] then [] else Block(p, froms[0], to, attacker, white) + BlocksFrom(p, to, attacker, white, froms[1..])
  }

  predicate IsLeaper(p: Position, sq: nat, white: bool)
    requires WellFormed(p) && sq < 64
  {
    p.occupant[sq] == PawnPiece(!white) || p.occupant[sq] == (if white then BlackKnight else WhiteKnight)
  }

  /**
   * The squares the interposition loop visits, as written: the brace-less
   * `if` assigns the squares between king and checker only when the
   * checker is a pawn or a knight (where there are none), and leaves the
   * word empty from the escape loop otherwise.
   */
  function InterpositionSquares(p: Position, white: bool, attacker: nat): bv64
    requires WellFormed(p) && attacker < 64
  {
    if IsLeaper(p, attacker, white) then BoardTables.Obstructed(OwnKing(p, white), attacker) else 0
  }

  /** The squares the interposition loop was meant to visit: those between king and a checking slider. */
  function InterpositionSquaresCorrected(p: Position, white: bool, attacker: nat): bv64
    requires WellFormed(p) && attacker < 64
  {
    if IsLeaper(p, attacker, white) then 0 else BoardTables.Obstructed(OwnKing(p, white), attacker)
  }

  /**
   * `GenerateCheckEscapes` with `n` attackers: the king moves, then (with a
   * single attacker) the captures of the checker and the interpositions on
   * the squares `interpose` chooses.
   */
  function EscapesWith(p: Position, n: int, corrected: bool): seq<Move>
    requires WellFormed(p)
  {
    var white := p.side == White;
    var kingMoves := KingEscapes(p, white);
    if n > 1 then kingMoves
    else
      var attacker := CheckingSquare(p, white);
      var squares := if corrected then InterpositionSquaresCorrected(p, white, attacker) else InterpositionSquares(p, white, attacker);
      kingMoves + CheckerCaptures(p, white, attacker) + Interpositions(p, white, attacker, squares)
  }

  /** The captures of the checker on `attacker`, in the order of their sources. */
  function CheckerCaptures(p: Position, white: bool, attacker: nat): seq<Move>
    requires WellFormed(p) && attacker < 64
  {
    SquaresOnBoard(CaptureSources(p, white, attacker));
    CapturesOfChecker(p, attacker, white, Squares(CaptureSources(p, white, attacker)))
  }

  /** The blocks onto each square of `squares`, lowest first. */
  function Interpositions(p: Position, white: bool, attacker: nat, squares: bv64): seq<Move>
    requires WellFormed(p) && attacker < 64
  {
    SquaresOnBoard(squares);
    BlocksAt(p, white, attacker, Squares(squares))
  }

  /** `GenerateCheckEscapes` as written. */
  function CheckEscapes(p: Position, n: int): seq<Move>
    requires WellFormed(p)
  {
    EscapesWith(p, n, false)
  }

  /** `GenerateCheckEscapes` with the interposition squares the comment describes. */
  function CheckEscapesCorrected(p: Position, n: int): seq<Move>
    requires WellFormed(p)
  {
    EscapesWith(p, n, true)
  }
}
