/**
 * The position a board holds, as a value: the occupant of each square, the
 * nineteen bitboards (one per piece code 1..12, then all pieces, white,
 * black, and the three rotated copies of all pieces), the king squares, the
 * en-passant square, the castling flags, the side to move, the game stage
 * with the counts it is derived from, and the two hash keys.
 *
 * Every operation of the board that changes the position is specified here
 * by a function from the old position to the new one, built from the same
 * steps, in the same order, as the source's method; the class in module
 * Boards performs those steps in place. The lemmas at the end state what
 * the steps keep: the occupants, the bitboards and the hash agree after a
 * move whenever they agreed before it.
 */
module Positions {
  import opened Globals
  import opened BitOperations
  import opened Zobrist
  import opened Moves
  import BoardTables

  datatype Position = Position(
    occupant: seq<Byte>,
    bitBoard: seq<bv64>,
    whiteKingSquare: int,
    blackKingSquare: int,
    enPassantSquare: int,
    castleFlags: bv8,
    side: Side,
    gameStage: GameStage,
    pawnCount: nat,
    pieceCount: nat,
    hashKey: UInt64,
    pawnHashKey: UInt64)

  /**
   * The shape of every board: 64 squares holding piece codes, 19 bitboards,
   * king squares on the board and an en-passant square that is a square or
   * none.
   */
  predicate WellFormed(p: Position)
  {
    ValidOccupants(p.occupant) && |p.bitBoard| == 19 &&
    0 <= p.whiteKingSquare < 64 && 0 <= p.blackKingSquare < 64 &&
    (p.enPassantSquare == SquareNone || IsValidSquare(p.enPassantSquare))
  }

  // ------------------------------------------------------ rotated squares

  /**
   * The bit of a square in the 90-, 45- and 135-degree bitboards: the
   * tables of module BoardTables, reached through `RotatedSquare` so that a
   * proof sees only what `RotatedSquareFacts` states about them (a square
   * of the board, a different one for each square).
   */
  function Rot90(sq: int): (r: nat)
    requires 0 <= sq < 64
    ensures r < 64
  {
    RotatedSquare(90, sq, sq + 1)
  }

  function Rot45(sq: int): (r: nat)
    requires 0 <= sq < 64
    ensures r < 64
  {
    RotatedSquare(45, sq, sq + 1)
  }

  function Rot135(sq: int): (r: nat)
    requires 0 <= sq < 64
    ensures r < 64
  {
    RotatedSquare(135, sq, sq + 1)
  }

  function RotatedSquare(angle: int, sq: int, depth: nat): (r: nat)
    requires 0 <= sq < 64
    ensures r < 64
    decreases depth
  {
    if depth > 0 then RotatedSquare(angle, sq, depth - 1)
    else if angle == 90 then BoardTables.Rotated90Inverts(sq); BoardTables.Rotated90(sq)
    else if angle == 45 then BoardTables.Rotated45Inverts(sq); BoardTables.Rotated45(sq)
    else BoardTables.Rotated135Inverts(sq); BoardTables.Rotated135(sq)
  }

  /** `RotatedSquare` is the table entry, whatever the depth. */
  lemma {:induction false} RotatedSquareIsTable(angle: int, sq: int, depth: nat)
    requires 0 <= sq < 64
    ensures RotatedSquare(angle, sq, depth) ==
      if angle == 90 then BoardTables.Rotated90(sq)
      else if angle == 45 then BoardTables.Rotated45(sq)
      else BoardTables.Rotated135(sq)
    decreases depth
  {
    if depth > 0 {
      RotatedSquareIsTable(angle, sq, depth - 1);
    }
  }

  /** Distinct squares have distinct bits in each rotated bitboard. */
  lemma RotatedSquaresDiffer(a: int, b: int)
    requires 0 <= a < 64 && 0 <= b < 64 && a != b
    ensures Rot90(a) != Rot90(b) && Rot45(a) != Rot45(b) && Rot135(a) != Rot135(b)
  {
    RotatedSquareIsTable(90, a, a + 1); RotatedSquareIsTable(90, b, b + 1);
    RotatedSquareIsTable(45, a, a + 1); RotatedSquareIsTable(45, b, b + 1);
    RotatedSquareIsTable(135, a, a + 1); RotatedSquareIsTable(135, b, b + 1);
    BoardTables.Rotated90Inverts(a); BoardTables.Rotated90Inverts(b);
    BoardTables.Rotated45Inverts(a); BoardTables.Rotated45Inverts(b);
    BoardTables.Rotated135Inverts(a); BoardTables.Rotated135Inverts(b);
  }

  /** The colour set a piece is counted in: white for the white codes, black for every other. */
  function ColorCategory(piece: Byte): Byte
  {
    if IsWhite(piece) then AllWhite else AllBlack
  }

  function OtherColorCategory(piece: Byte): Byte
  {
    if IsWhite(piece) then AllBlack else AllWhite
  }

  // ------------------------------------------------------------ MovePiece

  /**
   * Moving `piece` from one square to another, replacing it by the
   * promotion piece when there is one: the occupants, the piece's board and
   * the promotion piece's board, the three rotated boards, the mover's
   * colour set (both squares flipped) and the other colour set (the target
   * cleared), and the square keys of the hash. The board of a piece that
   * stood on the target is not touched here, nor is the all-pieces board.
   */
  function MovePieceSpec(p: Position, from: int, to: int, piece: Byte, promotionPiece: Byte, keys: ZobristKeys): (r: Position)
    requires WellFormed(p) && ValidKeys(keys)
    requires IsValidSquare(from) && IsValidSquare(to) && IsPieceCode(piece) && IsPieceCode(promotionPiece)
    ensures WellFormed(r)
    ensures r.castleFlags == p.castleFlags
  {
    var placed := if promotionPiece == NoPiece then piece else promotionPiece;
    UpdatedOccupants(p.occupant, from, NoPiece);
    UpdatedOccupants(p.occupant[from := NoPiece], to, placed);
    p.(occupant := p.occupant[from := NoPiece][to := placed],
       bitBoard := MovePieceBoards(p.bitBoard, from, to, piece, placed),
       hashKey := Xor(Xor(p.hashKey, Key(keys, from, piece)), Key(keys, to, placed)))
  }

  /**
   * The bitboards after `MovePieceSpec`: the source updates the piece's
   * board, the placed piece's board, the three rotated boards and the two
   * colour sets one after the other; no two of those updates touch the same
   * board except the first two (when nothing is promoted), so each board of
   * the result is the old board with its own updates applied.
   */
  function MovePieceBoards(b0: seq<bv64>, from: int, to: int, piece: Byte, placed: Byte): (r: seq<bv64>)
    requires |b0| == 19 && IsValidSquare(from) && IsValidSquare(to)
    ensures |r| == 19
  {
    seq(19, k requires 0 <= k < 19 => MovedBoard(b0[k], k, from, to, piece, placed))
  }

  function MovedBoard(b: bv64, k: int, from: int, to: int, piece: Byte, placed: Byte): bv64
    requires IsValidSquare(from) && IsValidSquare(to)
  {
    if k == AllRotated90 then With(Without(b, Rot90(from)), Rot90(to))
    else if k == AllRotated135 then With(Without(b, Rot135(from)), Rot135(to))
    else if k == AllRotated45 then With(Without(b, Rot45(from)), Rot45(to))
    else if k == ColorCategory(piece) then Flipped(b, from, to)
    else if k == OtherColorCategory(piece) then Without(b, to)
    else
      var lifted := if k == piece then Without(b, from) else b;
      if k == placed then With(lifted, to) else lifted
  }

  /** Taking a piece off a square for good, as the en-passant capture does. */
  function RemovePieceSpec(p: Position, sq: int, piece: Byte, colorCategory: Byte, keys: ZobristKeys): (r: Position)
    requires WellFormed(p) && ValidKeys(keys)
    requires IsValidSquare(sq) && 1 <= piece <= 12 && (colorCategory == AllWhite || colorCategory == AllBlack)
    ensures WellFormed(r)
    ensures r.castleFlags == p.castleFlags && r.side == p.side
  {
    UpdatedOccupants(p.occupant, sq, NoPiece);
    p.(occupant := p.occupant[sq := NoPiece],
       bitBoard := RemovePieceBoards(p.bitBoard, sq, piece, colorCategory),
       hashKey := Xor(p.hashKey, Key(keys, sq, piece)))
  }

  /** The bitboards after `RemovePieceSpec`: the square leaves the piece's board, its colour set and the rotated boards. */
  function RemovePieceBoards(b0: seq<bv64>, sq: int, piece: Byte, colorCategory: Byte): (r: seq<bv64>)
    requires |b0| == 19 && IsValidSquare(sq)
    ensures |r| == 19
  {
    seq(19, k requires 0 <= k < 19 => RemovedBoard(b0[k], k, sq, piece, colorCategory))
  }

  function RemovedBoard(b: bv64, k: int, sq: int, piece: Byte, colorCategory: Byte): bv64
    requires IsValidSquare(sq)
  {
    if k == AllRotated90 then Without(b, Rot90(sq))
    else if k == AllRotated135 then Without(b, Rot135(sq))
    else if k == AllRotated45 then Without(b, Rot45(sq))
    else if k == piece || k == colorCategory then Without(b, sq)
    else b
  }

  // ------------------------------------------------------------- MakeMove

  /** The en-passant and castling keys XORed into the hash (out before a move, back in after it). */
  function ToggleStateKeys(p: Position, keys: ZobristKeys): (r: Position)
    requires WellFormed(p) && ValidKeys(keys)
    ensures WellFormed(r)
  {
    p.(hashKey := Xor(Xor(p.hashKey, GetEPHash(p.enPassantSquare, keys)), GetCastleHash(p.castleFlags)))
  }

  /** The squares and piece codes a move must carry for the source's array accesses to stay in bounds. */
  predicate InBounds(m: Move)
  {
    IsValidSquare(m.fromSquare) && IsValidSquare(m.toSquare) &&
    IsPieceCode(m.movedPiece) && IsPieceCode(m.capturedPiece) && IsPieceCode(m.promotionPiece) &&
    (m.modifier == EnPassant && m.capturedPiece == BlackPawn && IsWhite(m.movedPiece) ==> m.toSquare >= 8) &&
    (m.modifier == EnPassant && m.capturedPiece == WhitePawn && !IsWhite(m.movedPiece) ==> m.toSquare < 56)
  }

  /**
   * A pawn's two-square push sets the en-passant square to the square it
   * skipped, but only when an enemy pawn stands beside its target (and the
   * target is not on the far rank).
   */
  function PushEffect(p: Position, from: int, to: int, white: bool): (r: Position)
    requires WellFormed(p) && IsValidSquare(from) && IsValidSquare(to)
    ensures WellFormed(r)
    ensures r.castleFlags == p.castleFlags
  {
    var enemyPawn := if white then BlackPawn else WhitePawn;
    var onBoard := if white then to < H8 else to > A1;
    var distance := if white then to - from else from - to;
    if onBoard && distance == 16 &&
       ((BoardTables.File(to) > 0 && p.occupant[to - 1] == enemyPawn) ||
        (BoardTables.File(to) < 7 && p.occupant[to + 1] == enemyPawn))
    then p.(enPassantSquare := if white then from + 8 else from - 8)
    else p
  }

  /** A rook leaving its corner drops the castling right of that side (the king's side first). */
  function RookLeavesEffect(p: Position, from: int, white: bool): (r: Position)
    requires WellFormed(p)
    ensures WellFormed(r)
  {
    var kingCorner := if white then H1 else H8;
    var queenCorner := if white then A1 else A8;
    var kingSide := if white then WhiteCanCastleKingSide else BlackCanCastleKingSide;
    var queenSide := if white then WhiteCanCastleQueenSide else BlackCanCastleQueenSide;
    if from == kingCorner && HasFlag(p.castleFlags, kingSide) then p.(castleFlags := ClearFlag(p.castleFlags, kingSide))
    else if from == queenCorner && HasFlag(p.castleFlags, queenSide) then p.(castleFlags := ClearFlag(p.castleFlags, queenSide))
    else p
  }

  /**
   * A king move: castling records that the side has castled and moves the
   * rook along; then the king square follows the king and both rights of
   * the side are dropped.
   */
  function KingMoveEffect(p: Position, m: Move, white: bool, keys: ZobristKeys): (r: Position)
    requires WellFormed(p) && ValidKeys(keys) && IsValidSquare(m.toSquare)
    ensures WellFormed(r)
  {
    var rights := if white then WhiteCanCastleKingSide | WhiteCanCastleQueenSide
                  else BlackCanCastleKingSide | BlackCanCastleQueenSide;
    var castled := CastleEffect(p, m.modifier, white, keys);
    var placed := if white then castled.(whiteKingSquare := m.toSquare) else castled.(blackKingSquare := m.toSquare);
    placed.(castleFlags := ClearFlag(placed.castleFlags, rights))
  }

  /** Castling: the has-castled flag of the side, and the rook from h1 to f1 or a1 to d1 (h8 to f8 or a8 to d8). */
  function CastleEffect(p: Position, modifier: MoveModifier, white: bool, keys: ZobristKeys): (r: Position)
    requires WellFormed(p) && ValidKeys(keys)
    ensures WellFormed(r)
  {
    var flagged := p.(castleFlags := SetFlag(p.castleFlags, if white then WhiteHasCastled else BlackHasCastled));
    if modifier == KingSideCastle || modifier == QueenSideCastle then
      MovePieceSpec(flagged, RookCorner(modifier, white), RookTarget(modifier, white), CastlingRook(white), NoPiece, keys)
    else p
  }

  function CastlingRook(white: bool): Byte { if white then WhiteRook else BlackRook }

  /** The rook's square before castling: h1 or a1 (h8 or a8). */
  function RookCorner(modifier: MoveModifier, white: bool): (r: int)
    ensures IsValidSquare(r)
  {
    if modifier == KingSideCastle then (if white then H1 else H8) else (if white then A1 else A8)
  }

  /** The rook's square after castling: f1 or d1 (f8 or d8). */
  function RookTarget(modifier: MoveModifier, white: bool): (r: int)
    ensures IsValidSquare(r) && r != RookCorner(modifier, white)
  {
    if modifier == KingSideCastle then (if white then F1 else F8) else (if white then D1 else D8)
  }

  /**
   * What moving a piece changes besides the piece itself, by the switch on
   * the moved piece of the mover's branch (`white`: the white codes; the
   * other branch is taken for every other code).
   */
  function MoverEffects(p: Position, m: Move, white: bool, keys: ZobristKeys): (r: Position)
    requires WellFormed(p) && ValidKeys(keys) && InBounds(m)
    ensures WellFormed(r)
    ensures r.castleFlags == MoverCastleFlags(p.castleFlags, m, white)
  {
    var piece := m.movedPiece;
    if piece == (if white then WhitePawn else BlackPawn) then PushEffect(p, m.fromSquare, m.toSquare, white)
    else if piece == (if white then WhiteRook else BlackRook) then RookLeavesEffect(p, m.fromSquare, white)
    else if piece == (if white then WhiteKing else BlackKing) then KingMoveEffect(p, m, white, keys)
    else p
  }

  /** The castling flags `MoverEffects` leaves, on the flags alone. */
  function MoverCastleFlags(flags: bv8, m: Move, white: bool): bv8
  {
    var piece := m.movedPiece;
    var kingSide := if white then WhiteCanCastleKingSide else BlackCanCastleKingSide;
    var queenSide := if white then WhiteCanCastleQueenSide else BlackCanCastleQueenSide;
    if piece == (if white then WhiteRook else BlackRook) then
      if m.fromSquare == (if white then H1 else H8) && HasFlag(flags, kingSide) then ClearFlag(flags, kingSide)
      else if m.fromSquare == (if white then A1 else A8) && HasFlag(flags, queenSide) then ClearFlag(flags, queenSide)
      else flags
    else if piece == (if white then WhiteKing else BlackKing) then
      var castled := if m.modifier == KingSideCastle || m.modifier == QueenSideCastle
                     then SetFlag(flags, if white then WhiteHasCastled else BlackHasCastled) else flags;
      ClearFlag(castled, kingSide | queenSide)
    else flags
  }

  /**
   * The captured piece's side of a move: its board and key lose the target
   * square (unless the capture is en passant, which takes the pawn off the
   * square behind the target instead), and a rook captured on its corner
   * takes that castling right with it. `white` is the mover's branch: it
   * decides which colour's captures are looked at.
   */
  function CaptureEffects(p: Position, m: Move, white: bool, keys: ZobristKeys): (r: Position)
    requires WellFormed(p) && ValidKeys(keys) && InBounds(m) && white == IsWhite(m.movedPiece)
    ensures WellFormed(r)
    ensures r.castleFlags == RookCaptureFlags(p.castleFlags, m, white)
  {
    var to := m.toSquare;
    var captured := m.capturedPiece;
    var cleared := ClearCaptured(p, m, keys);
    if white then
      if captured == BlackPawn && m.modifier == EnPassant then
        RemovePieceSpec(cleared, to - 8, BlackPawn, AllBlack, keys)
      else if captured == BlackRook then
        if to == H8 && HasFlag(cleared.castleFlags, BlackCanCastleKingSide) then
          cleared.(castleFlags := ClearFlag(cleared.castleFlags, BlackCanCastleKingSide))
        else if to == A8 && HasFlag(cleared.castleFlags, BlackCanCastleQueenSide) then
          cleared.(castleFlags := ClearFlag(cleared.castleFlags, BlackCanCastleQueenSide))
        else cleared
      else cleared
    else
      if captured == WhitePawn && m.modifier == EnPassant then
        RemovePieceSpec(cleared, to + 8, WhitePawn, AllWhite, keys)
      else if captured == WhiteRook then
        if to == H1 && HasFlag(cleared.castleFlags, WhiteCanCastleKingSide) then
          cleared.(castleFlags := ClearFlag(cleared.castleFlags, WhiteCanCastleKingSide))
        else if to == A1 && HasFlag(cleared.castleFlags, WhiteCanCastleQueenSide) then
          cleared.(castleFlags := ClearFlag(cleared.castleFlags, WhiteCanCastleQueenSide))
        else cleared
      else cleared
  }

  /** The castling flags `CaptureEffects` leaves: a rook taken on its corner takes that corner's right with it. */
  function RookCaptureFlags(flags: bv8, m: Move, white: bool): bv8
  {
    var to := m.toSquare;
    if white then
      if m.capturedPiece == BlackRook then
        if to == H8 && HasFlag(flags, BlackCanCastleKingSide) then ClearFlag(flags, BlackCanCastleKingSide)
        else if to == A8 && HasFlag(flags, BlackCanCastleQueenSide) then ClearFlag(flags, BlackCanCastleQueenSide)
        else flags
      else flags
    else
      if m.capturedPiece == WhiteRook then
        if to == H1 && HasFlag(flags, WhiteCanCastleKingSide) then ClearFlag(flags, WhiteCanCastleKingSide)
        else if to == A1 && HasFlag(flags, WhiteCanCastleQueenSide) then ClearFlag(flags, WhiteCanCastleQueenSide)
        else flags
      else flags
  }

  /** An ordinary capture takes the captured piece's bit off its board and its key out of the hash. */
  function ClearCaptured(p: Position, m: Move, keys: ZobristKeys): (r: Position)
    requires WellFormed(p) && ValidKeys(keys) && InBounds(m)
    ensures WellFormed(r)
    ensures r.occupant == p.occupant && r.castleFlags == p.castleFlags && r.side == p.side
  {
    var to := m.toSquare;
    var captured := m.capturedPiece;
    if captured != NoPiece && m.modifier != EnPassant then
      p.(bitBoard := p.bitBoard[captured := Without(p.bitBoard[captured], to)],
         hashKey := Xor(p.hashKey, Key(keys, to, captured)))
    else p
  }

  /** The end of every move: the all-pieces board rebuilt from the colour sets, the state keys back in, the other side to move, the game stage recomputed. */
  function FinishMove(p: Position, keys: ZobristKeys): (r: Position)
    requires WellFormed(p) && ValidKeys(keys)
    ensures WellFormed(r)
  {
    var joined := p.(bitBoard := p.bitBoard[All := Union(p.bitBoard[AllWhite], p.bitBoard[AllBlack])]);
    var hashed := ToggleStateKeys(joined, keys);
    UpdateGameStageSpec(hashed.(side := OtherSide(hashed.side)))
  }

  /** The position after the move, before the result is decided. */
  function MadeMove(p: Position, m: Move, keys: ZobristKeys): (r: Position)
    requires WellFormed(p) && ValidKeys(keys) && InBounds(m)
    ensures WellFormed(r)
  {
    var p1 := ToggleStateKeys(p, keys);
    var p2 := MovePieceSpec(p1, m.fromSquare, m.toSquare, m.movedPiece, m.promotionPiece, keys);
    var p3 := p2.(enPassantSquare := SquareNone);
    var white := IsWhite(m.movedPiece);
    var p4 := MoverEffects(p3, m, white, keys);
    var p5 := CaptureEffects(p4, m, white, keys);
    FinishMove(p5, keys)
  }

  /** `MakeMove` reports `UndoMove` when the side that just moved is left in check. */
  function MakeMoveResultOf(p: Position): MakeMoveResult
    requires WellFormed(p)
  {
    if InCheck(p, OtherSide(p.side)) then UndoMove else AllGood
  }

  // ---------------------------------------------------------- game stage

  /** The stage thresholds on the pawn count and the count of knights, bishops, rooks and queens. */
  function StageOf(pawnCount: int, pieceCount: int): GameStage
  {
    if pawnCount >= 14 && pieceCount >= 12 then Opening
    else if pawnCount >= 8 && pieceCount >= 7 then EarlyMiddleGame
    else if pawnCount >= 6 && pieceCount >= 5 then LateMiddleGame
    else EndGame
  }

  function PawnBoard(bb: seq<bv64>): bv64
    requires |bb| == 19
  {
    bb[WhitePawn] | bb[BlackPawn]
  }

  function PieceBoard(bb: seq<bv64>): bv64
    requires |bb| == 19
  {
    bb[WhiteKnight] | bb[BlackKnight] | bb[WhiteBishop] | bb[BlackBishop] |
    bb[WhiteRook] | bb[BlackRook] | bb[WhiteQueen] | bb[BlackQueen]
  }

  /** The counts are the source's population counts (which miss any board holding a8). */
  function UpdateGameStageSpec(p: Position): (r: Position)
    requires WellFormed(p)
    ensures WellFormed(r)
  {
    var pawns := PositiveLoopCount(PawnBoard(p.bitBoard));
    var pieces := PositiveLoopCount(PieceBoard(p.bitBoard));
    p.(pawnCount := pawns, pieceCount := pieces, gameStage := StageOf(pawns, pieces))
  }

  // -------------------------------------------------------------- IsLegal

  /**
   * The sanity test a move from elsewhere (the transposition table, the
   * killer list) must pass before it is tried: a real move of a piece of the
   * side to move from the square it stands on, and a capture of an enemy
   * piece that is not a king and (unless en passant) stands on the target.
   */
  function IsLegal(p: Position, m: Move): bool
    requires WellFormed(p)
  {
    if Equals(m, Empty) then false
    else if !IsValidSquare(m.fromSquare) || !IsValidSquare(m.toSquare) then false
    else if m.movedPiece == NoPiece then false
    else if GetSide(m.movedPiece) != p.side then false
    else if m.movedPiece != p.occupant[m.fromSquare] then false
    else if m.capturedPiece != NoPiece then
      if GetSide(m.capturedPiece) == p.side then false
      else if IsKing(m.capturedPiece) then false
      else if m.modifier != EnPassant && m.capturedPiece != p.occupant[m.toSquare] then false
      else true
    else true
  }

  /**
   * `IsLegal` accepts exactly a move of a piece of the side to move from the
   * square it stands on, capturing nothing or an enemy piece other than a
   * king that stands on the target (for en passant, anywhere). The test
   * against the empty move is subsumed: the empty move moves no piece.
   */
  lemma IsLegalMeaning(p: Position, m: Move)
    requires WellFormed(p)
    ensures IsLegal(p, m) <==>
      IsValidSquare(m.fromSquare) && IsValidSquare(m.toSquare) &&
      m.movedPiece != NoPiece && GetSide(m.movedPiece) == p.side && p.occupant[m.fromSquare] == m.movedPiece &&
      (m.capturedPiece != NoPiece ==>
         GetSide(m.capturedPiece) != p.side && !IsKing(m.capturedPiece) &&
         (m.modifier != EnPassant ==> p.occupant[m.toSquare] == m.capturedPiece))
  {
  }

  /** A move passes `IsLegal` for at most one side to move. */
  lemma IsLegalForOneSide(p: Position, m: Move)
    requires WellFormed(p)
    ensures IsLegal(p, m) ==> !IsLegal(p.(side := OtherSide(p.side)), m)
  {
  }

  // -------------------------------------------------------------- attacks

  /** The occupancy words an attack query reads, one per ray table. */
  datatype Occupancy = Occupancy(all: bv64, rotated90: bv64, rotated45: bv64, rotated135: bv64)

  function BoardOccupancy(p: Position): Occupancy
    requires WellFormed(p)
  {
    Occupancy(p.bitBoard[All], p.bitBoard[AllRotated90], p.bitBoard[AllRotated45], p.bitBoard[AllRotated135])
  }

  /** The occupancy with the bits of one square toggled in each word: the "king removed" queries see through the king. */
  function OccupancyWithout(p: Position, sq: int): Occupancy
    requires WellFormed(p) && 0 <= sq < 64
  {
    Occupancy(p.bitBoard[All] ^ SquareMask(sq),
              p.bitBoard[AllRotated90] ^ SquareMask(Rot90(sq)),
              p.bitBoard[AllRotated45] ^ SquareMask(Rot45(sq)),
              p.bitBoard[AllRotated135] ^ SquareMask(Rot135(sq)))
  }

  /** The row index of a 64 × 256 ray table: the occupancy word shifted (with sign) and masked. */
  function OccupancyIndex(b: bv64, shift: int, mask: bv64): int
    requires 0 <= shift < 64
  {
    (SignedShiftRight(b, shift) & mask) as int
  }

  /** The squares a bishop or queen on them would attack `sq` from. */
  function DiagonalAttacks(sq: int, o: Occupancy): bv64
    requires 0 <= sq < 64
  {
    BoardTables.Rotated135ShiftBounds(sq);
    BoardTables.Rotated45ShiftBounds(sq);
    BoardTables.AttacksRotated135(sq, OccupancyIndex(o.rotated135, BoardTables.Rotated135Shift(sq), BoardTables.Rotated135SquareMask(sq))) |
    BoardTables.AttacksRotated45(sq, OccupancyIndex(o.rotated45, BoardTables.Rotated45Shift(sq), BoardTables.Rotated45SquareMask(sq)))
  }

  /** The squares a rook or queen on them would attack `sq` from. */
  function StraightAttacks(sq: int, o: Occupancy): bv64
    requires 0 <= sq < 64
  {
    BoardTables.RookAttacksHorizontal(sq, OccupancyIndex(o.all, BoardTables.HorizontalShift(sq), 0xff)) |
    BoardTables.RookAttacksVertical(sq, OccupancyIndex(o.rotated90, BoardTables.VerticalShift(sq), 0xff))
  }

  /**
   * The squares a white pawn attacks `sq` from, as the source computes them:
   * the square's mask shifted down by 7 and by 9. The shift is the signed
   * one, so for a8 (bit 63) the second term fills the top of the word.
   */
  function WhitePawnSources(sq: int): bv64
    requires 0 <= sq < 64
  {
    SignedPawnTerms(SquareMask(sq), BoardTables.ZeroLeft, BoardTables.ZeroRight)
  }

  /** The squares a white pawn attacks `sq` from, with the unsigned shift the source evidently means. */
  function WhitePawnSourcesCorrected(sq: int): bv64
    requires 0 <= sq < 64
  {
    UnsignedPawnTerms(SquareMask(sq), BoardTables.ZeroLeft, BoardTables.ZeroRight)
  }

  /** `(m & left) >> 7 | (m & right) >> 9` with the signed shift. */
  function SignedPawnTerms(m: bv64, left: bv64, right: bv64): bv64
  {
    SignedShiftRight(m & left, 7) | SignedShiftRight(m & right, 9)
  }

  /** `(m & left) >> 7 | (m & right) >> 9` with the unsigned shift. */
  function UnsignedPawnTerms(m: bv64, left: bv64, right: bv64): bv64
  {
    ((m & left) >> 7) | ((m & right) >> 9)
  }

  function BlackPawnSources(sq: int): bv64
    requires 0 <= sq < 64
  {
    ((SquareMask(sq) & BoardTables.ZeroRight) << 7) | ((SquareMask(sq) & BoardTables.ZeroLeft) << 9)
  }

  /**
   * The pieces of `attacker` that attack `sq` when the blockers are `o`:
   * sliders along the ray tables, knights, and (when asked for) pawns and
   * the king. Every attack query of the board is one of these.
   */
  function AttacksOf(p: Position, sq: int, attacker: Side, o: Occupancy, pawns: bool, king: bool): bv64
    requires WellFormed(p) && 0 <= sq < 64
  {
    AttackSet(p, sq, attacker, o, pawns, king, sq + 1)
  }

  /** The set itself; the countdown on `depth` keeps its bit operations out of proofs that only pass it along. */
  function AttackSet(p: Position, sq: int, attacker: Side, o: Occupancy, pawns: bool, king: bool, depth: nat): bv64
    requires WellFormed(p) && 0 <= sq < 64
    decreases depth
  {
    if depth > 0 then AttackSet(p, sq, attacker, o, pawns, king, depth - 1) else
    var bb := p.bitBoard;
    var white := attacker == White;
    var bishops := if white then bb[WhiteBishop] | bb[WhiteQueen] else bb[BlackBishop] | bb[BlackQueen];
    var rooks := if white then bb[WhiteRook] | bb[WhiteQueen] else bb[BlackRook] | bb[BlackQueen];
    var knights := if white then bb[WhiteKnight] else bb[BlackKnight];
    var pawnSources := if white then WhitePawnSources(sq) else BlackPawnSources(sq);
    var pawnBoard := if white then bb[WhitePawn] else bb[BlackPawn];
    var kingSquare := if white then p.whiteKingSquare else p.blackKingSquare;
    var sliders := (DiagonalAttacks(sq, o) & bishops) | (StraightAttacks(sq, o) & rooks) | (BoardTables.KnightMoves(sq) & knights);
    var withPawns := if pawns then sliders | (pawnSources & pawnBoard) else sliders;
    if king then withPawns | (BoardTables.KingMoves(sq) & SquareMask(kingSquare)) else withPawns
  }

  function WhiteAttacks(p: Position, sq: int): bv64
    requires WellFormed(p) && 0 <= sq < 64
  {
    AttacksOf(p, sq, White, BoardOccupancy(p), true, true)
  }

  function BlackAttacks(p: Position, sq: int): bv64
    requires WellFormed(p) && 0 <= sq < 64
  {
    AttacksOf(p, sq, Black, BoardOccupancy(p), true, true)
  }

  /** White's attacks on `sq` as if the black king were not on the board (for the squares a king in check may flee to). */
  function WhiteAttacksKingRemoved(p: Position, sq: int): bv64
    requires WellFormed(p) && 0 <= sq < 64
  {
    AttacksOf(p, sq, White, OccupancyWithout(p, p.blackKingSquare), true, true)
  }

  function BlackAttacksKingRemoved(p: Position, sq: int): bv64
    requires WellFormed(p) && 0 <= sq < 64
  {
    AttacksOf(p, sq, Black, OccupancyWithout(p, p.whiteKingSquare), true, true)
  }

  function WhiteNonKingAttacks(p: Position, sq: int): bv64
    requires WellFormed(p) && 0 <= sq < 64
  {
    AttacksOf(p, sq, White, BoardOccupancy(p), true, false)
  }

  function BlackNonKingAttacks(p: Position, sq: int): bv64
    requires WellFormed(p) && 0 <= sq < 64
  {
    AttacksOf(p, sq, Black, BoardOccupancy(p), true, false)
  }

  function WhiteNonKingOrPawnAttacks(p: Position, sq: int): bv64
    requires WellFormed(p) && 0 <= sq < 64
  {
    AttacksOf(p, sq, White, BoardOccupancy(p), false, false)
  }

  function BlackNonKingOrPawnAttacks(p: Position, sq: int): bv64
    requires WellFormed(p) && 0 <= sq < 64
  {
    AttacksOf(p, sq, Black, BoardOccupancy(p), false, false)
  }

  /** The number of attackers the source counts: its population count, blind to a board holding a8. */
  function AttackerCount(p: Position, sq: int, attacker: Side): nat
    requires WellFormed(p) && 0 <= sq < 64
  {
    PositiveLoopCount(if attacker == White then WhiteAttacks(p, sq) else BlackAttacks(p, sq))
  }

  function KingSquare(p: Position, side: Side): int
  {
    if side == White then p.whiteKingSquare else p.blackKingSquare
  }

  function KingAttackCount(p: Position, side: Side): nat
    requires WellFormed(p)
  {
    AttackerCount(p, KingSquare(p, side), OtherSide(side))
  }

  predicate InCheck(p: Position, side: Side)
    requires WellFormed(p)
  {
    KingAttackCount(p, side) > 0
  }
}
