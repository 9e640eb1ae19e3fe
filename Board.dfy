/**
 * The board as the engine keeps it: an occupant array of 64 squares and an
 * array of 19 bitboards, updated in place, and the scalar state beside
 * them. `State()` reads all of it as a `Position`; every method that
 * changes the board is proved to leave `State()` equal to the function of
 * module Positions that specifies it, so the lemmas proved about those
 * functions (module MoveMaking) hold of the board.
 */
module Boards {
  import opened Globals
  import opened BitOperations
  import opened Zobrist
  import opened Moves
  import opened Positions
  import opened Setup
  import BoardTables

  class Board {
    const occupant: array<Byte>
    var bitBoard: seq<bv64>
    var whiteKingSquare: int
    var blackKingSquare: int
    var enPassantSquare: int
    var castleFlags: bv8
    var side: Side
    var gameStage: GameStage
    var pawnCount: nat
    var pieceCount: nat
    var hashKey: UInt64
    var pawnHashKey: UInt64

    /** The two arrays have their fixed sizes and the position they hold is well formed. */
    predicate Valid()
      reads this, occupant
    {
      occupant.Length == 64 && |bitBoard| == 19 &&
      (forall sq :: 0 <= sq < 64 ==> IsPieceCode(occupant[sq])) &&
      0 <= whiteKingSquare < 64 && 0 <= blackKingSquare < 64 &&
      (enPassantSquare == SquareNone || IsValidSquare(enPassantSquare))
    }

    /** The position the board holds. */
    function State(): (p: Position)
      reads this, occupant
      requires Valid()
      ensures WellFormed(p)
    {
      Position(occupant[..], bitBoard, whiteKingSquare, blackKingSquare, enPassantSquare,
               castleFlags, side, gameStage, pawnCount, pieceCount, hashKey, pawnHashKey)
    }

    /** A new board: every square empty, every bitboard empty, every scalar at its default. */
    constructor ()
      ensures Valid() && fresh(occupant)
      ensures State() == NewPosition()
    {
      occupant := new Byte[64](_ => NoPiece);
      bitBoard := seq(19, _ => 0);
      whiteKingSquare := 0;
      blackKingSquare := 0;
      enPassantSquare := 0;
      castleFlags := 0;
      side := White;
      gameStage := Opening;
      pawnCount := 0;
      pieceCount := 0;
      hashKey := 0;
      pawnHashKey := 0;
    }

    // --------------------------------------------------------------- setup

    /**
     * `FromFEN`: a new board, set up from the record, its bitboards and
     * hash computed; `None` when the source raises an exception.
     */
    static method FromFEN(fen: string, keys: ZobristKeys) returns (r: Option<Board>)
      requires ValidKeys(keys)
      ensures r.Some? <==> FromFENSpec(NewPosition(), fen, keys).Some?
      ensures r.Some? ==>
        fresh(r.value) && fresh(r.value.occupant) && r.value.Valid() &&
        r.value.State() == FromFENSpec(NewPosition(), fen, keys).value
    {
      var board := new Board();
      var ok := board.SetBoard(fen);
      if !ok {
        return None;
      }
      board.InitializeBitBoards();
      board.InitializeHashes(keys);
      r := Some(board);
    }

    /**
     * Reading a FEN record into the occupants, the side to move and the
     * en-passant square. The castling rights are computed into a local and
     * never stored, as in the source. `false` where the source raises an
     * exception (an unknown piece letter, a piece off the board, a rank
     * that is not a digit, or an en-passant number the hashing that follows
     * cannot look up).
     */
    method SetBoard(fen: string) returns (ok: bool)
      requires Valid()
      modifies this, occupant
      ensures Valid()
      ensures ok <==> SetBoardSpec(old(State()), fen).Some?
      ensures ok ==> State() == SetBoardSpec(old(State()), fen).value
    {
      var parts := Split(fen, ' ');
      if |parts| > 0 {
        ClearOccupants();
        var placed := PlaceRanksInPlace(Split(parts[0], '/'));
        if !placed {
          return false;
        }
      }
      var toMove := White;
      if |parts| > 1 && parts[1] == "b" {
        toMove := Black;
      }
      var castling := AllCastlingAvailable;
      if |parts| > 2 {
        if 'K' !in parts[2] {
          castling := ClearFlag(castling, WhiteCanCastleKingSide);
        }
        if 'Q' !in parts[2] {
          castling := ClearFlag(castling, WhiteCanCastleQueenSide);
        }
        if 'k' !in parts[2] {
          castling := ClearFlag(castling, BlackCanCastleKingSide);
        }
        if 'q' !in parts[2] {
          castling := ClearFlag(castling, BlackCanCastleQueenSide);
        }
      }
      var ep := SquareNone;
      if |parts| > 3 && |parts[3]| == 2 {
        if !IsDigit(parts[3][1]) {
          return false;
        }
        ep := 7 - (UpperAsciiCode(parts[3][0]) - 65) + (DigitValue(parts[3][1]) - 1) * 8;
      }
      if ep != SquareNone && !IsValidSquare(ep) {
        return false;
      }
      side, enPassantSquare := toMove, ep;
      ok := true;
    }

    /** The loop that empties every square. */
    method ClearOccupants()
      requires Valid()
      modifies occupant
      ensures Valid() && occupant[..] == EmptyOccupants()
    {
      for sq := 0 to 64
        invariant forall j :: 0 <= j < sq ==> occupant[j] == NoPiece
        invariant forall j :: 0 <= j < 64 ==> IsPieceCode(occupant[j])
      {
        occupant[sq] := NoPiece;
      }
    }

    /** The ranks of the placement field, the first onto rank 7; `false` where the source throws. */
    method PlaceRanksInPlace(ranks: seq<string>) returns (ok: bool)
      requires Valid()
      modifies occupant
      ensures Valid()
      ensures ok <==> PlaceRanks(old(occupant[..]), ranks, 7).Some?
      ensures ok ==> occupant[..] == PlaceRanks(old(occupant[..]), ranks, 7).value
    {
      ghost var placed := PlaceRanks(occupant[..], ranks, 7);
      var r := 7;
      var i := 0;
      while i < |ranks|
        invariant 0 <= i <= |ranks| && r == 7 - i
        invariant forall j :: 0 <= j < 64 ==> IsPieceCode(occupant[j])
        invariant PlaceRanks(occupant[..], ranks[i..], r) == placed
      {
        ok := PlaceRankInPlace(ranks[i], r);
        if !ok {
          return;
        }
        assert ranks[i..][1..] == ranks[i + 1..];
        r := r - 1;
        i := i + 1;
      }
      ok := true;
    }

    /** One rank of the placement field onto rank `r`, from file 7 down; `false` where the source throws. */
    method PlaceRankInPlace(rank: string, r: int) returns (ok: bool)
      requires Valid()
      modifies occupant
      ensures Valid()
      ensures ok <==> PlaceRank(old(occupant[..]), rank, 7, r).Some?
      ensures ok ==> occupant[..] == PlaceRank(old(occupant[..]), rank, 7, r).value
    {
      ghost var placed := PlaceRank(occupant[..], rank, 7, r);
      var f := 7;
      var k := 0;
      while k < |rank|
        invariant 0 <= k <= |rank|
        invariant forall j :: 0 <= j < 64 ==> IsPieceCode(occupant[j])
        invariant PlaceRank(occupant[..], rank[k..], f, r) == placed
      {
        var c := rank[k];
        assert rank[k..][0] == c && rank[k..][1..] == rank[k + 1..];
        if IsDigit(c) {
          f := f - DigitValue(c);
        } else {
          var piece := Globals.FromFEN([c]);
          if piece.None? || !(0 <= f + 8 * r < 64) {
            return false;
          }
          occupant[f + 8 * r] := piece.value;
          f := f - 1;
        }
        k := k + 1;
      }
      ok := true;
    }

    /**
     * The bitboards and king squares from the occupants, one square at a
     * time, then the game stage. Every board but index 0 and the two king
     * boards is zeroed first.
     */
    method InitializeBitBoards()
      requires Valid()
      modifies this
      ensures Valid()
      ensures State() == InitializeBitBoardsSpec(old(State()))
    {
      var boards, whiteKing, blackKing := ScanOccupants();
      bitBoard, whiteKingSquare, blackKingSquare := boards, whiteKing, blackKing;
      UpdateGameStage();
    }

    /** The loop of `InitializeBitBoards`: the boards and the king squares it computes. */
    method ScanOccupants() returns (boards: seq<bv64>, whiteKing: int, blackKing: int)
      requires Valid()
      ensures boards == BoardsUpTo(bitBoard, occupant[..], 64)
      ensures whiteKing == KingUpTo(occupant[..], 64, WhiteKing, whiteKingSquare)
      ensures blackKing == KingUpTo(occupant[..], 64, BlackKing, blackKingSquare)
    {
      boards := ClearedBoards(bitBoard);
      whiteKing, blackKing := whiteKingSquare, blackKingSquare;
      for i := 0 to 64
        invariant boards == BoardsUpTo(bitBoard, occupant[..], i)
        invariant whiteKing == KingUpTo(occupant[..], i, WhiteKing, whiteKingSquare)
        invariant blackKing == KingUpTo(occupant[..], i, BlackKing, blackKingSquare)
      {
        var piece := occupant[i];
        if piece != NoPiece {
          boards := AddSquare(boards, i, piece);
          if IsWhite(piece) {
            if piece == WhiteKing {
              whiteKing := i;
            }
          } else {
            if piece == BlackKing {
              blackKing := i;
            }
          }
        }
      }
    }

    /** The hash key computed from scratch over the board. */
    method InitializeHashes(keys: ZobristKeys)
      requires Valid() && ValidKeys(keys)
      modifies this
      ensures Valid()
      ensures State() == InitializeHashesSpec(old(State()), keys)
    {
      var hash := HashBoard(occupant, enPassantSquare, castleFlags, keys);
      hashKey := hash;
    }

    /**
     * Copying another board: the occupants square by square, the boards and
     * every scalar but the stage, which is recomputed from the copied boards.
     */
    method CopyFrom(board: Board)
      requires Valid() && board.Valid()
      modifies this, occupant
      ensures Valid()
      ensures State() == UpdateGameStageSpec(old(board.State()))
    {
      ghost var source := board.State();
      var boards, kings, ep, flags := board.bitBoard, (board.whiteKingSquare, board.blackKingSquare), board.enPassantSquare, board.castleFlags;
      var hashes, toMove := (board.hashKey, board.pawnHashKey), board.side;
      CopyOccupants(board.occupant);
      bitBoard, whiteKingSquare, blackKingSquare := boards, kings.0, kings.1;
      enPassantSquare, castleFlags, hashKey, pawnHashKey, side := ep, flags, hashes.0, hashes.1, toMove;
      assert State() == source.(gameStage := gameStage, pawnCount := pawnCount, pieceCount := pieceCount);
      UpdateGameStage();
    }

    /** The block copy of the 64 occupants (the same array is copied onto itself unchanged). */
    method CopyOccupants(from: array<Byte>)
      requires Valid() && from.Length == 64 && forall j :: 0 <= j < 64 ==> IsPieceCode(from[j])
      modifies occupant
      ensures Valid() && occupant[..] == old(from[..])
    {
      for i := 0 to 64
        invariant forall j :: 0 <= j < i ==> occupant[j] == old(from[j])
        invariant forall j :: i <= j < 64 ==> from[j] == old(from[j])
        invariant forall j :: 0 <= j < 64 ==> IsPieceCode(occupant[j])
      {
        occupant[i] := from[i];
      }
    }

    // ------------------------------------------------------------ MovePiece

    /**
     * Moving a piece (replaced by the promotion piece when there is one):
     * the two occupants and the square keys are written in the source's
     * order; the bitboards become `MovePieceBoards` of the old ones.
     */
    method MovePiece(from: int, to: int, piece: Byte, promotionPiece: Byte, keys: ZobristKeys)
      requires Valid() && ValidKeys(keys)
      requires IsValidSquare(from) && IsValidSquare(to) && IsPieceCode(piece) && IsPieceCode(promotionPiece)
      modifies this, occupant
      ensures Valid()
      ensures State() == MovePieceSpec(old(State()), from, to, piece, promotionPiece, keys)
    {
      var placed := if promotionPiece == NoPiece then piece else promotionPiece;
      var hash := hashKey;
      occupant[from] := NoPiece;
      hash := Xor(hash, Key(keys, from, piece));
      if promotionPiece == NoPiece {
        occupant[to] := piece;
        hash := Xor(hash, Key(keys, to, piece));
      } else {
        occupant[to] := promotionPiece;
        hash := Xor(hash, Key(keys, to, promotionPiece));
      }
      bitBoard := MovePieceBoards(bitBoard, from, to, piece, placed);
      hashKey := hash;
    }

    // ------------------------------------------------------------- MakeMove

    /** The en-passant and castling keys XORed into the hash: taken out before a move and put back after it. */
    method ToggleStateKeys(keys: ZobristKeys)
      requires Valid() && ValidKeys(keys)
      modifies this
      ensures Valid()
      ensures State() == Positions.ToggleStateKeys(old(State()), keys)
    {
      var hash := Xor(hashKey, GetEPHash(enPassantSquare, keys));
      hash := Xor(hash, GetCastleHash(castleFlags));
      hashKey := hash;
    }

    /** The switch on the moved piece in the mover's branch (`white` for the white codes). */
    method MoverEffects(m: Move, white: bool, keys: ZobristKeys)
      requires Valid() && ValidKeys(keys) && InBounds(m)
      modifies this, occupant
      ensures Valid()
      ensures State() == Positions.MoverEffects(old(State()), m, white, keys)
    {
      var piece := m.movedPiece;
      if piece == (if white then WhitePawn else BlackPawn) {
        PawnPush(m.fromSquare, m.toSquare, white);
      } else if piece == (if white then WhiteRook else BlackRook) {
        RookLeaves(m.fromSquare, white);
      } else if piece == (if white then WhiteKing else BlackKing) {
        KingMove(m, white, keys);
      }
    }

    /** A two-square pawn push sets the en-passant square when an enemy pawn stands beside the target. */
    method PawnPush(from: int, to: int, white: bool)
      requires Valid() && IsValidSquare(from) && IsValidSquare(to)
      modifies this
      ensures Valid()
      ensures State() == PushEffect(old(State()), from, to, white)
    {
      var enemyPawn := if white then BlackPawn else WhitePawn;
      if (if white then to < H8 else to > A1) {
        if (if white then to - from else from - to) == 16 &&
           ((BoardTables.File(to) > 0 && occupant[to - 1] == enemyPawn) ||
            (BoardTables.File(to) < 7 && occupant[to + 1] == enemyPawn))
        {
          enPassantSquare := if white then from + 8 else from - 8;
        }
      }
    }

    /** A rook leaving its corner drops that castling right. */
    method RookLeaves(from: int, white: bool)
      requires Valid()
      modifies this
      ensures Valid()
      ensures State() == RookLeavesEffect(old(State()), from, white)
    {
      var kingSide := if white then WhiteCanCastleKingSide else BlackCanCastleKingSide;
      var queenSide := if white then WhiteCanCastleQueenSide else BlackCanCastleQueenSide;
      if from == (if white then H1 else H8) && HasFlag(castleFlags, kingSide) {
        castleFlags := ClearFlag(castleFlags, kingSide);
      } else if from == (if white then A1 else A8) && HasFlag(castleFlags, queenSide) {
        castleFlags := ClearFlag(castleFlags, queenSide);
      }
    }

    /** A king move: castling moves the rook along, then the king square follows and both rights of the side go. */
    method KingMove(m: Move, white: bool, keys: ZobristKeys)
      requires Valid() && ValidKeys(keys) && IsValidSquare(m.toSquare)
      modifies this, occupant
      ensures Valid()
      ensures State() == KingMoveEffect(old(State()), m, white, keys)
    {
      Castle(m.modifier, white, keys);
      var rights := if white then WhiteCanCastleKingSide | WhiteCanCastleQueenSide
                    else BlackCanCastleKingSide | BlackCanCastleQueenSide;
      if white {
        whiteKingSquare, castleFlags := m.toSquare, ClearFlag(castleFlags, rights);
      } else {
        blackKingSquare, castleFlags := m.toSquare, ClearFlag(castleFlags, rights);
      }
    }

    /** Castling records that the side has castled and moves the rook from its corner. */
    method Castle(modifier: MoveModifier, white: bool, keys: ZobristKeys)
      requires Valid() && ValidKeys(keys)
      modifies this, occupant
      ensures Valid()
      ensures State() == CastleEffect(old(State()), modifier, white, keys)
    {
      if modifier == KingSideCastle || modifier == QueenSideCastle {
        castleFlags := SetFlag(castleFlags, if white then WhiteHasCastled else BlackHasCastled);
        MovePiece(RookCorner(modifier, white), RookTarget(modifier, white), CastlingRook(white), NoPiece, keys);
      }
    }

    /** An ordinary capture takes the captured piece's bit off its board and its key out of the hash. */
    method ClearCaptured(m: Move, keys: ZobristKeys)
      requires Valid() && ValidKeys(keys) && InBounds(m)
      modifies this
      ensures Valid()
      ensures State() == Positions.ClearCaptured(old(State()), m, keys)
    {
      var to, captured := m.toSquare, m.capturedPiece;
      if captured != NoPiece && m.modifier != EnPassant {
        var hash := Xor(hashKey, Key(keys, to, captured));
        bitBoard, hashKey := bitBoard[captured := Without(bitBoard[captured], to)], hash;
      }
    }

    /**
     * The captured piece's side of the move: its board and key lose the
     * target (unless en passant, where the pawn behind the target is taken
     * off instead), and a rook taken on its corner takes that right along.
     */
    method CaptureEffects(m: Move, white: bool, keys: ZobristKeys)
      requires Valid() && ValidKeys(keys) && InBounds(m) && white == IsWhite(m.movedPiece)
      modifies this, occupant
      ensures Valid()
      ensures State() == Positions.CaptureEffects(old(State()), m, white, keys)
    {
      var to, captured := m.toSquare, m.capturedPiece;
      ClearCaptured(m, keys);
      if white {
        if captured == BlackPawn && m.modifier == EnPassant {
          RemoveCapturedPawn(to - 8, BlackPawn, AllBlack, keys);
        } else if captured == BlackRook {
          if to == H8 && HasFlag(castleFlags, BlackCanCastleKingSide) {
            castleFlags := ClearFlag(castleFlags, BlackCanCastleKingSide);
          } else if to == A8 && HasFlag(castleFlags, BlackCanCastleQueenSide) {
            castleFlags := ClearFlag(castleFlags, BlackCanCastleQueenSide);
          }
        }
      } else {
        if captured == WhitePawn && m.modifier == EnPassant {
          RemoveCapturedPawn(to + 8, WhitePawn, AllWhite, keys);
        } else if captured == WhiteRook {
          if to == H1 && HasFlag(castleFlags, WhiteCanCastleKingSide) {
            castleFlags := ClearFlag(castleFlags, WhiteCanCastleKingSide);
          } else if to == A1 && HasFlag(castleFlags, WhiteCanCastleQueenSide) {
            castleFlags := ClearFlag(castleFlags, WhiteCanCastleQueenSide);
          }
        }
      }
    }

    /** The en-passant victim leaves its square, its boards and the hash. */
    method RemoveCapturedPawn(sq: int, piece: Byte, colorCategory: Byte, keys: ZobristKeys)
      requires Valid() && ValidKeys(keys)
      requires IsValidSquare(sq) && 1 <= piece <= 12 && (colorCategory == AllWhite || colorCategory == AllBlack)
      modifies this, occupant
      ensures Valid()
      ensures State() == RemovePieceSpec(old(State()), sq, piece, colorCategory, keys)
    {
      occupant[sq] := NoPiece;
      var hash := Xor(hashKey, Key(keys, sq, piece));
      bitBoard, hashKey := RemovePieceBoards(bitBoard, sq, piece, colorCategory), hash;
    }

    /** The pawn and piece counts are population counts of the pawn and minor/major boards; the stage follows from them. */
    method UpdateGameStage()
      requires Valid()
      modifies this
      ensures Valid()
      ensures State() == UpdateGameStageSpec(old(State()))
    {
      var pawns := PopulationCount(PawnBoard(bitBoard));
      var pieces := PopulationCount(PieceBoard(bitBoard));
      pawnCount, pieceCount, gameStage := pawns, pieces, StageOf(pawns, pieces);
    }

    /** The end of every move: the all-pieces board, the state keys, the side to move and the stage. */
    method FinishMove(keys: ZobristKeys)
      requires Valid() && ValidKeys(keys)
      modifies this
      ensures Valid()
      ensures State() == Positions.FinishMove(old(State()), keys)
    {
      bitBoard := bitBoard[All := Union(bitBoard[AllWhite], bitBoard[AllBlack])];
      ToggleStateKeys(keys);
      side := OtherSide(side);
      UpdateGameStage();
    }

    /**
     * Making a move: the state keys out, the piece moved, the en-passant
     * square cleared, the mover's and the captured piece's effects, the
     * all-pieces board rebuilt, the state keys back in, the side flipped
     * and the stage recomputed; `UndoMove` when the mover is left in check.
     */
    method MakeMove(m: Move, keys: ZobristKeys) returns (result: MakeMoveResult)
      requires Valid() && ValidKeys(keys) && InBounds(m)
      modifies this, occupant
      ensures Valid()
      ensures State() == MadeMove(old(State()), m, keys)
      ensures result == MakeMoveResultOf(State())
    {
      ToggleStateKeys(keys);
      MovePiece(m.fromSquare, m.toSquare, m.movedPiece, m.promotionPiece, keys);
      enPassantSquare := SquareNone;
      var white := IsWhite(m.movedPiece);
      MoverEffects(m, white, keys);
      CaptureEffects(m, white, keys);
      FinishMove(keys);
      var check := InCheck(OtherSide(side));
      result := if check then UndoMove else AllGood;
    }

    // -------------------------------------------------------------- attacks

    /** The source's count of the pieces of `attacker` that attack `sq`: a population count of the attack set. */
    method AttackerCount(sq: int, attacker: Side) returns (n: nat)
      requires Valid() && 0 <= sq < 64
      ensures n == Positions.AttackerCount(State(), sq, attacker)
    {
      if attacker == White {
        n := PopulationCount(WhiteAttacks(State(), sq));
      } else {
        n := PopulationCount(BlackAttacks(State(), sq));
      }
    }

    method KingAttackCount(s: Side) returns (n: nat)
      requires Valid()
      ensures n == Positions.KingAttackCount(State(), s)
    {
      n := AttackerCount(if s == White then whiteKingSquare else blackKingSquare, OtherSide(s));
    }

    method InCheck(s: Side) returns (b: bool)
      requires Valid()
      ensures b == Positions.InCheck(State(), s)
    {
      var n := KingAttackCount(s);
      b := n > 0;
    }
  }
}
