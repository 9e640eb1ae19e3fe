/**
 * What making a move keeps: the bitboards, the hash and the king squares go
 * on describing the occupant array. The proof follows the steps of the
 * move one by one; between the steps the piece that was captured may still
 * be marked on the target square in its own board and in the hash, which
 * the capture step then clears.
 */
module MoveMaking {
  import opened Globals
  import opened BitOperations
  import opened Zobrist
  import opened Moves
  import opened Positions
  import BoardTables

  // ------------------------------------------------------------ agreement

  /** The twelve piece boards name what stands on square j, except that `stale` may still be marked on `at`. */
  predicate PieceBitsAgree(occ: seq<Byte>, bb: seq<bv64>, j: nat, stale: int, at: int)
    requires |occ| == 64 && |bb| == 19 && j < 64
  {
    forall k :: 1 <= k <= 12 && !(k == stale && j == at) ==> (Has(bb[k], j) <==> occ[j] == k)
  }

  /** The colour sets hold square j exactly when a piece of their colour stands there. */
  predicate ColourBitsAgree(occ: seq<Byte>, bb: seq<bv64>, j: nat)
    requires |occ| == 64 && |bb| == 19 && j < 64
  {
    (Has(bb[AllWhite], j) <==> IsWhite(occ[j])) && (Has(bb[AllBlack], j) <==> IsBlack(occ[j]))
  }

  /** The three rotated boards hold square j's rotated bit exactly when the square is occupied. */
  predicate RotatedBitsAgree(occ: seq<Byte>, bb: seq<bv64>, j: nat)
    requires |occ| == 64 && |bb| == 19 && j < 64
  {
    (Has(bb[AllRotated90], Rot90(j)) <==> occ[j] != NoPiece) &&
    (Has(bb[AllRotated45], Rot45(j)) <==> occ[j] != NoPiece) &&
    (Has(bb[AllRotated135], Rot135(j)) <==> occ[j] != NoPiece)
  }

  predicate SquareAgrees(occ: seq<Byte>, bb: seq<bv64>, j: nat, stale: int, at: int)
    requires |occ| == 64 && |bb| == 19 && j < 64
  {
    PieceBitsAgree(occ, bb, j, stale, at) && ColourBitsAgree(occ, bb, j) && RotatedBitsAgree(occ, bb, j)
  }

  /** Every bitboard but the all-pieces one describes the occupants, but for `stale` on `at`. */
  predicate BoardsAgree(occ: seq<Byte>, bb: seq<bv64>, stale: int, at: int)
    requires |occ| == 64 && |bb| == 19
  {
    forall j: nat :: j < 64 ==> SquareAgrees(occ, bb, j, stale, at)
  }

  /**
   * A board whose redundant parts describe its occupants: the bitboards
   * (the all-pieces one included), the king squares and the hash.
   */
  predicate Consistent(p: Position, keys: ZobristKeys)
  {
    WellFormed(p) && ValidKeys(keys) &&
    BoardsAgree(p.occupant, p.bitBoard, NoPiece, 0) &&
    (forall j: nat :: j < 64 ==> (Has(p.bitBoard[All], j) <==> p.occupant[j] != NoPiece)) &&
    p.occupant[p.whiteKingSquare] == WhiteKing && p.occupant[p.blackKingSquare] == BlackKing &&
    p.hashKey == HashOf(p.occupant, p.enPassantSquare, p.castleFlags, keys)
  }

  /**
   * A board between the steps of a move: the state keys are out of the
   * hash, and a captured piece not yet cleared may still be marked on `at`
   * in its own board and in the hash.
   */
  predicate MidMove(p: Position, keys: ZobristKeys, stale: Byte, at: int)
  {
    WellFormed(p) && ValidKeys(keys) && IsPieceCode(stale) && 0 <= at < 64 &&
    BoardsAgree(p.occupant, p.bitBoard, stale, at) &&
    p.hashKey == Xor(SquaresHash(p.occupant, 64, keys), Key(keys, at, stale))
  }

  // ------------------------------------------------------ what a move needs

  function EnemyPawn(white: bool): Byte { if white then BlackPawn else WhitePawn }

  /** The square of the pawn an en-passant capture takes: behind the target, seen from the mover. */
  function EnPassantVictim(m: Move): int
  {
    if IsWhite(m.movedPiece) then m.toSquare - 8 else m.toSquare + 8
  }

  /**
   * A move that fits the board it is made on, as the move generator builds
   * them: it passes `IsLegal`, leaves its square, names what stands on the
   * target (an en-passant target is empty, and the pawn taken stands behind
   * it), promotes a pawn to a piece of its own colour other than a king,
   * and castles only with the rook on its corner, the rook's target empty,
   * and nothing captured.
   */
  predicate Playable(p: Position, m: Move)
    requires WellFormed(p)
  {
    var white := IsWhite(m.movedPiece);
    InBounds(m) && IsLegal(p, m) && m.fromSquare != m.toSquare &&
    (m.modifier != EnPassant ==> p.occupant[m.toSquare] == m.capturedPiece) &&
    (m.modifier == EnPassant ==> p.occupant[m.toSquare] == NoPiece) &&
    (m.modifier == EnPassant && m.capturedPiece == EnemyPawn(white) ==>
       p.occupant[EnPassantVictim(m)] == m.capturedPiece) &&
    (m.promotionPiece != NoPiece ==>
       IsPawn(m.movedPiece) && IsWhite(m.promotionPiece) == white && !IsKing(m.promotionPiece)) &&
    CastlingFits(p, m)
  }

  predicate CastlingFits(p: Position, m: Move)
    requires WellFormed(p)
  {
    var white := IsWhite(m.movedPiece);
    IsKing(m.movedPiece) && (m.modifier == KingSideCastle || m.modifier == QueenSideCastle) ==>
      m.capturedPiece == NoPiece && m.toSquare != RookTarget(m.modifier, white) &&
      p.occupant[RookCorner(m.modifier, white)] == CastlingRook(white) &&
      p.occupant[RookTarget(m.modifier, white)] == NoPiece
  }

  /** What the squares hold after a move, in chess terms: the reference `MadeMove` is measured against. */
  function MovedOccupants(occ: seq<Byte>, m: Move): seq<Byte>
    requires |occ| == 64 && InBounds(m)
  {
    var white := IsWhite(m.movedPiece);
    var placed := if m.promotionPiece == NoPiece then m.movedPiece else m.promotionPiece;
    var moved := occ[m.fromSquare := NoPiece][m.toSquare := placed];
    if IsKing(m.movedPiece) && (m.modifier == KingSideCastle || m.modifier == QueenSideCastle) then
      moved[RookCorner(m.modifier, white) := NoPiece][RookTarget(m.modifier, white) := CastlingRook(white)]
    else if m.modifier == EnPassant && m.capturedPiece == EnemyPawn(white) then
      moved[EnPassantVictim(m) := NoPiece]
    else moved
  }

  // ---------------------------------------------------- bits of one step

  /** Each bit of a piece board after `MovePieceBoards`, in terms of the bits before. */
  lemma MovePiecePieceBit(b0: seq<bv64>, from: int, to: int, piece: Byte, placed: Byte, k: int, j: nat)
    requires |b0| == 19 && IsValidSquare(from) && IsValidSquare(to) && j < 64
    requires 1 <= piece <= 12 && 1 <= placed <= 12 && 1 <= k <= 12
    ensures Has(MovePieceBoards(b0, from, to, piece, placed)[k], j) <==>
      (j == to && k == placed) || (Has(b0[k], j) && !(j == from && k == piece))
  {
  }

  /** The colour sets after `MovePieceBoards`: the mover's has both squares flipped, the other loses the target. */
  lemma MovePieceColourBits(b0: seq<bv64>, from: int, to: int, piece: Byte, placed: Byte, j: nat)
    requires |b0| == 19 && IsValidSquare(from) && IsValidSquare(to) && j < 64
    requires 1 <= piece <= 12 && 1 <= placed <= 12
    ensures var r := MovePieceBoards(b0, from, to, piece, placed);
      (Has(r[ColorCategory(piece)], j) <==> Has(b0[ColorCategory(piece)], j) != (j == from || j == to)) &&
      (Has(r[OtherColorCategory(piece)], j) <==> Has(b0[OtherColorCategory(piece)], j) && j != to)
  {
  }

  /** The rotated boards after `MovePieceBoards`: the mover's rotated bit leaves and the target's is set. */
  lemma MovePieceRotatedBits(b0: seq<bv64>, from: int, to: int, piece: Byte, placed: Byte, j: nat)
    requires |b0| == 19 && IsValidSquare(from) && IsValidSquare(to) && j < 64
    requires 1 <= piece <= 12 && 1 <= placed <= 12
    ensures var r := MovePieceBoards(b0, from, to, piece, placed);
      (Has(r[AllRotated90], Rot90(j)) <==> (Has(b0[AllRotated90], Rot90(j)) && j != from) || j == to) &&
      (Has(r[AllRotated45], Rot45(j)) <==> (Has(b0[AllRotated45], Rot45(j)) && j != from) || j == to) &&
      (Has(r[AllRotated135], Rot135(j)) <==> (Has(b0[AllRotated135], Rot135(j)) && j != from) || j == to)
  {
    if j != from { RotatedSquaresDiffer(j, from); }
    if j != to { RotatedSquaresDiffer(j, to); }
  }

  /** Each bit of the boards after `RemovePieceBoards`, in terms of the bits before. */
  lemma RemovePieceBits(b0: seq<bv64>, sq: int, piece: Byte, colorCategory: Byte, j: nat)
    requires |b0| == 19 && IsValidSquare(sq) && j < 64
    requires 1 <= piece <= 12 && (colorCategory == AllWhite || colorCategory == AllBlack)
    ensures var r := RemovePieceBoards(b0, sq, piece, colorCategory);
      (forall k :: 1 <= k <= 12 ==> (Has(r[k], j) <==> Has(b0[k], j) && !(k == piece && j == sq))) &&
      (Has(r[colorCategory], j) <==> Has(b0[colorCategory], j) && j != sq) &&
      (Has(r[AllWhite + AllBlack - colorCategory], j) <==> Has(b0[AllWhite + AllBlack - colorCategory], j)) &&
      (Has(r[AllRotated90], Rot90(j)) <==> Has(b0[AllRotated90], Rot90(j)) && j != sq) &&
      (Has(r[AllRotated45], Rot45(j)) <==> Has(b0[AllRotated45], Rot45(j)) && j != sq) &&
      (Has(r[AllRotated135], Rot135(j)) <==> Has(b0[AllRotated135], Rot135(j)) && j != sq)
  {
    if j != sq { RotatedSquaresDiffer(j, sq); }
  }

  // ------------------------------------------------------- one step each

  /** Square j after `MovePieceSpec`: only the piece that was on the target may be left marked there. */
  lemma MovePieceSquare(occ: seq<Byte>, bb: seq<bv64>, from: int, to: int, piece: Byte, placed: Byte, at: int, j: nat)
    requires ValidOccupants(occ) && |bb| == 19 && IsValidSquare(from) && IsValidSquare(to) && from != to && j < 64
    requires 1 <= piece <= 12 && 1 <= placed <= 12 && IsWhite(placed) == IsWhite(piece) && occ[from] == piece
    requires occ[to] == NoPiece || IsWhite(occ[to]) != IsWhite(piece)
    requires SquareAgrees(occ, bb, j, NoPiece, at)
    ensures SquareAgrees(occ[from := NoPiece][to := placed], MovePieceBoards(bb, from, to, piece, placed), j, occ[to], to)
  {
    forall k | 1 <= k <= 12 {
      MovePiecePieceBit(bb, from, to, piece, placed, k, j);
    }
    MovePieceColourBits(bb, from, to, piece, placed, j);
    MovePieceRotatedBits(bb, from, to, piece, placed, j);
  }

  /** The square keys after `MovePieceSpec`: the hash of the new occupants with the key of whatever stood on the target. */
  lemma MovePieceHash(occ: seq<Byte>, from: int, to: int, piece: Byte, placed: Byte, keys: ZobristKeys)
    requires ValidKeys(keys) && ValidOccupants(occ) && IsValidSquare(from) && IsValidSquare(to) && from != to
    requires IsPieceCode(piece) && IsPieceCode(placed) && occ[from] == piece
    ensures ValidOccupants(occ[from := NoPiece][to := placed])
    ensures Xor(Xor(SquaresHash(occ, 64, keys), Key(keys, from, piece)), Key(keys, to, placed)) ==
      Xor(SquaresHash(occ[from := NoPiece][to := placed], 64, keys), Key(keys, to, occ[to]))
  {
    var s := SquaresHash(occ, 64, keys);
    var kf, kc, kp := Key(keys, from, piece), Key(keys, to, occ[to]), Key(keys, to, placed);
    SquaresHashUpdate(occ, from, NoPiece, keys);
    SquaresHashUpdate(occ[from := NoPiece], to, placed, keys);
    XorZero(kf);
    var a := Xor(s, kf);
    XorAssociates(a, Xor(kc, kp), kc);
    XorCommutes(kc, kp);
    XorCancels(kp, kc);
  }

  /**
   * `MovePieceSpec` on a board whose bitboards agree: afterwards they agree
   * again, except for the piece that stood on the target (if any), which is
   * still marked there in its own board and in the hash.
   */
  lemma MovePieceStep(p: Position, from: int, to: int, piece: Byte, promotionPiece: Byte, keys: ZobristKeys, at: int)
    requires MidMove(p, keys, NoPiece, at)
    requires IsValidSquare(from) && IsValidSquare(to) && from != to
    requires 1 <= piece <= 12 && p.occupant[from] == piece && IsPieceCode(promotionPiece)
    requires promotionPiece != NoPiece ==> IsWhite(promotionPiece) == IsWhite(piece)
    requires p.occupant[to] == NoPiece || IsWhite(p.occupant[to]) != IsWhite(piece)
    ensures MidMove(MovePieceSpec(p, from, to, piece, promotionPiece, keys), keys, p.occupant[to], to)
  {
    var placed := if promotionPiece == NoPiece then piece else promotionPiece;
    var r := MovePieceSpec(p, from, to, piece, promotionPiece, keys);
    forall j: nat | j < 64
      ensures SquareAgrees(r.occupant, r.bitBoard, j, p.occupant[to], to)
    {
      MovePieceSquare(p.occupant, p.bitBoard, from, to, piece, placed, at, j);
    }
    XorZero(SquaresHash(p.occupant, 64, keys));
    MovePieceHash(p.occupant, from, to, piece, placed, keys);
  }

  /** Clearing a captured piece's bit and key from the target square, as `CaptureEffects` does, removes the stale mark. */
  lemma ClearCapturedStep(p: Position, to: int, captured: Byte, keys: ZobristKeys)
    requires MidMove(p, keys, captured, to) && 1 <= captured <= 12 && p.occupant[to] != captured
    ensures MidMove(p.(bitBoard := p.bitBoard[captured := Without(p.bitBoard[captured], to)],
                       hashKey := Xor(p.hashKey, Key(keys, to, captured))), keys, NoPiece, to)
  {
    var bb := p.bitBoard[captured := Without(p.bitBoard[captured], to)];
    forall j: nat | j < 64
      ensures SquareAgrees(p.occupant, bb, j, NoPiece, to)
    {
      assert SquareAgrees(p.occupant, p.bitBoard, j, captured, to);
    }
    var s := SquaresHash(p.occupant, 64, keys);
    XorCancels(s, Key(keys, to, captured));
    XorZero(s);
  }

  /** `RemovePieceSpec` of the piece that stands on the square keeps the boards and the hash in agreement. */
  lemma RemovePieceStep(p: Position, sq: int, piece: Byte, colorCategory: Byte, keys: ZobristKeys, at: int)
    requires MidMove(p, keys, NoPiece, at) && IsValidSquare(sq)
    requires 1 <= piece <= 12 && p.occupant[sq] == piece && colorCategory == ColorCategory(piece)
    ensures MidMove(RemovePieceSpec(p, sq, piece, colorCategory, keys), keys, NoPiece, at)
  {
    var r := RemovePieceSpec(p, sq, piece, colorCategory, keys);
    forall j: nat | j < 64
      ensures SquareAgrees(r.occupant, r.bitBoard, j, NoPiece, at)
    {
      RemovePieceBits(p.bitBoard, sq, piece, colorCategory, j);
      assert SquareAgrees(p.occupant, p.bitBoard, j, NoPiece, at);
    }
    var s := SquaresHash(p.occupant, 64, keys);
    SquaresHashUpdate(p.occupant, sq, NoPiece, keys);
    XorZero(s);
    XorZero(Key(keys, sq, piece));
    XorZero(SquaresHash(r.occupant, 64, keys));
  }

  /** With nothing stale, where the stale mark would be does not matter. */
  lemma NothingStale(p: Position, keys: ZobristKeys, a: int, b: int)
    requires MidMove(p, keys, NoPiece, a) && 0 <= b < 64
    ensures MidMove(p, keys, NoPiece, b)
  {
    forall j: nat | j < 64
      ensures SquareAgrees(p.occupant, p.bitBoard, j, NoPiece, b)
    {
      assert SquareAgrees(p.occupant, p.bitBoard, j, NoPiece, a);
    }
  }

  /** Taking the en-passant and castling keys out of a consistent board's hash leaves the square keys alone. */
  lemma StateKeysOut(p: Position, keys: ZobristKeys)
    requires Consistent(p, keys)
    ensures MidMove(ToggleStateKeys(p, keys), keys, NoPiece, 0)
  {
    var s := SquaresHash(p.occupant, 64, keys);
    var e := GetEPHash(p.enPassantSquare, keys);
    XorZero(Xor(s, e));
    XorCancels(s, e);
    XorZero(Xor(Xor(s, e), e));
    XorZero(s);
  }

  /** Castling's rook move, with the rook on its corner and its target empty, keeps the boards in agreement. */
  lemma CastleStep(p: Position, modifier: MoveModifier, white: bool, keys: ZobristKeys, at: int)
    requires MidMove(p, keys, NoPiece, at)
    requires modifier == KingSideCastle || modifier == QueenSideCastle ==>
      p.occupant[RookCorner(modifier, white)] == CastlingRook(white) &&
      p.occupant[RookTarget(modifier, white)] == NoPiece
    ensures MidMove(CastleEffect(p, modifier, white, keys), keys, NoPiece, at)
  {
    if modifier == KingSideCastle || modifier == QueenSideCastle {
      CastlingRookMoves(p, modifier, white, keys, at);
    }
  }

  lemma CastlingRookMoves(p: Position, modifier: MoveModifier, white: bool, keys: ZobristKeys, at: int)
    requires MidMove(p, keys, NoPiece, at)
    requires modifier == KingSideCastle || modifier == QueenSideCastle
    requires p.occupant[RookCorner(modifier, white)] == CastlingRook(white)
    requires p.occupant[RookTarget(modifier, white)] == NoPiece
    ensures var flagged := p.(castleFlags := SetFlag(p.castleFlags, if white then WhiteHasCastled else BlackHasCastled));
      var castled := MovePieceSpec(flagged, RookCorner(modifier, white), RookTarget(modifier, white), CastlingRook(white), NoPiece, keys);
      CastleEffect(p, modifier, white, keys) == castled && MidMove(castled, keys, NoPiece, at)
  {
    var flagged := p.(castleFlags := SetFlag(p.castleFlags, if white then WhiteHasCastled else BlackHasCastled));
    var corner, target := RookCorner(modifier, white), RookTarget(modifier, white);
    assert MidMove(flagged, keys, NoPiece, at);
    MovePieceStep(flagged, corner, target, CastlingRook(white), NoPiece, keys, at);
    var castled := MovePieceSpec(flagged, corner, target, CastlingRook(white), NoPiece, keys);
    NothingStale(castled, keys, target, at);
  }

  /** The mover's side effects change no occupant but for castling's rook move, which keeps the boards in agreement. */
  lemma MoverStep(p: Position, m: Move, keys: ZobristKeys, stale: Byte)
    requires InBounds(m) && MidMove(p, keys, stale, m.toSquare) && CastlingFits(p, m)
    requires IsKing(m.movedPiece) && (m.modifier == KingSideCastle || m.modifier == QueenSideCastle) ==> stale == NoPiece
    ensures MidMove(MoverEffects(p, m, IsWhite(m.movedPiece), keys), keys, stale, m.toSquare)
  {
    var white := IsWhite(m.movedPiece);
    if m.movedPiece == (if white then WhiteKing else BlackKing) {
      if m.modifier == KingSideCastle || m.modifier == QueenSideCastle {
        CastleStep(p, m.modifier, white, keys, m.toSquare);
      }
      var castled := CastleEffect(p, m.modifier, white, keys);
      assert MidMove(castled, keys, stale, m.toSquare);
    }
  }

  /** The capture step clears the captured piece: off the target, or (en passant) off the square behind it. */
  lemma CaptureStep(p: Position, m: Move, keys: ZobristKeys)
    requires InBounds(m) && WellFormed(p) && ValidKeys(keys)
    requires m.modifier != EnPassant ==>
      MidMove(p, keys, m.capturedPiece, m.toSquare) &&
      (m.capturedPiece != NoPiece ==> p.occupant[m.toSquare] != m.capturedPiece)
    requires m.modifier == EnPassant ==>
      MidMove(p, keys, NoPiece, m.toSquare) &&
      (m.capturedPiece == EnemyPawn(IsWhite(m.movedPiece)) ==> p.occupant[EnPassantVictim(m)] == m.capturedPiece)
    ensures MidMove(CaptureEffects(p, m, IsWhite(m.movedPiece), keys), keys, NoPiece, m.toSquare)
  {
    var white := IsWhite(m.movedPiece);
    var to, captured := m.toSquare, m.capturedPiece;
    var cleared := ClearCaptured(p, m, keys);
    if captured != NoPiece && m.modifier != EnPassant {
      ClearCapturedStep(p, to, captured, keys);
    }
    assert MidMove(cleared, keys, NoPiece, to);
    if m.modifier == EnPassant && captured == EnemyPawn(white) {
      RemovePieceStep(cleared, EnPassantVictim(m), captured, if white then AllBlack else AllWhite, keys, to);
    }
  }

  /** The all-pieces board rebuilt as the union of the colour sets holds exactly the occupied squares. */
  lemma JoinedBoardsAgree(occ: seq<Byte>, bb: seq<bv64>, at: int)
    requires ValidOccupants(occ) && |bb| == 19 && BoardsAgree(occ, bb, NoPiece, at)
    ensures var joined := bb[All := Union(bb[AllWhite], bb[AllBlack])];
      BoardsAgree(occ, joined, NoPiece, 0) &&
      (forall j: nat :: j < 64 ==> (Has(joined[All], j) <==> occ[j] != NoPiece))
  {
    var joined := bb[All := Union(bb[AllWhite], bb[AllBlack])];
    forall j: nat | j < 64
      ensures SquareAgrees(occ, joined, j, NoPiece, 0) && (Has(joined[All], j) <==> occ[j] != NoPiece)
    {
      JoinedSquare(occ, bb, at, j);
    }
  }

  lemma JoinedSquare(occ: seq<Byte>, bb: seq<bv64>, at: int, j: nat)
    requires ValidOccupants(occ) && |bb| == 19 && j < 64 && SquareAgrees(occ, bb, j, NoPiece, at)
    ensures var joined := bb[All := Union(bb[AllWhite], bb[AllBlack])];
      SquareAgrees(occ, joined, j, NoPiece, 0) && (Has(joined[All], j) <==> occ[j] != NoPiece)
  {
    var joined := bb[All := Union(bb[AllWhite], bb[AllBlack])];
    forall k | 1 <= k <= 12
      ensures Has(joined[k], j) <==> occ[j] == k
    {
      assert joined[k] == bb[k];
    }
    assert joined[AllWhite] == bb[AllWhite] && joined[AllBlack] == bb[AllBlack];
    assert joined[AllRotated90] == bb[AllRotated90] && joined[AllRotated45] == bb[AllRotated45];
    assert joined[AllRotated135] == bb[AllRotated135];
  }

  /** The end of the move rebuilds the all-pieces board and puts the state keys back: the board is consistent but for the kings. */
  lemma FinishStep(p: Position, keys: ZobristKeys, at: int)
    requires MidMove(p, keys, NoPiece, at)
    ensures var r := FinishMove(p, keys);
      r.occupant == p.occupant && r.whiteKingSquare == p.whiteKingSquare && r.blackKingSquare == p.blackKingSquare &&
      BoardsAgree(r.occupant, r.bitBoard, NoPiece, 0) &&
      (forall j: nat :: j < 64 ==> (Has(r.bitBoard[All], j) <==> r.occupant[j] != NoPiece)) &&
      r.hashKey == HashOf(r.occupant, r.enPassantSquare, r.castleFlags, keys)
  {
    JoinedBoardsAgree(p.occupant, p.bitBoard, at);
    XorZero(SquaresHash(p.occupant, 64, keys));
  }

  // ---------------------------------------------------------- the whole move

  /** The squares and king squares after the mover's side effects: only castling moves a piece (the rook). */
  lemma MoverEffectsFrame(p: Position, m: Move, keys: ZobristKeys)
    requires WellFormed(p) && ValidKeys(keys) && InBounds(m)
    ensures var white := IsWhite(m.movedPiece);
      var r := MoverEffects(p, m, white, keys);
      r.occupant ==
        (if IsKing(m.movedPiece) && (m.modifier == KingSideCastle || m.modifier == QueenSideCastle)
         then p.occupant[RookCorner(m.modifier, white) := NoPiece][RookTarget(m.modifier, white) := CastlingRook(white)]
         else p.occupant) &&
      r.whiteKingSquare == (if m.movedPiece == WhiteKing then m.toSquare else p.whiteKingSquare) &&
      r.blackKingSquare == (if m.movedPiece == BlackKing then m.toSquare else p.blackKingSquare) &&
      r.side == p.side
  {
  }

  /** The squares after the capture step: only an en-passant capture empties a square (the victim's). */
  lemma CaptureEffectsFrame(p: Position, m: Move, keys: ZobristKeys)
    requires WellFormed(p) && ValidKeys(keys) && InBounds(m)
    ensures var white := IsWhite(m.movedPiece);
      var r := CaptureEffects(p, m, white, keys);
      r.occupant ==
        (if m.modifier == EnPassant && m.capturedPiece == EnemyPawn(white) then p.occupant[EnPassantVictim(m) := NoPiece]
         else p.occupant) &&
      r.whiteKingSquare == p.whiteKingSquare && r.blackKingSquare == p.blackKingSquare &&
      r.side == p.side && r.enPassantSquare == p.enPassantSquare
  {
  }

  /** The end of a move changes no square, king square, en-passant square or flag; it hands the move over and sets the stage. */
  lemma FinishMoveFrame(p: Position, keys: ZobristKeys)
    requires WellFormed(p) && ValidKeys(keys)
    ensures var r := FinishMove(p, keys);
      r.occupant == p.occupant && r.whiteKingSquare == p.whiteKingSquare && r.blackKingSquare == p.blackKingSquare &&
      r.enPassantSquare == p.enPassantSquare && r.castleFlags == p.castleFlags &&
      r.side == OtherSide(p.side) && r.gameStage == StageOf(r.pawnCount, r.pieceCount)
  {
  }

  /** What the squares hold after `MadeMove` is `MovedOccupants`; the king square of a moved king follows it. */
  lemma MadeMoveOccupants(p: Position, m: Move, keys: ZobristKeys)
    requires WellFormed(p) && ValidKeys(keys) && InBounds(m)
    ensures var r := MadeMove(p, m, keys);
      r.occupant == MovedOccupants(p.occupant, m) &&
      r.whiteKingSquare == (if m.movedPiece == WhiteKing then m.toSquare else p.whiteKingSquare) &&
      r.blackKingSquare == (if m.movedPiece == BlackKing then m.toSquare else p.blackKingSquare)
  {
    var white := IsWhite(m.movedPiece);
    var p1 := ToggleStateKeys(p, keys);
    var p2 := MovePieceSpec(p1, m.fromSquare, m.toSquare, m.movedPiece, m.promotionPiece, keys);
    var p3 := p2.(enPassantSquare := SquareNone);
    MoverEffectsFrame(p3, m, keys);
    var p4 := MoverEffects(p3, m, white, keys);
    CaptureEffectsFrame(p4, m, keys);
    var p5 := CaptureEffects(p4, m, white, keys);
    FinishMoveFrame(p5, keys);
  }

  /** A king stays on its square through a playable move of another piece, and lands on the target when it is the one moved. */
  lemma KingStays(p: Position, m: Move, king: Byte, sq: int)
    requires WellFormed(p) && Playable(p, m) && IsKing(king) && 0 <= sq < 64 && p.occupant[sq] == king
    ensures MovedOccupants(p.occupant, m)[if m.movedPiece == king then m.toSquare else sq] == king
  {
    var white := IsWhite(m.movedPiece);
    var to := m.toSquare;
    var placed := if m.promotionPiece == NoPiece then m.movedPiece else m.promotionPiece;
    var moved := p.occupant[m.fromSquare := NoPiece][to := placed];
    var castling := IsKing(m.movedPiece) && (m.modifier == KingSideCastle || m.modifier == QueenSideCastle);
    var enPassant := m.modifier == EnPassant && m.capturedPiece == EnemyPawn(white);
    assert m.capturedPiece != NoPiece ==> !IsKing(m.capturedPiece);
    if m.movedPiece == king {
      assert placed == king && moved[to] == king;
      if castling {
        assert to != RookCorner(m.modifier, white);
      }
      if enPassant {
        assert EnPassantVictim(m) != to;
      }
    } else {
      assert sq != m.fromSquare && sq != to;
      assert moved[sq] == king;
      if castling {
        assert sq != RookCorner(m.modifier, white) && sq != RookTarget(m.modifier, white);
      }
      if enPassant {
        assert sq != EnPassantVictim(m);
      }
    }
  }

  /** After a playable move each side's king square still holds that side's king. */
  lemma KingsStayOnTheirSquares(p: Position, m: Move, keys: ZobristKeys)
    requires Consistent(p, keys) && Playable(p, m)
    ensures var r := MadeMove(p, m, keys);
      r.occupant[r.whiteKingSquare] == WhiteKing && r.occupant[r.blackKingSquare] == BlackKing
  {
    MadeMoveOccupants(p, m, keys);
    KingStays(p, m, WhiteKing, p.whiteKingSquare);
    KingStays(p, m, BlackKing, p.blackKingSquare);
  }

  /** The first steps of a playable move, up to the capture: the mover's piece placed, its side effects made, the stale capture marked on the target. */
  lemma MoverPlaced(p: Position, m: Move, keys: ZobristKeys)
    requires Consistent(p, keys) && Playable(p, m)
    ensures var p1 := ToggleStateKeys(p, keys);
      var p2 := MovePieceSpec(p1, m.fromSquare, m.toSquare, m.movedPiece, m.promotionPiece, keys);
      var p4 := MoverEffects(p2.(enPassantSquare := SquareNone), m, IsWhite(m.movedPiece), keys);
      MidMove(p4, keys, p.occupant[m.toSquare], m.toSquare)
  {
    var white := IsWhite(m.movedPiece);
    var from, to := m.fromSquare, m.toSquare;
    var p1 := ToggleStateKeys(p, keys);
    StateKeysOut(p, keys);
    assert p.occupant[to] != NoPiece ==> GetSide(p.occupant[to]) != GetSide(m.movedPiece);
    MovePieceStep(p1, from, to, m.movedPiece, m.promotionPiece, keys, 0);
    var p2 := MovePieceSpec(p1, from, to, m.movedPiece, m.promotionPiece, keys);
    var p3 := p2.(enPassantSquare := SquareNone);
    assert CastlingFits(p3, m);
    MoverStep(p3, m, keys, p.occupant[to]);
  }

  /** What the squares hold after the first steps of a playable move. */
  lemma MoverPlacedOccupants(p: Position, m: Move, keys: ZobristKeys)
    requires Consistent(p, keys) && Playable(p, m)
    ensures var p1 := ToggleStateKeys(p, keys);
      var p2 := MovePieceSpec(p1, m.fromSquare, m.toSquare, m.movedPiece, m.promotionPiece, keys);
      var p4 := MoverEffects(p2.(enPassantSquare := SquareNone), m, IsWhite(m.movedPiece), keys);
      p4.occupant[m.toSquare] == (if m.promotionPiece == NoPiece then m.movedPiece else m.promotionPiece) &&
      (m.modifier == EnPassant ==> p4.occupant == p.occupant[m.fromSquare := NoPiece][m.toSquare := p4.occupant[m.toSquare]])
  {
    var p1 := ToggleStateKeys(p, keys);
    var p2 := MovePieceSpec(p1, m.fromSquare, m.toSquare, m.movedPiece, m.promotionPiece, keys);
    var p3 := p2.(enPassantSquare := SquareNone);
    MoverEffectsFrame(p3, m, keys);
    var white := IsWhite(m.movedPiece);
    if IsKing(m.movedPiece) && (m.modifier == KingSideCastle || m.modifier == QueenSideCastle) {
      assert m.toSquare != RookCorner(m.modifier, white);
    }
  }

  /**
   * Making a move that fits the board keeps the board consistent: the
   * bitboards, the king squares and the hash describe the new occupants.
   */
  lemma MakeMoveKeepsConsistency(p: Position, m: Move, keys: ZobristKeys)
    requires Consistent(p, keys) && Playable(p, m)
    ensures Consistent(MadeMove(p, m, keys), keys)
  {
    var white := IsWhite(m.movedPiece);
    var p1 := ToggleStateKeys(p, keys);
    var p2 := MovePieceSpec(p1, m.fromSquare, m.toSquare, m.movedPiece, m.promotionPiece, keys);
    var p4 := MoverEffects(p2.(enPassantSquare := SquareNone), m, white, keys);
    MoverPlaced(p, m, keys);
    MoverPlacedOccupants(p, m, keys);
    if m.modifier == EnPassant && m.capturedPiece == EnemyPawn(white) {
      assert EnPassantVictim(m) != m.fromSquare && EnPassantVictim(m) != m.toSquare;
    }
    CaptureStep(p4, m, keys);
    var p5 := CaptureEffects(p4, m, white, keys);
    FinishStep(p5, keys, m.toSquare);
    FinishMoveFrame(p5, keys);
    KingsStayOnTheirSquares(p, m, keys);
  }

  // ------------------------------------------------------------ castling flags

  const HasCastledFlags: bv8 := WhiteHasCastled | BlackHasCastled

  /** A move never grants a castling right and never forgets that a side has castled. */
  predicate FlagsFollow(before: bv8, after: bv8)
  {
    after & AllCastlingAvailable & !before == 0 && before & HasCastledFlags & !after == 0
  }

  lemma FlagsFollowTransitive(a: bv8, b: bv8, c: bv8)
    requires FlagsFollow(a, b) && FlagsFollow(b, c)
    ensures FlagsFollow(a, c)
  {
  }

  function KingSideRight(white: bool): bv8 { if white then WhiteCanCastleKingSide else BlackCanCastleKingSide }
  function QueenSideRight(white: bool): bv8 { if white then WhiteCanCastleQueenSide else BlackCanCastleQueenSide }
  function HasCastledFlag(white: bool): bv8 { if white then WhiteHasCastled else BlackHasCastled }

  /**
   * The flags after the mover's side effects: a king move drops both rights
   * of its side (and castling records that the side has castled); a rook
   * leaving h1 or a1 (h8 or a8) drops the right of that corner.
   */
  lemma MoverFlags(p: Position, m: Move, keys: ZobristKeys)
    requires WellFormed(p) && ValidKeys(keys) && InBounds(m)
    ensures var white := IsWhite(m.movedPiece);
      var f := MoverEffects(p, m, white, keys).castleFlags;
      FlagsFollow(p.castleFlags, f) &&
      (m.movedPiece == (if white then WhiteKing else BlackKing) ==>
         f & KingSideRight(white) == 0 && f & QueenSideRight(white) == 0) &&
      (m.movedPiece == (if white then WhiteKing else BlackKing) && m.modifier in {KingSideCastle, QueenSideCastle} ==>
         f & HasCastledFlag(white) != 0) &&
      (m.movedPiece == CastlingRook(white) && m.fromSquare == RookCorner(KingSideCastle, white) ==> f & KingSideRight(white) == 0) &&
      (m.movedPiece == CastlingRook(white) && m.fromSquare == RookCorner(QueenSideCastle, white) ==> f & QueenSideRight(white) == 0)
  {
    var white := IsWhite(m.movedPiece);
    var flags := p.castleFlags;
    var f := MoverCastleFlags(flags, m, white);
    if m.movedPiece == (if white then WhiteRook else BlackRook) {
      FlagLaws(flags, KingSideRight(white));
      FlagLaws(flags, QueenSideRight(white));
    } else if m.movedPiece == (if white then WhiteKing else BlackKing) {
      FlagLaws(flags, HasCastledFlag(white));
      var castled := if m.modifier == KingSideCastle || m.modifier == QueenSideCastle
                     then SetFlag(flags, HasCastledFlag(white)) else flags;
      FlagLaws(castled, KingSideRight(white) | QueenSideRight(white));
    }
  }

  /** The flags after the capture step: a rook taken on its corner takes that corner's right with it. */
  lemma CaptureFlags(p: Position, m: Move, keys: ZobristKeys)
    requires WellFormed(p) && ValidKeys(keys) && InBounds(m)
    ensures var white := IsWhite(m.movedPiece);
      var f := CaptureEffects(p, m, white, keys).castleFlags;
      FlagsFollow(p.castleFlags, f) &&
      (f & KingSideRight(white) == 0 ==> p.castleFlags & KingSideRight(white) == 0) &&
      (f & QueenSideRight(white) == 0 ==> p.castleFlags & QueenSideRight(white) == 0) &&
      (m.capturedPiece == CastlingRook(!white) && m.toSquare == RookCorner(KingSideCastle, !white) ==> f & KingSideRight(!white) == 0) &&
      (m.capturedPiece == CastlingRook(!white) && m.toSquare == RookCorner(QueenSideCastle, !white) ==> f & QueenSideRight(!white) == 0)
  {
    var white := IsWhite(m.movedPiece);
    var flags := p.castleFlags;
    var f := RookCaptureFlags(flags, m, white);
    var kingSide, queenSide := KingSideRight(!white), QueenSideRight(!white);
    FlagLaws(flags, kingSide);
    FlagLaws(flags, queenSide);
    if m.capturedPiece == CastlingRook(!white) && m.toSquare == RookCorner(KingSideCastle, !white) && HasFlag(flags, kingSide) {
      assert f == ClearFlag(flags, kingSide);
      ClearedRightFollows(flags, kingSide, KingSideRight(white));
      ClearedRightFollows(flags, kingSide, QueenSideRight(white));
    } else if m.capturedPiece == CastlingRook(!white) && m.toSquare == RookCorner(QueenSideCastle, !white) && HasFlag(flags, queenSide) {
      assert f == ClearFlag(flags, queenSide);
      ClearedRightFollows(flags, queenSide, KingSideRight(white));
      ClearedRightFollows(flags, queenSide, QueenSideRight(white));
    } else {
      assert f == flags;
      FlagsFollowReflexive(flags);
    }
  }

  /** Clearing one castling right follows the flags, and leaves every other flag as it was. */
  lemma ClearedRightFollows(flags: bv8, right: bv8, other: bv8)
    requires right == WhiteCanCastleKingSide || right == WhiteCanCastleQueenSide ||
             right == BlackCanCastleKingSide || right == BlackCanCastleQueenSide
    requires other & right == 0
    ensures FlagsFollow(flags, flags & !right)
    ensures (flags & !right) & other == flags & other
  {
  }

  lemma FlagsFollowReflexive(flags: bv8)
    ensures FlagsFollow(flags, flags)
  {
  }

  /**
   * The castling flags after a move: no right is gained and no castling
   * forgotten; a king move drops both rights of its side and castling
   * records that the side has castled; a rook leaving its corner, or taken
   * on its corner, drops that corner's right.
   */
  lemma MadeMoveFlags(p: Position, m: Move, keys: ZobristKeys)
    requires WellFormed(p) && ValidKeys(keys) && InBounds(m)
    ensures var white := IsWhite(m.movedPiece);
      var f := MadeMove(p, m, keys).castleFlags;
      FlagsFollow(p.castleFlags, f) &&
      (m.movedPiece == (if white then WhiteKing else BlackKing) ==>
         f & KingSideRight(white) == 0 && f & QueenSideRight(white) == 0) &&
      (m.movedPiece == (if white then WhiteKing else BlackKing) && m.modifier in {KingSideCastle, QueenSideCastle} ==>
         f & HasCastledFlag(white) != 0) &&
      (m.movedPiece == CastlingRook(white) && m.fromSquare == RookCorner(KingSideCastle, white) ==> f & KingSideRight(white) == 0) &&
      (m.movedPiece == CastlingRook(white) && m.fromSquare == RookCorner(QueenSideCastle, white) ==> f & QueenSideRight(white) == 0) &&
      (m.capturedPiece == CastlingRook(!white) && m.toSquare == RookCorner(KingSideCastle, !white) ==> f & KingSideRight(!white) == 0) &&
      (m.capturedPiece == CastlingRook(!white) && m.toSquare == RookCorner(QueenSideCastle, !white) ==> f & QueenSideRight(!white) == 0)
  {
    var white := IsWhite(m.movedPiece);
    var p1 := ToggleStateKeys(p, keys);
    var p2 := MovePieceSpec(p1, m.fromSquare, m.toSquare, m.movedPiece, m.promotionPiece, keys);
    var p3 := p2.(enPassantSquare := SquareNone);
    MoverFlags(p3, m, keys);
    var p4 := MoverEffects(p3, m, white, keys);
    CaptureFlags(p4, m, keys);
    var p5 := CaptureEffects(p4, m, white, keys);
    FlagsFollowTransitive(p3.castleFlags, p4.castleFlags, p5.castleFlags);
    FinishMoveFrame(p5, keys);
  }

  /**
   * A pawn's two-square push past which an enemy pawn stands beside the
   * target: the moves after which an en-passant capture is possible.
   */
  predicate OpensEnPassant(occ: seq<Byte>, m: Move)
    requires |occ| == 64 && InBounds(m)
  {
    var white := IsWhite(m.movedPiece);
    var to := m.toSquare;
    m.movedPiece == (if white then WhitePawn else BlackPawn) &&
    (if white then to - m.fromSquare == 16 && to < H8 else m.fromSquare - to == 16 && to > A1) &&
    ((BoardTables.File(to) > 0 && occ[to - 1] == EnemyPawn(white)) ||
     (BoardTables.File(to) < 7 && occ[to + 1] == EnemyPawn(white)))
  }

  /** The en-passant square after the mover's side effects. */
  lemma MoverEnPassant(p: Position, m: Move, keys: ZobristKeys)
    requires WellFormed(p) && ValidKeys(keys) && InBounds(m)
    ensures MoverEffects(p, m, IsWhite(m.movedPiece), keys).enPassantSquare ==
      if OpensEnPassant(p.occupant, m) then (m.fromSquare + m.toSquare) / 2 else p.enPassantSquare
  {
  }

  /** Moving the pawn does not change the squares beside its target. */
  lemma NeighboursUnchanged(occ: seq<Byte>, m: Move, placed: Byte)
    requires ValidOccupants(occ) && InBounds(m) && IsPieceCode(placed)
    ensures OpensEnPassant(occ[m.fromSquare := NoPiece][m.toSquare := placed], m) == OpensEnPassant(occ, m)
  {
  }

  /** After a move the en-passant square is the square the pawn skipped if the move opens en passant, and none otherwise. */
  lemma MadeMoveEnPassant(p: Position, m: Move, keys: ZobristKeys)
    requires WellFormed(p) && ValidKeys(keys) && InBounds(m)
    ensures var ep := MadeMove(p, m, keys).enPassantSquare;
      (ep != SquareNone <==> OpensEnPassant(p.occupant, m)) &&
      (ep != SquareNone ==> ep == (m.fromSquare + m.toSquare) / 2)
  {
    var white := IsWhite(m.movedPiece);
    var p1 := ToggleStateKeys(p, keys);
    var p2 := MovePieceSpec(p1, m.fromSquare, m.toSquare, m.movedPiece, m.promotionPiece, keys);
    var p3 := p2.(enPassantSquare := SquareNone);
    NeighboursUnchanged(p.occupant, m, if m.promotionPiece == NoPiece then m.movedPiece else m.promotionPiece);
    MoverEnPassant(p3, m, keys);
    var p4 := MoverEffects(p3, m, white, keys);
    CaptureEffectsFrame(p4, m, keys);
    var p5 := CaptureEffects(p4, m, white, keys);
    FinishMoveFrame(p5, keys);
  }

  /** After a move the other side is to move, and the stage is the one its piece counts call for. */
  lemma MadeMoveSide(p: Position, m: Move, keys: ZobristKeys)
    requires WellFormed(p) && ValidKeys(keys) && InBounds(m)
    ensures var r := MadeMove(p, m, keys);
      r.side == OtherSide(p.side) && r.gameStage == StageOf(r.pawnCount, r.pieceCount)
  {
    var white := IsWhite(m.movedPiece);
    var p1 := ToggleStateKeys(p, keys);
    var p2 := MovePieceSpec(p1, m.fromSquare, m.toSquare, m.movedPiece, m.promotionPiece, keys);
    var p3 := p2.(enPassantSquare := SquareNone);
    MoverEffectsFrame(p3, m, keys);
    var p4 := MoverEffects(p3, m, white, keys);
    CaptureEffectsFrame(p4, m, keys);
    var p5 := CaptureEffects(p4, m, white, keys);
    FinishMoveFrame(p5, keys);
  }
}
