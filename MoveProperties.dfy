/**
 * What the generated moves are. Each generator is matched against a
 * square-by-square description, in both directions: a move of a
 * knight, bishop, rook, queen or king goes from a square of its pieces
 * to a target that its table gives and the capture or quiet mask keeps,
 * recording what stands there; castling is offered exactly under its
 * conditions. The pawn moves are described in `PawnProperties`, the
 * check escapes in `EscapeProperties`.
 */
module MoveProperties {
  import opened Globals
  import opened BitOperations
  import opened Moves
  import opened Positions
  import BoardTables
  import opened MoveGeneration

  // ----------------------------------------------------- emitting squares

  lemma {:induction false} EmitAllSource(p: Position, e: Emitter, tos: seq<nat>, m: Move) returns (sq: nat)
    requires WellFormed(p) && AllOnBoard(tos) && m in EmitAll(p, e, tos)
    ensures sq in tos && sq < 64 && m in EmitAt(p, e, sq)
    decreases |tos|
  {
    if m in EmitAt(p, e, tos[0]) {
      sq := tos[0];
    } else {
      sq := EmitAllSource(p, e, tos[1..], m);
    }
  }

  lemma {:induction false} EmitAllComplete(p: Position, e: Emitter, tos: seq<nat>, sq: nat, m: Move)
    requires WellFormed(p) && AllOnBoard(tos) && sq in tos && sq < 64 && m in EmitAt(p, e, sq)
    ensures m in EmitAll(p, e, tos)
    decreases |tos|
  {
    if tos[0] != sq {
      EmitAllComplete(p, e, tos[1..], sq, m);
    }
  }

  /** Every emitted move comes from a square of the map. */
  lemma EmittedSource(p: Position, e: Emitter, bits: bv64, m: Move) returns (sq: nat)
    requires WellFormed(p) && m in Emitted(p, e, bits)
    ensures sq < 64 && Has(bits, sq) && m in EmitAt(p, e, sq)
  {
    SquaresOnBoard(bits);
    SquaresMeaning(bits);
    sq := EmitAllSource(p, e, Squares(bits), m);
  }

  /** Every square of the map gives its moves. */
  lemma EmittedComplete(p: Position, e: Emitter, bits: bv64, sq: nat, m: Move)
    requires WellFormed(p) && sq < 64 && Has(bits, sq) && m in EmitAt(p, e, sq)
    ensures m in Emitted(p, e, bits)
  {
    SquaresOnBoard(bits);
    SquaresMeaning(bits);
    EmitAllComplete(p, e, Squares(bits), sq, m);
  }

  // ---------------------------------------------------------- piece moves

  /** A move of the targets loop from `from`: to a square of `bits`, as `TargetMove` builds it. */
  predicate IsTargetIn(p: Position, from: nat, piece: Byte, capture: bool, bits: bv64, m: Move)
    requires WellFormed(p)
  {
    m.fromSquare == from && 0 <= m.toSquare < 64 && Has(bits, m.toSquare) &&
    m == TargetMove(p, from, piece, capture, m.toSquare)
  }

  /** The moves of one from-square: one to each square of its bitboard of targets. */
  lemma EmittedTargets(p: Position, from: nat, piece: Byte, capture: bool, bits: bv64, m: Move)
    requires WellFormed(p)
    ensures m in Emitted(p, Targets(from, piece, capture), bits) <==> IsTargetIn(p, from, piece, capture, bits, m)
  {
    if m in Emitted(p, Targets(from, piece, capture), bits) {
      var sq := EmittedSource(p, Targets(from, piece, capture), bits, m);
    } else if IsTargetIn(p, from, piece, capture, bits, m) {
      var to: nat := m.toSquare;
      TargetMoveEmitted(p, from, piece, capture, to);
      EmittedComplete(p, Targets(from, piece, capture), bits, to, m);
    }
  }

  lemma TargetMoveEmitted(p: Position, from: int, piece: Byte, capture: bool, to: nat)
    requires WellFormed(p) && to < 64
    ensures TargetMove(p, from, piece, capture, to) in EmitAt(p, Targets(from, piece, capture), to)
  {
  }

  /** A move of the loop over the from-squares, square by square. */
  predicate IsTargetAt(p: Position, capture: bool, pieces: seq<Byte>, targets: seq<bv64>, m: Move)
    requires WellFormed(p) && |pieces| == 64 && |targets| == 64
  {
    0 <= m.fromSquare < 64 && IsTargetIn(p, m.fromSquare, pieces[m.fromSquare], capture, targets[m.fromSquare], m)
  }

  /** The loop over the from-squares gives exactly the moves of `IsTargetAt` from those squares. */
  lemma TargetsFromAllMembers(p: Position, capture: bool, froms: seq<nat>, pieces: seq<Byte>, targets: seq<bv64>, m: Move)
    requires WellFormed(p) && AllOnBoard(froms) && |pieces| == 64 && |targets| == 64
    ensures m in TargetsFromAll(p, capture, froms, pieces, targets) <==>
      m.fromSquare in froms && IsTargetAt(p, capture, pieces, targets, m)
  {
    if m in TargetsFromAll(p, capture, froms, pieces, targets) {
      TargetsFromAllSource(p, capture, froms, pieces, targets, m);
    } else if m.fromSquare in froms && IsTargetAt(p, capture, pieces, targets, m) {
      TargetsFromAllComplete(p, capture, froms, pieces, targets, m);
    }
  }

  lemma {:induction false} TargetsFromAllSource(p: Position, capture: bool, froms: seq<nat>, pieces: seq<Byte>, targets: seq<bv64>, m: Move)
    requires WellFormed(p) && AllOnBoard(froms) && |pieces| == 64 && |targets| == 64
    requires m in TargetsFromAll(p, capture, froms, pieces, targets)
    ensures m.fromSquare in froms && IsTargetAt(p, capture, pieces, targets, m)
    decreases |froms|
  {
    var from := froms[0];
    EmittedTargets(p, from, pieces[from], capture, targets[from], m);
    if m !in Emitted(p, Targets(from, pieces[from], capture), targets[from]) {
      TargetsFromAllSource(p, capture, froms[1..], pieces, targets, m);
    }
  }

  lemma {:induction false} TargetsFromAllComplete(p: Position, capture: bool, froms: seq<nat>, pieces: seq<Byte>, targets: seq<bv64>, m: Move)
    requires WellFormed(p) && AllOnBoard(froms) && |pieces| == 64 && |targets| == 64
    requires m.fromSquare in froms && IsTargetAt(p, capture, pieces, targets, m)
    ensures m in TargetsFromAll(p, capture, froms, pieces, targets)
    decreases |froms|
  {
    if m.fromSquare == froms[0] {
      InFirstSquare(p, capture, froms, pieces, targets, m);
    } else {
      InTail(froms, m.fromSquare);
      TargetsFromAllComplete(p, capture, froms[1..], pieces, targets, m);
      InLaterSquare(p, capture, froms, pieces, targets, m);
    }
  }

  lemma InFirstSquare(p: Position, capture: bool, froms: seq<nat>, pieces: seq<Byte>, targets: seq<bv64>, m: Move)
    requires WellFormed(p) && AllOnBoard(froms) && |pieces| == 64 && |targets| == 64
    requires froms != [] && m.fromSquare == froms[0] && IsTargetAt(p, capture, pieces, targets, m)
    ensures m in TargetsFromAll(p, capture, froms, pieces, targets)
  {
    var from := froms[0];
    TargetsFromAllStep(p, capture, froms, pieces, targets);
    InAppend(Emitted(p, Targets(from, pieces[from], capture), targets[from]), TargetsFromAll(p, capture, froms[1..], pieces, targets), m);
    EmittedTargets(p, from, pieces[from], capture, targets[from], m);
  }

  lemma InLaterSquare(p: Position, capture: bool, froms: seq<nat>, pieces: seq<Byte>, targets: seq<bv64>, m: Move)
    requires WellFormed(p) && AllOnBoard(froms) && |pieces| == 64 && |targets| == 64
    requires froms != [] && m in TargetsFromAll(p, capture, froms[1..], pieces, targets)
    ensures m in TargetsFromAll(p, capture, froms, pieces, targets)
  {
    var from := froms[0];
    TargetsFromAllStep(p, capture, froms, pieces, targets);
    InAppend(Emitted(p, Targets(from, pieces[from], capture), targets[from]), TargetsFromAll(p, capture, froms[1..], pieces, targets), m);
  }

  lemma InTail<T>(s: seq<T>, x: T)
    requires x in s && x != s[0]
    ensures x in s[1..]
  {
    assert s == [s[0]] + s[1..];
  }

  lemma TargetsFromAllStep(p: Position, capture: bool, froms: seq<nat>, pieces: seq<Byte>, targets: seq<bv64>)
    requires WellFormed(p) && AllOnBoard(froms) && |pieces| == 64 && |targets| == 64 && froms != []
    ensures TargetsFromAll(p, capture, froms, pieces, targets) ==
      Emitted(p, Targets(froms[0], pieces[froms[0]], capture), targets[froms[0]]) + TargetsFromAll(p, capture, froms[1..], pieces, targets)
  {
  }

  lemma InAppend<T>(a: seq<T>, b: seq<T>, x: T)
    ensures x in a + b <==> x in a || x in b
  {
  }

  /**
   * A move of the knight, bishop-queen or rook-queen generator, field by
   * field: it leaves a square of those pieces for a square the piece
   * reaches that holds an enemy piece (a capture, which records it) or
   * nothing (a quiet move); it records the moved piece as the generator
   * does and has no modifier and no promotion.
   */
  predicate IsPieceMove(p: Position, mover: Mover, white: bool, capture: bool, m: Move)
    requires WellFormed(p)
  {
    var from := m.fromSquare;
    0 <= from < 64 && Has(MoverFroms(p, mover, white), from) &&
    IsKeptTarget(p, white, capture, MoverPiece(p, mover, white, from), MoverTargets(p, mover, from), m)
  }

  /** The target of a capture holds an enemy piece, which the move records; that of a quiet move is empty. */
  predicate IsTargetSquare(p: Position, white: bool, capture: bool, m: Move)
    requires WellFormed(p) && 0 <= m.toSquare < 64
  {
    if capture then Has(EnemySet(p, white), m.toSquare) && m.capturedPiece == p.occupant[m.toSquare]
    else !Has(p.bitBoard[All], m.toSquare) && m.capturedPiece == NoPiece
  }

  /** `TargetMove` field by field. */
  lemma TargetMoveFields(p: Position, from: nat, piece: Byte, capture: bool, m: Move)
    requires WellFormed(p) && 0 <= m.toSquare < 64 && m.fromSquare == from
    ensures m == TargetMove(p, from, piece, capture, m.toSquare) <==>
      m.movedPiece == piece && m.modifier == NoModifier && m.promotionPiece == NoPiece &&
      m.capturedPiece == (if capture then p.occupant[m.toSquare] else NoPiece)
  {
  }

  /** A square is a target of the mask exactly when it holds an enemy piece (captures) or nothing (quiet moves). */
  lemma TargetMaskMeaning(p: Position, white: bool, capture: bool, j: nat)
    requires WellFormed(p) && j < 64
    ensures Has(TargetMask(p, white, capture), j) <==>
      if capture then Has(EnemySet(p, white), j) else !Has(p.bitBoard[All], j)
  {
    if !capture {
      HasNot(p.bitBoard[All], j);
    }
  }

  /** The knight, bishop-queen and rook-queen generators give exactly the moves `IsPieceMove` describes. */
  lemma PieceMovesMembers(p: Position, mover: Mover, white: bool, capture: bool, m: Move)
    requires WellFormed(p)
    ensures m in PieceMoves(p, mover, white, capture) <==> IsPieceMove(p, mover, white, capture, m)
  {
    var froms := MoverFroms(p, mover, white);
    SquaresOnBoard(froms);
    TargetsFromAllMembers(p, capture, Squares(froms), MoverPieces(p, mover, white), MoverReaches(p, mover, white, capture), m);
    PieceTargetMeaning(p, mover, white, capture, m);
  }

  lemma PieceTargetMeaning(p: Position, mover: Mover, white: bool, capture: bool, m: Move)
    requires WellFormed(p)
    ensures m.fromSquare in Squares(MoverFroms(p, mover, white)) &&
            IsTargetAt(p, capture, MoverPieces(p, mover, white), MoverReaches(p, mover, white, capture), m) <==>
            IsPieceMove(p, mover, white, capture, m)
  {
    SquaresMeaning(MoverFroms(p, mover, white));
    if 0 <= m.fromSquare < 64 {
      PieceTargetAt(p, mover, white, capture, m);
    }
  }

  lemma PieceTargetAt(p: Position, mover: Mover, white: bool, capture: bool, m: Move)
    requires WellFormed(p) && 0 <= m.fromSquare < 64
    ensures IsTargetAt(p, capture, MoverPieces(p, mover, white), MoverReaches(p, mover, white, capture), m) <==>
            IsKeptTarget(p, white, capture, MoverPiece(p, mover, white, m.fromSquare), MoverTargets(p, mover, m.fromSquare), m)
  {
    var from: nat := m.fromSquare;
    TargetAtMeaning(p, white, capture, MoverPieces(p, mover, white), MoverReaches(p, mover, white, capture),
                    MoverPiece(p, mover, white, from), MoverTargets(p, mover, from), m);
  }

  lemma TargetAtMeaning(p: Position, white: bool, capture: bool, pieces: seq<Byte>, targets: seq<bv64>, piece: Byte, reach: bv64, m: Move)
    requires WellFormed(p) && |pieces| == 64 && |targets| == 64 && 0 <= m.fromSquare < 64
    requires pieces[m.fromSquare] == piece && targets[m.fromSquare] == reach & TargetMask(p, white, capture)
    ensures IsTargetAt(p, capture, pieces, targets, m) <==> IsKeptTarget(p, white, capture, piece, reach, m)
  {
    TargetInMeaning(p, white, capture, m.fromSquare, piece, reach, m);
  }

  /** A move of the targets loop to a square that a mask keeps, field by field. */
  lemma TargetInMeaning(p: Position, white: bool, capture: bool, from: nat, piece: Byte, reach: bv64, m: Move)
    requires WellFormed(p) && from < 64 && m.fromSquare == from
    ensures IsTargetIn(p, from, piece, capture, reach & TargetMask(p, white, capture), m) <==>
      IsKeptTarget(p, white, capture, piece, reach, m)
  {
    if IsTargetIn(p, from, piece, capture, reach & TargetMask(p, white, capture), m) {
      TargetInSource(p, white, capture, from, piece, reach, m);
    } else if IsKeptTarget(p, white, capture, piece, reach, m) {
      TargetInComplete(p, white, capture, from, piece, reach, m);
    }
  }

  predicate IsKeptTarget(p: Position, white: bool, capture: bool, piece: Byte, reach: bv64, m: Move)
    requires WellFormed(p)
  {
    0 <= m.toSquare < 64 && Has(reach, m.toSquare) && IsTargetSquare(p, white, capture, m) &&
    m.movedPiece == piece && m.modifier == NoModifier && m.promotionPiece == NoPiece
  }

  lemma TargetInSource(p: Position, white: bool, capture: bool, from: nat, piece: Byte, reach: bv64, m: Move)
    requires WellFormed(p) && from < 64 && m.fromSquare == from
    requires IsTargetIn(p, from, piece, capture, reach & TargetMask(p, white, capture), m)
    ensures IsKeptTarget(p, white, capture, piece, reach, m)
  {
    var to: nat := m.toSquare;
    HasAnd(reach, TargetMask(p, white, capture), to);
    TargetMaskMeaning(p, white, capture, to);
    TargetMoveFields(p, from, piece, capture, m);
  }

  lemma TargetInComplete(p: Position, white: bool, capture: bool, from: nat, piece: Byte, reach: bv64, m: Move)
    requires WellFormed(p) && from < 64 && m.fromSquare == from
    requires IsKeptTarget(p, white, capture, piece, reach, m)
    ensures IsTargetIn(p, from, piece, capture, reach & TargetMask(p, white, capture), m)
  {
    var to: nat := m.toSquare;
    HasAnd(reach, TargetMask(p, white, capture), to);
    TargetMaskMeaning(p, white, capture, to);
    TargetMoveFields(p, from, piece, capture, m);
  }

  // ------------------------------------------------------------- castling

  /** White king side: the right, F1 and G1 empty, E1, F1 and G1 unattacked; black the same on rank 8. */
  predicate IsKingSideCastle(p: Position, white: bool, m: Move)
    requires WellFormed(p)
  {
    var e := HomeSquare(white);
    m == Move(e, e - 2, KingPiece(white), NoPiece, KingSideCastle, NoPiece) &&
    HasFlag(p.castleFlags, if white then WhiteCanCastleKingSide else BlackCanCastleKingSide) &&
    p.occupant[e - 1] == NoPiece && p.occupant[e - 2] == NoPiece &&
    EnemyAttacks(p, e, white) == 0 && EnemyAttacks(p, e - 1, white) == 0 && EnemyAttacks(p, e - 2, white) == 0
  }

  /**
   * White queen side: the right, B1, C1 and D1 empty, E1, D1 and C1
   * unattacked; B1 may be attacked. Black the same on rank 8.
   */
  predicate IsQueenSideCastle(p: Position, white: bool, m: Move)
    requires WellFormed(p)
  {
    var e := HomeSquare(white);
    m == Move(e, e + 2, KingPiece(white), NoPiece, QueenSideCastle, NoPiece) &&
    HasFlag(p.castleFlags, if white then WhiteCanCastleQueenSide else BlackCanCastleQueenSide) &&
    p.occupant[e + 1] == NoPiece && p.occupant[e + 2] == NoPiece && p.occupant[e + 3] == NoPiece &&
    EnemyAttacks(p, e, white) == 0 && EnemyAttacks(p, e + 1, white) == 0 && EnemyAttacks(p, e + 2, white) == 0
  }

  lemma NoneOfThree(a: bv64, b: bv64, c: bv64)
    ensures a | b | c == 0 <==> a == 0 && b == 0 && c == 0
  {
  }

  /** The castling moves are exactly the king-side and queen-side moves their conditions allow: at most one of each. */
  lemma CastlingMembers(p: Position, white: bool, m: Move)
    requires WellFormed(p)
    ensures m in CastlingMoves(p, white) <==> IsKingSideCastle(p, white, m) || IsQueenSideCastle(p, white, m)
    ensures |CastlingMoves(p, white)| <= 2
  {
    KingSideMembers(p, white, m);
    QueenSideMembers(p, white, m);
  }

  lemma KingSideMembers(p: Position, white: bool, m: Move)
    requires WellFormed(p)
    ensures m in KingSideCastling(p, white) <==> IsKingSideCastle(p, white, m)
    ensures |KingSideCastling(p, white)| <= 1
  {
    var e := HomeSquare(white);
    NoneOfThree(EnemyAttacks(p, e, white), EnemyAttacks(p, e - 1, white), EnemyAttacks(p, e - 2, white));
    SingletonIf(KingSideClear(p, white) && KingSideSafe(p, white), CastleMove(e, e - 2, white, KingSideCastle), m);
  }

  lemma QueenSideMembers(p: Position, white: bool, m: Move)
    requires WellFormed(p)
    ensures m in QueenSideCastling(p, white) <==> IsQueenSideCastle(p, white, m)
    ensures |QueenSideCastling(p, white)| <= 1
  {
    var e := HomeSquare(white);
    NoneOfThree(EnemyAttacks(p, e, white), EnemyAttacks(p, e + 1, white), EnemyAttacks(p, e + 2, white));
    SingletonIf(QueenSideClear(p, white) && QueenSideSafe(p, white), CastleMove(e, e + 2, white, QueenSideCastle), m);
  }

  lemma SingletonIf<T>(c: bool, x: T, m: T)
    ensures m in (if c then [x] else []) <==> c && m == x
    ensures |if c then [x] else []| <= 1
  {
  }
}
