/**
 * The list-building move generator as the source runs it: every generator
 * takes the squares of a local bitboard off one at a time with
 * `FindAndZeroLeastSignificantBit`, lowest first, and appends the moves
 * each square gives to the list it was handed. The list is threaded
 * through as a value (`moves` in, the longer list out). Each method is
 * proved to append exactly the sequence of module MoveGeneration that
 * specifies it, so the lemmas of module MoveProperties hold of its output.
 */
module Generators {
  import opened Globals
  import opened BitOperations
  import opened Moves
  import opened Positions
  import opened MoveGeneration
  import opened MoveProperties
  import opened Boards

  // ------------------------------------------------------ one square's moves

  /** The queen promotion of `m`, then (when asked for) the rook, bishop and knight promotions. */
  method AddPromotions(m: Move, white: bool, allPromotions: bool) returns (ms: seq<Move>)
    ensures ms == Promotions(m, white, allPromotions)
  {
    ms := [m.(promotionPiece := if white then WhiteQueen else BlackQueen)];
    if allPromotions {
      ms := ms + [m.(promotionPiece := if white then WhiteRook else BlackRook)];
      ms := ms + [m.(promotionPiece := if white then WhiteBishop else BlackBishop)];
      ms := ms + [m.(promotionPiece := if white then WhiteKnight else BlackKnight)];
    }
  }

  /** The body of a generator's inner loop: the moves the square `to` gives. */
  method EmitSquare(board: Board, e: Emitter, to: nat) returns (ms: seq<Move>)
    requires board.Valid() && to < 64
    ensures ms == EmitAt(board.State(), e, to)
  {
    match e
    case Targets(from, piece, capture) =>
      if capture {
        ms := [NewMove(from, to, piece, board.occupant[to])];
      } else {
        ms := [NewMove(from, to, piece)];
      }
    case PawnCaptures(offset, white, allPromotions) =>
      var m := NewMove(if white then to - offset else to + offset, to, PawnPiece(white), board.occupant[to]);
      if (if white then to >= H8 else to <= A1) {
        ms := AddPromotions(m, white, allPromotions);
      } else {
        ms := [m];
      }
    case PushPromotions(white, allPromotions) =>
      ms := AddPromotions(NewMove(if white then to - 8 else to + 8, to, PawnPiece(white), board.occupant[to]), white, allPromotions);
    case PawnPushes(white) =>
      if white {
        ms := [NewMove(to - 8, to, WhitePawn)];
        if to < 24 && board.occupant[to + 8] == NoPiece {
          ms := ms + [NewMove(to - 8, to + 8, WhitePawn)];
        }
      } else {
        ms := [NewMove(to + 8, to, BlackPawn)];
        if to > 39 && board.occupant[to - 8] == NoPiece {
          ms := ms + [NewMove(to + 8, to - 8, BlackPawn)];
        }
      }
  }

  // ------------------------------------------------------------ the loops

  /**
   * `while (toMap != 0)`: the moves of every square of `bits`, lowest
   * first, appended to `moves`.
   */
  method EmitSquares(board: Board, e: Emitter, bits: bv64, moves: seq<Move>) returns (r: seq<Move>)
    requires board.Valid()
    ensures r == moves + Emitted(board.State(), e, bits)
  {
    ghost var p := board.State();
    SquaresOnBoard(bits);
    ghost var all := EmitAll(p, e, Squares(bits));
    r := moves;
    var toMap := bits;
    while toMap != 0
      invariant AllOnBoard(Squares(toMap))
      invariant r + EmitAll(p, e, Squares(toMap)) == moves + all
      decreases Count(toMap)
    {
      var prev := toMap;
      var to;
      to, toMap := FindAndZeroLeastSignificantBit(prev);
      var ms := EmitSquare(board, e, to);
      EmitStep(p, e, r, prev, to, toMap);
      SquaresOnBoard(toMap);
      r := r + ms;
    }
    CountZero();
    assert r + [] == r;
  }

  /** One round of the inner loop: the lowest square's moves go from the map's share to the list. */
  lemma EmitStep(p: Position, e: Emitter, r: seq<Move>, prev: bv64, to: nat, rest: bv64)
    requires WellFormed(p) && prev != 0 && IsLowestBit(prev, to)
    requires forall j: nat :: j < 64 ==> (Has(rest, j) <==> Has(prev, j) && j != to)
    requires AllOnBoard(Squares(prev))
    ensures AllOnBoard(Squares(rest))
    ensures (r + EmitAt(p, e, to)) + EmitAll(p, e, Squares(rest)) == r + EmitAll(p, e, Squares(prev))
    ensures Count(rest) < Count(prev)
  {
    PeelLowest(prev, to, rest);
    SquaresOnBoard(rest);
    var s := Squares(prev);
    assert s[0] == to && s[1..] == Squares(rest);
    EmitAllStep(p, e, s);
    Regroup(r, EmitAt(p, e, to), EmitAll(p, e, Squares(rest)), EmitAll(p, e, s));
    BitsFromLength(rest, 0);
  }

  lemma EmitAllStep(p: Position, e: Emitter, tos: seq<nat>)
    requires WellFormed(p) && AllOnBoard(tos) && tos != []
    ensures EmitAll(p, e, tos) == EmitAt(p, e, tos[0]) + EmitAll(p, e, tos[1..])
  {
  }

  lemma Regroup<T>(r: seq<T>, a: seq<T>, b: seq<T>, whole: seq<T>)
    requires whole == a + b
    ensures (r + a) + b == r + whole
  {
  }

  /**
   * `while (fromMap != 0)` of a piece generator: for each square of
   * `froms`, lowest first, the moves to its kept targets.
   */
  method GeneratePieceMoves(board: Board, mover: Mover, white: bool, capture: bool, moves: seq<Move>) returns (r: seq<Move>)
    requires board.Valid()
    ensures r == moves + PieceMoves(board.State(), mover, white, capture)
  {
    var p := board.State();
    ghost var pieces := MoverPieces(p, mover, white);
    ghost var targets := MoverReaches(p, mover, white, capture);
    var fromMap := MoverFroms(p, mover, white);
    SquaresOnBoard(fromMap);
    ghost var all := TargetsFromAll(p, capture, Squares(fromMap), pieces, targets);
    r := moves;
    while fromMap != 0
      invariant AllOnBoard(Squares(fromMap))
      invariant r + TargetsFromAll(p, capture, Squares(fromMap), pieces, targets) == moves + all
      decreases Count(fromMap)
    {
      var prev := fromMap;
      var from;
      from, fromMap := FindAndZeroLeastSignificantBit(prev);
      r := FromSquare(board, mover, white, capture, from, r, prev, fromMap, moves + all);
    }
    CountZero();
    assert r + [] == r;
  }

  /** The body of the outer loop: the inner loop over the kept targets of the piece on `from`. */
  method FromSquare(board: Board, mover: Mover, white: bool, capture: bool, from: nat, acc: seq<Move>,
                    ghost prev: bv64, ghost rest: bv64, ghost goal: seq<Move>)
    returns (r: seq<Move>)
    requires board.Valid()
    requires prev != 0 && IsLowestBit(prev, from) && AllOnBoard(Squares(prev))
    requires forall j: nat :: j < 64 ==> (Has(rest, j) <==> Has(prev, j) && j != from)
    requires acc + TargetsFromAll(board.State(), capture, Squares(prev), MoverPieces(board.State(), mover, white),
                                  MoverReaches(board.State(), mover, white, capture)) == goal
    ensures AllOnBoard(Squares(rest)) && Count(rest) < Count(prev)
    ensures r + TargetsFromAll(board.State(), capture, Squares(rest), MoverPieces(board.State(), mover, white),
                               MoverReaches(board.State(), mover, white, capture)) == goal
  {
    var p := board.State();
    ghost var pieces := MoverPieces(p, mover, white);
    ghost var targets := MoverReaches(p, mover, white, capture);
    var toMap := MoverTargets(p, mover, from) & TargetMask(p, white, capture);
    var piece := MoverPiece(p, mover, white, from);
    ReachAt(p, mover, white, capture, from);
    r := EmitSquares(board, Targets(from, piece, capture), toMap, acc);
    FromStep(p, capture, acc, prev, from, rest, pieces, targets);
  }

  lemma ReachAt(p: Position, mover: Mover, white: bool, capture: bool, from: nat)
    requires WellFormed(p) && from < 64
    ensures MoverReaches(p, mover, white, capture)[from] == MoverTargets(p, mover, from) & TargetMask(p, white, capture)
    ensures MoverPieces(p, mover, white)[from] == MoverPiece(p, mover, white, from)
  {
  }

  lemma FromStep(p: Position, capture: bool, acc: seq<Move>, prev: bv64, from: nat, rest: bv64,
                 pieces: seq<Byte>, targets: seq<bv64>)
    requires WellFormed(p) && |pieces| == 64 && |targets| == 64
    requires prev != 0 && IsLowestBit(prev, from) && AllOnBoard(Squares(prev))
    requires forall j: nat :: j < 64 ==> (Has(rest, j) <==> Has(prev, j) && j != from)
    ensures AllOnBoard(Squares(rest)) && Count(rest) < Count(prev)
    ensures (acc + Emitted(p, Targets(from, pieces[from], capture), targets[from])) +
            TargetsFromAll(p, capture, Squares(rest), pieces, targets) ==
            acc + TargetsFromAll(p, capture, Squares(prev), pieces, targets)
  {
    PeelLowest(prev, from, rest);
    SquaresOnBoard(rest);
    var s := Squares(prev);
    assert s[0] == from && s[1..] == Squares(rest);
    TargetsFromAllStep(p, capture, s, pieces, targets);
    Regroup(acc, Emitted(p, Targets(from, pieces[from], capture), targets[from]),
            TargetsFromAll(p, capture, Squares(rest), pieces, targets), TargetsFromAll(p, capture, s, pieces, targets));
  }

  // --------------------------------------------------- the other generators

  /** `Generate{White,Black}King{Captures,NonCaptures}`: the king table from the king's square, masked. */
  method GenerateKingMoves(board: Board, white: bool, capture: bool, moves: seq<Move>) returns (r: seq<Move>)
    requires board.Valid()
    ensures r == moves + KingMoves(board.State(), white, capture)
  {
    var p := board.State();
    var from := if white then board.whiteKingSquare else board.blackKingSquare;
    var toMap := BoardTables.KingMoves(from) & TargetMask(p, white, capture);
    r := EmitSquares(board, Targets(from, KingPiece(white), capture), toMap, moves);
    KingMovesAre(p, white, capture, from, toMap);
  }

  lemma KingMovesAre(p: Position, white: bool, capture: bool, from: int, toMap: bv64)
    requires WellFormed(p) && from == OwnKing(p, white)
    requires toMap == BoardTables.KingMoves(from) & TargetMask(p, white, capture)
    ensures KingMoves(p, white, capture) == Emitted(p, Targets(from, KingPiece(white), capture), toMap)
  {
  }

  /**
   * `Generate{White,Black}PawnCaptures`: the captures towards each side,
   * then the pushes onto the last rank; `allPromotions` is the source's
   * `generateNonQueenPromotions`.
   */
  method GeneratePawnCaptures(board: Board, white: bool, allPromotions: bool, moves: seq<Move>) returns (r: seq<Move>)
    requires board.Valid()
    ensures r == moves + PawnCaptureMoves(board.State(), white, allPromotions)
  {
    var p := board.State();
    var left := LeftCaptureTargets(p, white);
    var r1 := EmitSquares(board, PawnCaptures(LeftOffset(white), white, allPromotions), left, moves);
    var right := RightCaptureTargets(p, white);
    var r2 := EmitSquares(board, PawnCaptures(RightOffset(white), white, allPromotions), right, r1);
    var pushes := PromotionPushTargets(p, white);
    r := EmitSquares(board, PushPromotions(white, allPromotions), pushes, r2);
    Chain3(moves, r1, r2, r, Emitted(p, PawnCaptures(LeftOffset(white), white, allPromotions), left),
           Emitted(p, PawnCaptures(RightOffset(white), white, allPromotions), right),
           Emitted(p, PushPromotions(white, allPromotions), pushes));
  }

  lemma Chain3<T>(m0: seq<T>, m1: seq<T>, m2: seq<T>, m3: seq<T>, a: seq<T>, b: seq<T>, c: seq<T>)
    requires m1 == m0 + a && m2 == m1 + b && m3 == m2 + c
    ensures m3 == m0 + (a + b + c)
  {
  }

  /** `Generate{White,Black}PawnEnPassantCaptures`: at most one capture from each side of the en-passant square. */
  method GenerateEnPassantCaptures(board: Board, white: bool, moves: seq<Move>) returns (r: seq<Move>)
    requires board.Valid()
    ensures r == moves + EnPassantMoves(board.State(), white)
  {
    var p := board.State();
    r := moves;
    if board.enPassantSquare != SquareNone {
      var left := EnPassantCapture(board, LeftReach(p, white), LeftOffset(white), white);
      var right := EnPassantCapture(board, RightReach(p, white), RightOffset(white), white);
      r := moves + left + right;
    }
  }

  /** One of the two tests of the en-passant generator: the capture from `offset` behind, when the pawns reach the square. */
  method EnPassantCapture(board: Board, reach: bv64, offset: int, white: bool) returns (found: seq<Move>)
    requires board.Valid() && board.enPassantSquare != SquareNone
    ensures found == EnPassantFrom(board.State(), reach, offset, white)
  {
    var p := board.State();
    found := [];
    if Has(reach, p.enPassantSquare) {
      found := found + [EnPassantMove(Behind(p.enPassantSquare, offset, white), p.enPassantSquare, white)];
      assert EnPassantFrom(p, reach, offset, white) == found;
    } else {
      assert EnPassantFrom(p, reach, offset, white) == [];
    }
  }

  /** `Generate{White,Black}PawnNonCaptures`: single pushes short of the last rank, each followed by its double push when allowed. */
  method GeneratePawnNonCaptures(board: Board, white: bool, moves: seq<Move>) returns (r: seq<Move>)
    requires board.Valid()
    ensures r == moves + PawnQuietMoves(board.State(), white)
  {
    var p := board.State();
    var toMap := QuietPushTargets(p, white);
    r := EmitSquares(board, PawnPushes(white), toMap, moves);
  }

  /** The castling block of `GenerateAll`: king side, then queen side. */
  method GenerateCastling(board: Board, white: bool, moves: seq<Move>) returns (r: seq<Move>)
    requires board.Valid()
    ensures r == moves + CastlingMoves(board.State(), white)
  {
    var kingSide := CastleKingSide(board, white);
    var queenSide := CastleQueenSide(board, white);
    r := moves + kingSide + queenSide;
  }

  method CastleKingSide(board: Board, white: bool) returns (found: seq<Move>)
    requires board.Valid()
    ensures found == KingSideCastling(board.State(), white)
  {
    var p := board.State();
    found := [];
    if KingSideClear(p, white) {
      if KingSideSafe(p, white) {
        found := found + [CastleMove(HomeSquare(white), HomeSquare(white) - 2, white, KingSideCastle)];
        assert KingSideCastling(p, white) == found;
      } else {
        assert KingSideCastling(p, white) == [];
      }
    } else {
      assert KingSideCastling(p, white) == [];
    }
  }

  method CastleQueenSide(board: Board, white: bool) returns (found: seq<Move>)
    requires board.Valid()
    ensures found == QueenSideCastling(board.State(), white)
  {
    var p := board.State();
    found := [];
    if QueenSideClear(p, white) {
      if QueenSideSafe(p, white) {
        found := found + [CastleMove(HomeSquare(white), HomeSquare(white) + 2, white, QueenSideCastle)];
        assert QueenSideCastling(p, white) == found;
      } else {
        assert QueenSideCastling(p, white) == [];
      }
    } else {
      assert QueenSideCastling(p, white) == [];
    }
  }

  // ------------------------------------------------------ the entry points

  /** `GenerateAll`: the list is cleared, then the captures, the castling moves and the quiet moves are appended. */
  method GenerateAll(board: Board) returns (moves: seq<Move>)
    requires board.Valid()
    ensures moves == AllMoves(board.State())
  {
    ghost var p := board.State();
    var white := board.side == White;
    var m0: seq<Move> := [];
    var captured := GenerateAllCaptures(board, white, m0);
    var castled := GenerateCastling(board, white, captured);
    moves := GenerateAllQuiet(board, white, castled);
    Assemble(m0, captured, castled, moves, CapturesFirst(p, white), CastlingMoves(p, white), QuietLast(p, white));
    AllMovesAre(p, white);
  }

  /** The capture half of `GenerateAll`: pawns, en passant, knights, bishops and queens, rooks and queens, king. */
  method GenerateAllCaptures(board: Board, white: bool, moves: seq<Move>) returns (r: seq<Move>)
    requires board.Valid()
    ensures r == moves + CapturesFirst(board.State(), white)
  {
    ghost var p := board.State();
    var m1 := GeneratePawnCaptures(board, white, true, moves);
    var m2 := GenerateEnPassantCaptures(board, white, m1);
    var m3 := GeneratePieceMoves(board, Knights, white, true, m2);
    var m4 := GeneratePieceMoves(board, BishopsQueens, white, true, m3);
    var m5 := GeneratePieceMoves(board, RooksQueens, white, true, m4);
    r := GenerateKingMoves(board, white, true, m5);
    Chain6(moves, m1, m2, m3, m4, m5, r, PawnCaptureMoves(p, white, true), EnPassantMoves(p, white),
           PieceMoves(p, Knights, white, true), PieceMoves(p, BishopsQueens, white, true),
           PieceMoves(p, RooksQueens, white, true), KingMoves(p, white, true));
    CapturesFirstAre(p, white);
  }

  /** The quiet half of `GenerateAll`: knights, bishops and queens, rooks and queens, pawns, king. */
  method GenerateAllQuiet(board: Board, white: bool, moves: seq<Move>) returns (r: seq<Move>)
    requires board.Valid()
    ensures r == moves + QuietLast(board.State(), white)
  {
    ghost var p := board.State();
    var m1 := GeneratePieceMoves(board, Knights, white, false, moves);
    var m2 := GeneratePieceMoves(board, BishopsQueens, white, false, m1);
    var m3 := GeneratePieceMoves(board, RooksQueens, white, false, m2);
    var m4 := GeneratePawnNonCaptures(board, white, m3);
    r := GenerateKingMoves(board, white, false, m4);
    Chain5(moves, m1, m2, m3, m4, r, PieceMoves(p, Knights, white, false), PieceMoves(p, BishopsQueens, white, false),
           PieceMoves(p, RooksQueens, white, false), PawnQuietMoves(p, white), KingMoves(p, white, false));
    QuietLastAre(p, white);
  }

  /** Three lists appended in turn to an empty list make their concatenation. */
  lemma Assemble<T>(m0: seq<T>, m1: seq<T>, m2: seq<T>, m3: seq<T>, a: seq<T>, b: seq<T>, c: seq<T>)
    requires m0 == [] && m1 == m0 + a && m2 == m1 + b && m3 == m2 + c
    ensures m3 == a + b + c
  {
  }

  lemma Chain5<T>(m0: seq<T>, m1: seq<T>, m2: seq<T>, m3: seq<T>, m4: seq<T>, m5: seq<T>,
                  a: seq<T>, b: seq<T>, c: seq<T>, d: seq<T>, e: seq<T>)
    requires m1 == m0 + a && m2 == m1 + b && m3 == m2 + c && m4 == m3 + d && m5 == m4 + e
    ensures m5 == m0 + (a + b + c + d + e)
  {
  }

  lemma Chain6<T>(m0: seq<T>, m1: seq<T>, m2: seq<T>, m3: seq<T>, m4: seq<T>, m5: seq<T>, m6: seq<T>,
                  a: seq<T>, b: seq<T>, c: seq<T>, d: seq<T>, e: seq<T>, f: seq<T>)
    requires m1 == m0 + a && m2 == m1 + b && m3 == m2 + c && m4 == m3 + d && m5 == m4 + e && m6 == m5 + f
    ensures m6 == m0 + (a + b + c + d + e + f)
  {
  }

  lemma AllMovesAre(p: Position, white: bool)
    requires WellFormed(p) && white == (p.side == White)
    ensures AllMoves(p) == CapturesFirst(p, white) + CastlingMoves(p, white) + QuietLast(p, white)
  {
  }

  lemma CapturesFirstAre(p: Position, white: bool)
    requires WellFormed(p)
    ensures CapturesFirst(p, white) ==
      PawnCaptureMoves(p, white, true) + EnPassantMoves(p, white) + PieceMoves(p, Knights, white, true) +
      PieceMoves(p, BishopsQueens, white, true) + PieceMoves(p, RooksQueens, white, true) + KingMoves(p, white, true)
  {
  }

  lemma QuietLastAre(p: Position, white: bool)
    requires WellFormed(p)
    ensures QuietLast(p, white) ==
      PieceMoves(p, Knights, white, false) + PieceMoves(p, BishopsQueens, white, false) +
      PieceMoves(p, RooksQueens, white, false) + PawnQuietMoves(p, white) + KingMoves(p, white, false)
  {
  }

  /**
   * `GenerateCaptures` (`allPromotions` true) and
   * `GenerateQuiescenceCaptures` (false): the list is cleared, then the
   * captures are appended, knights first.
   */
  method GenerateCaptures(board: Board, allPromotions: bool) returns (moves: seq<Move>)
    requires board.Valid()
    ensures moves == CaptureMoves(board.State(), allPromotions)
  {
    ghost var p := board.State();
    var white := board.side == White;
    var m0: seq<Move> := [];
    var m1 := GeneratePieceMoves(board, Knights, white, true, m0);
    var m2 := GeneratePawnCaptures(board, white, allPromotions, m1);
    var m3 := GenerateEnPassantCaptures(board, white, m2);
    var m4 := GeneratePieceMoves(board, RooksQueens, white, true, m3);
    var m5 := GeneratePieceMoves(board, BishopsQueens, white, true, m4);
    moves := GenerateKingMoves(board, white, true, m5);
    Chain6(m0, m1, m2, m3, m4, m5, moves, PieceMoves(p, Knights, white, true), PawnCaptureMoves(p, white, allPromotions),
           EnPassantMoves(p, white), PieceMoves(p, RooksQueens, white, true), PieceMoves(p, BishopsQueens, white, true),
           KingMoves(p, white, true));
    CaptureMovesAre(p, white, allPromotions, moves);
  }

  lemma CaptureMovesAre(p: Position, white: bool, allPromotions: bool, all: seq<Move>)
    requires WellFormed(p) && white == (p.side == White)
    requires all == [] + (PieceMoves(p, Knights, white, true) + PawnCaptureMoves(p, white, allPromotions) +
      EnPassantMoves(p, white) + PieceMoves(p, RooksQueens, white, true) + PieceMoves(p, BishopsQueens, white, true) +
      KingMoves(p, white, true))
    ensures all == CaptureMoves(p, allPromotions)
  {
  }

  // ------------------------------------------------------- check escapes

  /**
   * `GenerateCheckEscapes`: the list is cleared; the king steps to every
   * square next to it that holds no piece of its own and that the enemy
   * does not attack once the king is gone; with more than one attacker
   * that is all. Otherwise the lowest attacker is taken, by every piece
   * attacking its square and by en passant, and the check is blocked on
   * the squares the brace-less `if` leaves in `toMap`.
   * `numberOfAttackers` is the caller's count of the king's attackers.
   */
  method GenerateCheckEscapes(board: Board, numberOfAttackers: int) returns (moves: seq<Move>)
    requires board.Valid()
    ensures moves == CheckEscapes(board.State(), numberOfAttackers)
  {
    var white := board.side == White;
    var kingMoves := KingEscapeMoves(board, white);
    if numberOfAttackers > 1 {
      moves := kingMoves;
      return;
    }
    var king := if white then board.whiteKingSquare else board.blackKingSquare;
    var attackerSquare := LeastSignificantBit(EnemyAttacks(board.State(), king, white));
    var captured := TakeChecker(board, white, attackerSquare, kingMoves);
    moves := BlockCheck(board, white, attackerSquare, captured);
  }

  /** The king's part of `GenerateCheckEscapes`: the escape loop, then a move to each safe square. */
  method KingEscapeMoves(board: Board, white: bool) returns (kingMoves: seq<Move>)
    requires board.Valid()
    ensures kingMoves == KingEscapes(board.State(), white)
  {
    var p := board.State();
    var king := if white then board.whiteKingSquare else board.blackKingSquare;
    var possibleEscapeSquares := EscapeSquares(p, white);
    var attacked := FindAttackedEscapes(board, white, possibleEscapeSquares);
    var toMap := Except(possibleEscapeSquares, attacked);
    kingMoves := EmitSquares(board, Targets(king, KingPiece(white), true), toMap, []);
  }

  /** The capture part of `GenerateCheckEscapes`: every capture of the checker on `attacker`. */
  method TakeChecker(board: Board, white: bool, attacker: nat, moves: seq<Move>) returns (r: seq<Move>)
    requires board.Valid() && attacker < 64
    ensures r == moves + CheckerCaptures(board.State(), white, attacker)
  {
    var fromMap := CheckerCaptureSources(board, white, attacker);
    r := CaptureChecker(board, attacker, white, fromMap, moves);
  }

  /** The interposition part of `GenerateCheckEscapes`: `toMap` is empty unless the checker is a pawn or a knight. */
  method BlockCheck(board: Board, white: bool, attacker: nat, moves: seq<Move>) returns (r: seq<Move>)
    requires board.Valid() && attacker < 64
    ensures r == moves + Interpositions(board.State(), white, attacker, InterpositionSquares(board.State(), white, attacker))
  {
    var p := board.State();
    var king := if white then board.whiteKingSquare else board.blackKingSquare;
    // The escape loop has run `toMap` down to the empty word.
    var toMap: bv64 := 0;
    if IsLeaper(p, attacker, white) {
      toMap := BoardTables.Obstructed(king, attacker);
    }
    assert toMap == InterpositionSquares(p, white, attacker);
    r := Interpose(board, white, attacker, toMap, moves);
  }

  /** One lowest square taken off a bits: the rest of its squares follow it, and fewer remain. */
  lemma Peel(prev: bv64, sq: nat, rest: bv64)
    requires prev != 0 && IsLowestBit(prev, sq)
    requires forall j: nat :: j < 64 ==> (Has(rest, j) <==> Has(prev, j) && j != sq)
    ensures AllOnBoard(Squares(rest)) && Count(rest) < Count(prev)
    ensures Squares(prev) == [sq] + Squares(rest)
  {
    PeelLowest(prev, sq, rest);
    SquaresOnBoard(rest);
    BitsFromLength(rest, 0);
  }

  /** The first loop of `GenerateCheckEscapes`: the escape squares the enemy attacks once the king is gone. */
  method FindAttackedEscapes(board: Board, white: bool, escapes: bv64) returns (attacked: bv64)
    requires board.Valid() && escapes == EscapeSquares(board.State(), white)
    ensures attacked == AttackedEscapes(board.State(), white)
  {
    ghost var p := board.State();
    SquaresOnBoard(escapes);
    ghost var goal := AttackedAmong(p, white, 0, Squares(escapes));
    attacked := 0;
    var toMap := escapes;
    while toMap != 0
      invariant AllOnBoard(Squares(toMap))
      invariant AttackedAmong(p, white, attacked, Squares(toMap)) == goal
      decreases Count(toMap)
    {
      toMap, attacked := TestLowestEscape(board, white, toMap, attacked);
    }
    CountZero();
  }

  /** One turn of the escape loop: the lowest square of `toMap` joins `attacked` when the enemy attacks it. */
  method TestLowestEscape(board: Board, white: bool, toMap: bv64, attacked: bv64) returns (rest: bv64, attacked': bv64)
    requires board.Valid() && toMap != 0 && AllOnBoard(Squares(toMap))
    ensures AllOnBoard(Squares(rest)) && Count(rest) < Count(toMap)
    ensures AttackedAmong(board.State(), white, attacked', Squares(rest)) ==
            AttackedAmong(board.State(), white, attacked, Squares(toMap))
  {
    var p := board.State();
    var to;
    to, rest := FindAndZeroLeastSignificantBit(toMap);
    Peel(toMap, to, rest);
    attacked' := attacked;
    if AttackedWithoutKing(p, to, white) {
      attacked' := With(attacked, to);
    }
    AttackedStep(p, white, attacked, attacked', to, Squares(rest));
  }

  lemma AttackedStep(p: Position, white: bool, acc: bv64, next: bv64, to: nat, rest: seq<nat>)
    requires WellFormed(p) && to < 64 && AllOnBoard(rest)
    requires next == if AttackedWithoutKing(p, to, white) then With(acc, to) else acc
    ensures AllOnBoard([to] + rest)
    ensures AttackedAmong(p, white, acc, [to] + rest) == AttackedAmong(p, white, next, rest)
  {
    assert ([to] + rest)[1..] == rest;
  }

  /** The pieces that may take the checker: its attackers but the king, and the pawns beside a checking pawn that may take it en passant. */
  method CheckerCaptureSources(board: Board, white: bool, attacker: nat) returns (fromMap: bv64)
    requires board.Valid() && attacker < 64
    ensures fromMap == CaptureSources(board.State(), white, attacker)
  {
    var p := board.State();
    fromMap := if white then WhiteNonKingAttacks(p, attacker) else BlackNonKingAttacks(p, attacker);
    if board.enPassantSquare == (if white then attacker + 8 else attacker - 8) {
      fromMap := AddEnPassantTakers(board, white, fromMap);
    }
  }

  /** The en-passant part of the capture sources: each pawn beside the checking pawn. */
  method AddEnPassantTakers(board: Board, white: bool, direct: bv64) returns (fromMap: bv64)
    requires board.Valid()
    ensures fromMap == EnPassantTakers(board.State(), white, direct)
  {
    var p := board.State();
    var left := board.enPassantSquare + (if white then -9 else 7);
    var right := board.enPassantSquare + (if white then -7 else 9);
    fromMap := direct;
    if PawnBeside(p, left, white, BoardTables.File(board.enPassantSquare) > 0) {
      fromMap := With(fromMap, left);
    }
    if PawnBeside(p, right, white, BoardTables.File(board.enPassantSquare) < 7) {
      fromMap := With(fromMap, right);
    }
  }

  /** The capture loop: every piece of `fromMap`, lowest first, takes the checker unless that exposes the king. */
  method CaptureChecker(board: Board, attacker: nat, white: bool, fromMap: bv64, moves: seq<Move>) returns (r: seq<Move>)
    requires board.Valid() && attacker < 64
    ensures (SquaresOnBoard(fromMap); r == moves + CapturesOfChecker(board.State(), attacker, white, Squares(fromMap)))
  {
    ghost var p := board.State();
    SquaresOnBoard(fromMap);
    ghost var all := CapturesOfChecker(p, attacker, white, Squares(fromMap));
    r := moves;
    var bits := fromMap;
    while bits != 0
      invariant AllOnBoard(Squares(bits))
      invariant r + CapturesOfChecker(p, attacker, white, Squares(bits)) == moves + all
      decreases Count(bits)
    {
      bits, r := CaptureFromLowest(board, attacker, white, bits, r);
    }
    CountZero();
    assert r + [] == r;
  }

  /** One turn of the capture loop: the lowest piece of `bits` takes the checker. */
  method CaptureFromLowest(board: Board, attacker: nat, white: bool, bits: bv64, r: seq<Move>) returns (rest: bv64, r': seq<Move>)
    requires board.Valid() && attacker < 64 && bits != 0 && AllOnBoard(Squares(bits))
    ensures AllOnBoard(Squares(rest)) && Count(rest) < Count(bits)
    ensures r' + CapturesOfChecker(board.State(), attacker, white, Squares(rest)) ==
            r + CapturesOfChecker(board.State(), attacker, white, Squares(bits))
  {
    var from;
    from, rest := FindAndZeroLeastSignificantBit(bits);
    Peel(bits, from, rest);
    var ms := CheckerCapture(board, from, attacker, white);
    CapturesStep(board.State(), attacker, white, r, from, Squares(rest));
    r' := r + ms;
  }

  lemma CapturesStep(p: Position, attacker: nat, white: bool, r: seq<Move>, from: nat, rest: seq<nat>)
    requires WellFormed(p) && attacker < 64 && from < 64 && AllOnBoard(rest)
    ensures AllOnBoard([from] + rest)
    ensures (r + AttackerCapture(p, from, attacker, white)) + CapturesOfChecker(p, attacker, white, rest) ==
            r + CapturesOfChecker(p, attacker, white, [from] + rest)
  {
    var s := [from] + rest;
    assert s[0] == from && s[1..] == rest;
    Regroup(r, AttackerCapture(p, from, attacker, white), CapturesOfChecker(p, attacker, white, rest),
            CapturesOfChecker(p, attacker, white, s));
  }

  /** One capture of the checker from `from`: promotions, en passant or a plain capture, or nothing when it exposes the king. */
  method CheckerCapture(board: Board, from: nat, attacker: nat, white: bool) returns (ms: seq<Move>)
    requires board.Valid() && from < 64 && attacker < 64
    ensures ms == AttackerCapture(board.State(), from, attacker, white)
  {
    var p := board.State();
    var pawn := PawnPiece(white);
    if ExposedCheck(p, from, attacker, white) {
      ms := [];
      assert AttackerCapture(p, from, attacker, white) == ms;
    } else if board.occupant[from] == pawn {
      if attacker >= H8 {
        ms := AddPromotions(NewMove(from, attacker, pawn, board.occupant[attacker]), white, true);
      } else if BoardTables.Rank(attacker) == BoardTables.Rank(from) {
        ms := [EnPassantMove(from, if white then attacker + 8 else attacker - 8, white)];
      } else {
        ms := [NewMove(from, attacker, pawn, board.occupant[attacker])];
      }
      assert AttackerCapture(p, from, attacker, white) == ms;
    } else {
      ms := [NewMove(from, attacker, board.occupant[from], board.occupant[attacker])];
      assert AttackerCapture(p, from, attacker, white) == ms;
    }
  }

  /** The interposition loop: for each square of `toMap`, lowest first, every block onto it. */
  method Interpose(board: Board, white: bool, attacker: nat, toMap: bv64, moves: seq<Move>) returns (r: seq<Move>)
    requires board.Valid() && attacker < 64
    ensures r == moves + Interpositions(board.State(), white, attacker, toMap)
  {
    ghost var p := board.State();
    ghost var all := Interpositions(p, white, attacker, toMap);
    r := moves;
    var bits := toMap;
    while bits != 0
      invariant r + Interpositions(p, white, attacker, bits) == moves + all
      decreases Count(bits)
    {
      bits, r := InterposeOnLowest(board, white, attacker, bits, r);
    }
    NoInterpositions(p, white, attacker, bits, r);
  }

  lemma NoInterpositions(p: Position, white: bool, attacker: nat, bits: bv64, r: seq<Move>)
    requires WellFormed(p) && attacker < 64 && bits == 0
    ensures r + Interpositions(p, white, attacker, bits) == r
  {
    CountZero();
    assert r + [] == r;
  }

  /** One turn of the interposition loop: every block onto the lowest square of `bits`. */
  method InterposeOnLowest(board: Board, white: bool, attacker: nat, bits: bv64, r: seq<Move>) returns (rest: bv64, r': seq<Move>)
    requires board.Valid() && attacker < 64 && bits != 0
    ensures Count(rest) < Count(bits)
    ensures r' + Interpositions(board.State(), white, attacker, rest) ==
            r + Interpositions(board.State(), white, attacker, bits)
  {
    var p := board.State();
    var to;
    to, rest := FindAndZeroLeastSignificantBit(bits);
    Peel(bits, to, rest);
    var fromMap := BlockSources(p, white, to);
    r' := BlockOnto(board, to, attacker, white, fromMap, r);
    BlocksAtStep(p, white, attacker, r, to, Squares(rest));
  }

  lemma BlocksAtStep(p: Position, white: bool, attacker: nat, r: seq<Move>, to: nat, rest: seq<nat>)
    requires WellFormed(p) && attacker < 64 && to < 64 && AllOnBoard(rest)
    ensures AllOnBoard([to] + rest) && AllOnBoard(Squares(BlockSources(p, white, to)))
    ensures (r + BlocksFrom(p, to, attacker, white, Squares(BlockSources(p, white, to)))) + BlocksAt(p, white, attacker, rest) ==
            r + BlocksAt(p, white, attacker, [to] + rest)
  {
    var s := [to] + rest;
    assert s[0] == to && s[1..] == rest;
    SquaresOnBoard(BlockSources(p, white, to));
    Regroup(r, BlocksFrom(p, to, attacker, white, Squares(BlockSources(p, white, to))), BlocksAt(p, white, attacker, rest),
            BlocksAt(p, white, attacker, s));
  }

  /** The inner interposition loop: every piece of `fromMap`, lowest first, moves onto `to` unless that exposes the king. */
  method BlockOnto(board: Board, to: nat, attacker: nat, white: bool, fromMap: bv64, moves: seq<Move>) returns (r: seq<Move>)
    requires board.Valid() && to < 64 && attacker < 64
    ensures (SquaresOnBoard(fromMap); r == moves + BlocksFrom(board.State(), to, attacker, white, Squares(fromMap)))
  {
    ghost var p := board.State();
    SquaresOnBoard(fromMap);
    ghost var all := BlocksFrom(p, to, attacker, white, Squares(fromMap));
    r := moves;
    var bits := fromMap;
    while bits != 0
      invariant AllOnBoard(Squares(bits))
      invariant r + BlocksFrom(p, to, attacker, white, Squares(bits)) == moves + all
      decreases Count(bits)
    {
      bits, r := BlockFromLowest(board, to, attacker, white, bits, r);
    }
    CountZero();
    assert r + [] == r;
  }

  /** One turn of the inner interposition loop: the lowest piece of `bits` moves onto `to`. */
  method BlockFromLowest(board: Board, to: nat, attacker: nat, white: bool, bits: bv64, r: seq<Move>) returns (rest: bv64, r': seq<Move>)
    requires board.Valid() && to < 64 && attacker < 64 && bits != 0 && AllOnBoard(Squares(bits))
    ensures AllOnBoard(Squares(rest)) && Count(rest) < Count(bits)
    ensures r' + BlocksFrom(board.State(), to, attacker, white, Squares(rest)) ==
            r + BlocksFrom(board.State(), to, attacker, white, Squares(bits))
  {
    var from;
    from, rest := FindAndZeroLeastSignificantBit(bits);
    Peel(bits, from, rest);
    var ms := BlockMove(board, from, to, attacker, white);
    BlocksFromStep(board.State(), to, attacker, white, r, from, Squares(rest));
    r' := r + ms;
  }

  lemma BlocksFromStep(p: Position, to: nat, attacker: nat, white: bool, r: seq<Move>, from: nat, rest: seq<nat>)
    requires WellFormed(p) && to < 64 && attacker < 64 && from < 64 && AllOnBoard(rest)
    ensures AllOnBoard([from] + rest)
    ensures (r + Block(p, from, to, attacker, white)) + BlocksFrom(p, to, attacker, white, rest) ==
            r + BlocksFrom(p, to, attacker, white, [from] + rest)
  {
    var s := [from] + rest;
    assert s[0] == from && s[1..] == rest;
    Regroup(r, Block(p, from, to, attacker, white), BlocksFrom(p, to, attacker, white, rest), BlocksFrom(p, to, attacker, white, s));
  }

  /** One block from `from` onto `to`: a pawn push (promotions when the checker stands on rank 8) or a piece move, or nothing when it exposes the king. */
  method BlockMove(board: Board, from: nat, to: nat, attacker: nat, white: bool) returns (ms: seq<Move>)
    requires board.Valid() && from < 64 && to < 64 && attacker < 64
    ensures ms == Block(board.State(), from, to, attacker, white)
  {
    var p := board.State();
    var pawn := PawnPiece(white);
    if ExposedCheck(p, from, to, white) {
      ms := [];
      assert Block(p, from, to, attacker, white) == ms;
    } else if board.occupant[from] == pawn {
      if attacker >= H8 {
        ms := AddPromotions(NewMove(from, to, pawn), white, true);
      } else {
        ms := [NewMove(from, to, pawn)];
      }
      assert Block(p, from, to, attacker, white) == ms;
    } else {
      ms := [NewMove(from, to, board.occupant[from])];
      assert Block(p, from, to, attacker, white) == ms;
    }
  }
}
