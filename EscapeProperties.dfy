/**
 * What `GenerateCheckEscapes` and the exposed-check test allow: the king
 * steps only to squares next to it that hold no piece of its own and
 * that the enemy does not attack once the king is gone; with two
 * checkers that is all; a checking slider is never blocked, because the
 * brace-less `if` leaves the interposition map empty; and the exposed-
 * check test says no in the three cases it rules out before looking
 * along the line.
 */
module EscapeProperties {
  import opened Globals
  import opened BitOperations
  import opened Moves
  import opened Positions
  import BoardTables
  import opened MoveGeneration
  import MoveProperties

  // ------------------------------------------------------- king escapes

  /** The escape loop collects exactly the squares of `tos` that the enemy attacks once the king is gone. */
  lemma {:induction false} AttackedAmongMembers(p: Position, white: bool, acc: bv64, tos: seq<nat>, j: nat)
    requires WellFormed(p) && AllOnBoard(tos) && j < 64
    ensures Has(AttackedAmong(p, white, acc, tos), j) <==> Has(acc, j) || (j in tos && AttackedWithoutKing(p, j, white))
    decreases |tos|
  {
    if tos != [] {
      var next := if AttackedWithoutKing(p, tos[0], white) then With(acc, tos[0]) else acc;
      AttackedAmongMembers(p, white, next, tos[1..], j);
      assert j in tos <==> j == tos[0] || j in tos[1..];
    }
  }

  /** A square is a safe escape exactly when the king reaches it, no piece of its own stands there and the enemy does not attack it with the king gone. */
  lemma SafeEscapeMeaning(p: Position, white: bool, j: nat)
    requires WellFormed(p) && j < 64
    ensures Has(SafeEscapes(p, white), j) <==>
      Has(BoardTables.KingMoves(OwnKing(p, white)), j) && !Has(OwnSet(p, white), j) && !AttackedWithoutKing(p, j, white)
  {
    var escapes := EscapeSquares(p, white);
    SquaresOnBoard(escapes);
    SquaresMeaning(escapes);
    AttackedAmongMembers(p, white, 0, Squares(escapes), j);
    HasZero(j);
  }

  /** A king move of the check escapes: to a safe square, capturing what stands there. */
  predicate IsKingEscape(p: Position, white: bool, m: Move)
    requires WellFormed(p)
  {
    var king := OwnKing(p, white);
    var to := m.toSquare;
    0 <= to < 64 && m == NewMove(king, to, KingPiece(white), p.occupant[to]) &&
    Has(BoardTables.KingMoves(king), to) && !Has(OwnSet(p, white), to) && !AttackedWithoutKing(p, to, white)
  }

  lemma KingEscapeMembers(p: Position, white: bool, m: Move)
    requires WellFormed(p)
    ensures m in KingEscapes(p, white) <==> IsKingEscape(p, white, m)
  {
    var king := OwnKing(p, white);
    MoveProperties.EmittedTargets(p, king, KingPiece(white), true, SafeEscapes(p, white), m);
    if 0 <= m.toSquare < 64 {
      SafeEscapeMeaning(p, white, m.toSquare);
    }
  }

  /** With more than one attacker the check escapes are the king's moves and nothing else. */
  lemma DoubleCheckEscapes(p: Position, n: int, m: Move)
    requires WellFormed(p) && n > 1
    ensures m in CheckEscapes(p, n) <==> IsKingEscape(p, p.side == White, m)
  {
    KingEscapeMembers(p, p.side == White, m);
  }

  // ---------------------------------------------------- interpositions

  /**
   * Against a single checking slider the list ends with the captures of
   * the checker: the interposition loop runs over the empty map the
   * escape loop left behind.
   */
  lemma SliderCheckNotBlocked(p: Position, n: int)
    requires WellFormed(p) && n <= 1
    requires !IsLeaper(p, CheckingSquare(p, p.side == White), p.side == White)
    ensures CheckEscapes(p, n) ==
      KingEscapes(p, p.side == White) + CheckerCaptures(p, p.side == White, CheckingSquare(p, p.side == White))
  {
    CountZero();
  }

  /** The squares the corrected loop visits against a slider are exactly those strictly between king and checker. */
  lemma CorrectedBlockSquares(p: Position, white: bool, attacker: nat, j: nat)
    requires WellFormed(p) && attacker < 64 && j < 64
    ensures Has(InterpositionSquaresCorrected(p, white, attacker), j) <==>
      !IsLeaper(p, attacker, white) && BoardTables.Between(OwnKing(p, white), attacker, j)
  {
    if IsLeaper(p, attacker, white) {
      HasZero(j);
    } else {
      BoardTables.ObstructedMeaning(OwnKing(p, white), attacker, j);
    }
  }

  /** The corrected escapes add, after the as-written ones, the blocks on the squares between king and a checking slider. */
  lemma CorrectedEscapesExtend(p: Position, n: int)
    requires WellFormed(p) && n <= 1
    requires !IsLeaper(p, CheckingSquare(p, p.side == White), p.side == White)
    ensures
      var white := p.side == White;
      var attacker := CheckingSquare(p, white);
      CheckEscapesCorrected(p, n) ==
        CheckEscapes(p, n) + Interpositions(p, white, attacker, BoardTables.Obstructed(OwnKing(p, white), attacker))
  {
    SliderCheckNotBlocked(p, n);
  }

  // ------------------------------------------------------ exposed check

  /**
   * `ExposedCheck*` says no when `from` is not on a line with the king,
   * when the move stays on the line it shares with the king, and when a
   * piece already stands between `from` and the king.
   */
  lemma ExposedCheckRuledOut(p: Position, from: nat, to: int, white: bool)
    requires WellFormed(p) && from < 64
    requires
      var increment := BoardTables.DirectionIncrement(from, OwnKing(p, white));
      increment == 0 ||
      BoardTables.AbsInt(increment) == BoardTables.AbsInt(BoardTables.DirectionIncrement(to, from)) ||
      BoardTables.Obstructed(from, OwnKing(p, white)) & p.bitBoard[All] != 0
    ensures !ExposedCheck(p, from, to, white)
  {
    ExposedCheckMeaning(p, from, to, white);
  }
}
