/**
 * What the pawn generators give: captures only onto enemy pieces, which
 * the move records; pushes only onto empty squares; a pawn reaching the
 * last rank promotes, to the queen, rook, bishop and knight in that order
 * or to the queen alone; and the double push exactly from the first rank
 * past an empty square, onto an empty square.
 */
module PawnProperties {
  import opened Globals
  import opened BitOperations
  import opened Moves
  import opened Positions
  import BoardTables
  import opened MoveGeneration
  import MoveProperties

  // --------------------------------------------------------- promotions

  /** The pieces a pawn promotes to, in the order the generators add them. */
  function PromotionPieces(white: bool, allPromotions: bool): seq<Byte>
  {
    if white then [WhiteQueen] + (if allPromotions then [WhiteRook, WhiteBishop, WhiteKnight] else [])
    else [BlackQueen] + (if allPromotions then [BlackRook, BlackBishop, BlackKnight] else [])
  }

  /** The promotions of a move are that move once for each promotion piece, in order. */
  lemma PromotionsInOrder(m: Move, white: bool, allPromotions: bool)
    ensures |Promotions(m, white, allPromotions)| == |PromotionPieces(white, allPromotions)|
    ensures forall i :: 0 <= i < |Promotions(m, white, allPromotions)| ==>
      Promotions(m, white, allPromotions)[i] == m.(promotionPiece := PromotionPieces(white, allPromotions)[i])
  {
  }

  lemma PromotionsMembers(m: Move, white: bool, allPromotions: bool, x: Move)
    ensures x in Promotions(m, white, allPromotions) <==>
      x == m.(promotionPiece := x.promotionPiece) && x.promotionPiece in PromotionPieces(white, allPromotions)
  {
    PromotionsInOrder(m, white, allPromotions);
    var r := Promotions(m, white, allPromotions);
    var pieces := PromotionPieces(white, allPromotions);
    if x in r {
      var i :| 0 <= i < |r| && r[i] == x;
      assert pieces[i] == x.promotionPiece;
    }
  }

  /** The capture generators' promotion test: rank 8 for white, rank 1 for black. */
  predicate PromotesOn(white: bool, sq: int)
  {
    if white then sq >= H8 else sq <= A1
  }

  // ----------------------------------------------------------- captures

  /**
   * A pawn move onto `m.toSquare` from `offset` behind it that records
   * what stands there, promoting exactly when the destination is on the
   * last rank.
   */
  predicate IsPawnMoveFrom(p: Position, white: bool, allPromotions: bool, offset: int, m: Move)
    requires WellFormed(p)
  {
    var to := m.toSquare;
    0 <= to < 64 && m.fromSquare == Behind(to, offset, white) && m.movedPiece == PawnPiece(white) &&
    m.capturedPiece == p.occupant[to] && m.modifier == NoModifier &&
    if PromotesOn(white, to) then m.promotionPiece in PromotionPieces(white, allPromotions) else m.promotionPiece == NoPiece
  }

  lemma PawnCaptureAtMembers(p: Position, offset: int, white: bool, allPromotions: bool, sq: nat, m: Move)
    requires WellFormed(p) && sq < 64
    ensures m in PawnCaptureAt(p, offset, white, allPromotions, sq) <==>
      m.toSquare == sq && IsPawnMoveFrom(p, white, allPromotions, offset, m)
  {
    var base := NewMove(Behind(sq, offset, white), sq, PawnPiece(white), p.occupant[sq]);
    PromotionsMembers(base, white, allPromotions, m);
  }

  /** The moves of a capture direction: one pawn move onto each square of the map. */
  lemma EmittedPawnCaptures(p: Position, offset: int, white: bool, allPromotions: bool, bits: bv64, m: Move)
    requires WellFormed(p)
    ensures m in Emitted(p, PawnCaptures(offset, white, allPromotions), bits) <==>
      0 <= m.toSquare < 64 && Has(bits, m.toSquare) && IsPawnMoveFrom(p, white, allPromotions, offset, m)
  {
    var e := PawnCaptures(offset, white, allPromotions);
    if m in Emitted(p, e, bits) {
      var sq := MoveProperties.EmittedSource(p, e, bits, m);
      PawnCaptureAtMembers(p, offset, white, allPromotions, sq, m);
    } else if 0 <= m.toSquare < 64 && Has(bits, m.toSquare) && IsPawnMoveFrom(p, white, allPromotions, offset, m) {
      PawnCaptureAtMembers(p, offset, white, allPromotions, m.toSquare, m);
      MoveProperties.EmittedComplete(p, e, bits, m.toSquare, m);
    }
  }

  /** A pawn push onto `m.toSquare` that records what stands there and promotes, to a piece of `PromotionPieces`. */
  predicate IsPushPromotion(p: Position, white: bool, allPromotions: bool, m: Move)
    requires WellFormed(p)
  {
    var to := m.toSquare;
    0 <= to < 64 && m.fromSquare == Behind(to, 8, white) && m.movedPiece == PawnPiece(white) &&
    m.capturedPiece == p.occupant[to] && m.modifier == NoModifier &&
    m.promotionPiece in PromotionPieces(white, allPromotions)
  }

  /** The push promotions: one promoting pawn move onto each square of the map. */
  lemma EmittedPushPromotions(p: Position, white: bool, allPromotions: bool, bits: bv64, m: Move)
    requires WellFormed(p)
    ensures m in Emitted(p, PushPromotions(white, allPromotions), bits) <==>
      0 <= m.toSquare < 64 && Has(bits, m.toSquare) && IsPushPromotion(p, white, allPromotions, m)
  {
    var e := PushPromotions(white, allPromotions);
    if m in Emitted(p, e, bits) {
      var sq := MoveProperties.EmittedSource(p, e, bits, m);
      PushPromotionAtMembers(p, white, allPromotions, sq, m);
    } else if 0 <= m.toSquare < 64 && Has(bits, m.toSquare) && IsPushPromotion(p, white, allPromotions, m) {
      PushPromotionAtMembers(p, white, allPromotions, m.toSquare, m);
      MoveProperties.EmittedComplete(p, e, bits, m.toSquare, m);
    }
  }

  lemma PushPromotionAtMembers(p: Position, white: bool, allPromotions: bool, sq: nat, m: Move)
    requires WellFormed(p) && sq < 64
    ensures m in PushPromotionAt(p, white, allPromotions, sq) <==> m.toSquare == sq && IsPushPromotion(p, white, allPromotions, m)
  {
    PromotionsMembers(NewMove(Behind(sq, 8, white), sq, PawnPiece(white), p.occupant[sq]), white, allPromotions, m);
  }

  lemma LastRankMeaning(white: bool, j: nat)
    requires j < 64
    ensures Has(LastRank(white), j) <==> PromotesOn(white, j)
  {
    BoardTables.RankMaskMeaning(if white then 7 else 0, j);
  }

  /**
   * What the capture generators emit: a diagonal pawn move onto an enemy
   * piece, or a push promotion onto an empty square of the last rank.
   */
  predicate IsCaptureGeneratorMove(p: Position, white: bool, allPromotions: bool, m: Move)
    requires WellFormed(p)
  {
    0 <= m.toSquare < 64 &&
    ((Has(EnemySet(p, white), m.toSquare) &&
      (IsPawnMoveFrom(p, white, allPromotions, LeftOffset(white), m) ||
       IsPawnMoveFrom(p, white, allPromotions, RightOffset(white), m))) ||
     (!Has(p.bitBoard[All], m.toSquare) && PromotesOn(white, m.toSquare) &&
      IsPushPromotion(p, white, allPromotions, m)))
  }

  /**
   * `Generate{White,Black}PawnCaptures`: every move captures an enemy
   * piece diagonally and records it, or pushes onto an empty square of
   * the last rank; it promotes exactly on the last rank, to the pieces of
   * `PromotionPieces`.
   */
  lemma PawnCaptureMoveShape(p: Position, white: bool, allPromotions: bool, m: Move)
    requires WellFormed(p) && m in PawnCaptureMoves(p, white, allPromotions)
    ensures IsCaptureGeneratorMove(p, white, allPromotions, m)
  {
    var a := Emitted(p, PawnCaptures(LeftOffset(white), white, allPromotions), LeftCaptureTargets(p, white));
    var b := Emitted(p, PawnCaptures(RightOffset(white), white, allPromotions), RightCaptureTargets(p, white));
    if m in a {
      LeftCaptureShape(p, white, allPromotions, m);
    } else if m in b {
      RightCaptureShape(p, white, allPromotions, m);
    } else {
      PushPromotionShape(p, white, allPromotions, m);
    }
  }

  lemma LeftCaptureShape(p: Position, white: bool, allPromotions: bool, m: Move)
    requires WellFormed(p)
    requires m in Emitted(p, PawnCaptures(LeftOffset(white), white, allPromotions), LeftCaptureTargets(p, white))
    ensures 0 <= m.toSquare < 64 && Has(EnemySet(p, white), m.toSquare)
    ensures IsPawnMoveFrom(p, white, allPromotions, LeftOffset(white), m)
  {
    EmittedPawnCaptures(p, LeftOffset(white), white, allPromotions, LeftCaptureTargets(p, white), m);
    HasAnd(LeftReach(p, white), EnemySet(p, white), m.toSquare);
  }

  lemma RightCaptureShape(p: Position, white: bool, allPromotions: bool, m: Move)
    requires WellFormed(p)
    requires m in Emitted(p, PawnCaptures(RightOffset(white), white, allPromotions), RightCaptureTargets(p, white))
    ensures 0 <= m.toSquare < 64 && Has(EnemySet(p, white), m.toSquare)
    ensures IsPawnMoveFrom(p, white, allPromotions, RightOffset(white), m)
  {
    EmittedPawnCaptures(p, RightOffset(white), white, allPromotions, RightCaptureTargets(p, white), m);
    HasAnd(RightReach(p, white), EnemySet(p, white), m.toSquare);
  }

  lemma PushPromotionShape(p: Position, white: bool, allPromotions: bool, m: Move)
    requires WellFormed(p)
    requires m in Emitted(p, PushPromotions(white, allPromotions), PromotionPushTargets(p, white))
    ensures 0 <= m.toSquare < 64 && !Has(p.bitBoard[All], m.toSquare) && PromotesOn(white, m.toSquare)
    ensures IsPushPromotion(p, white, allPromotions, m)
  {
    EmittedPushPromotions(p, white, allPromotions, PromotionPushTargets(p, white), m);
    PromotionPushSquare(p, white, m.toSquare);
  }

  /** The push-promotion map: the empty squares of the last rank one step ahead of a pawn. */
  lemma PromotionPushSquare(p: Position, white: bool, to: nat)
    requires WellFormed(p) && to < 64
    ensures Has(PromotionPushTargets(p, white), to) <==>
      Has(PushReach(p, white), to) && !Has(p.bitBoard[All], to) && PromotesOn(white, to)
  {
    LastRankMeaning(white, to);
    PromotionPushBits(PushReach(p, white), p.bitBoard[All], LastRank(white), PromotesOn(white, to), to);
  }

  lemma PromotionPushBits(reach: bv64, all: bv64, last: bv64, promotes: bool, to: nat)
    requires to < 64 && (Has(last, to) <==> promotes)
    ensures Has(Intersection(Except(reach, all), last), to) <==> Has(reach, to) && !Has(all, to) && promotes
  {
  }

  // -------------------------------------------------------------- pushes

  /** The quiet push map: the empty squares off the last rank one step ahead of a pawn. */
  lemma QuietPushSquare(p: Position, white: bool, to: nat)
    requires WellFormed(p) && to < 64
    ensures Has(QuietPushTargets(p, white), to) <==>
      Has(PushReach(p, white), to) && !Has(p.bitBoard[All], to) && !PromotesOn(white, to)
  {
    LastRankMeaning(white, to);
    QuietPushBits(PushReach(p, white), p.bitBoard[All], LastRank(white), PromotesOn(white, to), to);
  }

  lemma QuietPushBits(reach: bv64, all: bv64, last: bv64, promotes: bool, to: nat)
    requires to < 64 && (Has(last, to) <==> promotes)
    ensures Has(Except(Except(reach, all), last), to) <==> Has(reach, to) && !Has(all, to) && !promotes
  {
  }

  /** The square two steps ahead of `sq`, seen from the side to move. */
  function Ahead(sq: int, white: bool): int
  {
    if white then sq + 8 else sq - 8
  }

  /** The first-rank test of `PawnPushAt`: a single push onto the third rank (white) or the sixth (black). */
  predicate OnDoubleStepRank(white: bool, sq: int)
  {
    if white then sq < 24 else sq > 39
  }

  /** A single push onto an empty square off the last rank. */
  predicate IsSinglePush(p: Position, white: bool, m: Move)
    requires WellFormed(p)
  {
    var to := m.toSquare;
    0 <= to < 64 && m == NewMove(Behind(to, 8, white), to, PawnPiece(white)) &&
    !Has(p.bitBoard[All], to) && !PromotesOn(white, to)
  }

  /** A double push past `over`, an empty square the single push reaches, onto an empty square. */
  predicate IsDoublePush(p: Position, white: bool, over: int, m: Move)
    requires WellFormed(p)
  {
    0 <= over < 64 && OnDoubleStepRank(white, over) &&
    m == NewMove(Behind(over, 8, white), Ahead(over, white), PawnPiece(white)) &&
    !Has(p.bitBoard[All], over) && !PromotesOn(white, over) &&
    0 <= Ahead(over, white) < 64 && p.occupant[Ahead(over, white)] == NoPiece
  }

  /**
   * `Generate{White,Black}PawnNonCaptures`: every move is a single push
   * onto an empty square off the last rank, or a double push from the
   * first rank past such a square onto an empty one.
   */
  lemma PawnQuietMoveShape(p: Position, white: bool, m: Move)
    requires WellFormed(p) && m in PawnQuietMoves(p, white)
    ensures IsSinglePush(p, white, m) || IsDoublePush(p, white, Behind(m.toSquare, 8, white), m)
  {
    var sq := MoveProperties.EmittedSource(p, PawnPushes(white), QuietPushTargets(p, white), m);
    QuietPushSquare(p, white, sq);
    EmitAtPushes(p, white, sq);
    PawnPushAtShape(p, white, sq, m);
  }

  lemma EmitAtPushes(p: Position, white: bool, sq: nat)
    requires WellFormed(p) && sq < 64
    ensures EmitAt(p, PawnPushes(white), sq) == PawnPushAt(p, white, sq)
  {
  }

  lemma PawnPushAtShape(p: Position, white: bool, sq: nat, m: Move)
    requires WellFormed(p) && sq < 64 && m in PawnPushAt(p, white, sq)
    requires !Has(p.bitBoard[All], sq) && !PromotesOn(white, sq)
    ensures IsSinglePush(p, white, m) || IsDoublePush(p, white, Behind(m.toSquare, 8, white), m)
  {
  }

  /** Each square of the quiet push map gives its single push. */
  lemma SinglePushPresent(p: Position, white: bool, to: nat)
    requires WellFormed(p) && to < 64 && Has(QuietPushTargets(p, white), to)
    ensures NewMove(Behind(to, 8, white), to, PawnPiece(white)) in PawnQuietMoves(p, white)
  {
    MoveProperties.EmittedComplete(p, PawnPushes(white), QuietPushTargets(p, white), to,
      NewMove(Behind(to, 8, white), to, PawnPiece(white)));
  }

  /** A square of the quiet push map on the double-step rank, with the square beyond empty, gives the double push. */
  lemma DoublePushPresent(p: Position, white: bool, over: nat)
    requires WellFormed(p) && over < 64 && Has(QuietPushTargets(p, white), over)
    requires OnDoubleStepRank(white, over) && p.occupant[Ahead(over, white)] == NoPiece
    ensures NewMove(Behind(over, 8, white), Ahead(over, white), PawnPiece(white)) in PawnQuietMoves(p, white)
  {
    MoveProperties.EmittedComplete(p, PawnPushes(white), QuietPushTargets(p, white), over,
      NewMove(Behind(over, 8, white), Ahead(over, white), PawnPiece(white)));
  }

  // ------------------------------------------------ white pawn attacks on a8

  /**
   * As written, the white pawn term of the attack set of a8 fills the top
   * ten bits of the word: a white pawn on a7 (square 55), which attacks only
   * b8, is counted as an attacker of a8.
   */
  lemma WhitePawnSourcesOfA8()
    ensures WhitePawnSources(A8) == 0xFFC0_0000_0000_0000
    ensures Has(WhitePawnSources(A8), 55)
  {
    MaskValue63(A8);
    BoardTables.ZeroLeftMeaning(A8);
    BoardTables.ZeroRightMeaning(A8);
    HasMeaning(BoardTables.ZeroLeft, A8);
    HasMeaning(BoardTables.ZeroRight, A8);
    HasMeaning(0xFFC0_0000_0000_0000, 55);
    MaskValue55(55);
  }

  /**
   * With the unsigned shift, a8 is attacked by a white pawn from b7 alone,
   * and on every other square the two forms agree.
   */
  lemma WhitePawnSourcesCorrectedOfA8()
    ensures WhitePawnSourcesCorrected(A8) == SquareMask(54)
    ensures forall j :: 0 <= j < 64 ==> (Has(WhitePawnSourcesCorrected(A8), j) <==> j == 54)
  {
    MaskValue63(A8);
    MaskValue54(54);
    BoardTables.ZeroLeftMeaning(A8);
    BoardTables.ZeroRightMeaning(A8);
    HasMeaning(BoardTables.ZeroLeft, A8);
    HasMeaning(BoardTables.ZeroRight, A8);
    forall j | 0 <= j < 64
      ensures Has(SquareMask(54), j) <==> j == 54
    {
      HasSquareMask(54, j);
    }
  }

  /** Below a8 the sign bit of the masked square is clear, so the signed and unsigned shifts agree. */
  lemma WhitePawnSourcesAgreeBelowA8(sq: int)
    requires 0 <= sq < 63
    ensures WhitePawnSources(sq) == WhitePawnSourcesCorrected(sq)
  {
    SignClearBelowA8(sq);
    PawnTermsAgree(SquareMask(sq), BoardTables.ZeroLeft, BoardTables.ZeroRight);
  }

  /** With the sign bit clear, both shifted pawn terms are the unsigned ones. */
  lemma PawnTermsAgree(m: bv64, zl: bv64, zr: bv64)
    requires m & 0x8000_0000_0000_0000 == 0
    ensures SignedPawnTerms(m, zl, zr) == UnsignedPawnTerms(m, zl, zr)
  {
    SignClearStays(m, zl, 7);
    SignClearStays(m, zr, 9);
  }

  /** The mask of a square below a8 has its sign bit clear. */
  lemma SignClearBelowA8(sq: int)
    requires 0 <= sq < 63
    ensures SquareMask(sq) & 0x8000_0000_0000_0000 == 0
  {
    var m := SquareMask(sq);
    HasMeaning(m, 63);
    HasSquareMask(sq, 63);
    MaskValue63(63);
  }

  /** Masking a word whose sign bit is clear keeps it clear, and the signed shift is then the unsigned one. */
  lemma SignClearStays(m: bv64, z: bv64, n: nat)
    requires m & 0x8000_0000_0000_0000 == 0 && n < 64
    ensures SignedShiftRight(m & z, n) == (m & z) >> n
  {
    assert (m & z) & 0x8000_0000_0000_0000 == 0;
  }
}
