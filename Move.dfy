/**
 * The move value: the squares it connects, the piece that moves, the piece
 * it captures, how it is special (castling, en passant) and what a pawn
 * promotes to; its field-wise equality and its rendering in algebraic
 * notation close to section 8.2.3 of the PGN standard (no disambiguation).
 */
module Moves {
  import opened Globals
  import BoardTables

  datatype Move = Move(
    fromSquare: int,
    toSquare: int,
    movedPiece: Byte,
    capturedPiece: Byte,
    modifier: MoveModifier,
    promotionPiece: Byte)

  /** The default move value: every field zero. */
  const Empty: Move := Move(0, 0, NoPiece, NoPiece, NoModifier, NoPiece)

  /**
   * The move constructor: a move with no modifier and no promotion piece;
   * the captured piece defaults to none.
   */
  function NewMove(fromSquare: int, toSquare: int, movedPiece: Byte, capturedPiece: Byte := NoPiece): (m: Move)
    ensures m.fromSquare == fromSquare && m.toSquare == toSquare
    ensures m.movedPiece == movedPiece && m.capturedPiece == capturedPiece
    ensures m.modifier == NoModifier && m.promotionPiece == NoPiece
  {
    Move(fromSquare, toSquare, movedPiece, capturedPiece, NoModifier, NoPiece)
  }

  /** `Equals` compares the six fields one by one: it is exactly value equality. */
  function Equals(a: Move, b: Move): (r: bool)
    ensures r <==> a == b
  {
    a.fromSquare == b.fromSquare &&
    a.toSquare == b.toSquare &&
    a.promotionPiece == b.promotionPiece &&
    a.movedPiece == b.movedPiece &&
    a.capturedPiece == b.capturedPiece &&
    a.modifier == b.modifier
  }

  predicate IsCapture(m: Move) { m.capturedPiece != NoPiece }

  predicate IsPromotion(m: Move) { m.promotionPiece != NoPiece }

  // --------------------------------------------------------- square names

  /** The letter of a file: 'h' for file 0 up to 'a' for file 7. */
  function FileName(square: int): (r: string)
    ensures |r| == 1 && 'a' <= r[0] <= 'h'
    ensures r[0] as int == 104 - BoardTables.File(square)
  {
    [(104 - BoardTables.File(square)) as char]
  }

  /** The decimal digits of a natural number, most significant first. */
  function Decimal(n: nat): (r: string)
    ensures |r| >= 1
    ensures forall i :: 0 <= i < |r| ==> '0' <= r[i] <= '9'
  {
    if n < 10 then [('0' as int + n) as char] else Decimal(n / 10) + [('0' as int + n % 10) as char]
  }

  /** The rank number of a square, one more than its rank, in decimal. */
  function RankName(square: int): (r: string)
    ensures r == Decimal(BoardTables.Rank(square) + 1)
    ensures 0 <= square < 64 ==> r == [('1' as int + square / 8) as char]
  {
    Decimal(BoardTables.Rank(square) + 1)
  }

  function SquareName(square: int): string
  {
    FileName(square) + RankName(square)
  }

  /**
   * Reading a square name back: a file letter 'a'..'h' followed by a rank
   * digit '1'..'8'.
   */
  function SquareOfName(name: string): (r: Option<int>)
    ensures r.Some? ==> 0 <= r.value < 64
  {
    if |name| == 2 && 'a' <= name[0] <= 'h' && '1' <= name[1] <= '8'
    then Some(8 * (name[1] as int - '1' as int) + (104 - name[0] as int))
    else None
  }

  /** Every square of the board has a two-character name that reads back as the square. */
  lemma SquareNameRoundTrip(square: int)
    requires 0 <= square < 64
    ensures |SquareName(square)| == 2
    ensures SquareOfName(SquareName(square)) == Some(square)
  {
  }

  /** Square 0 is "h1" and square 63 is "a8". */
  lemma SquareNameCorners()
    ensures SquareName(0) == "h1" && SquareName(63) == "a8"
  {
  }

  // ---------------------------------------------------- algebraic notation

  /** The notation suffixes, keyed by the single-flag values of the modifier enumeration. */
  function NotationSuffix(notationModifier: int): (r: Option<string>)
    ensures r.Some? <==> notationModifier in {0, 1, 2, 4, 8, 16, 32, 64, 128}
  {
    match notationModifier
    case 0 => Some("")
    case 1 => Some("+")
    case 2 => Some("#")
    case 4 => Some("!")
    case 8 => Some("!!")
    case 16 => Some("?")
    case 32 => Some("??")
    case 64 => Some("!?")
    case 128 => Some("?!")
    case _ => None
  }

  function UpperChar(c: char): char
  {
    if 'a' <= c <= 'z' then (c as int - 32) as char else c
  }

  function Upper(s: string): (r: string)
    ensures |r| == |s|
  {
    if s == [] then [] else [UpperChar(s[0])] + Upper(s[1..])
  }

  /** The upper-case FEN letter of a piece; none for a code the piece map does not hold. */
  function PieceLetter(piece: Byte): (r: Option<string>)
    ensures r.Some? <==> IsPieceCode(piece)
    ensures r.Some? ==> |r.value| == 1
    ensures IsPieceCode(piece) && piece != NoPiece ==> r.value[0] in "PNBRQK" && r.value[0] == UpperChar(FenLetters[piece])
  {
    match ToFEN(piece)
    case None => None
    case Some(s) => Some(Upper(s))
  }

  /**
   * The move in algebraic notation followed by the suffix of
   * `notationModifier`. The source's dictionary lookups fail (none here) for
   * a piece code outside 0..12 and for a modifier value that is not a
   * single flag. The board argument of the source only reaches a
   * disambiguation step that does nothing, so it is left out.
   */
  function ToAlgebraic(m: Move, notationModifier: int): Option<string>
  {
    var body :=
      if m.modifier == KingSideCastle then Some("O-O")
      else if m.modifier == QueenSideCastle then Some("O-O-O")
      else
        match PieceLetter(m.movedPiece)
        case None => None
        case Some(movedPieceName) =>
          var destination := SquareName(m.toSquare);
          var placed :=
            if m.capturedPiece == NoPiece then
              (if IsPawn(m.movedPiece) then destination else movedPieceName + destination)
            else if IsPawn(m.movedPiece) then FileName(m.fromSquare) + "x" + destination
            else movedPieceName + "x" + destination;
          if m.promotionPiece == NoPiece then Some(placed)
          else
            match PieceLetter(m.promotionPiece)
            case None => None
            case Some(promoted) => Some(placed + "=" + promoted);
    match (body, NotationSuffix(notationModifier))
    case (Some(b), Some(suffix)) => Some(b + suffix)
    case _ => None
  }

  /** The overload without a notation modifier. */
  function ToAlgebraicPlain(m: Move): Option<string>
  {
    ToAlgebraic(m, 0)
  }

  // ------------------------------------------------------ notation lemmas

  /** Castling is written "O-O" or "O-O-O" plus the suffix, whatever the squares and pieces. */
  lemma CastlingNotation(m: Move, notationModifier: int)
    requires m.modifier == KingSideCastle || m.modifier == QueenSideCastle
    requires NotationSuffix(notationModifier).Some?
    ensures ToAlgebraic(m, notationModifier) ==
      Some((if m.modifier == KingSideCastle then "O-O" else "O-O-O") + NotationSuffix(notationModifier).value)
  {
  }

  /** A plain move of a piece that is neither castling nor a promotion. */
  predicate IsPlainMove(m: Move)
  {
    m.modifier != KingSideCastle && m.modifier != QueenSideCastle &&
    m.promotionPiece == NoPiece && IsPieceCode(m.movedPiece)
  }

  /**
   * A quiet pawn move is just its destination; any other quiet move is the
   * upper-case piece letter followed by the destination.
   */
  lemma QuietMoveNotation(m: Move)
    requires IsPlainMove(m) && m.capturedPiece == NoPiece
    ensures IsPawn(m.movedPiece) ==> ToAlgebraicPlain(m) == Some(SquareName(m.toSquare))
    ensures !IsPawn(m.movedPiece) ==>
      ToAlgebraicPlain(m) == Some(PieceLetter(m.movedPiece).value + SquareName(m.toSquare))
  {
    var d := SquareName(m.toSquare);
    assert d + "" == d;
    assert PieceLetter(m.movedPiece).value + d + "" == PieceLetter(m.movedPiece).value + d;
  }

  /**
   * A capture puts "x" before the destination and, before that, the file
   * the pawn came from or the letter of the capturing piece.
   */
  lemma CaptureNotation(m: Move)
    requires IsPlainMove(m) && m.capturedPiece != NoPiece
    ensures IsPawn(m.movedPiece) ==>
      ToAlgebraicPlain(m) == Some(FileName(m.fromSquare) + "x" + SquareName(m.toSquare))
    ensures !IsPawn(m.movedPiece) ==>
      ToAlgebraicPlain(m) == Some(PieceLetter(m.movedPiece).value + "x" + SquareName(m.toSquare))
  {
    var d := SquareName(m.toSquare);
    assert FileName(m.fromSquare) + "x" + d + "" == FileName(m.fromSquare) + "x" + d;
    assert PieceLetter(m.movedPiece).value + "x" + d + "" == PieceLetter(m.movedPiece).value + "x" + d;
  }

  /** A promotion appends "=" and the upper-case letter of the new piece to the plain notation. */
  lemma PromotionNotation(m: Move)
    requires m.modifier != KingSideCastle && m.modifier != QueenSideCastle
    requires m.promotionPiece != NoPiece && IsPieceCode(m.promotionPiece) && IsPieceCode(m.movedPiece)
    ensures ToAlgebraicPlain(m) ==
      Some(ToAlgebraicPlain(m.(promotionPiece := NoPiece)).value + "=" + PieceLetter(m.promotionPiece).value)
  {
    var plain := m.(promotionPiece := NoPiece);
    var d := SquareName(m.toSquare);
    var letter := PieceLetter(m.movedPiece).value;
    var placed :=
      if m.capturedPiece == NoPiece then (if IsPawn(m.movedPiece) then d else letter + d)
      else if IsPawn(m.movedPiece) then FileName(m.fromSquare) + "x" + d
      else letter + "x" + d;
    var promoted := PieceLetter(m.promotionPiece).value;
    assert ToAlgebraicPlain(m) == Some(placed + "=" + promoted + "");
    assert ToAlgebraicPlain(plain) == Some(placed + "");
    assert placed + "" == placed;
    assert placed + "=" + promoted + "" == placed + "=" + promoted;
  }
}
