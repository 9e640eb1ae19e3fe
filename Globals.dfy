/**
 * Squares, pieces, piece categories and the small enumerations every other
 * component of the engine shares.
 *
 * Square numbering: 0 is H1, 7 is A1, 56 is H8, 63 is A8, so that the file
 * of a square is `square % 8` counted from the h-file and its rank is
 * `square / 8` counted from the first rank.
 */
module Globals {

  /** The unsigned 8-bit integer the source stores pieces and flags in. */
  type Byte = x: int | 0 <= x < 256

  datatype Option<T> = None | Some(value: T)

  /** No element of `s` occurs twice. */
  predicate NoDuplicates<T(==)>(s: seq<T>)
  {
    forall i, j :: 0 <= i < j < |s| ==> s[i] != s[j]
  }

  // ---------------------------------------------------------------- squares

  const SquareNone: int := 255
  const H1: int := 0
  const G1: int := 1
  const F1: int := 2
  const E1: int := 3
  const D1: int := 4
  const C1: int := 5
  const B1: int := 6
  const A1: int := 7
  const H8: int := 56
  const G8: int := 57
  const F8: int := 58
  const E8: int := 59
  const D8: int := 60
  const C8: int := 61
  const B8: int := 62
  const A8: int := 63

  /** A square index denotes a square of the board exactly when it is 0..63. */
  function IsValidSquare(square: int): (r: bool)
    ensures r <==> 0 <= square < 64
    ensures r ==> square != SquareNone
  {
    H1 <= square && square <= A8
  }

  // ----------------------------------------------------------------- pieces

  const NoPiece: Byte := 0
  const BlackPawn: Byte := 1
  const BlackKnight: Byte := 2
  const BlackBishop: Byte := 3
  const BlackRook: Byte := 4
  const BlackQueen: Byte := 5
  const BlackKing: Byte := 6
  const WhitePawn: Byte := 7
  const WhiteKnight: Byte := 8
  const WhiteBishop: Byte := 9
  const WhiteRook: Byte := 10
  const WhiteQueen: Byte := 11
  const WhiteKing: Byte := 12

  const Pawn: Byte := 1
  const Knight: Byte := 2
  const Bishop: Byte := 3
  const Rook: Byte := 4
  const Queen: Byte := 5
  const King: Byte := 6

  /** Codes 0..12: no piece, the six black pieces, the six white pieces. */
  predicate IsPieceCode(p: int) { 0 <= p <= 12 }

  predicate IsWhite(piece: Byte) { 7 <= piece <= 12 }

  predicate IsBlack(piece: Byte) { 1 <= piece <= 6 }

  /**
   * The colour-free kind (1 pawn .. 6 king) of a coloured piece. A white
   * piece and the black piece of the same kind map to the same code; codes
   * that are not white pieces are left as they are.
   */
  function GetKind(piece: Byte): (r: Byte)
    ensures IsBlack(piece) ==> r == piece
    ensures IsWhite(piece) ==> IsBlack(r) && r + 6 == piece
    ensures piece == NoPiece ==> r == NoPiece
  {
    if piece > 6 then piece - 6 else piece
  }

  datatype Side = Black | White

  function OtherSide(side: Side): (r: Side)
    ensures r != side
  {
    if side == White then Black else White
  }

  /** The side a piece belongs to; anything that is not black counts as white. */
  function GetSide(piece: Byte): (r: Side)
    ensures r == Black <==> IsBlack(piece)
  {
    if IsBlack(piece) then Black else White
  }

  predicate IsPawn(piece: Byte) { piece == WhitePawn || piece == BlackPawn }
  predicate IsKnight(piece: Byte) { piece == WhiteKnight || piece == BlackKnight }
  predicate IsBishop(piece: Byte) { piece == WhiteBishop || piece == BlackBishop }
  predicate IsRook(piece: Byte) { piece == WhiteRook || piece == BlackRook }
  predicate IsQueen(piece: Byte) { piece == WhiteQueen || piece == BlackQueen }
  predicate IsKing(piece: Byte) { piece == WhiteKing || piece == BlackKing }

  /** The FEN letters, indexed by piece code; "?" stands for no piece. */
  const FenLetters: seq<char> := ['?', 'p', 'n', 'b', 'r', 'q', 'k', 'P', 'N', 'B', 'R', 'Q', 'K']

  /**
   * The one-letter FEN name of a piece code. The dictionary the source
   * looks the code up in knows only the codes 0..12; any other code has no
   * name (the lookup fails).
   */
  function ToFEN(piece: Byte): (r: Option<string>)
    ensures r.Some? <==> IsPieceCode(piece)
    ensures r.Some? ==> |r.value| == 1
    ensures IsBlack(piece) ==> r.value[0] in "pnbrqk"
    ensures IsWhite(piece) ==> r.value[0] in "PNBRQK"
  {
    if piece <= 12 then Some([FenLetters[piece]]) else None
  }

  /**
   * The piece a FEN name denotes. The reverse dictionary knows the thirteen
   * one-letter names, "?" included; any other string is not a key.
   */
  function FromFEN(s: string): (r: Option<Byte>)
    ensures r.Some? ==> IsPieceCode(r.value) && |s| == 1 && FenLetters[r.value] == s[0]
    ensures r.None? ==> forall p :: 0 <= p < |FenLetters| ==> s != [FenLetters[p]]
  {
    if |s| == 1 then FromFenChar(s[0], 0) else None
  }

  function FromFenChar(c: char, from: nat): (r: Option<Byte>)
    requires from <= |FenLetters|
    ensures r.Some? ==> from <= r.value < |FenLetters| && FenLetters[r.value] == c
    ensures r.None? ==> forall p :: from <= p < |FenLetters| ==> FenLetters[p] != c
    decreases |FenLetters| - from
  {
    if from == |FenLetters| then None
    else if FenLetters[from] == c then Some(from)
    else FromFenChar(c, from + 1)
  }

  /** Naming a piece in FEN and reading the name back gives the piece again. */
  lemma {:induction false} FenRoundTrip(piece: Byte)
    requires IsPieceCode(piece)
    ensures ToFEN(piece).Some? && FromFEN(ToFEN(piece).value) == Some(piece)
  {
    var s := ToFEN(piece).value;
    assert s[0] == FenLetters[piece];
    // the FEN letters are pairwise distinct, so the search stops at `piece`
    assert forall i, j :: 0 <= i < j < |FenLetters| ==> FenLetters[i] != FenLetters[j];
  }

  /** Reading a FEN name and naming the piece gives the same name back. */
  lemma FenRoundTripName(s: string)
    requires FromFEN(s).Some?
    ensures ToFEN(FromFEN(s).value) == Some(s)
  {
    assert s == [s[0]];
  }

  // ------------------------------------------------------ piece categories

  /** Bitboard slots after the twelve piece slots (1..12). */
  const All: Byte := 13
  const AllWhite: Byte := 14
  const AllBlack: Byte := 15
  const AllRotated45: Byte := 16
  const AllRotated90: Byte := 17
  const AllRotated135: Byte := 18
  const MaxBitBoard: Byte := 19

  // ----------------------------------------------------------- enumerations

  datatype MoveModifier = NoModifier | KingSideCastle | QueenSideCastle | EnPassant

  /** Castling flags: one bit each. */
  const BlackHasCastled: bv8 := 1
  const BlackCanCastleKingSide: bv8 := 2
  const BlackCanCastleQueenSide: bv8 := 4
  const WhiteHasCastled: bv8 := 8
  const WhiteCanCastleKingSide: bv8 := 16
  const WhiteCanCastleQueenSide: bv8 := 32
  const AllCastlingAvailable: bv8 :=
    BlackCanCastleKingSide | BlackCanCastleQueenSide | WhiteCanCastleKingSide | WhiteCanCastleQueenSide

  /**
   * The three operations the source applies to the flags: testing a bit
   * (`(flags & f) != 0`), clearing it (`flags &= ~f`) and setting it
   * (`flags |= f`). Their bit arithmetic sits a few calls deeper, so that
   * proofs about the board see only the operation; `FlagLaws` states it.
   */
  predicate HasFlag(flags: bv8, f: bv8) { HasFlagAt(flags, f, 2) }

  predicate HasFlagAt(flags: bv8, f: bv8, depth: nat)
    decreases depth
  {
    if depth == 0 then flags & f != 0 else HasFlagAt(flags, f, depth - 1)
  }

  function ClearFlag(flags: bv8, f: bv8): bv8 { ClearFlagAt(flags, f, 2) }

  function ClearFlagAt(flags: bv8, f: bv8, depth: nat): bv8
    decreases depth
  {
    if depth == 0 then flags & !f else ClearFlagAt(flags, f, depth - 1)
  }

  function SetFlag(flags: bv8, f: bv8): bv8 { SetFlagAt(flags, f, 2) }

  function SetFlagAt(flags: bv8, f: bv8, depth: nat): bv8
    decreases depth
  {
    if depth == 0 then flags | f else SetFlagAt(flags, f, depth - 1)
  }

  lemma FlagLaws(flags: bv8, f: bv8)
    ensures HasFlag(flags, f) <==> flags & f != 0
    ensures ClearFlag(flags, f) == flags & !f
    ensures SetFlag(flags, f) == flags | f
  {
  }

  datatype MakeMoveResult = AllGood | SkipMove | UndoMove

  datatype MoveGenerationResult = NotMated | Mated

  datatype GameStage = Opening | EarlyMiddleGame | LateMiddleGame | EndGame
}
