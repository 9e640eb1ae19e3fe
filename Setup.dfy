/**
 * Setting a board up from a FEN record (section 16.1 of the PGN standard),
 * as `Board.SetBoard`, `InitializeBitBoards` and `InitializeHashes` do it.
 * The functions here follow the source's loops step by step; the class in
 * module Boards runs those loops in place. The lemmas say what the record's
 * fields become: the pieces of each rank, the side to move, the castling
 * rights the parser computes (and then drops) and the en-passant square,
 * and that a board set up this way has bitboards, king squares and a hash
 * that describe its occupants.
 */
module Setup {
  import opened Globals
  import opened BitOperations
  import opened Zobrist
  import opened Moves
  import opened Positions
  import opened MoveMaking
  import BoardTables

  // ------------------------------------------------------------ splitting

  /**
   * `String.Split` with one separator and empty entries removed: the
   * maximal runs of characters other than `sep`, in order.
   */
  function Split(s: string, sep: char): (r: seq<string>)
    ensures forall i :: 0 <= i < |r| ==> |r[i]| > 0 && sep !in r[i]
  {
    SplitFrom(s, sep, "")
  }

  /** The fields of `s`, the first of them continuing `field`. */
  function SplitFrom(s: string, sep: char, field: string): (r: seq<string>)
    requires sep !in field
    ensures forall i :: 0 <= i < |r| ==> |r[i]| > 0 && sep !in r[i]
    decreases |s|
  {
    if |s| == 0 then (if field == "" then [] else [field])
    else if s[0] == sep then (if field == "" then [] else [field]) + SplitFrom(s[1..], sep, "")
    else SplitFrom(s[1..], sep, field + [s[0]])
  }

  /** A string without the separator is one field of its own, or none when it is empty. */
  lemma {:induction false} SplitWithoutSeparator(s: string, sep: char, field: string)
    requires sep !in field && sep !in s
    ensures SplitFrom(s, sep, field) == if field + s == "" then [] else [field + s]
    decreases |s|
  {
    if |s| > 0 {
      assert s[0] in s;
      SplitWithoutSeparator(s[1..], sep, field + [s[0]]);
      assert field + [s[0]] + s[1..] == field + s;
    } else {
      assert field + s == field;
    }
  }

  /** A separator ends the field before it; the fields after it are those of the rest. */
  lemma {:induction false} SplitAtSeparator(a: string, b: string, sep: char, field: string)
    requires sep !in field && sep !in a
    ensures SplitFrom(a + [sep] + b, sep, field) ==
      (if field + a == "" then [] else [field + a]) + SplitFrom(b, sep, "")
    decreases |a|
  {
    if |a| == 0 {
      assert field + a == field;
      assert a + [sep] + b == [sep] + b;
      assert ([sep] + b)[1..] == b;
    } else {
      assert (a + [sep] + b)[0] == a[0];
      assert (a + [sep] + b)[1..] == a[1..] + [sep] + b;
      SplitAtSeparator(a[1..], b, sep, field + [a[0]]);
      assert field + [a[0]] + a[1..] == field + a;
    }
  }

  // ------------------------------------------------------- piece placement

  predicate IsDigit(c: char) { '0' <= c <= '9' }

  function DigitValue(c: char): int { c as int - '0' as int }

  /**
   * One rank of the placement field, read from file `f` downwards on rank
   * `r`: a digit skips that many files, any other character must be a
   * piece letter (or '?', the name of no piece) and lands on square
   * f + 8 r, which must be on the board. `None` is the exception the
   * source raises otherwise: the dictionary of names has no entry for the
   * character, or the square is off the occupant array.
   */
  function PlaceRank(occ: seq<Byte>, rank: string, f: int, r: int): (res: Option<seq<Byte>>)
    requires ValidOccupants(occ)
    ensures res.Some? ==> ValidOccupants(res.value)
    decreases |rank|
  {
    if |rank| == 0 then Some(occ)
    else
      var c := rank[0];
      if IsDigit(c) then PlaceRank(occ, rank[1..], f - DigitValue(c), r)
      else
        match FromFEN([c])
        case None => None
        case Some(piece) =>
          if 0 <= f + 8 * r < 64 then PlaceRank(occ[f + 8 * r := piece], rank[1..], f - 1, r)
          else None
  }

  /** The ranks of the placement field, the first on rank 7 (the eighth rank), each one below the last. */
  function PlaceRanks(occ: seq<Byte>, ranks: seq<string>, r: int): (res: Option<seq<Byte>>)
    requires ValidOccupants(occ)
    ensures res.Some? ==> ValidOccupants(res.value)
    decreases |ranks|
  {
    if |ranks| == 0 then Some(occ)
    else
      match PlaceRank(occ, ranks[0], 7, r)
      case None => None
      case Some(placed) => PlaceRanks(placed, ranks[1..], r - 1)
  }

  /** The occupants after the loop that empties every square. */
  function EmptyOccupants(): (r: seq<Byte>)
    ensures ValidOccupants(r) && forall sq :: 0 <= sq < 64 ==> r[sq] == NoPiece
  {
    seq(64, sq => NoPiece)
  }

  /** The piece named by each character of a rank, with a digit d standing for d empty squares. */
  function ExpandRank(rank: string): seq<Option<Byte>>
  {
    if |rank| == 0 then []
    else if IsDigit(rank[0]) then seq(DigitValue(rank[0]), _ => None) + ExpandRank(rank[1..])
    else [FromFEN([rank[0]])] + ExpandRank(rank[1..])
  }

  /** A rank every character of which is a digit or a piece letter and which covers at most the files from `f` down. */
  predicate FitsRank(rank: string, f: int)
  {
    (forall i :: 0 <= i < |rank| ==> IsDigit(rank[i]) || FromFEN([rank[i]]).Some?) &&
    |ExpandRank(rank)| <= f + 1
  }

  /**
   * Reading a rank that fits on the board: the piece named at position i
   * of the expanded rank stands on file f - i of rank r, and every other
   * square keeps what it held. (The source never writes the squares the
   * digits skip; the loop before it has emptied them.)
   */
  lemma {:induction false} PlaceRankMeaning(occ: seq<Byte>, rank: string, f: int, r: int)
    requires ValidOccupants(occ) && 0 <= r < 8 && f <= 7 && FitsRank(rank, f)
    ensures var res := PlaceRank(occ, rank, f, r);
      var e := ExpandRank(rank);
      res.Some? &&
      (forall i :: 0 <= i < |e| && e[i].Some? ==> res.value[f - i + 8 * r] == e[i].value) &&
      (forall sq :: 0 <= sq < 64 && !(8 * r + f - |e| < sq <= 8 * r + f && e[8 * r + f - sq].Some?) ==>
         res.value[sq] == occ[sq])
    decreases |rank|
  {
    if |rank| > 0 {
      var c := rank[0];
      var e := ExpandRank(rank);
      var rest := ExpandRank(rank[1..]);
      assert forall i :: 0 <= i < |rank[1..]| ==> rank[1..][i] == rank[i + 1];
      if IsDigit(c) {
        var d := DigitValue(c);
        assert e == seq(d, _ => None) + rest;
        PlaceRankMeaning(occ, rank[1..], f - d, r);
      } else {
        var piece := FromFEN([c]).value;
        assert e == [Some(piece)] + rest;
        assert 0 <= f + 8 * r < 64;
        PlaceRankMeaning(occ[f + 8 * r := piece], rank[1..], f - 1, r);
      }
    }
  }

  // ------------------------------------------------------------ the fields

  /**
   * The castling rights the parser computes: all four, and with a castling
   * field each right whose letter (K, Q, k, q) the field lacks cleared.
   */
  function CastlingField(parts: seq<string>): bv8
  {
    if |parts| > 2 then
      var f0 := AllCastlingAvailable;
      var f1 := if 'K' !in parts[2] then ClearFlag(f0, WhiteCanCastleKingSide) else f0;
      var f2 := if 'Q' !in parts[2] then ClearFlag(f1, WhiteCanCastleQueenSide) else f1;
      var f3 := if 'k' !in parts[2] then ClearFlag(f2, BlackCanCastleKingSide) else f2;
      if 'q' !in parts[2] then ClearFlag(f3, BlackCanCastleQueenSide) else f3
    else AllCastlingAvailable
  }

  /**
   * The ASCII code the source reads for the upper-cased file letter: the
   * letters a..z become A..Z, other ASCII characters stay, and anything
   * beyond ASCII encodes as '?'.
   */
  function UpperAsciiCode(c: char): int
  {
    if 'a' <= c <= 'z' then c as int - 32 else if c as int < 128 then c as int else '?' as int
  }

  /**
   * The en-passant field: `SquareNone` unless it has exactly two
   * characters; then 7 - (X - 'A') + (N - 1) 8 for the upper-cased
   * letter X and the digit N, with no range check. `None` is the exception
   * `int.Parse` raises when the second character is not a digit.
   */
  function EnPassantField(parts: seq<string>): Option<int>
  {
    if |parts| > 3 && |parts[3]| == 2 then
      if IsDigit(parts[3][1]) then Some(7 - (UpperAsciiCode(parts[3][0]) - 65) + (DigitValue(parts[3][1]) - 1) * 8)
      else None
    else Some(SquareNone)
  }

  /** The position of a new board: every square and bitboard empty, every scalar at its default. */
  function NewPosition(): (r: Position)
    ensures WellFormed(r)
  {
    Position(EmptyOccupants(), seq(19, k => 0), 0, 0, 0, 0, White, Opening, 0, 0, 0, 0)
  }

  /** What the parser makes of a record: the occupants, the side, its (unused) castling rights and the en-passant number. */
  datatype FenFields = FenFields(occupant: seq<Byte>, side: Side, castleFlags: bv8, enPassantSquare: int)

  /**
   * `SetBoard`: the occupants are emptied and then placed from the first
   * field (left as they were when the record has no field at all), the side
   * is Black exactly for a second field "b", and the en-passant number is
   * read from the fourth field. `None` when the source raises an exception.
   */
  function ParseFEN(occ: seq<Byte>, fen: string): (r: Option<FenFields>)
    requires ValidOccupants(occ)
    ensures r.Some? ==> ValidOccupants(r.value.occupant)
  {
    ParseFields(occ, Split(fen, ' '))
  }

  /** The fields of a record, split at the spaces. */
  function ParseFields(occ: seq<Byte>, parts: seq<string>): (r: Option<FenFields>)
    requires ValidOccupants(occ)
    ensures r.Some? ==> ValidOccupants(r.value.occupant)
  {
    var placed := if |parts| > 0 then PlaceRanks(EmptyOccupants(), Split(parts[0], '/'), 7) else Some(occ);
    var side := if |parts| > 1 && parts[1] == "b" then Black else White;
    var ep := EnPassantField(parts);
    if placed.None? || ep.None? then None
    else Some(FenFields(placed.value, side, CastlingField(parts), ep.value))
  }

  /**
   * The board after `SetBoard` as written: the occupants, the side and the
   * en-passant square are stored; the castling rights are computed and
   * dropped, so the flags keep their old value. `None` also when the
   * en-passant number is neither a square nor `SquareNone`: the hashing
   * that follows on every path through the constructor indexes the
   * en-passant keys with it and raises an exception.
   */
  function SetBoardSpec(p: Position, fen: string): (r: Option<Position>)
    requires WellFormed(p)
    ensures r.Some? ==> WellFormed(r.value)
  {
    match ParseFEN(p.occupant, fen)
    case None => None
    case Some(fields) =>
      if fields.enPassantSquare == SquareNone || IsValidSquare(fields.enPassantSquare) then
        Some(p.(occupant := fields.occupant, side := fields.side, enPassantSquare := fields.enPassantSquare))
      else None
  }

  /** `SetBoard` as evidently intended: the castling rights read from the record are stored as well. */
  function SetBoardCorrected(p: Position, fen: string): (r: Option<Position>)
    requires WellFormed(p)
    ensures r.Some? ==> WellFormed(r.value)
    ensures r.Some? ==> var parts := Split(fen, ' ');
      CastlingRightsRead(parts, r.value.castleFlags)
  {
    match SetBoardSpec(p, fen)
    case None => None
    case Some(q) =>
      var parts := Split(fen, ' ');
      CastlingFieldMeaning(parts);
      Some(q.(castleFlags := CastlingField(parts)))
  }

  /**
   * As written, a board built from a record has no castling rights at all,
   * whatever the castling field grants: with "KQkq" every right is lost.
   * Storing the parsed rights, the corrected constructor keeps each one the
   * record grants.
   */
  lemma FromFENDropsCastling(fen: string, keys: ZobristKeys)
    requires ValidKeys(keys) && FromFENSpec(NewPosition(), fen, keys).Some?
    ensures FromFENSpec(NewPosition(), fen, keys).value.castleFlags == 0
    ensures Granted(Split(fen, ' '), 'K') ==>
      !HasFlag(FromFENSpec(NewPosition(), fen, keys).value.castleFlags, WhiteCanCastleKingSide) &&
      HasFlag(SetBoardCorrected(NewPosition(), fen).value.castleFlags, WhiteCanCastleKingSide)
  {
    var q := SetBoardSpec(NewPosition(), fen).value;
    assert q.castleFlags == 0;
    FlagLaws(0, WhiteCanCastleKingSide);
  }

  /** Flags that hold the four rights the castling field grants (all four without a field) and no has-castled bit. */
  predicate CastlingRightsRead(parts: seq<string>, flags: bv8)
  {
    (HasFlag(flags, WhiteCanCastleKingSide) <==> Granted(parts, 'K')) &&
    (HasFlag(flags, WhiteCanCastleQueenSide) <==> Granted(parts, 'Q')) &&
    (HasFlag(flags, BlackCanCastleKingSide) <==> Granted(parts, 'k')) &&
    (HasFlag(flags, BlackCanCastleQueenSide) <==> Granted(parts, 'q')) &&
    !HasFlag(flags, WhiteHasCastled) && !HasFlag(flags, BlackHasCastled)
  }

  /** A right the record grants: there is no castling field, or it holds the right's letter. */
  predicate Granted(parts: seq<string>, letter: char)
  {
    |parts| <= 2 || letter in parts[2]
  }

  /** The castling rights the parser computes are exactly those the field grants. */
  lemma CastlingFieldMeaning(parts: seq<string>)
    ensures CastlingRightsRead(parts, CastlingField(parts))
  {
    var f0 := AllCastlingAvailable;
    FlagLaws(f0, WhiteCanCastleKingSide);
    var f1 := if |parts| > 2 && 'K' !in parts[2] then ClearFlag(f0, WhiteCanCastleKingSide) else f0;
    FlagLaws(f1, WhiteCanCastleQueenSide);
    var f2 := if |parts| > 2 && 'Q' !in parts[2] then ClearFlag(f1, WhiteCanCastleQueenSide) else f1;
    FlagLaws(f2, BlackCanCastleKingSide);
    var f3 := if |parts| > 2 && 'k' !in parts[2] then ClearFlag(f2, BlackCanCastleKingSide) else f2;
    FlagLaws(f3, BlackCanCastleQueenSide);
    var f4 := if |parts| > 2 && 'q' !in parts[2] then ClearFlag(f3, BlackCanCastleQueenSide) else f3;
    assert CastlingField(parts) == f4;
    FlagLaws(f4, WhiteCanCastleKingSide);
    FlagLaws(f4, WhiteCanCastleQueenSide);
    FlagLaws(f4, BlackCanCastleKingSide);
    FlagLaws(f4, BlackCanCastleQueenSide);
    FlagLaws(f4, WhiteHasCastled);
    FlagLaws(f4, BlackHasCastled);
  }

  /** The en-passant field reads back the square a square name names: "e3" is square 19. */
  lemma EnPassantFieldReadsSquareName(parts: seq<string>, sq: int)
    requires 0 <= sq < 64 && |parts| > 3 && parts[3] == SquareName(sq)
    ensures EnPassantField(parts) == Some(sq)
  {
    SquareNameRoundTrip(sq);
    var name := SquareName(sq);
    assert name[0] as int == 104 - BoardTables.File(sq);
    assert name[1] as int == '1' as int + sq / 8;
  }

  // ------------------------------------------------------------ bitboards

  /** `InitializeBitBoards` zeroes every board but index 0 and the two king boards. */
  function ClearedBoards(bb: seq<bv64>): (r: seq<bv64>)
    requires |bb| == 19
    ensures |r| == 19
  {
    seq(19, k requires 0 <= k < 19 => if k == 0 || k == WhiteKing || k == BlackKing then bb[k] else 0)
  }

  /** Board k after square sq, holding `piece`, is marked: all pieces, the three rotated boards, the piece's board and its colour. */
  function AddedBoard(b: bv64, k: int, sq: int, piece: Byte): bv64
    requires 0 <= sq < 64
  {
    if k == All then With(b, sq)
    else if k == AllRotated45 then With(b, Rot45(sq))
    else if k == AllRotated90 then With(b, Rot90(sq))
    else if k == AllRotated135 then With(b, Rot135(sq))
    else if k == piece || k == ColorCategory(piece) then With(b, sq)
    else b
  }

  function AddSquare(bb: seq<bv64>, sq: int, piece: Byte): (r: seq<bv64>)
    requires |bb| == 19 && 0 <= sq < 64
    ensures |r| == 19
  {
    seq(19, k requires 0 <= k < 19 => AddedBoard(bb[k], k, sq, piece))
  }

  /** The boards after the loop has visited squares 0 .. n-1. */
  function BoardsUpTo(bb: seq<bv64>, occ: seq<Byte>, n: nat): (r: seq<bv64>)
    requires |bb| == 19 && ValidOccupants(occ) && n <= 64
    ensures |r| == 19
  {
    if n == 0 then ClearedBoards(bb)
    else
      var prev := BoardsUpTo(bb, occ, n - 1);
      if occ[n - 1] != NoPiece then AddSquare(prev, n - 1, occ[n - 1]) else prev
  }

  /** The king square after the loop has visited squares 0 .. n-1: the last square below n holding `king`, else `current`. */
  function KingUpTo(occ: seq<Byte>, n: nat, king: Byte, current: int): (r: int)
    requires ValidOccupants(occ) && n <= 64
    ensures r == current || (0 <= r < n && occ[r] == king)
  {
    if n == 0 then current
    else if occ[n - 1] == king then n - 1
    else KingUpTo(occ, n - 1, king, current)
  }

  /** `InitializeBitBoards`: the boards and the king squares from the occupants, then the game stage. */
  function InitializeBitBoardsSpec(p: Position): (r: Position)
    requires WellFormed(p)
    ensures WellFormed(r)
  {
    UpdateGameStageSpec(p.(bitBoard := BoardsUpTo(p.bitBoard, p.occupant, 64),
                           whiteKingSquare := KingUpTo(p.occupant, 64, WhiteKing, p.whiteKingSquare),
                           blackKingSquare := KingUpTo(p.occupant, 64, BlackKing, p.blackKingSquare)))
  }

  /** `InitializeHashes`: the hash key computed from scratch. The pawn hash key is left alone. */
  function InitializeHashesSpec(p: Position, keys: ZobristKeys): (r: Position)
    requires WellFormed(p) && ValidKeys(keys)
    ensures WellFormed(r)
  {
    p.(hashKey := HashOf(p.occupant, p.enPassantSquare, p.castleFlags, keys))
  }

  /** The board the `FromFEN` constructor builds on a new board, `None` when it raises an exception. */
  function FromFENSpec(p: Position, fen: string, keys: ZobristKeys): (r: Option<Position>)
    requires WellFormed(p) && ValidKeys(keys)
    ensures r.Some? ==> WellFormed(r.value)
  {
    match SetBoardSpec(p, fen)
    case None => None
    case Some(q) => Some(InitializeHashesSpec(InitializeBitBoardsSpec(q), keys))
  }

  // ------------------------------------------------------- what setup keeps

  /** The occupants the loop has seen after visiting squares 0 .. n-1: those squares, and nothing beyond. */
  function VisitedOccupants(occ: seq<Byte>, n: nat): (r: seq<Byte>)
    requires ValidOccupants(occ)
    ensures ValidOccupants(r)
  {
    seq(64, j requires 0 <= j < 64 => if j < n then occ[j] else NoPiece)
  }

  /**
   * After the loop has visited squares 0 .. n-1, the boards describe the
   * occupants it has seen, the all-pieces board included, provided the two
   * king boards (which the source does not zero) start empty.
   */
  predicate DescribesUpTo(occ: seq<Byte>, bb: seq<bv64>, n: nat)
    requires ValidOccupants(occ) && |bb| == 19
  {
    var seen := VisitedOccupants(occ, n);
    BoardsAgree(seen, bb, NoPiece, 0) &&
    forall j: nat :: j < 64 ==> (Has(bb[All], j) <==> seen[j] != NoPiece)
  }

  lemma ClearedDescribesNothing(occ: seq<Byte>, bb: seq<bv64>)
    requires ValidOccupants(occ) && |bb| == 19 && bb[WhiteKing] == 0 && bb[BlackKing] == 0
    ensures DescribesUpTo(occ, ClearedBoards(bb), 0)
  {
    var cleared := ClearedBoards(bb);
    var seen := VisitedOccupants(occ, 0);
    forall j: nat | j < 64
      ensures SquareAgrees(seen, cleared, j, NoPiece, 0) && !Has(cleared[All], j)
    {
      HasZero(j); HasZero(Rot90(j)); HasZero(Rot45(j)); HasZero(Rot135(j));
    }
  }

  /** The bits of the boards after square sq, holding `piece`, is marked. */
  lemma AddSquareBits(bb: seq<bv64>, sq: int, piece: Byte, j: nat)
    requires |bb| == 19 && 0 <= sq < 64 && 1 <= piece <= 12 && j < 64
    ensures var r := AddSquare(bb, sq, piece);
      (forall k :: 1 <= k <= 12 ==> (Has(r[k], j) <==> Has(bb[k], j) || (j == sq && k == piece))) &&
      (Has(r[All], j) <==> Has(bb[All], j) || j == sq) &&
      (Has(r[AllWhite], j) <==> Has(bb[AllWhite], j) || (j == sq && IsWhite(piece))) &&
      (Has(r[AllBlack], j) <==> Has(bb[AllBlack], j) || (j == sq && IsBlack(piece))) &&
      (Has(r[AllRotated90], Rot90(j)) <==> Has(bb[AllRotated90], Rot90(j)) || j == sq) &&
      (Has(r[AllRotated45], Rot45(j)) <==> Has(bb[AllRotated45], Rot45(j)) || j == sq) &&
      (Has(r[AllRotated135], Rot135(j)) <==> Has(bb[AllRotated135], Rot135(j)) || j == sq)
  {
    if j != sq { RotatedSquaresDiffer(j, sq); }
  }

  /** One square more: adding square n to boards that describe squares below n. */
  lemma AddSquareDescribes(occ: seq<Byte>, bb: seq<bv64>, n: nat)
    requires ValidOccupants(occ) && |bb| == 19 && n < 64 && DescribesUpTo(occ, bb, n)
    ensures DescribesUpTo(occ, if occ[n] != NoPiece then AddSquare(bb, n, occ[n]) else bb, n + 1)
  {
    if occ[n] != NoPiece {
      PieceSquareDescribes(occ, bb, n);
    } else {
      EmptySquareDescribes(occ, bb, n);
    }
  }

  lemma PieceSquareDescribes(occ: seq<Byte>, bb: seq<bv64>, n: nat)
    requires ValidOccupants(occ) && |bb| == 19 && n < 64 && DescribesUpTo(occ, bb, n) && occ[n] != NoPiece
    ensures DescribesUpTo(occ, AddSquare(bb, n, occ[n]), n + 1)
  {
    var added := AddSquare(bb, n, occ[n]);
    var after := VisitedOccupants(occ, n + 1);
    forall j: nat | j < 64
      ensures SquareAgrees(after, added, j, NoPiece, 0) && (Has(added[All], j) <==> after[j] != NoPiece)
    {
      AddSquareAt(occ, bb, n, j);
    }
  }

  lemma EmptySquareDescribes(occ: seq<Byte>, bb: seq<bv64>, n: nat)
    requires ValidOccupants(occ) && |bb| == 19 && n < 64 && DescribesUpTo(occ, bb, n) && occ[n] == NoPiece
    ensures DescribesUpTo(occ, bb, n + 1)
  {
    var before, after := VisitedOccupants(occ, n), VisitedOccupants(occ, n + 1);
    forall j: nat | j < 64
      ensures SquareAgrees(after, bb, j, NoPiece, 0) && (Has(bb[All], j) <==> after[j] != NoPiece)
    {
      SameOccupantAgrees(before, after, bb, j);
    }
  }

  lemma SameOccupantAgrees(a: seq<Byte>, b: seq<Byte>, bb: seq<bv64>, j: nat)
    requires ValidOccupants(a) && ValidOccupants(b) && |bb| == 19 && j < 64 && a[j] == b[j]
    requires SquareAgrees(a, bb, j, NoPiece, 0)
    ensures SquareAgrees(b, bb, j, NoPiece, 0)
  {
  }

  lemma AddSquareAt(occ: seq<Byte>, bb: seq<bv64>, n: nat, j: nat)
    requires ValidOccupants(occ) && |bb| == 19 && n < 64 && j < 64 && occ[n] != NoPiece
    requires SquareAgrees(VisitedOccupants(occ, n), bb, j, NoPiece, 0)
    requires Has(bb[All], j) <==> VisitedOccupants(occ, n)[j] != NoPiece
    ensures var added := AddSquare(bb, n, occ[n]);
      SquareAgrees(VisitedOccupants(occ, n + 1), added, j, NoPiece, 0) &&
      (Has(added[All], j) <==> VisitedOccupants(occ, n + 1)[j] != NoPiece)
  {
    AddSquareBits(bb, n, occ[n], j);
  }

  lemma {:induction false} BoardsUpToDescribe(occ: seq<Byte>, bb: seq<bv64>, n: nat)
    requires ValidOccupants(occ) && |bb| == 19 && n <= 64 && bb[WhiteKing] == 0 && bb[BlackKing] == 0
    ensures DescribesUpTo(occ, BoardsUpTo(bb, occ, n), n)
  {
    if n == 0 {
      ClearedDescribesNothing(occ, bb);
    } else {
      BoardsUpToDescribe(occ, bb, n - 1);
      AddSquareDescribes(occ, BoardsUpTo(bb, occ, n - 1), n - 1);
    }
  }

  /** The king square found by the loop is the square of the only king of that colour. */
  lemma {:induction false} KingUpToFinds(occ: seq<Byte>, n: nat, king: Byte, current: int, at: int)
    requires ValidOccupants(occ) && n <= 64 && 0 <= at < n && occ[at] == king
    requires forall j :: 0 <= j < 64 && j != at ==> occ[j] != king
    ensures KingUpTo(occ, n, king, current) == at
  {
    if n - 1 != at {
      KingUpToFinds(occ, n - 1, king, current, at);
    }
  }

  predicate OneKingEach(occ: seq<Byte>)
    requires ValidOccupants(occ)
  {
    (exists w :: 0 <= w < 64 && occ[w] == WhiteKing && forall j :: 0 <= j < 64 && j != w ==> occ[j] != WhiteKing) &&
    (exists b :: 0 <= b < 64 && occ[b] == BlackKing && forall j :: 0 <= j < 64 && j != b ==> occ[j] != BlackKing)
  }

  /**
   * A board built from a record with one king of each colour, on a new
   * board (whose king boards are empty), is consistent: its bitboards, king
   * squares and hash describe its occupants, as making a move requires.
   */
  lemma FromFENConsistent(p: Position, fen: string, keys: ZobristKeys)
    requires WellFormed(p) && ValidKeys(keys) && p.bitBoard[WhiteKing] == 0 && p.bitBoard[BlackKing] == 0
    requires var q := SetBoardSpec(p, fen); q.Some? && OneKingEach(q.value.occupant)
    ensures Consistent(FromFENSpec(p, fen, keys).value, keys)
  {
    var q := SetBoardSpec(p, fen).value;
    var occ := q.occupant;
    BoardsUpToDescribe(occ, q.bitBoard, 64);
    var w :| 0 <= w < 64 && occ[w] == WhiteKing && forall j :: 0 <= j < 64 && j != w ==> occ[j] != WhiteKing;
    var b :| 0 <= b < 64 && occ[b] == BlackKing && forall j :: 0 <= j < 64 && j != b ==> occ[j] != BlackKing;
    KingUpToFinds(occ, 64, WhiteKing, q.whiteKingSquare, w);
    KingUpToFinds(occ, 64, BlackKing, q.blackKingSquare, b);
    assert VisitedOccupants(occ, 64) == occ;
  }
}
