/**
 * Zobrist hashing of a position: one key per (square, piece) pair, one per
 * en-passant square and one per castling right, XORed together.
 *
 * The source fills the square/piece and en-passant keys from a random
 * number generator when the program starts; here they are an arbitrary
 * parameter (`ZobristKeys`) that only has the shape the source gives it:
 * 64 × 13 square/piece keys whose "no piece" column is zero, and 64
 * en-passant keys. The four castling keys are never filled by the source,
 * so they are the zero words they were allocated as.
 *
 * Hash keys are unsigned 64-bit words held as integers; their exclusive or
 * is computed bit by bit on the values (`XorBits`).
 */
module Zobrist {
  import opened Globals
  import opened BitOperations

  const TwoTo64: int := 0x1_0000_0000_0000_0000

  type UInt64 = x: int | 0 <= x < 0x1_0000_0000_0000_0000

  /** The exclusive or of the low `n` bits of `a` and `b`. */
  function XorBits(a: nat, b: nat, n: nat): nat
  {
    if n == 0 then 0 else (if a % 2 == b % 2 then 0 else 1) + 2 * XorBits(a / 2, b / 2, n - 1)
  }

  lemma {:induction false} XorBitsBound(a: nat, b: nat, n: nat)
    ensures XorBits(a, b, n) < Pow2(n)
  {
    if n > 0 {
      XorBitsBound(a / 2, b / 2, n - 1);
    }
  }

  /** The `^` of two unsigned 64-bit words. */
  function Xor(a: UInt64, b: UInt64): UInt64
  {
    XorBitsBound(a, b, 64);
    Pow2Of64();
    XorBits(a, b, 64)
  }

  /** The `~` of an unsigned 64-bit word. */
  function Complement(a: UInt64): UInt64
  {
    TwoTo64 - 1 - a
  }

  datatype ZobristKeys = ZobristKeys(squarePiece: seq<seq<UInt64>>, enPassant: seq<UInt64>)

  predicate ValidKeys(keys: ZobristKeys)
  {
    |keys.squarePiece| == 64 && |keys.enPassant| == 64 &&
    forall sq :: 0 <= sq < 64 ==> |keys.squarePiece[sq]| == 13 && keys.squarePiece[sq][NoPiece] == 0
  }

  /** Every square holds a piece code 0..12, the codes the key table has columns for. */
  predicate ValidOccupants(occupant: seq<Byte>)
  {
    |occupant| == 64 && forall sq :: 0 <= sq < 64 ==> IsPieceCode(occupant[sq])
  }

  /** The castling keys: allocated and never written, hence all zero. */
  const CastleModifier: seq<UInt64> := [0, 0, 0, 0]

  /** The en-passant contribution: the key of the square, or nothing when there is none. */
  function GetEPHash(enPassantSquare: int, keys: ZobristKeys): UInt64
    requires ValidKeys(keys)
    requires enPassantSquare == SquareNone || IsValidSquare(enPassantSquare)
  {
    if enPassantSquare != SquareNone then Xor(0, keys.enPassant[enPassantSquare]) else 0
  }

  /**
   * The castling contribution: the key of each right held (flags 2, 4, 16
   * and 32). The keys are zero, so every set of rights hashes to zero.
   */
  function GetCastleHash(castleFlags: bv8): (r: UInt64)
    ensures r == 0
  {
    XorZero(0);
    var h0: UInt64 := 0;
    var h1 := if HasFlag(castleFlags, BlackCanCastleKingSide) then Xor(h0, CastleModifier[0]) else h0;
    var h2 := if HasFlag(castleFlags, BlackCanCastleQueenSide) then Xor(h1, CastleModifier[1]) else h1;
    var h3 := if HasFlag(castleFlags, WhiteCanCastleKingSide) then Xor(h2, CastleModifier[2]) else h2;
    if HasFlag(castleFlags, WhiteCanCastleQueenSide) then Xor(h3, CastleModifier[3]) else h3
  }

  /** The key of a piece on a square; zero for an empty square. */
  function Key(keys: ZobristKeys, square: int, piece: Byte): UInt64
    requires ValidKeys(keys) && 0 <= square < 64 && IsPieceCode(piece)
  {
    keys.squarePiece[square][piece]
  }

  /** The XOR of the keys of the pieces on squares 0 .. n-1. */
  function SquaresHash(occupant: seq<Byte>, n: nat, keys: ZobristKeys): UInt64
    requires ValidKeys(keys) && ValidOccupants(occupant) && n <= 64
  {
    if n == 0 then 0 else Xor(SquaresHash(occupant, n - 1, keys), Key(keys, n - 1, occupant[n - 1]))
  }

  /** The hash of a position: every square's key, the en-passant key and the castling keys. */
  function HashOf(occupant: seq<Byte>, enPassantSquare: int, castleFlags: bv8, keys: ZobristKeys): UInt64
    requires ValidKeys(keys) && ValidOccupants(occupant)
    requires enPassantSquare == SquareNone || IsValidSquare(enPassantSquare)
  {
    WithStateKeys(SquaresHash(occupant, 64, keys), enPassantSquare, castleFlags, keys)
  }

  /** The hash of the pieces combined with the en-passant key and the castling keys. */
  function WithStateKeys(squaresHash: UInt64, enPassantSquare: int, castleFlags: bv8, keys: ZobristKeys): UInt64
    requires ValidKeys(keys)
    requires enPassantSquare == SquareNone || IsValidSquare(enPassantSquare)
  {
    Xor(Xor(squaresHash, GetEPHash(enPassantSquare, keys)), GetCastleHash(castleFlags))
  }

  /** Hashing a board from scratch, square by square. */
  method HashBoard(occupant: array<Byte>, enPassantSquare: int, castleFlags: bv8, keys: ZobristKeys) returns (hash: UInt64)
    requires ValidKeys(keys) && ValidOccupants(occupant[..])
    requires enPassantSquare == SquareNone || IsValidSquare(enPassantSquare)
    ensures hash == HashOf(occupant[..], enPassantSquare, castleFlags, keys)
  {
    hash := 0;
    var sq := H1;
    while sq <= A8
      invariant 0 <= sq <= 64
      invariant hash == SquaresHash(occupant[..], sq, keys)
    {
      hash := Xor(hash, Key(keys, sq, occupant[sq]));
      sq := sq + 1;
    }
    hash := Xor(hash, GetEPHash(enPassantSquare, keys));
    hash := Xor(hash, GetCastleHash(castleFlags));
  }

  // ------------------------------------------------------- facts about Xor

  lemma {:induction false} XorBitsZero(a: nat, n: nat)
    requires a < Pow2(n)
    ensures XorBits(a, 0, n) == a && XorBits(0, a, n) == a
  {
    if n > 0 {
      XorBitsZero(a / 2, n - 1);
    }
  }

  lemma {:induction false} XorBitsSelf(a: nat, n: nat)
    ensures XorBits(a, a, n) == 0
  {
    if n > 0 {
      XorBitsSelf(a / 2, n - 1);
    }
  }

  lemma {:induction false} XorBitsCommutes(a: nat, b: nat, n: nat)
    ensures XorBits(a, b, n) == XorBits(b, a, n)
  {
    if n > 0 {
      XorBitsCommutes(a / 2, b / 2, n - 1);
    }
  }

  lemma {:induction false} XorBitsAssociates(a: nat, b: nat, c: nat, n: nat)
    ensures XorBits(XorBits(a, b, n), c, n) == XorBits(a, XorBits(b, c, n), n)
  {
    if n > 0 {
      var ab := XorBits(a, b, n);
      var bc := XorBits(b, c, n);
      assert ab % 2 == (if a % 2 == b % 2 then 0 else 1) && ab / 2 == XorBits(a / 2, b / 2, n - 1);
      assert bc % 2 == (if b % 2 == c % 2 then 0 else 1) && bc / 2 == XorBits(b / 2, c / 2, n - 1);
      XorBitsAssociates(a / 2, b / 2, c / 2, n - 1);
    }
  }

  lemma XorZero(a: UInt64)
    ensures Xor(a, 0) == a && Xor(0, a) == a
  {
    Pow2Of64();
    XorBitsZero(a, 64);
  }

  lemma XorSelf(a: UInt64)
    ensures Xor(a, a) == 0
  {
    XorBitsSelf(a, 64);
  }

  lemma XorCommutes(a: UInt64, b: UInt64)
    ensures Xor(a, b) == Xor(b, a)
  {
    XorBitsCommutes(a, b, 64);
  }

  lemma XorAssociates(a: UInt64, b: UInt64, c: UInt64)
    ensures Xor(Xor(a, b), c) == Xor(a, Xor(b, c))
  {
    XorBitsAssociates(a, b, c, 64);
  }

  /** Replacing x by y in an XOR is XORing in x and then y. */
  lemma XorReplace(a: UInt64, x: UInt64, y: UInt64)
    ensures Xor(a, y) == Xor(Xor(a, x), Xor(x, y))
  {
    XorAssociates(a, x, Xor(x, y));
    XorAssociates(x, x, y);
    XorSelf(x);
    XorZero(y);
  }

  /** Two XORs into the same word can be done in either order. */
  lemma XorSwap(a: UInt64, x: UInt64, d: UInt64)
    ensures Xor(Xor(a, d), x) == Xor(Xor(a, x), d)
  {
    XorAssociates(a, d, x);
    XorAssociates(a, x, d);
    XorCommutes(d, x);
  }

  /** XORing the same word in twice undoes it: how the board takes a key back out. */
  lemma XorCancels(a: UInt64, x: UInt64)
    ensures Xor(Xor(a, x), x) == a
  {
    XorAssociates(a, x, x);
    XorSelf(x);
    XorZero(a);
  }

  /** The complement of a word is its XOR with all ones, and complementing twice gives it back. */
  lemma ComplementIsXorAllOnes(a: UInt64)
    ensures Complement(a) == Xor(a, TwoTo64 - 1)
    ensures Complement(Complement(a)) == a
  {
    var n := 64;
    Pow2Of64();
    XorBitsOnes(a, n);
  }

  lemma {:induction false} XorBitsOnes(a: nat, n: nat)
    requires a < Pow2(n)
    ensures XorBits(a, Pow2(n) - 1, n) == Pow2(n) - 1 - a
  {
    if n > 0 {
      var ones := Pow2(n) - 1;
      assert ones % 2 == 1 && ones / 2 == Pow2(n - 1) - 1;
      XorBitsOnes(a / 2, n - 1);
    }
  }

  // ----------------------------------------------------------------- lemmas

  /** The change that putting `piece` on square k makes to the keys of squares 0 .. n-1. */
  function UpdateChange(occupant: seq<Byte>, k: int, piece: Byte, n: nat, keys: ZobristKeys): UInt64
    requires ValidKeys(keys) && ValidOccupants(occupant) && 0 <= k < 64 && IsPieceCode(piece)
  {
    if k < n then Xor(Key(keys, k, occupant[k]), Key(keys, k, piece)) else 0
  }

  lemma UpdatedOccupants(occupant: seq<Byte>, k: int, piece: Byte)
    requires ValidOccupants(occupant) && 0 <= k < 64 && IsPieceCode(piece)
    ensures ValidOccupants(occupant[k := piece])
  {
    var updated := occupant[k := piece];
    forall sq | 0 <= sq < 64
      ensures IsPieceCode(updated[sq])
    {
      if sq != k {
        assert updated[sq] == occupant[sq];
      }
    }
  }

  lemma {:induction false} SquaresHashUpdateUpTo(occupant: seq<Byte>, k: int, piece: Byte, n: nat, keys: ZobristKeys)
    requires ValidKeys(keys) && ValidOccupants(occupant) && n <= 64
    requires 0 <= k < 64 && IsPieceCode(piece)
    ensures ValidOccupants(occupant[k := piece])
    ensures SquaresHash(occupant[k := piece], n, keys) ==
      Xor(SquaresHash(occupant, n, keys), UpdateChange(occupant, k, piece, n, keys))
  {
    UpdatedOccupants(occupant, k, piece);
    var updated := occupant[k := piece];
    if n == 0 {
      XorZero(0);
    } else {
      SquaresHashUpdateUpTo(occupant, k, piece, n - 1, keys);
      var before := SquaresHash(occupant, n - 1, keys);
      var last := Key(keys, n - 1, occupant[n - 1]);
      if k == n - 1 {
        XorZero(before);
        XorReplace(before, last, Key(keys, k, piece));
      } else {
        assert updated[n - 1] == occupant[n - 1];
        XorSwap(before, last, UpdateChange(occupant, k, piece, n - 1, keys));
      }
    }
  }

  /**
   * Putting `piece` on square k changes the hash by the key of the piece
   * that was there and the key of the new one: the incremental update the
   * board performs when it moves a piece.
   */
  lemma SquaresHashUpdate(occupant: seq<Byte>, k: int, piece: Byte, keys: ZobristKeys)
    requires ValidKeys(keys) && ValidOccupants(occupant)
    requires 0 <= k < 64 && IsPieceCode(piece)
    ensures ValidOccupants(occupant[k := piece])
    ensures SquaresHash(occupant[k := piece], 64, keys) ==
      Xor(SquaresHash(occupant, 64, keys), Xor(Key(keys, k, occupant[k]), Key(keys, k, piece)))
  {
    SquaresHashUpdateUpTo(occupant, k, piece, 64, keys);
  }

  lemma {:induction false} EmptySquaresHash(occupant: seq<Byte>, n: nat, keys: ZobristKeys)
    requires ValidKeys(keys) && ValidOccupants(occupant) && n <= 64
    requires forall sq :: 0 <= sq < 64 ==> occupant[sq] == NoPiece
    ensures SquaresHash(occupant, n, keys) == 0
  {
    if n > 0 {
      EmptySquaresHash(occupant, n - 1, keys);
      XorZero(0);
    }
  }

  /** An empty board with no en-passant square hashes to zero, whatever the keys. */
  lemma EmptyBoardHash(occupant: seq<Byte>, castleFlags: bv8, keys: ZobristKeys)
    requires ValidKeys(keys) && ValidOccupants(occupant)
    requires forall sq :: 0 <= sq < 64 ==> occupant[sq] == NoPiece
    ensures HashOf(occupant, SquareNone, castleFlags, keys) == 0
  {
    EmptySquaresHash(occupant, 64, keys);
    XorZero(0);
  }

  /**
   * The hash does not see the castling rights: two positions that differ
   * only in their rights collide.
   */
  lemma HashIgnoresCastling(occupant: seq<Byte>, enPassantSquare: int, flags1: bv8, flags2: bv8, keys: ZobristKeys)
    requires ValidKeys(keys) && ValidOccupants(occupant)
    requires enPassantSquare == SquareNone || IsValidSquare(enPassantSquare)
    ensures HashOf(occupant, enPassantSquare, flags1, keys) == HashOf(occupant, enPassantSquare, flags2, keys)
  {
  }

  // ------------------------------------------- castling keys, as intended

  /** The four castling rights in the order `GetCastleHash` visits them. */
  function CastleRight(i: int): bv8
    requires 0 <= i < 4
  {
    if i == 0 then BlackCanCastleKingSide
    else if i == 1 then BlackCanCastleQueenSide
    else if i == 2 then WhiteCanCastleKingSide
    else WhiteCanCastleQueenSide
  }

  /**
   * `GetCastleHash` with the key array filled, as the declaration of four
   * castling keys beside the filled square/piece and en-passant keys
   * evidently intends: `castleKeys[i]` is the key of `CastleRight(i)`.
   */
  function GetCastleHashCorrected(castleFlags: bv8, castleKeys: seq<UInt64>): UInt64
    requires |castleKeys| == 4
  {
    var h0: UInt64 := 0;
    var h1 := if HasFlag(castleFlags, CastleRight(0)) then Xor(h0, castleKeys[0]) else h0;
    var h2 := if HasFlag(castleFlags, CastleRight(1)) then Xor(h1, castleKeys[1]) else h1;
    var h3 := if HasFlag(castleFlags, CastleRight(2)) then Xor(h2, castleKeys[2]) else h2;
    if HasFlag(castleFlags, CastleRight(3)) then Xor(h3, castleKeys[3]) else h3
  }

  /** The key right `i` contributes to the corrected castling hash: its key when held, zero otherwise. */
  function CastleTerm(castleFlags: bv8, castleKeys: seq<UInt64>, i: int): UInt64
    requires |castleKeys| == 4 && 0 <= i < 4
  {
    if HasFlag(castleFlags, CastleRight(i)) then castleKeys[i] else 0
  }

  /** The corrected castling hash is the XOR of the four rights' terms. */
  lemma CastleHashTerms(castleFlags: bv8, castleKeys: seq<UInt64>)
    requires |castleKeys| == 4
    ensures GetCastleHashCorrected(castleFlags, castleKeys) ==
      Xor(Xor(Xor(CastleTerm(castleFlags, castleKeys, 0), CastleTerm(castleFlags, castleKeys, 1)),
              CastleTerm(castleFlags, castleKeys, 2)), CastleTerm(castleFlags, castleKeys, 3))
  {
    var t0, t1, t2 := CastleTerm(castleFlags, castleKeys, 0), CastleTerm(castleFlags, castleKeys, 1), CastleTerm(castleFlags, castleKeys, 2);
    XorZero(castleKeys[0]);
    XorZero(t0);
    XorZero(Xor(t0, t1));
    XorZero(Xor(Xor(t0, t1), t2));
  }

  /** XORing `k` into one of four XORed words XORs it into the result. */
  lemma XorFourPull(a: UInt64, b: UInt64, c: UInt64, d: UInt64, k: UInt64, i: int)
    requires 0 <= i < 4
    ensures Xor(Xor(Xor(if i == 0 then Xor(a, k) else a, if i == 1 then Xor(b, k) else b),
                    if i == 2 then Xor(c, k) else c), if i == 3 then Xor(d, k) else d) ==
            Xor(Xor(Xor(Xor(a, b), c), d), k)
  {
    if i == 0 {
      XorSwap(a, b, k);
      XorSwap(Xor(a, b), c, k);
      XorSwap(Xor(Xor(a, b), c), d, k);
    } else if i == 1 {
      XorAssociates(a, b, k);
      XorSwap(Xor(a, b), c, k);
      XorSwap(Xor(Xor(a, b), c), d, k);
    } else if i == 2 {
      XorAssociates(Xor(a, b), c, k);
      XorSwap(Xor(Xor(a, b), c), d, k);
    } else {
      XorAssociates(Xor(Xor(a, b), c), d, k);
    }
  }

  /**
   * With the keys filled, granting one castling right XORs exactly that
   * right's key into the castling hash; so with a non-zero key, positions
   * that differ in that right no longer collide.
   */
  lemma CastleRightKeyedCorrected(flags: bv8, castleKeys: seq<UInt64>, i: int)
    requires |castleKeys| == 4 && 0 <= i < 4
    ensures GetCastleHashCorrected(SetFlag(flags, CastleRight(i)), castleKeys) ==
            Xor(GetCastleHashCorrected(ClearFlag(flags, CastleRight(i)), castleKeys), castleKeys[i])
    ensures castleKeys[i] != 0 ==>
      GetCastleHashCorrected(SetFlag(flags, CastleRight(i)), castleKeys) !=
      GetCastleHashCorrected(ClearFlag(flags, CastleRight(i)), castleKeys)
  {
    var with, without := SetFlag(flags, CastleRight(i)), ClearFlag(flags, CastleRight(i));
    ToggledTerm(flags, castleKeys, i, 0);
    ToggledTerm(flags, castleKeys, i, 1);
    ToggledTerm(flags, castleKeys, i, 2);
    ToggledTerm(flags, castleKeys, i, 3);
    CastleHashTerms(with, castleKeys);
    CastleHashTerms(without, castleKeys);
    XorFourPull(CastleTerm(without, castleKeys, 0), CastleTerm(without, castleKeys, 1),
                CastleTerm(without, castleKeys, 2), CastleTerm(without, castleKeys, 3), castleKeys[i], i);
    if castleKeys[i] != 0 {
      XorNonzeroChanges(GetCastleHashCorrected(without, castleKeys), castleKeys[i]);
    }
  }

  /** Granting right `i` XORs its key into its own term and leaves the other terms alone. */
  lemma ToggledTerm(flags: bv8, castleKeys: seq<UInt64>, i: int, j: int)
    requires |castleKeys| == 4 && 0 <= i < 4 && 0 <= j < 4
    ensures CastleTerm(SetFlag(flags, CastleRight(i)), castleKeys, j) ==
      if j == i then Xor(CastleTerm(ClearFlag(flags, CastleRight(i)), castleKeys, j), castleKeys[i])
      else CastleTerm(ClearFlag(flags, CastleRight(i)), castleKeys, j)
  {
    FlagLaws(flags, CastleRight(i));
    FlagLaws(SetFlag(flags, CastleRight(i)), CastleRight(j));
    FlagLaws(ClearFlag(flags, CastleRight(i)), CastleRight(j));
    XorZero(castleKeys[i]);
  }

  /** XORing in a non-zero word changes the word. */
  lemma XorNonzeroChanges(h: UInt64, k: UInt64)
    requires k != 0
    ensures Xor(h, k) != h
  {
    if Xor(h, k) == h {
      XorAssociates(h, h, k);
      XorSelf(h);
      XorZero(k);
      assert false;
    }
  }

  /** Setting an en-passant square XORs exactly that square's key into the hash. */
  lemma EnPassantKey(occupant: seq<Byte>, enPassantSquare: int, castleFlags: bv8, keys: ZobristKeys)
    requires ValidKeys(keys) && ValidOccupants(occupant) && IsValidSquare(enPassantSquare)
    ensures HashOf(occupant, enPassantSquare, castleFlags, keys) ==
      Xor(HashOf(occupant, SquareNone, castleFlags, keys), keys.enPassant[enPassantSquare])
  {
    var squares := SquaresHash(occupant, 64, keys);
    var key := keys.enPassant[enPassantSquare];
    XorZero(key);
    XorZero(squares);
    XorZero(Xor(squares, key));
  }
}
