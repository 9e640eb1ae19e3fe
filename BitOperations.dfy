/**
 * Bit operations on bitboards: 64-bit words in which bit i stands for
 * square i. The source stores them in a signed 64-bit integer; here a
 * bitboard is a `bv64`, and the one place where the signed reading matters
 * (the `b > 0` loop test) is written out.
 */
module BitOperations {

  /**
   * The word with only bit `i` set (the board's `SquareMask` table): 1
   * doubled `i` times. From 64 on the bit has been shifted out and the word
   * is 0.
   */
  function SquareMask(i: nat): bv64
  {
    Doubled(i)
  }

  /**
   * 1 doubled `i` times. `SquareMask` wraps it so that every mention of a
   * square's mask is the same term, whatever unfolding of the recursion the
   * verifier has used.
   */
  function Doubled(i: nat): bv64
  {
    if i == 0 then 1 else Doubled(i - 1) << 1
  }

  /** The word with every bit but `i` set (the board's `NotSquareMask` table). */
  function NotSquareMask(i: nat): bv64
  {
    !SquareMask(i)
  }

  // Single-bit words. The facts about them are stated on the word itself,
  // through `HasBit`, and carried over to square indices below.

  predicate OneBit(m: bv64) { m != 0 && m & (m - 1) == 0 }

  predicate HasBit(b: bv64, m: bv64) { b & m != 0 }

  /**
   * Square `i` is a member of bitboard `b`. The bit test sits one call
   * deeper (`MemberTest`), so that reasoning about membership stays with the
   * lemmas below and does not reopen the 64-bit arithmetic; `HasMeaning`
   * states the test.
   */
  predicate Has(b: bv64, i: nat)
  {
    MemberTest(b, i, i + 1)
  }

  predicate MemberTest(b: bv64, i: nat, depth: nat)
    decreases depth
  {
    if depth == 0 then HasBit(b, SquareMask(i)) else MemberTest(b, i, depth - 1)
  }

  lemma HasMeaning(b: bv64, i: nat)
    ensures Has(b, i) <==> HasBit(b, SquareMask(i))
  {
    MemberTestMeaning(b, i, i + 1);
  }

  lemma {:induction false} MemberTestMeaning(b: bv64, i: nat, depth: nat)
    ensures MemberTest(b, i, depth) <==> HasBit(b, SquareMask(i))
  {
    if depth > 0 {
      MemberTestMeaning(b, i, depth - 1);
    }
  }

  lemma AndBit(a: bv64, b: bv64, m: bv64)
    requires OneBit(m)
    ensures HasBit(a & b, m) <==> HasBit(a, m) && HasBit(b, m)
  {
  }

  lemma OrDistributes(a: bv64, b: bv64, m: bv64)
    ensures (a | b) & m == (a & m) | (b & m)
  {
  }

  lemma OrBit(a: bv64, b: bv64, m: bv64)
    ensures HasBit(a | b, m) <==> HasBit(a, m) || HasBit(b, m)
  {
    OrDistributes(a, b, m);
  }

  lemma XorBit(a: bv64, b: bv64, m: bv64)
    requires OneBit(m)
    ensures HasBit(a ^ b, m) <==> HasBit(a, m) != HasBit(b, m)
  {
  }

  lemma XorOneBit(a: bv64, b: bv64, m: bv64)
    ensures OneBit(m) ==> (HasBit(a ^ b, m) <==> HasBit(a, m) != HasBit(b, m))
  {
    if OneBit(m) {
      XorBit(a, b, m);
    }
  }

  lemma NotBit(a: bv64, m: bv64)
    requires OneBit(m)
    ensures HasBit(!a, m) <==> !HasBit(a, m)
  {
  }

  lemma SelfBit(m: bv64)
    requires OneBit(m)
    ensures HasBit(m, m)
  {
  }

  lemma DistinctBits(m: bv64, n: bv64)
    requires OneBit(m) && OneBit(n) && m != n
    ensures !HasBit(m, n)
  {
  }

  lemma SameBit(v: bv64, m: bv64)
    requires OneBit(v) && OneBit(m) && HasBit(v, m)
    ensures v == m
  {
  }

  /** Doubling a one-bit word that does not overflow moves its bit up by one. */
  lemma DoubleBit(m: bv64)
    requires OneBit(m) && m < 0x8000_0000_0000_0000
    ensures OneBit(m << 1) && m < m << 1 && (m << 1) >> 1 == m
  {
  }

  /** No one-bit word lies above the top bit. */
  lemma TopIsLargest(v: bv64)
    requires OneBit(v) && 0x8000_0000_0000_0000 <= v
    ensures v == 0x8000_0000_0000_0000
  {
  }

  // ------------------------------------------------------ the square masks

  lemma MaskTop()
    ensures SquareMask(63) == 0x8000_0000_0000_0000
  {
    MaskValue63(63);
  }

  /** Once doubling has pushed the bit out of the word, it stays empty. */
  lemma {:induction false} MaskZeroStays(i: nat)
    requires i <= 63 && SquareMask(i) == 0
    ensures SquareMask(63) == 0
    decreases 63 - i
  {
    if i < 63 {
      MaskZeroStays(i + 1);
    }
  }

  /** Each mask of a square has one bit set, below the top bit except for square 63. */
  lemma {:induction false} MaskOneBit(i: nat)
    requires i < 64
    ensures OneBit(SquareMask(i))
    ensures i < 63 ==> SquareMask(i) < 0x8000_0000_0000_0000
  {
    if i > 0 {
      MaskOneBit(i - 1);
      DoubleBit(SquareMask(i - 1));
    }
    if i < 63 && 0x8000_0000_0000_0000 <= SquareMask(i) {
      TopIsLargest(SquareMask(i));
      MaskZeroStays(i + 1);
      MaskTop();
      assert false;
    }
  }

  lemma MaskNext(i: nat)
    requires i < 63
    ensures SquareMask(i + 1) == SquareMask(i) << 1
    ensures SquareMask(i) == SquareMask(i + 1) >> 1
    ensures SquareMask(i) < SquareMask(i + 1)
  {
    MaskOneBit(i);
    DoubleBit(SquareMask(i));
  }

  lemma {:induction false} MaskLess(j: nat, k: nat)
    requires j < k < 64
    ensures SquareMask(j) < SquareMask(k)
    decreases k - j
  {
    MaskNext(k - 1);
    if j < k - 1 {
      MaskLess(j, k - 1);
    }
  }

  // Bitwise operators read square by square.

  lemma HasAnd(a: bv64, b: bv64, i: nat)
    requires i < 64
    ensures Has(a & b, i) <==> Has(a, i) && Has(b, i)
  {
    HasMeaning(a & b, i);
    HasMeaning(a, i);
    HasMeaning(b, i);
    MaskOneBit(i);
    AndBit(a, b, SquareMask(i));
  }

  lemma HasOr(a: bv64, b: bv64, i: nat)
    ensures Has(a | b, i) <==> Has(a, i) || Has(b, i)
  {
    HasMeaning(a | b, i);
    HasMeaning(a, i);
    HasMeaning(b, i);
    OrBit(a, b, SquareMask(i));
  }

  lemma HasXor(a: bv64, b: bv64, i: nat)
    requires i < 64
    ensures Has(a ^ b, i) <==> Has(a, i) != Has(b, i)
  {
    HasMeaning(a ^ b, i);
    HasMeaning(a, i);
    HasMeaning(b, i);
    XorAtMask(a, b, i);
  }

  lemma XorAtMask(a: bv64, b: bv64, i: nat)
    requires i < 64
    ensures HasBit(a ^ b, SquareMask(i)) <==> HasBit(a, SquareMask(i)) != HasBit(b, SquareMask(i))
  {
    MaskOneBit(i);
    XorOneBit(a, b, SquareMask(i));
  }

  lemma HasNot(a: bv64, i: nat)
    requires i < 64
    ensures Has(!a, i) <==> !Has(a, i)
  {
    HasMeaning(!a, i);
    HasMeaning(a, i);
    MaskOneBit(i);
    NotBit(a, SquareMask(i));
  }

  lemma DistinctMasks(j: nat, i: nat)
    requires j < 64 && i < 64 && i != j
    ensures !Has(SquareMask(j), i)
  {
    MaskOneBit(i);
    MaskOneBit(j);
    if i < j {
      MaskLess(i, j);
    } else {
      MaskLess(j, i);
    }
    HasMeaning(SquareMask(j), i);
    DistinctBits(SquareMask(j), SquareMask(i));
  }

  lemma HasSquareMask(j: nat, i: nat)
    requires j < 64 && i < 64
    ensures Has(SquareMask(j), i) <==> i == j
  {
    if i == j {
      HasMeaning(SquareMask(j), i);
      MaskOneBit(i);
      SelfBit(SquareMask(i));
    } else {
      DistinctMasks(j, i);
    }
  }

  lemma HasNotSquareMask(j: nat, i: nat)
    requires j < 64 && i < 64
    ensures Has(NotSquareMask(j), i) <==> i != j
  {
    HasSquareMask(j, i);
    HasNot(SquareMask(j), i);
  }

  lemma HasZero(i: nat)
    ensures !Has(0, i)
  {
    HasMeaning(0, i);
  }

  /** A word none of whose 64 squares is set is zero. */
  lemma ZeroIfNoBits(x: bv64)
    requires forall i: nat :: i < 64 ==> !Has(x, i)
    ensures x == 0
  {
    NoBitsInByte0(x);
    NoBitsInByte1(x);
    NoBitsInByte2(x);
    NoBitsInByte3(x);
    NoBitsInByte4(x);
    NoBitsInByte5(x);
    NoBitsInByte6(x);
    NoBitsInByte7(x);
  }

  lemma NoBitsInByte0(x: bv64)
    requires forall i: nat :: i < 64 ==> !Has(x, i)
    ensures x & 0xFF == 0
  {
    MaskValue0(0);
    NoBitAt(x, 0);
    MaskValue1(1);
    NoBitAt(x, 1);
    MaskValue2(2);
    NoBitAt(x, 2);
    MaskValue3(3);
    NoBitAt(x, 3);
    MaskValue4(4);
    NoBitAt(x, 4);
    MaskValue5(5);
    NoBitAt(x, 5);
    MaskValue6(6);
    NoBitAt(x, 6);
    MaskValue7(7);
    NoBitAt(x, 7);
  }

  lemma NoBitsInByte1(x: bv64)
    requires forall i: nat :: i < 64 ==> !Has(x, i)
    ensures x & 0xFF00 == 0
  {
    MaskValue8(8);
    NoBitAt(x, 8);
    MaskValue9(9);
    NoBitAt(x, 9);
    MaskValue10(10);
    NoBitAt(x, 10);
    MaskValue11(11);
    NoBitAt(x, 11);
    MaskValue12(12);
    NoBitAt(x, 12);
    MaskValue13(13);
    NoBitAt(x, 13);
    MaskValue14(14);
    NoBitAt(x, 14);
    MaskValue15(15);
    NoBitAt(x, 15);
  }

  lemma NoBitsInByte2(x: bv64)
    requires forall i: nat :: i < 64 ==> !Has(x, i)
    ensures x & 0xFF0000 == 0
  {
    MaskValue16(16);
    NoBitAt(x, 16);
    MaskValue17(17);
    NoBitAt(x, 17);
    MaskValue18(18);
    NoBitAt(x, 18);
    MaskValue19(19);
    NoBitAt(x, 19);
    MaskValue20(20);
    NoBitAt(x, 20);
    MaskValue21(21);
    NoBitAt(x, 21);
    MaskValue22(22);
    NoBitAt(x, 22);
    MaskValue23(23);
    NoBitAt(x, 23);
  }

  lemma NoBitsInByte3(x: bv64)
    requires forall i: nat :: i < 64 ==> !Has(x, i)
    ensures x & 0xFF000000 == 0
  {
    MaskValue24(24);
    NoBitAt(x, 24);
    MaskValue25(25);
    NoBitAt(x, 25);
    MaskValue26(26);
    NoBitAt(x, 26);
    MaskValue27(27);
    NoBitAt(x, 27);
    MaskValue28(28);
    NoBitAt(x, 28);
    MaskValue29(29);
    NoBitAt(x, 29);
    MaskValue30(30);
    NoBitAt(x, 30);
    MaskValue31(31);
    NoBitAt(x, 31);
  }

  lemma NoBitsInByte4(x: bv64)
    requires forall i: nat :: i < 64 ==> !Has(x, i)
    ensures x & 0xFF00000000 == 0
  {
    MaskValue32(32);
    NoBitAt(x, 32);
    MaskValue33(33);
    NoBitAt(x, 33);
    MaskValue34(34);
    NoBitAt(x, 34);
    MaskValue35(35);
    NoBitAt(x, 35);
    MaskValue36(36);
    NoBitAt(x, 36);
    MaskValue37(37);
    NoBitAt(x, 37);
    MaskValue38(38);
    NoBitAt(x, 38);
    MaskValue39(39);
    NoBitAt(x, 39);
  }

  lemma NoBitsInByte5(x: bv64)
    requires forall i: nat :: i < 64 ==> !Has(x, i)
    ensures x & 0xFF0000000000 == 0
  {
    MaskValue40(40);
    NoBitAt(x, 40);
    MaskValue41(41);
    NoBitAt(x, 41);
    MaskValue42(42);
    NoBitAt(x, 42);
    MaskValue43(43);
    NoBitAt(x, 43);
    MaskValue44(44);
    NoBitAt(x, 44);
    MaskValue45(45);
    NoBitAt(x, 45);
    MaskValue46(46);
    NoBitAt(x, 46);
    MaskValue47(47);
    NoBitAt(x, 47);
  }

  lemma NoBitsInByte6(x: bv64)
    requires forall i: nat :: i < 64 ==> !Has(x, i)
    ensures x & 0xFF000000000000 == 0
  {
    MaskValue48(48);
    NoBitAt(x, 48);
    MaskValue49(49);
    NoBitAt(x, 49);
    MaskValue50(50);
    NoBitAt(x, 50);
    MaskValue51(51);
    NoBitAt(x, 51);
    MaskValue52(52);
    NoBitAt(x, 52);
    MaskValue53(53);
    NoBitAt(x, 53);
    MaskValue54(54);
    NoBitAt(x, 54);
    MaskValue55(55);
    NoBitAt(x, 55);
  }

  lemma NoBitsInByte7(x: bv64)
    requires forall i: nat :: i < 64 ==> !Has(x, i)
    ensures x & 0xFF00000000000000 == 0
  {
    MaskValue56(56);
    NoBitAt(x, 56);
    MaskValue57(57);
    NoBitAt(x, 57);
    MaskValue58(58);
    NoBitAt(x, 58);
    MaskValue59(59);
    NoBitAt(x, 59);
    MaskValue60(60);
    NoBitAt(x, 60);
    MaskValue61(61);
    NoBitAt(x, 61);
    MaskValue62(62);
    NoBitAt(x, 62);
    MaskValue63(63);
    NoBitAt(x, 63);
  }

  lemma NoBitAt(x: bv64, k: nat)
    requires !Has(x, k)
    ensures x & SquareMask(k) == 0
  {
    HasMeaning(x, k);
  }

  /** A nonzero word has a member. */
  lemma SomeBit(x: bv64) returns (k: nat)
    requires x != 0
    ensures k < 64 && Has(x, k)
  {
    if !exists i: nat :: i < 64 && Has(x, i) {
      ZeroIfNoBits(x);
      assert false;
    }
    k :| k < 64 && Has(x, k);
  }

  /** Clearing square `k` with the inverted mask removes `k` and keeps the other members. */
  lemma ClearSquare(b: bv64, k: nat)
    requires k < 64
    ensures forall j: nat :: j < 64 ==> (Has(b & NotSquareMask(k), j) <==> Has(b, j) && j != k)
  {
    forall j: nat | j < 64
      ensures Has(b & NotSquareMask(k), j) <==> Has(b, j) && j != k
    {
      ClearSquareAt(b, k, j);
    }
  }

  lemma ClearSquareAt(b: bv64, k: nat, j: nat)
    requires k < 64 && j < 64
    ensures Has(b & NotSquareMask(k), j) <==> Has(b, j) && j != k
  {
    HasAnd(b, NotSquareMask(k), j);
    HasNotSquareMask(k, j);
  }

  // ---------------------------------------------------- bitboard updates
  // The updates the board applies to its bitboards, each stated square by square.

  /** `b & NotSquareMask[k]`: square k taken out. */
  function Without(b: bv64, k: nat): (r: bv64)
    requires k < 64
    ensures forall j: nat :: j < 64 ==> (Has(r, j) <==> Has(b, j) && j != k)
  {
    WithoutAt(b, k, k + 1)
  }

  /**
   * The word of `Without`, `depth` calls down. Like `Has`, the updates keep
   * their 64-bit operation out of sight of the proofs that use them, which
   * see only the contracts.
   */
  function WithoutAt(b: bv64, k: nat, depth: nat): (r: bv64)
    requires k < 64
    ensures forall j: nat :: j < 64 ==> (Has(r, j) <==> Has(b, j) && j != k)
    decreases depth
  {
    if depth == 0 then
      ClearSquare(b, k);
      b & NotSquareMask(k)
    else WithoutAt(b, k, depth - 1)
  }

  /** `b | SquareMask[k]`: square k put in. */
  function With(b: bv64, k: nat): (r: bv64)
    requires k < 64
    ensures forall j: nat :: j < 64 ==> (Has(r, j) <==> Has(b, j) || j == k)
  {
    WithAt(b, k, k + 1)
  }

  function WithAt(b: bv64, k: nat, depth: nat): (r: bv64)
    requires k < 64
    ensures forall j: nat :: j < 64 ==> (Has(r, j) <==> Has(b, j) || j == k)
    decreases depth
  {
    if depth == 0 then
      forall j: nat | j < 64
        ensures Has(b | SquareMask(k), j) <==> Has(b, j) || j == k
      {
        SetSquareAt(b, k, j);
      }
      b | SquareMask(k)
    else WithAt(b, k, depth - 1)
  }

  lemma SetSquareAt(b: bv64, k: nat, j: nat)
    requires k < 64 && j < 64
    ensures Has(b | SquareMask(k), j) <==> Has(b, j) || j == k
  {
    HasOr(b, SquareMask(k), j);
    HasSquareMask(k, j);
  }

  /** `b ^ (SquareMask[f] | SquareMask[t])`: squares f and t flipped. */
  function Flipped(b: bv64, f: nat, t: nat): (r: bv64)
    requires f < 64 && t < 64
    ensures forall j: nat :: j < 64 ==> (Has(r, j) <==> Has(b, j) != (j == f || j == t))
  {
    FlippedAt(b, f, t, f + 1)
  }

  function FlippedAt(b: bv64, f: nat, t: nat, depth: nat): (r: bv64)
    requires f < 64 && t < 64
    ensures forall j: nat :: j < 64 ==> (Has(r, j) <==> Has(b, j) != (j == f || j == t))
    decreases depth
  {
    if depth == 0 then
      forall j: nat | j < 64
        ensures Has(b ^ (SquareMask(f) | SquareMask(t)), j) <==> Has(b, j) != (j == f || j == t)
      {
        FlipAt(b, f, t, j);
      }
      b ^ (SquareMask(f) | SquareMask(t))
    else FlippedAt(b, f, t, depth - 1)
  }

  lemma FlipAt(b: bv64, f: nat, t: nat, j: nat)
    requires f < 64 && t < 64 && j < 64
    ensures Has(b ^ (SquareMask(f) | SquareMask(t)), j) <==> Has(b, j) != (j == f || j == t)
  {
    HasXor(b, SquareMask(f) | SquareMask(t), j);
    HasOr(SquareMask(f), SquareMask(t), j);
    HasSquareMask(f, j);
    HasSquareMask(t, j);
  }

  /** `a | b`: the squares of either. */
  function Union(a: bv64, b: bv64): (r: bv64)
    ensures forall j: nat :: Has(r, j) <==> Has(a, j) || Has(b, j)
  {
    forall j: nat
      ensures Has(a | b, j) <==> Has(a, j) || Has(b, j)
    {
      HasOr(a, b, j);
    }
    a | b
  }

  /** `a & b`: the squares of both. */
  function Intersection(a: bv64, b: bv64): (r: bv64)
    ensures forall j: nat :: j < 64 ==> (Has(r, j) <==> Has(a, j) && Has(b, j))
  {
    forall j: nat | j < 64
      ensures Has(a & b, j) <==> Has(a, j) && Has(b, j)
    {
      HasAnd(a, b, j);
    }
    a & b
  }

  /** `a & ~b`: the squares of `a` that are not in `b`. */
  function Except(a: bv64, b: bv64): (r: bv64)
    ensures forall j: nat :: j < 64 ==> (Has(r, j) <==> Has(a, j) && !Has(b, j))
  {
    var c := !b;
    ExceptMembers(a, b, c);
    a & c
  }

  lemma ExceptMembers(a: bv64, b: bv64, c: bv64)
    requires c == !b
    ensures forall j: nat :: j < 64 ==> (Has(a & c, j) <==> Has(a, j) && !Has(b, j))
  {
    forall j: nat | j < 64
      ensures Has(a & c, j) <==> Has(a, j) && !Has(b, j)
    {
      HasAnd(a, c, j);
      HasNot(b, j);
    }
  }

  // ------------------------------------------------ least significant bit

  const DeBruijnMultiplier: bv64 := 0x07EDD5E59A4E28C2

  /** The De Bruijn lookup table: slot (0..63) to bit index. */
  function DeBruijnLookup(slot: int): nat
  {
    match slot
    case 0 => 63 case 1 => 0 case 2 => 58 case 3 => 1 case 4 => 59 case 5 => 47 case 6 => 53 case 7 => 2
    case 8 => 60 case 9 => 39 case 10 => 48 case 11 => 27 case 12 => 54 case 13 => 33 case 14 => 42 case 15 => 3
    case 16 => 61 case 17 => 51 case 18 => 37 case 19 => 40 case 20 => 49 case 21 => 18 case 22 => 28 case 23 => 20
    case 24 => 55 case 25 => 30 case 26 => 34 case 27 => 11 case 28 => 43 case 29 => 14 case 30 => 22 case 31 => 4
    case 32 => 62 case 33 => 57 case 34 => 46 case 35 => 52 case 36 => 38 case 37 => 26 case 38 => 32 case 39 => 41
    case 40 => 50 case 41 => 36 case 42 => 17 case 43 => 19 case 44 => 29 case 45 => 10 case 46 => 13 case 47 => 21
    case 48 => 56 case 49 => 45 case 50 => 25 case 51 => 31 case 52 => 35 case 53 => 16 case 54 => 9 case 55 => 12
    case 56 => 44 case 57 => 24 case 58 => 15 case 59 => 8 case 60 => 23 case 61 => 7 case 62 => 6 case 63 => 5
    case _ => 0
  }

  /** The table slot a one-bit word is hashed to: the top six bits of its product with the multiplier. */
  function DeBruijnSlot(v: bv64): int
  {
    ((v * DeBruijnMultiplier) >> 58) as int
  }

  /** Square `k` is the lowest member of `b`. */
  predicate IsLowestBit(b: bv64, k: nat)
  {
    k < 64 && Has(b, k) && forall j: nat :: j < k ==> !Has(b, j)
  }

  /**
   * The index of the lowest set bit, by isolating it with `b & -b` and
   * hashing the result with a De Bruijn multiplication. On the empty board
   * the product is 0 and the table gives 63.
   */
  function LeastSignificantBit(b: bv64): (r: nat)
    ensures r < 64
    ensures b != 0 ==> IsLowestBit(b, r) && b & -b == SquareMask(r)
    ensures b == 0 ==> r == 63
  {
    LeastSignificantBitCorrect(b);
    DeBruijnLookup(DeBruijnSlot(b & -b))
  }

  lemma LeastSignificantBitCorrect(b: bv64)
    ensures DeBruijnLookup(DeBruijnSlot(b & -b)) < 64
    ensures b != 0 ==> IsLowestBit(b, DeBruijnLookup(DeBruijnSlot(b & -b)))
    ensures b != 0 ==> b & -b == SquareMask(DeBruijnLookup(DeBruijnSlot(b & -b)))
    ensures b == 0 ==> DeBruijnLookup(DeBruijnSlot(b & -b)) == 63
  {
    if b != 0 {
      var k := LowestMask(b);
      DeBruijnInverts(k);
      LowestMaskIsLowest(b, k);
    }
  }

  /** The bit `b & -b` isolates is the mask of a square of `b`. */
  lemma LowestMask(b: bv64) returns (k: nat)
    requires b != 0
    ensures k < 64 && SquareMask(k) == b & -b && Has(b, k)
  {
    LowestIsOneBit(b);
    k := SomeBit(b & -b);
    MaskOneBit(k);
    HasMeaning(b & -b, k);
    SameBit(b & -b, SquareMask(k));
    HasMeaning(b, k);
  }

  lemma LowestMaskIsLowest(b: bv64, k: nat)
    requires k < 64 && SquareMask(k) == b & -b && Has(b, k)
    ensures IsLowestBit(b, k)
  {
    forall j: nat | j < k
      ensures !Has(b, j)
    {
      HasMeaning(b, j);
      HasMeaning(b, k);
      MaskOneBit(j);
      MaskLess(j, k);
      LowestIsSmallest(b, SquareMask(j));
    }
  }

  /** `x & -x` keeps exactly one bit of a nonzero `x`, a bit of `x`. */
  lemma LowestIsOneBit(x: bv64)
    requires x != 0
    ensures OneBit(x & -x) && HasBit(x, x & -x) && 1 <= x & -x
  {
  }

  /** ... and no bit of `x` lies below it. */
  lemma LowestIsSmallest(x: bv64, m: bv64)
    requires OneBit(m)
    ensures HasBit(x, m) ==> x & -x <= m
  {
  }

  /** The table inverts the hash on every square mask. */
  lemma DeBruijnInverts(k: nat)
    requires k < 64
    ensures DeBruijnLookup(DeBruijnSlot(SquareMask(k))) == k
  {
    if k < 8 {
      DeBruijnInverts0(k);
    } else if k < 16 {
      DeBruijnInverts1(k);
    } else if k < 24 {
      DeBruijnInverts2(k);
    } else if k < 32 {
      DeBruijnInverts3(k);
    } else if k < 40 {
      DeBruijnInverts4(k);
    } else if k < 48 {
      DeBruijnInverts5(k);
    } else if k < 56 {
      DeBruijnInverts6(k);
    } else {
      DeBruijnInverts7(k);
    }
  }

  lemma DeBruijnInverts0(k: nat)
    requires 0 <= k < 8
    ensures DeBruijnLookup(DeBruijnSlot(SquareMask(k))) == k
  {
    if k == 0 {
      MaskValue0(k);
      DeBruijnEntry0();
    } else if k == 1 {
      MaskValue1(k);
      DeBruijnEntry1();
    } else if k == 2 {
      MaskValue2(k);
      DeBruijnEntry2();
    } else if k == 3 {
      MaskValue3(k);
      DeBruijnEntry3();
    } else if k == 4 {
      MaskValue4(k);
      DeBruijnEntry4();
    } else if k == 5 {
      MaskValue5(k);
      DeBruijnEntry5();
    } else if k == 6 {
      MaskValue6(k);
      DeBruijnEntry6();
    } else {
      MaskValue7(k);
      DeBruijnEntry7();
    }
  }

  lemma DeBruijnInverts1(k: nat)
    requires 8 <= k < 16
    ensures DeBruijnLookup(DeBruijnSlot(SquareMask(k))) == k
  {
    if k == 8 {
      MaskValue8(k);
      DeBruijnEntry8();
    } else if k == 9 {
      MaskValue9(k);
      DeBruijnEntry9();
    } else if k == 10 {
      MaskValue10(k);
      DeBruijnEntry10();
    } else if k == 11 {
      MaskValue11(k);
      DeBruijnEntry11();
    } else if k == 12 {
      MaskValue12(k);
      DeBruijnEntry12();
    } else if k == 13 {
      MaskValue13(k);
      DeBruijnEntry13();
    } else if k == 14 {
      MaskValue14(k);
      DeBruijnEntry14();
    } else {
      MaskValue15(k);
      DeBruijnEntry15();
    }
  }

  lemma DeBruijnInverts2(k: nat)
    requires 16 <= k < 24
    ensures DeBruijnLookup(DeBruijnSlot(SquareMask(k))) == k
  {
    if k == 16 {
      MaskValue16(k);
      DeBruijnEntry16();
    } else if k == 17 {
      MaskValue17(k);
      DeBruijnEntry17();
    } else if k == 18 {
      MaskValue18(k);
      DeBruijnEntry18();
    } else if k == 19 {
      MaskValue19(k);
      DeBruijnEntry19();
    } else if k == 20 {
      MaskValue20(k);
      DeBruijnEntry20();
    } else if k == 21 {
      MaskValue21(k);
      DeBruijnEntry21();
    } else if k == 22 {
      MaskValue22(k);
      DeBruijnEntry22();
    } else {
      MaskValue23(k);
      DeBruijnEntry23();
    }
  }

  lemma DeBruijnInverts3(k: nat)
    requires 24 <= k < 32
    ensures DeBruijnLookup(DeBruijnSlot(SquareMask(k))) == k
  {
    if k == 24 {
      MaskValue24(k);
      DeBruijnEntry24();
    } else if k == 25 {
      MaskValue25(k);
      DeBruijnEntry25();
    } else if k == 26 {
      MaskValue26(k);
      DeBruijnEntry26();
    } else if k == 27 {
      MaskValue27(k);
      DeBruijnEntry27();
    } else if k == 28 {
      MaskValue28(k);
      DeBruijnEntry28();
    } else if k == 29 {
      MaskValue29(k);
      DeBruijnEntry29();
    } else if k == 30 {
      MaskValue30(k);
      DeBruijnEntry30();
    } else {
      MaskValue31(k);
      DeBruijnEntry31();
    }
  }

  lemma DeBruijnInverts4(k: nat)
    requires 32 <= k < 40
    ensures DeBruijnLookup(DeBruijnSlot(SquareMask(k))) == k
  {
    if k == 32 {
      MaskValue32(k);
      DeBruijnEntry32();
    } else if k == 33 {
      MaskValue33(k);
      DeBruijnEntry33();
    } else if k == 34 {
      MaskValue34(k);
      DeBruijnEntry34();
    } else if k == 35 {
      MaskValue35(k);
      DeBruijnEntry35();
    } else if k == 36 {
      MaskValue36(k);
      DeBruijnEntry36();
    } else if k == 37 {
      MaskValue37(k);
      DeBruijnEntry37();
    } else if k == 38 {
      MaskValue38(k);
      DeBruijnEntry38();
    } else {
      MaskValue39(k);
      DeBruijnEntry39();
    }
  }

  lemma DeBruijnInverts5(k: nat)
    requires 40 <= k < 48
    ensures DeBruijnLookup(DeBruijnSlot(SquareMask(k))) == k
  {
    if k == 40 {
      MaskValue40(k);
      DeBruijnEntry40();
    } else if k == 41 {
      MaskValue41(k);
      DeBruijnEntry41();
    } else if k == 42 {
      MaskValue42(k);
      DeBruijnEntry42();
    } else if k == 43 {
      MaskValue43(k);
      DeBruijnEntry43();
    } else if k == 44 {
      MaskValue44(k);
      DeBruijnEntry44();
    } else if k == 45 {
      MaskValue45(k);
      DeBruijnEntry45();
    } else if k == 46 {
      MaskValue46(k);
      DeBruijnEntry46();
    } else {
      MaskValue47(k);
      DeBruijnEntry47();
    }
  }

  lemma DeBruijnInverts6(k: nat)
    requires 48 <= k < 56
    ensures DeBruijnLookup(DeBruijnSlot(SquareMask(k))) == k
  {
    if k == 48 {
      MaskValue48(k);
      DeBruijnEntry48();
    } else if k == 49 {
      MaskValue49(k);
      DeBruijnEntry49();
    } else if k == 50 {
      MaskValue50(k);
      DeBruijnEntry50();
    } else if k == 51 {
      MaskValue51(k);
      DeBruijnEntry51();
    } else if k == 52 {
      MaskValue52(k);
      DeBruijnEntry52();
    } else if k == 53 {
      MaskValue53(k);
      DeBruijnEntry53();
    } else if k == 54 {
      MaskValue54(k);
      DeBruijnEntry54();
    } else {
      MaskValue55(k);
      DeBruijnEntry55();
    }
  }

  lemma DeBruijnInverts7(k: nat)
    requires 56 <= k < 64
    ensures DeBruijnLookup(DeBruijnSlot(SquareMask(k))) == k
  {
    if k == 56 {
      MaskValue56(k);
      DeBruijnEntry56();
    } else if k == 57 {
      MaskValue57(k);
      DeBruijnEntry57();
    } else if k == 58 {
      MaskValue58(k);
      DeBruijnEntry58();
    } else if k == 59 {
      MaskValue59(k);
      DeBruijnEntry59();
    } else if k == 60 {
      MaskValue60(k);
      DeBruijnEntry60();
    } else if k == 61 {
      MaskValue61(k);
      DeBruijnEntry61();
    } else if k == 62 {
      MaskValue62(k);
      DeBruijnEntry62();
    } else {
      MaskValue63(k);
      DeBruijnEntry63();
    }
  }

  // The value of each mask, one doubling at a time.
  lemma MaskValue0(k: nat) requires k == 0 ensures SquareMask(k) == 0x1 {}
  lemma MaskValue1(k: nat) requires k == 1 ensures SquareMask(k) == 0x2 { MaskValue0(k - 1); }
  lemma MaskValue2(k: nat) requires k == 2 ensures SquareMask(k) == 0x4 { MaskValue1(k - 1); }
  lemma MaskValue3(k: nat) requires k == 3 ensures SquareMask(k) == 0x8 { MaskValue2(k - 1); }
  lemma MaskValue4(k: nat) requires k == 4 ensures SquareMask(k) == 0x10 { MaskValue3(k - 1); }
  lemma MaskValue5(k: nat) requires k == 5 ensures SquareMask(k) == 0x20 { MaskValue4(k - 1); }
  lemma MaskValue6(k: nat) requires k == 6 ensures SquareMask(k) == 0x40 { MaskValue5(k - 1); }
  lemma MaskValue7(k: nat) requires k == 7 ensures SquareMask(k) == 0x80 { MaskValue6(k - 1); }
  lemma MaskValue8(k: nat) requires k == 8 ensures SquareMask(k) == 0x100 { MaskValue7(k - 1); }
  lemma MaskValue9(k: nat) requires k == 9 ensures SquareMask(k) == 0x200 { MaskValue8(k - 1); }
  lemma MaskValue10(k: nat) requires k == 10 ensures SquareMask(k) == 0x400 { MaskValue9(k - 1); }
  lemma MaskValue11(k: nat) requires k == 11 ensures SquareMask(k) == 0x800 { MaskValue10(k - 1); }
  lemma MaskValue12(k: nat) requires k == 12 ensures SquareMask(k) == 0x1000 { MaskValue11(k - 1); }
  lemma MaskValue13(k: nat) requires k == 13 ensures SquareMask(k) == 0x2000 { MaskValue12(k - 1); }
  lemma MaskValue14(k: nat) requires k == 14 ensures SquareMask(k) == 0x4000 { MaskValue13(k - 1); }
  lemma MaskValue15(k: nat) requires k == 15 ensures SquareMask(k) == 0x8000 { MaskValue14(k - 1); }
  lemma MaskValue16(k: nat) requires k == 16 ensures SquareMask(k) == 0x10000 { MaskValue15(k - 1); }
  lemma MaskValue17(k: nat) requires k == 17 ensures SquareMask(k) == 0x20000 { MaskValue16(k - 1); }
  lemma MaskValue18(k: nat) requires k == 18 ensures SquareMask(k) == 0x40000 { MaskValue17(k - 1); }
  lemma MaskValue19(k: nat) requires k == 19 ensures SquareMask(k) == 0x80000 { MaskValue18(k - 1); }
  lemma MaskValue20(k: nat) requires k == 20 ensures SquareMask(k) == 0x100000 { MaskValue19(k - 1); }
  lemma MaskValue21(k: nat) requires k == 21 ensures SquareMask(k) == 0x200000 { MaskValue20(k - 1); }
  lemma MaskValue22(k: nat) requires k == 22 ensures SquareMask(k) == 0x400000 { MaskValue21(k - 1); }
  lemma MaskValue23(k: nat) requires k == 23 ensures SquareMask(k) == 0x800000 { MaskValue22(k - 1); }
  lemma MaskValue24(k: nat) requires k == 24 ensures SquareMask(k) == 0x1000000 { MaskValue23(k - 1); }
  lemma MaskValue25(k: nat) requires k == 25 ensures SquareMask(k) == 0x2000000 { MaskValue24(k - 1); }
  lemma MaskValue26(k: nat) requires k == 26 ensures SquareMask(k) == 0x4000000 { MaskValue25(k - 1); }
  lemma MaskValue27(k: nat) requires k == 27 ensures SquareMask(k) == 0x8000000 { MaskValue26(k - 1); }
  lemma MaskValue28(k: nat) requires k == 28 ensures SquareMask(k) == 0x10000000 { MaskValue27(k - 1); }
  lemma MaskValue29(k: nat) requires k == 29 ensures SquareMask(k) == 0x20000000 { MaskValue28(k - 1); }
  lemma MaskValue30(k: nat) requires k == 30 ensures SquareMask(k) == 0x40000000 { MaskValue29(k - 1); }
  lemma MaskValue31(k: nat) requires k == 31 ensures SquareMask(k) == 0x80000000 { MaskValue30(k - 1); }
  lemma MaskValue32(k: nat) requires k == 32 ensures SquareMask(k) == 0x100000000 { MaskValue31(k - 1); }
  lemma MaskValue33(k: nat) requires k == 33 ensures SquareMask(k) == 0x200000000 { MaskValue32(k - 1); }
  lemma MaskValue34(k: nat) requires k == 34 ensures SquareMask(k) == 0x400000000 { MaskValue33(k - 1); }
  lemma MaskValue35(k: nat) requires k == 35 ensures SquareMask(k) == 0x800000000 { MaskValue34(k - 1); }
  lemma MaskValue36(k: nat) requires k == 36 ensures SquareMask(k) == 0x1000000000 { MaskValue35(k - 1); }
  lemma MaskValue37(k: nat) requires k == 37 ensures SquareMask(k) == 0x2000000000 { MaskValue36(k - 1); }
  lemma MaskValue38(k: nat) requires k == 38 ensures SquareMask(k) == 0x4000000000 { MaskValue37(k - 1); }
  lemma MaskValue39(k: nat) requires k == 39 ensures SquareMask(k) == 0x8000000000 { MaskValue38(k - 1); }
  lemma MaskValue40(k: nat) requires k == 40 ensures SquareMask(k) == 0x10000000000 { MaskValue39(k - 1); }
  lemma MaskValue41(k: nat) requires k == 41 ensures SquareMask(k) == 0x20000000000 { MaskValue40(k - 1); }
  lemma MaskValue42(k: nat) requires k == 42 ensures SquareMask(k) == 0x40000000000 { MaskValue41(k - 1); }
  lemma MaskValue43(k: nat) requires k == 43 ensures SquareMask(k) == 0x80000000000 { MaskValue42(k - 1); }
  lemma MaskValue44(k: nat) requires k == 44 ensures SquareMask(k) == 0x100000000000 { MaskValue43(k - 1); }
  lemma MaskValue45(k: nat) requires k == 45 ensures SquareMask(k) == 0x200000000000 { MaskValue44(k - 1); }
  lemma MaskValue46(k: nat) requires k == 46 ensures SquareMask(k) == 0x400000000000 { MaskValue45(k - 1); }
  lemma MaskValue47(k: nat) requires k == 47 ensures SquareMask(k) == 0x800000000000 { MaskValue46(k - 1); }
  lemma MaskValue48(k: nat) requires k == 48 ensures SquareMask(k) == 0x1000000000000 { MaskValue47(k - 1); }
  lemma MaskValue49(k: nat) requires k == 49 ensures SquareMask(k) == 0x2000000000000 { MaskValue48(k - 1); }
  lemma MaskValue50(k: nat) requires k == 50 ensures SquareMask(k) == 0x4000000000000 { MaskValue49(k - 1); }
  lemma MaskValue51(k: nat) requires k == 51 ensures SquareMask(k) == 0x8000000000000 { MaskValue50(k - 1); }
  lemma MaskValue52(k: nat) requires k == 52 ensures SquareMask(k) == 0x10000000000000 { MaskValue51(k - 1); }
  lemma MaskValue53(k: nat) requires k == 53 ensures SquareMask(k) == 0x20000000000000 { MaskValue52(k - 1); }
  lemma MaskValue54(k: nat) requires k == 54 ensures SquareMask(k) == 0x40000000000000 { MaskValue53(k - 1); }
  lemma MaskValue55(k: nat) requires k == 55 ensures SquareMask(k) == 0x80000000000000 { MaskValue54(k - 1); }
  lemma MaskValue56(k: nat) requires k == 56 ensures SquareMask(k) == 0x100000000000000 { MaskValue55(k - 1); }
  lemma MaskValue57(k: nat) requires k == 57 ensures SquareMask(k) == 0x200000000000000 { MaskValue56(k - 1); }
  lemma MaskValue58(k: nat) requires k == 58 ensures SquareMask(k) == 0x400000000000000 { MaskValue57(k - 1); }
  lemma MaskValue59(k: nat) requires k == 59 ensures SquareMask(k) == 0x800000000000000 { MaskValue58(k - 1); }
  lemma MaskValue60(k: nat) requires k == 60 ensures SquareMask(k) == 0x1000000000000000 { MaskValue59(k - 1); }
  lemma MaskValue61(k: nat) requires k == 61 ensures SquareMask(k) == 0x2000000000000000 { MaskValue60(k - 1); }
  lemma MaskValue62(k: nat) requires k == 62 ensures SquareMask(k) == 0x4000000000000000 { MaskValue61(k - 1); }
  lemma MaskValue63(k: nat) requires k == 63 ensures SquareMask(k) == 0x8000000000000000 { MaskValue62(k - 1); }

  // One table entry each: kept apart so that each multiplication is by constants.
  lemma DeBruijnEntry0() ensures DeBruijnLookup(DeBruijnSlot(0x1)) == 0 {}
  lemma DeBruijnEntry1() ensures DeBruijnLookup(DeBruijnSlot(0x2)) == 1 {}
  lemma DeBruijnEntry2() ensures DeBruijnLookup(DeBruijnSlot(0x4)) == 2 {}
  lemma DeBruijnEntry3() ensures DeBruijnLookup(DeBruijnSlot(0x8)) == 3 {}
  lemma DeBruijnEntry4() ensures DeBruijnLookup(DeBruijnSlot(0x10)) == 4 {}
  lemma DeBruijnEntry5() ensures DeBruijnLookup(DeBruijnSlot(0x20)) == 5 {}
  lemma DeBruijnEntry6() ensures DeBruijnLookup(DeBruijnSlot(0x40)) == 6 {}
  lemma DeBruijnEntry7() ensures DeBruijnLookup(DeBruijnSlot(0x80)) == 7 {}
  lemma DeBruijnEntry8() ensures DeBruijnLookup(DeBruijnSlot(0x100)) == 8 {}
  lemma DeBruijnEntry9() ensures DeBruijnLookup(DeBruijnSlot(0x200)) == 9 {}
  lemma DeBruijnEntry10() ensures DeBruijnLookup(DeBruijnSlot(0x400)) == 10 {}
  lemma DeBruijnEntry11() ensures DeBruijnLookup(DeBruijnSlot(0x800)) == 11 {}
  lemma DeBruijnEntry12() ensures DeBruijnLookup(DeBruijnSlot(0x1000)) == 12 {}
  lemma DeBruijnEntry13() ensures DeBruijnLookup(DeBruijnSlot(0x2000)) == 13 {}
  lemma DeBruijnEntry14() ensures DeBruijnLookup(DeBruijnSlot(0x4000)) == 14 {}
  lemma DeBruijnEntry15() ensures DeBruijnLookup(DeBruijnSlot(0x8000)) == 15 {}
  lemma DeBruijnEntry16() ensures DeBruijnLookup(DeBruijnSlot(0x10000)) == 16 {}
  lemma DeBruijnEntry17() ensures DeBruijnLookup(DeBruijnSlot(0x20000)) == 17 {}
  lemma DeBruijnEntry18() ensures DeBruijnLookup(DeBruijnSlot(0x40000)) == 18 {}
  lemma DeBruijnEntry19() ensures DeBruijnLookup(DeBruijnSlot(0x80000)) == 19 {}
  lemma DeBruijnEntry20() ensures DeBruijnLookup(DeBruijnSlot(0x100000)) == 20 {}
  lemma DeBruijnEntry21() ensures DeBruijnLookup(DeBruijnSlot(0x200000)) == 21 {}
  lemma DeBruijnEntry22() ensures DeBruijnLookup(DeBruijnSlot(0x400000)) == 22 {}
  lemma DeBruijnEntry23() ensures DeBruijnLookup(DeBruijnSlot(0x800000)) == 23 {}
  lemma DeBruijnEntry24() ensures DeBruijnLookup(DeBruijnSlot(0x1000000)) == 24 {}
  lemma DeBruijnEntry25() ensures DeBruijnLookup(DeBruijnSlot(0x2000000)) == 25 {}
  lemma DeBruijnEntry26() ensures DeBruijnLookup(DeBruijnSlot(0x4000000)) == 26 {}
  lemma DeBruijnEntry27() ensures DeBruijnLookup(DeBruijnSlot(0x8000000)) == 27 {}
  lemma DeBruijnEntry28() ensures DeBruijnLookup(DeBruijnSlot(0x10000000)) == 28 {}
  lemma DeBruijnEntry29() ensures DeBruijnLookup(DeBruijnSlot(0x20000000)) == 29 {}
  lemma DeBruijnEntry30() ensures DeBruijnLookup(DeBruijnSlot(0x40000000)) == 30 {}
  lemma DeBruijnEntry31() ensures DeBruijnLookup(DeBruijnSlot(0x80000000)) == 31 {}
  lemma DeBruijnEntry32() ensures DeBruijnLookup(DeBruijnSlot(0x100000000)) == 32 {}
  lemma DeBruijnEntry33() ensures DeBruijnLookup(DeBruijnSlot(0x200000000)) == 33 {}
  lemma DeBruijnEntry34() ensures DeBruijnLookup(DeBruijnSlot(0x400000000)) == 34 {}
  lemma DeBruijnEntry35() ensures DeBruijnLookup(DeBruijnSlot(0x800000000)) == 35 {}
  lemma DeBruijnEntry36() ensures DeBruijnLookup(DeBruijnSlot(0x1000000000)) == 36 {}
  lemma DeBruijnEntry37() ensures DeBruijnLookup(DeBruijnSlot(0x2000000000)) == 37 {}
  lemma DeBruijnEntry38() ensures DeBruijnLookup(DeBruijnSlot(0x4000000000)) == 38 {}
  lemma DeBruijnEntry39() ensures DeBruijnLookup(DeBruijnSlot(0x8000000000)) == 39 {}
  lemma DeBruijnEntry40() ensures DeBruijnLookup(DeBruijnSlot(0x10000000000)) == 40 {}
  lemma DeBruijnEntry41() ensures DeBruijnLookup(DeBruijnSlot(0x20000000000)) == 41 {}
  lemma DeBruijnEntry42() ensures DeBruijnLookup(DeBruijnSlot(0x40000000000)) == 42 {}
  lemma DeBruijnEntry43() ensures DeBruijnLookup(DeBruijnSlot(0x80000000000)) == 43 {}
  lemma DeBruijnEntry44() ensures DeBruijnLookup(DeBruijnSlot(0x100000000000)) == 44 {}
  lemma DeBruijnEntry45() ensures DeBruijnLookup(DeBruijnSlot(0x200000000000)) == 45 {}
  lemma DeBruijnEntry46() ensures DeBruijnLookup(DeBruijnSlot(0x400000000000)) == 46 {}
  lemma DeBruijnEntry47() ensures DeBruijnLookup(DeBruijnSlot(0x800000000000)) == 47 {}
  lemma DeBruijnEntry48() ensures DeBruijnLookup(DeBruijnSlot(0x1000000000000)) == 48 {}
  lemma DeBruijnEntry49() ensures DeBruijnLookup(DeBruijnSlot(0x2000000000000)) == 49 {}
  lemma DeBruijnEntry50() ensures DeBruijnLookup(DeBruijnSlot(0x4000000000000)) == 50 {}
  lemma DeBruijnEntry51() ensures DeBruijnLookup(DeBruijnSlot(0x8000000000000)) == 51 {}
  lemma DeBruijnEntry52() ensures DeBruijnLookup(DeBruijnSlot(0x10000000000000)) == 52 {}
  lemma DeBruijnEntry53() ensures DeBruijnLookup(DeBruijnSlot(0x20000000000000)) == 53 {}
  lemma DeBruijnEntry54() ensures DeBruijnLookup(DeBruijnSlot(0x40000000000000)) == 54 {}
  lemma DeBruijnEntry55() ensures DeBruijnLookup(DeBruijnSlot(0x80000000000000)) == 55 {}
  lemma DeBruijnEntry56() ensures DeBruijnLookup(DeBruijnSlot(0x100000000000000)) == 56 {}
  lemma DeBruijnEntry57() ensures DeBruijnLookup(DeBruijnSlot(0x200000000000000)) == 57 {}
  lemma DeBruijnEntry58() ensures DeBruijnLookup(DeBruijnSlot(0x400000000000000)) == 58 {}
  lemma DeBruijnEntry59() ensures DeBruijnLookup(DeBruijnSlot(0x800000000000000)) == 59 {}
  lemma DeBruijnEntry60() ensures DeBruijnLookup(DeBruijnSlot(0x1000000000000000)) == 60 {}
  lemma DeBruijnEntry61() ensures DeBruijnLookup(DeBruijnSlot(0x2000000000000000)) == 61 {}
  lemma DeBruijnEntry62() ensures DeBruijnLookup(DeBruijnSlot(0x4000000000000000)) == 62 {}
  lemma DeBruijnEntry63() ensures DeBruijnLookup(DeBruijnSlot(0x8000000000000000)) == 63 {}

  /**
   * The lowest square of `b` and `b` without it (the source passes `b` by
   * reference and clears the bit in place; here the cleared word is `rest`).
   */
  method FindAndZeroLeastSignificantBit(b: bv64) returns (lsb: nat, rest: bv64)
    ensures lsb < 64
    ensures b != 0 ==> IsLowestBit(b, lsb)
    ensures b == 0 ==> lsb == 63
    ensures forall j: nat :: j < 64 ==> (Has(rest, j) <==> Has(b, j) && j != lsb)
  {
    lsb := LeastSignificantBit(b);
    rest := b & NotSquareMask(lsb);
    ClearSquare(b, lsb);
  }

  // ------------------------------------------------------ the set bits

  /** The members of `b` from square `from` upwards, in ascending order. */
  function BitsFrom(b: bv64, from: nat): seq<nat>
    decreases 64 - from
  {
    if from >= 64 then []
    else (if Has(b, from) then [from] else []) + BitsFrom(b, from + 1)
  }

  /** The members of `b`, lowest first. */
  function Squares(b: bv64): seq<nat>
  {
    BitsFrom(b, 0)
  }

  /** The number of members of `b`. */
  function Count(b: bv64): nat
  {
    |Squares(b)|
  }

  lemma {:induction false} BitsFromMembers(b: bv64, from: nat, x: nat)
    ensures x in BitsFrom(b, from) <==> from <= x < 64 && Has(b, x)
    decreases 64 - from
  {
    if from < 64 {
      BitsFromMembers(b, from + 1, x);
    }
  }

  lemma {:induction false} BitsFromAscending(b: bv64, from: nat)
    ensures forall i, j :: 0 <= i < j < |BitsFrom(b, from)| ==> BitsFrom(b, from)[i] < BitsFrom(b, from)[j]
    decreases 64 - from
  {
    if from < 64 {
      BitsFromAscending(b, from + 1);
      var rest := BitsFrom(b, from + 1);
      forall i | 0 <= i < |rest|
        ensures rest[i] > from
      {
        BitsFromMembers(b, from + 1, rest[i]);
      }
    }
  }

  /** Squares(b) lists exactly the members of b, in strictly ascending order. */
  lemma SquaresMeaning(b: bv64)
    ensures forall x: nat :: x in Squares(b) <==> x < 64 && Has(b, x)
    ensures forall i, j :: 0 <= i < j < |Squares(b)| ==> Squares(b)[i] < Squares(b)[j]
  {
    forall x: nat
      ensures x in Squares(b) <==> x < 64 && Has(b, x)
    {
      BitsFromMembers(b, 0, x);
    }
    BitsFromAscending(b, 0);
  }

  lemma {:induction false} BitsFromSkip(b: bv64, from: nat, k: nat)
    requires from <= k <= 64
    requires forall j: nat :: from <= j < k ==> !Has(b, j)
    ensures BitsFrom(b, from) == BitsFrom(b, k)
    decreases k - from
  {
    if from < k {
      BitsFromSkip(b, from + 1, k);
    }
  }

  lemma {:induction false} BitsFromAgree(a: bv64, b: bv64, from: nat)
    requires forall j: nat :: from <= j < 64 ==> (Has(a, j) <==> Has(b, j))
    ensures BitsFrom(a, from) == BitsFrom(b, from)
    decreases 64 - from
  {
    if from < 64 {
      BitsFromAgree(a, b, from + 1);
    }
  }

  /**
   * Removing the lowest member of a nonempty bitboard removes the head of
   * its ascending list of members.
   */
  lemma PeelLowest(b: bv64, k: nat, rest: bv64)
    requires IsLowestBit(b, k)
    requires forall j: nat :: j < 64 ==> (Has(rest, j) <==> Has(b, j) && j != k)
    ensures Squares(b) == [k] + Squares(rest)
  {
    BitsFromSkip(b, 0, k);
    BitsFromSkip(rest, 0, k + 1);
    BitsFromAgree(rest, b, k + 1);
  }

  lemma {:induction false} BitsFromLength(b: bv64, from: nat)
    ensures |BitsFrom(b, from)| <= if from >= 64 then 0 else 64 - from
    decreases 64 - from
  {
    if from < 64 {
      BitsFromLength(b, from + 1);
    }
  }

  /** A bitboard has at most 64 members. */
  lemma CountBound(b: bv64)
    ensures Count(b) <= 64 && PositiveLoopCount(b) <= 64
  {
    BitsFromLength(b, 0);
    PositiveLoopCountMeaning(b);
  }

  lemma CountZero()
    ensures Squares(0) == [] && Count(0) == 0
  {
    forall j: nat | j < 64
      ensures !Has(0, j)
    {
      HasZero(j);
    }
    BitsFromSkip(0, 0, 64);
  }

  /** The members of `n`, lowest first, taken off one at a time. */
  method ListBits(n: bv64) returns (bits: seq<nat>)
    ensures bits == Squares(n)
  {
    bits := [];
    var m := n;
    ghost var all := Squares(n);
    assert bits + Squares(m) == all;
    while m != 0
      invariant bits + Squares(m) == all
      decreases Count(m)
    {
      var prev := m;
      var bit;
      bit, m := FindAndZeroLeastSignificantBit(prev);
      ListStep(bits, prev, bit, m);
      bits := bits + [bit];
    }
    CountZero();
    assert bits + [] == bits;
  }

  /** One round of `ListBits`: the lowest member moves from the word to the list. */
  lemma ListStep(bits: seq<nat>, prev: bv64, bit: nat, m: bv64)
    requires IsLowestBit(prev, bit)
    requires forall j: nat :: j < 64 ==> (Has(m, j) <==> Has(prev, j) && j != bit)
    ensures (bits + [bit]) + Squares(m) == bits + Squares(prev)
    ensures Count(m) < Count(prev)
  {
    PeelLowest(prev, bit, m);
    assert (bits + [bit]) + Squares(m) == bits + ([bit] + Squares(m));
  }

  // ------------------------------------------------------ powers of two

  function Pow2(b: nat): (r: nat)
    ensures r >= 1
  {
    if b == 0 then 1 else 2 * Pow2(b - 1)
  }

  lemma {:induction false} Pow2Add(m: nat, n: nat)
    ensures Pow2(m + n) == Pow2(m) * Pow2(n)
  {
    if m > 0 {
      Pow2Add(m - 1, n);
    }
  }

  lemma Pow2Of16()
    ensures Pow2(16) == 0x1_0000
  {
    assert Pow2(8) == 0x100;
    Pow2Add(8, 8);
  }

  lemma Pow2Of32()
    ensures Pow2(32) == 0x1_0000_0000
  {
    Pow2Of16();
    Pow2Add(16, 16);
  }

  /** 2 to the 64th: the number of values of a 64-bit word. */
  lemma Pow2Of64()
    ensures Pow2(64) == 0x1_0000_0000_0000_0000
  {
    Pow2Of32();
    Pow2Add(32, 32);
  }

  // ------------------------------------------------------- signed shifts

  /**
   * `b >> n` on the signed 64-bit word the source keeps a bitboard in: the
   * shift is arithmetic, so when bit 63 is set the vacated high bits fill
   * with ones.
   */
  function SignedShiftRight(b: bv64, n: nat): bv64
    requires n < 64
  {
    if b & 0x8000_0000_0000_0000 != 0 then (b >> n) | !(0xFFFF_FFFF_FFFF_FFFF >> n) else b >> n
  }

  /**
   * Masking to a byte (or, for a shift beyond 56, to one bit) after the
   * shift removes every filled-in bit: for the occupancy lookups the signed
   * shift reads the same bits as an unsigned one.
   */
  lemma SignedShiftMasked(b: bv64, n: nat, mask: bv64)
    requires n < 64 && mask <= 0xff && (n > 56 ==> mask <= 1)
    ensures SignedShiftRight(b, n) & mask == (b >> n) & mask
  {
    if n <= 56 {
      SignedShiftByte(b, n);
      assert SignedShiftRight(b, n) & mask == (SignedShiftRight(b, n) & 0xff) & mask;
      assert (b >> n) & mask == ((b >> n) & 0xff) & mask;
    }
  }

  lemma SignedShiftByte(b: bv64, n: nat)
    requires n <= 56
    ensures SignedShiftRight(b, n) & 0xff == (b >> n) & 0xff
  {
  }

  // ------------------------------------------------------ population count

  /** The word is greater than zero when read as a signed 64-bit integer. */
  predicate IsPositiveInt64(b: bv64)
  {
    0 < b < 0x8000_0000_0000_0000
  }

  lemma IsPositiveInt64Meaning(b: bv64)
    ensures IsPositiveInt64(b) <==> b != 0 && !Has(b, 63)
  {
    HasMeaning(b, 63);
    MaskTop();
  }

  /**
   * What a counting loop guarded by `b > 0` on a signed word returns: a word
   * whose bit 63 (square A8) is set is negative, so the loop never runs.
   */
  function PositiveLoopCount(b: bv64): nat
  {
    LoopCountAt(b, 3)
  }

  /** `PositiveLoopCount` with its definition a few calls deeper (see `PositiveLoopCountMeaning`). */
  function LoopCountAt(b: bv64, depth: nat): nat
    decreases depth
  {
    if depth == 0 then (if Has(b, 63) then 0 else Count(b)) else LoopCountAt(b, depth - 1)
  }

  lemma {:induction false} LoopCountAtMeaning(b: bv64, depth: nat)
    ensures LoopCountAt(b, depth) == if Has(b, 63) then 0 else Count(b)
    decreases depth
  {
    if depth > 0 {
      LoopCountAtMeaning(b, depth - 1);
    }
  }

  lemma PositiveLoopCountMeaning(b: bv64)
    ensures PositiveLoopCount(b) == if Has(b, 63) then 0 else Count(b)
  {
    LoopCountAtMeaning(b, 3);
  }

  lemma LowestBitCleared(b: bv64)
    requires b != 0
    ensures b & (b - 1) == b & !(b & -b)
  {
  }

  /** Clearing the lowest set bit with `b & (b - 1)`. */
  lemma ClearLowestBit(b: bv64) returns (k: nat)
    requires b != 0
    ensures IsLowestBit(b, k)
    ensures forall j: nat :: j < 64 ==> (Has(b & (b - 1), j) <==> Has(b, j) && j != k)
  {
    k := LeastSignificantBit(b);
    LowestBitCleared(b);
    assert b & (b - 1) == b & NotSquareMask(k);
    ClearSquare(b, k);
  }

  /**
   * The population count as the source writes it: the loop runs while the
   * signed word is positive, clearing the lowest set bit each time.
   */
  method PopulationCount(b: bv64) returns (q: nat)
    ensures q == PositiveLoopCount(b)
  {
    q := 0;
    var w := b;
    ghost var total := Count(b);
    IsPositiveInt64Meaning(w);
    while IsPositiveInt64(w)
      invariant q + Count(w) == total
      invariant Has(w, 63) == Has(b, 63)
      invariant Has(b, 63) ==> q == 0
      invariant IsPositiveInt64(w) <==> w != 0 && !Has(w, 63)
      decreases Count(w)
    {
      var k := ClearLowestBit(w);
      PeelLowest(w, k, w & (w - 1));
      q := q + 1;
      w := w & (w - 1);
      IsPositiveInt64Meaning(w);
    }
    if !Has(b, 63) {
      CountZero();
    }
    PositiveLoopCountMeaning(b);
  }

  /** The population count with the intended loop test `b != 0`. */
  method PopulationCountCorrected(b: bv64) returns (q: nat)
    ensures q == Count(b)
  {
    q := 0;
    var w := b;
    ghost var total := Count(b);
    while w != 0
      invariant q + Count(w) == total
      decreases Count(w)
    {
      var k := ClearLowestBit(w);
      PeelLowest(w, k, w & (w - 1));
      q := q + 1;
      w := w & (w - 1);
    }
    CountZero();
  }

  /** Every bitboard that holds square A8 is counted as empty by the source's loop. */
  lemma PositiveLoopCountMissesA8(b: bv64)
    requires Has(b, 63)
    ensures PositiveLoopCount(b) == 0 && Count(b) >= 1
  {
    BitsFromMembers(b, 0, 63);
    PositiveLoopCountMeaning(b);
  }
}
