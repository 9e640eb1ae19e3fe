/**
 * The board's precomputed geometry: ranks and files, the knight and king
 * move masks, the sliding-piece ray tables that are indexed by the
 * occupancy of one rank, file or diagonal, the `Obstructed` and
 * `DirectionIncrement` tables, the file, rank and edge masks, and the
 * renumberings of the three rotated bitboards.
 *
 * The source fills these arrays once, in the board's static constructor,
 * with nested loops. Here each entry is a function of its indices, written
 * so that it follows the loop that computes it; a bitboard built by a loop
 * that ORs in `1 << k` for each `k` it visits is `MaskOf` of the list of
 * the visited `k`. The lemmas state what the entries mean.
 */
module BoardTables {
  import opened BitOperations

  // ----------------------------------------------------------- rank, file

  /** The rank of a square (0 is the first rank), truncated to a byte as the source does. */
  function Rank(square: int): (r: int)
    ensures 0 <= r < 256
    ensures 0 <= square < 64 ==> r == square / 8 && r < 8
  {
    (square / 8) % 256
  }

  /** The file of a square counted from the h-file (0 is h, 7 is a): its low three bits. */
  function File(square: int): (r: int)
    ensures 0 <= r < 8
    ensures 0 <= square < 64 ==> square == 8 * Rank(square) + r
  {
    square % 8
  }

  function AbsInt(x: int): (r: nat)
    ensures r == x || r == -x
  {
    if x < 0 then -x else x
  }

  // ------------------------------------------------------ building masks

  /** `1L << k` in C#: the shift count is taken modulo 64. */
  function ShiftedOne(k: int): bv64
  {
    SquareMask(k % 64)
  }

  /** The word a loop builds by ORing in `1 << k` for each `k` of `s`, in order. */
  function MaskOf(s: seq<int>): bv64
    decreases |s|, 1
  {
    BuildMask(s)
  }

  function BuildMask(s: seq<int>): bv64
    decreases |s|, 0
  {
    if s == [] then 0 else MaskOf(s[..|s| - 1]) | ShiftedOne(s[|s| - 1])
  }

  predicate OnBoard(s: seq<int>)
  {
    forall k :: 0 <= k < |s| ==> 0 <= s[k] < 64
  }

  lemma ShiftedOneMember(k: int, j: nat)
    requires 0 <= k < 64 && j < 64
    ensures Has(ShiftedOne(k), j) <==> j == k
  {
    HasSquareMask(k % 64, j);
  }

  /** A square is in `MaskOf(s)` exactly when the list visits it. */
  lemma {:induction false} MaskOfMembers(s: seq<int>, j: nat)
    requires OnBoard(s) && j < 64
    ensures Has(MaskOf(s), j) <==> j in s
  {
    if s == [] {
      HasZero(j);
    } else {
      var init := s[..|s| - 1];
      var last := s[|s| - 1];
      assert OnBoard(init);
      MaskOfMembers(init, j);
      MaskOfLast(s, j);
      ShiftedOneMember(last, j);
      LastSplit(s, j);
    }
  }

  lemma MaskOfLast(s: seq<int>, j: nat)
    requires s != []
    ensures Has(MaskOf(s), j) <==> Has(MaskOf(s[..|s| - 1]), j) || Has(ShiftedOne(s[|s| - 1]), j)
  {
    var a := MaskOf(s[..|s| - 1]);
    var b := ShiftedOne(s[|s| - 1]);
    assert MaskOf(s) == a | b;
    HasOr(a, b, j);
  }

  lemma LastSplit(s: seq<int>, j: int)
    requires s != []
    ensures j in s <==> j in s[..|s| - 1] || j == s[|s| - 1]
  {
    assert s == s[..|s| - 1] + [s[|s| - 1]];
  }

  /** The integers a, a + step, ... below `b`: the values a counting loop visits. */
  function Range(a: int, b: int, step: nat): (r: seq<int>)
    requires step > 0
    ensures forall k :: 0 <= k < |r| ==> a <= r[k] < b
    decreases b - a
  {
    if a >= b then [] else [a] + Range(a + step, b, step)
  }

  /** The same, counting down: a, a - step, ... above `b`. */
  function RangeDown(a: int, b: int, step: nat): (r: seq<int>)
    requires step > 0
    ensures forall k :: 0 <= k < |r| ==> b < r[k] <= a
    decreases a - b
  {
    if a <= b then [] else [a] + RangeDown(a - step, b, step)
  }

  lemma {:induction false} RangeMembers(a: int, b: int, step: nat, j: int)
    requires IsLineStep(step)
    ensures j in Range(a, b, step) <==> a <= j < b && (j - a) % step == 0
    decreases b - a
  {
    if a < b {
      RangeMembers(a + step, b, step, j);
      assert (j - a) % step == ((j - (a + step)) + step) % step;
      ModShift(j - (a + step), step);
    }
  }

  lemma {:induction false} RangeDownMembers(a: int, b: int, step: nat, j: int)
    requires IsLineStep(step)
    ensures j in RangeDown(a, b, step) <==> b < j <= a && (a - j) % step == 0
    decreases a - b
  {
    if a > b {
      RangeDownMembers(a - step, b, step, j);
      assert (a - j) % step == ((a - step - j) + step) % step;
      ModShift(a - step - j, step);
    }
  }

  /** The steps the table loops use: along a rank, a file and the two diagonals. */
  predicate IsLineStep(step: nat) { step == 1 || step == 7 || step == 8 || step == 9 }

  lemma ModShift(x: int, step: nat)
    requires IsLineStep(step)
    ensures (x + step) % step == x % step
  {
    if step == 1 {
    } else if step == 7 {
    } else if step == 8 {
    } else {
    }
  }

  // ------------------------------------------------------ knight and king

  const KnightIncrements: seq<int> := [-17, 17, -15, 15, -10, 10, -6, 6]
  const KingIncrements: seq<int> := [-1, 1, -8, 8, 7, -7, 9, -9]

  /** The test of the table loops: `t` is on the board and its file and rank distances from `i` add up right. */
  predicate Admissible(i: int, t: int, knight: bool)
  {
    0 <= t < 64 &&
    var sum := AbsInt(t % 8 - i % 8) + AbsInt(t / 8 - i / 8);
    if knight then sum == 3 else sum < 3
  }

  /** The squares `i + d`, `d` from `increments[k..]`, that pass the test. */
  function StepTargets(i: int, increments: seq<int>, k: nat, knight: bool): (r: seq<int>)
    requires k <= |increments|
    ensures OnBoard(r)
    decreases |increments| - k
  {
    if k == |increments| then []
    else
      var t := i + increments[k];
      (if Admissible(i, t, knight) then [t] else []) + StepTargets(i, increments, k + 1, knight)
  }

  lemma {:induction false} StepTargetsMembers(i: int, increments: seq<int>, k: nat, knight: bool, j: int)
    requires k <= |increments|
    ensures j in StepTargets(i, increments, k, knight) <==> j - i in increments[k..] && Admissible(i, j, knight)
    decreases |increments| - k
  {
    if k < |increments| {
      StepTargetsMembers(i, increments, k + 1, knight, j);
      assert increments[k..] == [increments[k]] + increments[k + 1..];
    }
  }

  function KnightMoves(i: int): bv64
  {
    MaskOf(StepTargets(i, KnightIncrements, 0, true))
  }

  function KingMoves(i: int): bv64
  {
    MaskOf(StepTargets(i, KingIncrements, 0, false))
  }

  lemma KnightArithmetic(df: int, dr: int)
    requires -7 <= df <= 7 && -7 <= dr <= 7
    ensures (8 * dr + df in KnightIncrements && AbsInt(df) + AbsInt(dr) == 3) <==>
      (AbsInt(df) == 1 && AbsInt(dr) == 2) || (AbsInt(df) == 2 && AbsInt(dr) == 1)
  {
  }

  lemma KingArithmetic(df: int, dr: int)
    requires -7 <= df <= 7 && -7 <= dr <= 7
    ensures (8 * dr + df in KingIncrements && AbsInt(df) + AbsInt(dr) < 3) <==>
      (df != 0 || dr != 0) && AbsInt(df) <= 1 && AbsInt(dr) <= 1
  {
  }

  /** The difference of two squares split into a rank and a file difference. */
  lemma Coordinates(i: int, j: int)
    requires 0 <= i < 64 && 0 <= j < 64
    ensures j % 8 - i % 8 == File(j) - File(i) && j / 8 - i / 8 == Rank(j) - Rank(i)
    ensures j - i == 8 * (Rank(j) - Rank(i)) + (File(j) - File(i))
    ensures -7 <= File(j) - File(i) <= 7 && -7 <= Rank(j) - Rank(i) <= 7
  {
  }

  lemma KnightStep(i: int, j: int)
    requires 0 <= i < 64 && 0 <= j < 64
    ensures (j - i in KnightIncrements && Admissible(i, j, true)) <==>
      (AbsInt(File(j) - File(i)) == 1 && AbsInt(Rank(j) - Rank(i)) == 2) ||
      (AbsInt(File(j) - File(i)) == 2 && AbsInt(Rank(j) - Rank(i)) == 1)
  {
    Coordinates(i, j);
    KnightArithmetic(File(j) - File(i), Rank(j) - Rank(i));
  }

  lemma KingStep(i: int, j: int)
    requires 0 <= i < 64 && 0 <= j < 64
    ensures (j - i in KingIncrements && Admissible(i, j, false)) <==>
      j != i && AbsInt(File(j) - File(i)) <= 1 && AbsInt(Rank(j) - Rank(i)) <= 1
  {
    Coordinates(i, j);
    KingArithmetic(File(j) - File(i), Rank(j) - Rank(i));
  }

  lemma KnightTargets(i: int, j: nat)
    requires 0 <= i < 64 && j < 64
    ensures j in StepTargets(i, KnightIncrements, 0, true) <==>
      (AbsInt(File(j) - File(i)) == 1 && AbsInt(Rank(j) - Rank(i)) == 2) ||
      (AbsInt(File(j) - File(i)) == 2 && AbsInt(Rank(j) - Rank(i)) == 1)
  {
    StepTargetsMembers(i, KnightIncrements, 0, true, j);
    assert KnightIncrements[0..] == KnightIncrements;
    KnightStep(i, j);
  }

  lemma KingTargets(i: int, j: nat)
    requires 0 <= i < 64 && j < 64
    ensures j in StepTargets(i, KingIncrements, 0, false) <==>
      j != i && AbsInt(File(j) - File(i)) <= 1 && AbsInt(Rank(j) - Rank(i)) <= 1
  {
    StepTargetsMembers(i, KingIncrements, 0, false, j);
    assert KingIncrements[0..] == KingIncrements;
    KingStep(i, j);
  }

  /** The knight on `i` reaches exactly the squares one file and two ranks, or two files and one rank, away. */
  lemma KnightMovesMeaning(i: int, j: nat)
    requires 0 <= i < 64 && j < 64
    ensures Has(KnightMoves(i), j) <==>
      (AbsInt(File(j) - File(i)) == 1 && AbsInt(Rank(j) - Rank(i)) == 2) ||
      (AbsInt(File(j) - File(i)) == 2 && AbsInt(Rank(j) - Rank(i)) == 1)
  {
    MaskOfMembers(StepTargets(i, KnightIncrements, 0, true), j);
    KnightTargets(i, j);
  }

  /** The king on `i` reaches exactly the squares at distance one. */
  lemma KingMovesMeaning(i: int, j: nat)
    requires 0 <= i < 64 && j < 64
    ensures Has(KingMoves(i), j) <==>
      j != i && AbsInt(File(j) - File(i)) <= 1 && AbsInt(Rank(j) - Rank(i)) <= 1
  {
    MaskOfMembers(StepTargets(i, KingIncrements, 0, false), j);
    KingTargets(i, j);
  }

  // ------------------------------------------------------------ rank rays

  /** The bit `b` of an occupancy byte `q`: the test `((1 << b) & q) != 0`. */
  predicate OccupancyBit(q: int, b: int)
  {
    OccupancyTest(q, b, if b < 0 then 0 else b + 1)
  }

  /** The test itself; the countdown on `depth` keeps the division out of unrelated proofs. */
  predicate OccupancyTest(q: int, b: int, depth: nat)
    decreases depth
  {
    if depth == 0 then 0 <= b && (q / Pow2(b)) % 2 == 1 else OccupancyTest(q, b, depth - 1)
  }

  lemma OccupancyBitMeaning(q: int, b: int)
    ensures OccupancyBit(q, b) <==> 0 <= b && (q / Pow2(b)) % 2 == 1
  {
    OccupancyTestMeaning(q, b, if b < 0 then 0 else b + 1);
  }

  lemma {:induction false} OccupancyTestMeaning(q: int, b: int, depth: nat)
    ensures OccupancyTest(q, b, depth) <==> 0 <= b && (q / Pow2(b)) % 2 == 1
  {
    if depth > 0 {
      OccupancyTestMeaning(q, b, depth - 1);
    }
  }

  /**
   * The loop that walks a rank upwards from `k`: every square below `end`
   * is taken while the file bit of the previous ones is clear in `q`; the
   * first square whose bit is set is taken too and ends the walk.
   */
  function RankRayUp(k: int, end: int, q: int): (r: seq<int>)
    ensures forall t :: 0 <= t < |r| ==> k <= r[t] < end
    decreases end - k
  {
    if k >= end then []
    else if !OccupancyBit(q, k % 8) then [k] + RankRayUp(k + 1, end, q)
    else [k]
  }

  /** The same walk downwards to `start`. */
  function RankRayDown(k: int, start: int, q: int): (r: seq<int>)
    ensures forall t :: 0 <= t < |r| ==> start <= r[t] <= k
    decreases k - start
  {
    if k < start then []
    else if !OccupancyBit(q, k % 8) then [k] + RankRayDown(k - 1, start, q)
    else [k]
  }

  /**
   * The rook moves along the rank of `i` when `q` is the occupancy of that
   * rank, one bit per file.
   */
  function RookAttacksHorizontal(i: int, q: int): bv64
  {
    MaskOf(RankRayUp(i + 1, i + 8 - i % 8, q) + RankRayDown(i - 1, i - i % 8, q))
  }

  lemma {:induction false} RankRayUpMembers(k: int, end: int, q: int, j: int)
    ensures j in RankRayUp(k, end, q) <==>
      k <= j < end && forall m :: k <= m < j ==> !OccupancyBit(q, m % 8)
    decreases end - k
  {
    if k < end {
      RankRayUpMembers(k + 1, end, q, j);
    }
  }

  lemma {:induction false} RankRayDownMembers(k: int, start: int, q: int, j: int)
    ensures j in RankRayDown(k, start, q) <==>
      start <= j <= k && forall m :: j < m <= k ==> !OccupancyBit(q, m % 8)
    decreases k - start
  {
    if k >= start {
      RankRayDownMembers(k - 1, start, q, j);
    }
  }

  /** No file strictly between the files of `a` and `b` is occupied in `q`. */
  predicate FilesClear(q: int, a: int, b: int)
  {
    forall f :: 0 <= f < 8 && (File(a) < f < File(b) || File(b) < f < File(a)) ==> !OccupancyBit(q, f)
  }

  /**
   * The rook on `i` attacks a square `j` of its own rank exactly when every
   * file in between is empty in `q`: the first occupied square in each
   * direction is included, and `i` itself never is.
   */
  lemma RookAttacksHorizontalMeaning(i: int, q: int, j: nat)
    requires 0 <= i < 64 && j < 64
    ensures Has(RookAttacksHorizontal(i, q), j) <==>
      Rank(j) == Rank(i) && j != i && FilesClear(q, i, j)
  {
    RookHorizontalMembers(i, q, j);
    RookHorizontalTargets(i, q, j);
  }

  lemma RookHorizontalMembers(i: int, q: int, j: nat)
    requires 0 <= i < 64 && j < 64
    ensures Has(RookAttacksHorizontal(i, q), j) <==>
      j in RankRayUp(i + 1, i + 8 - i % 8, q) + RankRayDown(i - 1, i - i % 8, q)
  {
    RookHorizontalOnBoard(i, q);
    MaskOfMembers(RankRayUp(i + 1, i + 8 - i % 8, q) + RankRayDown(i - 1, i - i % 8, q), j);
  }

  lemma RookHorizontalOnBoard(i: int, q: int)
    requires 0 <= i < 64
    ensures OnBoard(RankRayUp(i + 1, i + 8 - i % 8, q) + RankRayDown(i - 1, i - i % 8, q))
  {
    OnBoardConcat(RankRayUp(i + 1, i + 8 - i % 8, q), RankRayDown(i - 1, i - i % 8, q));
  }

  lemma OnBoardConcat(a: seq<int>, b: seq<int>)
    requires OnBoard(a) && OnBoard(b)
    ensures OnBoard(a + b)
  {
    assert forall k :: |a| <= k < |a + b| ==> (a + b)[k] == b[k - |a|];
  }

  lemma RookHorizontalTargets(i: int, q: int, j: nat)
    requires 0 <= i < 64 && j < 64
    ensures j in RankRayUp(i + 1, i + 8 - i % 8, q) + RankRayDown(i - 1, i - i % 8, q) <==>
      Rank(j) == Rank(i) && j != i && FilesClear(q, i, j)
  {
    RankUpTargets(i, q, j);
    RankDownTargets(i, q, j);
  }

  lemma RankUpTargets(i: int, q: int, j: nat)
    requires 0 <= i < 64 && j < 64
    ensures j in RankRayUp(i + 1, i + 8 - i % 8, q) <==> j > i && Rank(j) == Rank(i) && FilesClear(q, i, j)
  {
    var r := Rank(i);
    assert i + 8 - i % 8 == 8 * r + 8;
    RankRayUpMembers(i + 1, 8 * r + 8, q, j);
    assert (i + 1 <= j < 8 * r + 8) <==> (j > i && Rank(j) == r);
    if j > i && Rank(j) == r {
      RankRayUpClear(i, q, j);
    }
  }

  lemma RankDownTargets(i: int, q: int, j: nat)
    requires 0 <= i < 64 && j < 64
    ensures j in RankRayDown(i - 1, i - i % 8, q) <==> j < i && Rank(j) == Rank(i) && FilesClear(q, i, j)
  {
    var r := Rank(i);
    assert i - i % 8 == 8 * r;
    RankRayDownMembers(i - 1, 8 * r, q, j);
    assert (8 * r <= j <= i - 1) <==> (j < i && Rank(j) == r);
    if j < i && Rank(j) == r {
      RankRayDownClear(i, q, j);
    }
  }

  /** The square on rank `r` and file `f`. */
  lemma SquareAt(r: int, f: int)
    requires 0 <= r < 8 && 0 <= f < 8
    ensures 0 <= 8 * r + f < 64 && Rank(8 * r + f) == r && File(8 * r + f) == f
    ensures (8 * r + f) % 8 == f && (8 * r + f) / 8 == r
  {
  }

  /** A square between two squares of one rank lies on that rank. */
  lemma OnRankBetween(a: int, m: int, b: int)
    requires 0 <= a <= m <= b < 64 && Rank(a) == Rank(b)
    ensures Rank(m) == Rank(a) && File(a) <= File(m) <= File(b)
  {
    var r := Rank(a);
    assert 8 * r <= a && b < 8 * r + 8;
    SquareAt(r, m - 8 * r);
  }

  lemma RankRayUpClear(i: int, q: int, j: int)
    requires 0 <= i < j < 64 && Rank(j) == Rank(i)
    ensures (forall m :: i + 1 <= m < j ==> !OccupancyBit(q, m % 8)) <==> FilesClear(q, i, j)
  {
    var r := Rank(i);
    OnRankBetween(i, i, j);
    if forall m :: i + 1 <= m < j ==> !OccupancyBit(q, m % 8) {
      forall f | 0 <= f < 8 && (File(i) < f < File(j) || File(j) < f < File(i))
        ensures !OccupancyBit(q, f)
      {
        SquareAt(r, f);
        var m := 8 * r + f;
        assert i + 1 <= m < j;
      }
    }
    if FilesClear(q, i, j) {
      forall m | i + 1 <= m < j
        ensures !OccupancyBit(q, m % 8)
      {
        OnRankBetween(i, m, j);
        assert File(i) < File(m) < File(j);
      }
    }
  }

  lemma RankRayDownClear(i: int, q: int, j: int)
    requires 0 <= j < i < 64 && Rank(j) == Rank(i)
    ensures (forall m :: j < m <= i - 1 ==> !OccupancyBit(q, m % 8)) <==> FilesClear(q, i, j)
  {
    var r := Rank(i);
    OnRankBetween(j, j, i);
    if forall m :: j < m <= i - 1 ==> !OccupancyBit(q, m % 8) {
      forall f | 0 <= f < 8 && (File(i) < f < File(j) || File(j) < f < File(i))
        ensures !OccupancyBit(q, f)
      {
        SquareAt(r, f);
        var m := 8 * r + f;
        assert j < m <= i - 1;
      }
    }
    if FilesClear(q, i, j) {
      forall m | j < m <= i - 1
        ensures !OccupancyBit(q, m % 8)
      {
        OnRankBetween(j, m, i);
        assert File(j) < File(m) < File(i);
      }
    }
  }

  // ------------------------------------------------------------ file rays

  /** The walk up a file from `k`, eight squares at a time, tested on bit `7 - rank` of `q`. */
  function FileRayUp(k: int, q: int): (r: seq<int>)
    ensures forall t :: 0 <= t < |r| ==> k <= r[t] < 64
    decreases 64 - k
  {
    if k >= 64 then []
    else if !RankOccupied(q, k / 8) then [k] + FileRayUp(k + 8, q)
    else [k]
  }

  function FileRayDown(k: int, q: int): (r: seq<int>)
    ensures forall t :: 0 <= t < |r| ==> 0 <= r[t] <= k
    decreases k
  {
    if k < 0 then []
    else if !RankOccupied(q, k / 8) then [k] + FileRayDown(k - 8, q)
    else [k]
  }

  /**
   * The rook moves along the file of `i` when `q` is the occupancy of that
   * file as the 90-degree bitboard holds it: rank r at bit 7 - r.
   */
  function RookAttacksVertical(i: int, q: int): bv64
  {
    MaskOf(FileRayUp(i + 8, q) + FileRayDown(i - 8, q))
  }

  /** Rank `r` is occupied in a file occupancy `q`, which holds rank r at bit 7 - r. */
  predicate RankOccupied(q: int, r: int)
  {
    OccupancyBit(q, 7 - r)
  }

  /** The walk up reaches the squares of the same file above `k` whose lower ranks from `k` on are clear. */
  lemma {:induction false} FileRayUpMembers(k: int, q: int, j: int)
    requires k >= 0
    ensures j in FileRayUp(k, q) <==>
      k <= j < 64 && File(j) == File(k) && forall r :: k / 8 <= r < j / 8 ==> !RankOccupied(q, r)
    decreases 64 - k
  {
    if k < 64 {
      FileRayUpMembers(k + 8, q, j);
      FileAbove(k, j);
    }
  }

  /** Two squares of one file are a whole number of ranks apart. */
  lemma FileAbove(k: int, j: int)
    requires 0 <= k
    ensures (k + 8) / 8 == k / 8 + 1 && File(k + 8) == File(k)
    ensures File(j) == File(k) && k < j ==> k + 8 <= j && k / 8 < j / 8
  {
    if File(j) == File(k) && k < j {
      assert j - k == 8 * (j / 8 - k / 8);
    }
  }

  /** The walk down reaches the squares of the same file below `k` whose higher ranks up to `k` are clear. */
  lemma {:induction false} FileRayDownMembers(k: int, q: int, j: int)
    requires k < 64
    ensures j in FileRayDown(k, q) <==>
      0 <= j <= k && File(j) == File(k) && forall r :: j / 8 < r <= k / 8 ==> !RankOccupied(q, r)
    decreases k + 8
  {
    if k >= 0 {
      FileRayDownMembers(k - 8, q, j);
      assert (k - 8) / 8 == k / 8 - 1 && File(k - 8) == File(k);
      if j == k {
      } else if File(j) == File(k) && j < k {
        assert j <= k - 8;
      }
    }
  }

  /** No rank strictly between the ranks of `a` and `b` is occupied in the file occupancy `q`. */
  predicate RanksClear(q: int, a: int, b: int)
  {
    forall r :: 0 <= r < 8 && (a / 8 < r < b / 8 || b / 8 < r < a / 8) ==> !RankOccupied(q, r)
  }

  /**
   * The rook on `i` attacks a square `j` of its own file exactly when every
   * rank in between is empty in `q`; `i` itself is never included.
   */
  lemma RookAttacksVerticalMeaning(i: int, q: int, j: nat)
    requires 0 <= i < 64 && j < 64
    ensures Has(RookAttacksVertical(i, q), j) <==>
      File(j) == File(i) && j != i && RanksClear(q, i, j)
  {
    RookVerticalMembers(i, q, j);
    RookVerticalTargets(i, q, j);
  }

  lemma RookVerticalMembers(i: int, q: int, j: nat)
    requires 0 <= i < 64 && j < 64
    ensures Has(RookAttacksVertical(i, q), j) <==> j in FileRayUp(i + 8, q) + FileRayDown(i - 8, q)
  {
    RookVerticalOnBoard(i, q);
    MaskOfMembers(FileRayUp(i + 8, q) + FileRayDown(i - 8, q), j);
  }

  lemma RookVerticalOnBoard(i: int, q: int)
    requires 0 <= i < 64
    ensures OnBoard(FileRayUp(i + 8, q) + FileRayDown(i - 8, q))
  {
    OnBoardConcat(FileRayUp(i + 8, q), FileRayDown(i - 8, q));
  }

  lemma RookVerticalTargets(i: int, q: int, j: nat)
    requires 0 <= i < 64 && j < 64
    ensures j in FileRayUp(i + 8, q) + FileRayDown(i - 8, q) <==>
      File(j) == File(i) && j != i && RanksClear(q, i, j)
  {
    FileUpTargets(i, q, j);
    FileDownTargets(i, q, j);
  }

  lemma FileUpTargets(i: int, q: int, j: nat)
    requires 0 <= i < 64 && j < 64
    ensures j in FileRayUp(i + 8, q) <==> File(j) == File(i) && j > i && RanksClear(q, i, j)
  {
    FileRayUpMembers(i + 8, q, j);
    assert (i + 8) / 8 == i / 8 + 1 && File(i + 8) == File(i);
    if File(j) == File(i) && j > i {
      assert j >= i + 8;
    }
  }

  lemma FileDownTargets(i: int, q: int, j: nat)
    requires 0 <= i < 64 && j < 64
    ensures j in FileRayDown(i - 8, q) <==> File(j) == File(i) && j < i && RanksClear(q, i, j)
  {
    FileRayDownMembers(i - 8, q, j);
    assert (i - 8) / 8 == i / 8 - 1 && File(i - 8) == File(i);
    if File(j) == File(i) && j < i {
      assert j <= i - 8;
    }
  }

  // --------------------------------------------------------- diagonal rays

  /**
   * The walk up a diagonal: `k` moves by `step` while the position `l` on
   * the diagonal is below its length and bit `l` of `q` is clear; the first
   * occupied position is included.
   */
  function DiagonalRayUp(k: int, l: int, length: int, q: int, step: int): seq<int>
    decreases length - l
  {
    if l >= length then []
    else if !OccupancyBit(q, l) then [k] + DiagonalRayUp(k + step, l + 1, length, q, step)
    else [k]
  }

  /** The walk down a diagonal, which also stops below square 0 and reads the bits from the other end. */
  function DiagonalRayDown(k: int, l: int, length: int, q: int, step: int): seq<int>
    decreases length - l
  {
    if l >= length || k < 0 then []
    else if !OccupancyBit(q, length - l - 1) then [k] + DiagonalRayDown(k - step, l + 1, length, q, step)
    else [k]
  }

  /**
   * The bishop moves along the 135-degree diagonal of `i` for the diagonal
   * occupancy `q`; the entries for `q` beyond the diagonal's length stay 0.
   */
  function AttacksRotated135(i: int, q: int): bv64
    requires 0 <= i < 64
  {
    if q < Pow2(LengthRotated135(i)) then
      MaskOf(DiagonalRayUp(i + 9, UpLeft(i), LengthRotated135(i), q, 9) +
             DiagonalRayDown(i - 9, DownRight(i), LengthRotated135(i), q, 9))
    else 0
  }

  /** The same along the 45-degree diagonal. */
  function AttacksRotated45(i: int, q: int): bv64
    requires 0 <= i < 64
  {
    if q < Pow2(LengthRotated45(i)) then
      MaskOf(DiagonalRayUp(i + 7, UpRight(i), LengthRotated45(i), q, 7) +
             DiagonalRayDown(i - 7, DownLeft(i), LengthRotated45(i), q, 7))
    else 0
  }

  // ------------------------------------------------------------ distances

  function Distance(i: int, l: int): (r: nat)
    ensures r == AbsInt(File(i) - File(l)) || r == AbsInt(Rank(i) - Rank(l))
    ensures r >= AbsInt(File(i) - File(l)) && r >= AbsInt(Rank(i) - Rank(l))
  {
    if AbsInt(File(i) - File(l)) > AbsInt(Rank(i) - Rank(l)) then AbsInt(File(i) - File(l))
    else AbsInt(Rank(i) - Rank(l))
  }

  function DistanceShort(i: int, l: int): (r: nat)
    ensures r == AbsInt(File(i) - File(l)) || r == AbsInt(Rank(i) - Rank(l))
    ensures r <= AbsInt(File(i) - File(l)) && r <= AbsInt(Rank(i) - Rank(l))
  {
    if AbsInt(File(i) - File(l)) < AbsInt(Rank(i) - Rank(l)) then AbsInt(File(i) - File(l))
    else AbsInt(Rank(i) - Rank(l))
  }

  /** Two squares share a rank, a file or a diagonal. */
  predicate Aligned(i: int, l: int)
  {
    Rank(i) == Rank(l) || File(i) == File(l) || AbsInt(File(i) - File(l)) == AbsInt(Rank(i) - Rank(l))
  }

  /** The step that leads from square `i` towards square `l`, or 0. */
  function DirectionIncrement(i: int, l: int): int
  {
    if i == l then 0
    else if DistanceShort(i, l) == 0 then
      (if AbsInt(l - i) < 8 then (if l > i then 1 else -1)
       else (if l > i then 8 else -8))
    else if DistanceShort(i, l) == Distance(i, l) then
      (if File(l) > File(i) then (if Rank(l) > Rank(i) then 9 else -7)
       else (if Rank(l) > Rank(i) then 7 else -9))
    else 0
  }

  /** There is no step from a square to itself or to a square off its lines. */
  lemma DirectionIncrementZero(i: int, l: int)
    requires 0 <= i < 64 && 0 <= l < 64
    ensures DirectionIncrement(i, l) == 0 <==> i == l || !Aligned(i, l)
  {
    if i != l && Rank(i) == Rank(l) {
      assert AbsInt(l - i) < 8;
    }
  }

  /** The step back is the opposite step. */
  lemma DirectionIncrementAntisymmetric(i: int, l: int)
    requires 0 <= i < 64 && 0 <= l < 64
    ensures DirectionIncrement(l, i) == -DirectionIncrement(i, l)
  {
    if i != l && Rank(i) == Rank(l) {
      assert AbsInt(l - i) < 8;
    }
    if i != l && File(i) == File(l) {
      assert AbsInt(l - i) >= 8;
    }
  }

  /** Taking the step `Distance(i, l)` times leads from `i` to `l`. */
  lemma DirectionIncrementReaches(i: int, l: int)
    requires 0 <= i < 64 && 0 <= l < 64 && DirectionIncrement(i, l) != 0
    ensures l - i == Distance(i, l) * DirectionIncrement(i, l)
  {
    var d := DirectionIncrement(i, l);
    var n := Distance(i, l);
    assert i == 8 * Rank(i) + File(i) && l == 8 * Rank(l) + File(l);
    if Rank(i) == Rank(l) {
      assert AbsInt(l - i) < 8;
    }
    if d == 1 {
      assert n * d == n;
    } else if d == -1 {
      assert n * d == -n;
    } else if d == 8 {
      assert n * d == 8 * n;
    } else if d == -8 {
      assert n * d == -8 * n;
    } else if d == 9 {
      assert n * d == 9 * n;
    } else if d == -9 {
      assert n * d == -9 * n;
    } else if d == 7 {
      assert n * d == 7 * n;
    } else {
      assert n * d == -7 * n;
    }
  }

  // ----------------------------------------------------------- obstructed

  /** `b` lies strictly between `a` and `c`. */
  predicate StrictlyBetween(a: int, b: int, c: int)
  {
    a < b < c || c < b < a
  }

  /**
   * Square `j` lies strictly between squares `i` and `q` on the rank, the
   * file or the diagonal they share.
   */
  predicate Between(i: int, q: int, j: int)
  {
    (Rank(i) == Rank(q) && Rank(j) == Rank(i) && StrictlyBetween(File(i), File(j), File(q))) ||
    (File(i) == File(q) && File(j) == File(i) && StrictlyBetween(Rank(i), Rank(j), Rank(q))) ||
    (AbsInt(File(i) - File(q)) == AbsInt(Rank(i) - Rank(q)) &&
     StrictlyBetween(Rank(i), Rank(j), Rank(q)) && StrictlyBetween(File(i), File(j), File(q)) &&
     AbsInt(File(j) - File(i)) == AbsInt(Rank(j) - Rank(i)))
  }

  /** The squares a slider has to cross between `i` and `q`, as the table loops build them. */
  function ObstructedSquares(i: int, q: int): seq<int>
  {
    if i / 8 == q / 8 then
      (if i > q then Range(q + 1, i, 1) else Range(i + 1, q, 1))
    else if i % 8 == q % 8 then
      (if i > q then Range(q + 8, i, 8) else Range(i + 8, q, 8))
    else if DirectionIncrement(i, q) != 0 then
      (if i % 8 < q % 8 && i / 8 > q / 8 then Range(q + 7, i, 7)
       else if i % 8 > q % 8 && i / 8 > q / 8 then Range(q + 9, i, 9)
       else if i % 8 > q % 8 && i / 8 < q / 8 then RangeDown(q - 7, i, 7)
       else if i % 8 < q % 8 && i / 8 < q / 8 then RangeDown(q - 9, i, 9)
       else [])
    else []
  }

  function Obstructed(i: int, q: int): bv64
  {
    MaskOf(ObstructedSquares(i, q))
  }

  /**
   * The obstruction table holds exactly the squares strictly between `i`
   * and `q` on the line they share, and nothing when they share none.
   */
  lemma ObstructedMeaning(i: int, q: int, j: nat)
    requires 0 <= i < 64 && 0 <= q < 64 && j < 64
    ensures Has(Obstructed(i, q), j) <==> Between(i, q, j)
  {
    ObstructedMembers(i, q, j);
    ObstructedSquaresMembers(i, q, j);
  }

  lemma ObstructedMembers(i: int, q: int, j: nat)
    requires 0 <= i < 64 && 0 <= q < 64 && j < 64
    ensures Has(Obstructed(i, q), j) <==> j in ObstructedSquares(i, q)
  {
    var s := ObstructedSquares(i, q);
    assert OnBoard(s) by {
      forall k | 0 <= k < |s|
        ensures 0 <= s[k] < 64
      {
        ObstructedSquaresOnBoard(i, q, k);
      }
    }
    MaskOfMembers(s, j);
  }

  lemma ObstructedSquaresOnBoard(i: int, q: int, k: int)
    requires 0 <= i < 64 && 0 <= q < 64 && 0 <= k < |ObstructedSquares(i, q)|
    ensures 0 <= ObstructedSquares(i, q)[k] < 64
  {
  }

  /** Two squares that something lies between share a line. */
  lemma BetweenAligned(i: int, q: int, j: int)
    requires Between(i, q, j)
    ensures Aligned(i, q) && i != q
  {
  }

  lemma ObstructedSquaresMembers(i: int, q: int, j: int)
    requires 0 <= i < 64 && 0 <= q < 64 && 0 <= j < 64
    ensures j in ObstructedSquares(i, q) <==> Between(i, q, j)
  {
    BetweenSymmetric(i, q, j);
    if i / 8 == q / 8 {
      ObstructedOnRank(i, q, j);
    } else if i % 8 == q % 8 {
      ObstructedOnFile(i, q, j);
    } else if DirectionIncrement(i, q) != 0 {
      DirectionIncrementZero(i, q);
      assert AbsInt(File(i) - File(q)) == AbsInt(Rank(i) - Rank(q));
      ObstructedOnDiagonal(i, q, j);
    } else {
      DirectionIncrementZero(i, q);
      if Between(i, q, j) {
        BetweenAligned(i, q, j);
      }
    }
  }

  lemma ObstructedOnRank(i: int, q: int, j: int)
    requires 0 <= i < 64 && 0 <= q < 64 && 0 <= j < 64 && i / 8 == q / 8
    ensures j in ObstructedSquares(i, q) <==> Between(i, q, j)
  {
    BetweenSymmetric(i, q, j);
    if i > q {
      RangeMembers(q + 1, i, 1, j);
      OnRankSegment(q, j, i);
    } else if i < q {
      RangeMembers(i + 1, q, 1, j);
      OnRankSegment(i, j, q);
    }
  }

  lemma ObstructedOnFile(i: int, q: int, j: int)
    requires 0 <= i < 64 && 0 <= q < 64 && 0 <= j < 64 && i / 8 != q / 8 && i % 8 == q % 8
    ensures j in ObstructedSquares(i, q) <==> Between(i, q, j)
  {
    BetweenSymmetric(i, q, j);
    if i > q {
      RangeMembers(q + 8, i, 8, j);
      MultipleApart(q, j, 8);
      OnFileSegment(q, j, i);
    } else {
      RangeMembers(i + 8, q, 8, j);
      MultipleApart(i, j, 8);
      OnFileSegment(i, j, q);
    }
  }

  lemma ObstructedOnDiagonal(i: int, q: int, j: int)
    requires 0 <= i < 64 && 0 <= q < 64 && 0 <= j < 64 && i / 8 != q / 8 && i % 8 != q % 8
    requires DirectionIncrement(i, q) != 0
    requires AbsInt(File(i) - File(q)) == AbsInt(Rank(i) - Rank(q))
    ensures j in ObstructedSquares(i, q) <==> Between(i, q, j)
  {
    if i % 8 < q % 8 && i / 8 > q / 8 {
      assert ObstructedSquares(i, q) == Range(q + 7, i, 7);
      ObstructedDownLeft(i, q, j);
    } else if i % 8 > q % 8 && i / 8 > q / 8 {
      assert ObstructedSquares(i, q) == Range(q + 9, i, 9);
      ObstructedDownRight(i, q, j);
    } else if i % 8 > q % 8 && i / 8 < q / 8 {
      assert ObstructedSquares(i, q) == RangeDown(q - 7, i, 7);
      ObstructedUpRight(i, q, j);
    } else {
      assert ObstructedSquares(i, q) == RangeDown(q - 9, i, 9);
      ObstructedUpLeft(i, q, j);
    }
  }

  lemma ObstructedDownLeft(i: int, q: int, j: int)
    requires 0 <= i < 64 && 0 <= q < 64 && 0 <= j < 64 && i / 8 != q / 8 && i % 8 != q % 8
    requires AbsInt(File(i) - File(q)) == AbsInt(Rank(i) - Rank(q))
    requires i % 8 < q % 8 && i / 8 > q / 8
    ensures j in Range(q + 7, i, 7) <==> Between(i, q, j)
  {
    BetweenSymmetric(i, q, j);
    RangeMembers(q + 7, i, 7, j);
    MultipleApart(q, j, 7);
    DiagonalSegment7(q, j, i);
  }

  lemma ObstructedDownRight(i: int, q: int, j: int)
    requires 0 <= i < 64 && 0 <= q < 64 && 0 <= j < 64 && i / 8 != q / 8 && i % 8 != q % 8
    requires AbsInt(File(i) - File(q)) == AbsInt(Rank(i) - Rank(q))
    requires i % 8 > q % 8 && i / 8 > q / 8
    ensures j in Range(q + 9, i, 9) <==> Between(i, q, j)
  {
    BetweenSymmetric(i, q, j);
    RangeMembers(q + 9, i, 9, j);
    MultipleApart(q, j, 9);
    DiagonalSegment9(q, j, i);
  }

  lemma ObstructedUpRight(i: int, q: int, j: int)
    requires 0 <= i < 64 && 0 <= q < 64 && 0 <= j < 64 && i / 8 != q / 8 && i % 8 != q % 8
    requires AbsInt(File(i) - File(q)) == AbsInt(Rank(i) - Rank(q))
    requires i % 8 > q % 8 && i / 8 < q / 8
    ensures j in RangeDown(q - 7, i, 7) <==> Between(i, q, j)
  {
    BetweenSymmetric(i, q, j);
    RangeDownMembers(q - 7, i, 7, j);
    MultipleApart(j, q, 7);
    DiagonalSegment7(i, j, q);
  }

  lemma ObstructedUpLeft(i: int, q: int, j: int)
    requires 0 <= i < 64 && 0 <= q < 64 && 0 <= j < 64 && i / 8 != q / 8 && i % 8 != q % 8
    requires AbsInt(File(i) - File(q)) == AbsInt(Rank(i) - Rank(q))
    requires i % 8 < q % 8 && i / 8 < q / 8
    ensures j in RangeDown(q - 9, i, 9) <==> Between(i, q, j)
  {
    BetweenSymmetric(i, q, j);
    RangeDownMembers(q - 9, i, 9, j);
    MultipleApart(j, q, 9);
    DiagonalSegment9(i, j, q);
  }

  /** Along a rank, the squares strictly between `a` and `b` are the integers strictly between them. */
  lemma OnRankSegment(a: int, j: int, b: int)
    requires 0 <= a < b < 64 && 0 <= j < 64 && a / 8 == b / 8
    ensures a < j < b <==> Between(a, b, j)
  {
    if a < j < b {
      OnRankBetween(a, j, b);
    }
  }

  /** `Between` does not depend on the order of its two end squares. */
  lemma BetweenSymmetric(i: int, q: int, j: int)
    ensures Between(i, q, j) <==> Between(q, i, j)
  {
  }

  /** `y` lies a multiple of `step` beyond `x + step` exactly when it does beyond `x`. */
  lemma MultipleApart(x: int, y: int, step: nat)
    requires IsLineStep(step)
    ensures (y - (x + step)) % step == 0 <==> (y - x) % step == 0
  {
    ModShift(y - (x + step), step);
  }

  /** On the file of `a` below `b`, `Between` means a rank strictly between. */
  lemma BetweenOnFile(a: int, b: int, j: int)
    requires 0 <= a < 64 && 0 <= b < 64 && 0 <= j < 64
    requires File(a) == File(b) && Rank(a) < Rank(b)
    ensures Between(a, b, j) <==> File(j) == File(a) && Rank(a) < Rank(j) < Rank(b)
  {
  }

  /** Along a file, the squares strictly between are those whose distance from `a` is a multiple of 8. */
  lemma OnFileSegment(a: int, j: int, b: int)
    requires 0 <= a < b < 64 && 0 <= j < 64 && a % 8 == b % 8
    ensures (a < j < b && (j - a) % 8 == 0) <==> Between(a, b, j)
  {
    assert (j - a) % 8 == 0 <==> File(j) == File(a);
    BetweenOnFile(a, b, j);
  }

  /** On a diagonal of step 7 from `a` up to `b`, `Between` means a square of that diagonal strictly inside. */
  lemma BetweenOnDiagonal7(a: int, b: int, j: int)
    requires 0 <= a < 64 && 0 <= b < 64 && 0 <= j < 64
    requires Rank(a) < Rank(b) && File(b) < File(a) && File(a) - File(b) == Rank(b) - Rank(a)
    ensures Between(a, b, j) <==> Rank(a) < Rank(j) < Rank(b) && File(j) - File(b) == Rank(b) - Rank(j)
  {
  }

  /** On a diagonal of step 9 from `a` up to `b`. */
  lemma BetweenOnDiagonal9(a: int, b: int, j: int)
    requires 0 <= a < 64 && 0 <= b < 64 && 0 <= j < 64
    requires Rank(a) < Rank(b) && File(a) < File(b) && File(b) - File(a) == Rank(b) - Rank(a)
    ensures Between(a, b, j) <==> Rank(a) < Rank(j) < Rank(b) && File(j) - File(a) == Rank(j) - Rank(a)
  {
  }

  /**
   * Along a diagonal of step 7 (one rank up, one file towards file 0), the
   * squares strictly between `a` and `b` are those a multiple of 7 apart
   * from `a`.
   */
  lemma DiagonalSegment7(a: int, j: int, b: int)
    requires 0 <= a < 64 && 0 <= b < 64 && 0 <= j < 64
    requires Rank(a) < Rank(b) && File(b) < File(a) && File(a) - File(b) == Rank(b) - Rank(a)
    ensures (a < j < b && (j - a) % 7 == 0) <==> Between(a, b, j)
    ensures (a < j < b && (b - j) % 7 == 0) <==> Between(a, b, j)
  {
    BetweenOnDiagonal7(a, b, j);
    var n := Rank(b) - Rank(a);
    Diagonal7Coordinates(Rank(a), File(a), n, Rank(j), File(j));
    assert b == (8 * Rank(a) + File(a)) + 7 * n;
    ModComplement(j - a, n, 7);
  }

  /** The step-7 diagonal in coordinates: from (ra, fa), n steps of one rank up and one file down. */
  lemma Diagonal7Coordinates(ra: int, fa: int, n: int, rj: int, fj: int)
    requires 0 <= ra && 0 <= fa < 8 && 0 <= rj < 8 && 0 <= fj < 8 && 0 < n && n <= fa && ra + n < 8
    ensures (8 * ra + fa < 8 * rj + fj < 8 * ra + fa + 7 * n && ((8 * rj + fj) - (8 * ra + fa)) % 7 == 0) <==>
      (ra < rj < ra + n && fj == fa - (rj - ra))
  {
    var d := (8 * rj + fj) - (8 * ra + fa);
    if 0 < d < 7 * n && d % 7 == 0 {
      var t := d / 7;
      assert d == 7 * t && 0 < t < n;
      assert 8 * (rj - ra - t) == (fa - t) - fj;
    }
  }

  /**
   * Along a diagonal of step 9 (one rank and one file up), the squares
   * strictly between `a` and `b` are those a multiple of 9 apart from `a`.
   */
  lemma DiagonalSegment9(a: int, j: int, b: int)
    requires 0 <= a < 64 && 0 <= b < 64 && 0 <= j < 64
    requires Rank(a) < Rank(b) && File(a) < File(b) && File(b) - File(a) == Rank(b) - Rank(a)
    ensures (a < j < b && (j - a) % 9 == 0) <==> Between(a, b, j)
    ensures (a < j < b && (b - j) % 9 == 0) <==> Between(a, b, j)
  {
    BetweenOnDiagonal9(a, b, j);
    var n := Rank(b) - Rank(a);
    Diagonal9Coordinates(Rank(a), File(a), n, Rank(j), File(j));
    assert b == (8 * Rank(a) + File(a)) + 9 * n;
    ModComplement(j - a, n, 9);
  }

  /** The step-9 diagonal in coordinates: from (ra, fa), n steps of one rank and one file up. */
  lemma Diagonal9Coordinates(ra: int, fa: int, n: int, rj: int, fj: int)
    requires 0 <= ra && 0 <= fa < 8 && 0 <= rj < 8 && 0 <= fj < 8 && 0 < n && fa + n < 8 && ra + n < 8
    ensures (8 * ra + fa < 8 * rj + fj < 8 * ra + fa + 9 * n && ((8 * rj + fj) - (8 * ra + fa)) % 9 == 0) <==>
      (ra < rj < ra + n && fj == fa + (rj - ra))
  {
    var d := (8 * rj + fj) - (8 * ra + fa);
    if 0 < d < 9 * n && d % 9 == 0 {
      var t := d / 9;
      assert d == 9 * t && 0 < t < n;
      assert 8 * (rj - ra - t) == (fa + t) - fj;
    }
  }

  /** `d` and `step * n - d` are multiples of `step` together. */
  lemma ModComplement(d: int, n: int, step: int)
    requires step == 7 || step == 9
    ensures (step * n - d) % step == 0 <==> d % step == 0
  {
    if d % step == 0 {
      assert step * n - d == step * (n - d / step);
    }
    if (step * n - d) % step == 0 {
      assert d == step * (n - (step * n - d) / step);
    }
  }

  // -------------------------------------------------- file and rank masks

  /** Every square except those of file 0 (the h-file): what a shift towards file 0 may keep. */
  const ZeroRight: bv64 := !MaskOf([0] + Range(8, 8 + 49, 8))

  /** Every square except those of file 7 (the a-file). */
  const ZeroLeft: bv64 := !MaskOf([63] + Range(7, 7 + 49, 8))

  lemma ZeroRightMeaning(j: nat)
    requires j < 64
    ensures Has(ZeroRight, j) <==> File(j) != 0
  {
    EdgeFileMeaning(0, 8, j);
  }

  lemma ZeroLeftMeaning(j: nat)
    requires j < 64
    ensures Has(ZeroLeft, j) <==> File(j) != 7
  {
    EdgeFileMeaning(63, 7, j);
  }

  /** The complement of the file through `first` and `start`, built as the static constructor builds it. */
  lemma EdgeFileMeaning(first: int, start: int, j: nat)
    requires 0 <= first < 64 && 0 < start <= 8 && (first == start - 8 || first == start + 56)
    requires j < 64
    ensures Has(!MaskOf([first] + Range(start, start + 49, 8)), j) <==> File(j) != start % 8
  {
    EdgeFileComplementMembers(first, start, j);
    EdgeFileSquares(first, start, j);
  }

  lemma EdgeFileComplementMembers(first: int, start: int, j: nat)
    requires 0 <= first < 64 && 0 < start <= 8 && j < 64
    ensures Has(!MaskOf([first] + Range(start, start + 49, 8)), j) <==> j !in [first] + Range(start, start + 49, 8)
  {
    EdgeFileOnBoard(first, start);
    ComplementMembers([first] + Range(start, start + 49, 8), j);
  }

  lemma ComplementMembers(s: seq<int>, j: nat)
    requires OnBoard(s) && j < 64
    ensures Has(!MaskOf(s), j) <==> j !in s
  {
    MaskOfMembers(s, j);
    var m := MaskOf(s);
    HasNot(m, j);
  }

  lemma EdgeFileOnBoard(first: int, start: int)
    requires 0 <= first < 64 && 0 < start <= 8
    ensures OnBoard([first] + Range(start, start + 49, 8))
  {
    var s := [first] + Range(start, start + 49, 8);
    assert forall k :: 0 < k < |s| ==> s[k] == s[1..][k - 1];
  }

  lemma EdgeFileSquares(first: int, start: int, j: int)
    requires 0 <= first < 64 && 0 < start <= 8 && (first == start - 8 || first == start + 56)
    requires 0 <= j < 64
    ensures j in [first] + Range(start, start + 49, 8) <==> File(j) == start % 8
  {
    RangeMembers(start, start + 49, 8, j);
    assert j in [first] + Range(start, start + 49, 8) <==> j == first || j in Range(start, start + 49, 8);
    EdgeFileArithmetic(first, start, j);
  }

  lemma EdgeFileArithmetic(first: int, start: int, j: int)
    requires 0 <= first < 64 && 0 < start <= 8 && (first == start - 8 || first == start + 56)
    requires 0 <= j < 64
    ensures (j == first || (start <= j < start + 49 && (j - start) % 8 == 0)) <==> j % 8 == start % 8
  {
    var f := start % 8;
    assert start == 8 * (start / 8) + f;
    assert j == 8 * (j / 8) + j % 8;
    if j % 8 == f {
      assert (j - start) == 8 * (j / 8 - start / 8);
    }
    if start <= j < start + 49 && (j - start) % 8 == 0 {
      assert j - start == 8 * ((j - start) / 8);
    }
  }

  /** The squares of file `k`. */
  function FileMask(k: int): bv64
  {
    MaskOf(Range(k, 64, 8))
  }

  /** The squares of rank `k`. */
  function RankMask(k: int): bv64
  {
    MaskOf(Range(8 * k, 8 * k + 8, 1))
  }

  lemma FileMaskMeaning(k: int, j: nat)
    requires 0 <= k < 8 && j < 64
    ensures Has(FileMask(k), j) <==> File(j) == k
  {
    FileMaskMembers(k, j);
    RangeMembers(k, 64, 8, j);
    assert (j - k) % 8 == 0 <==> j % 8 == k;
  }

  lemma FileMaskMembers(k: int, j: nat)
    requires 0 <= k < 8 && j < 64
    ensures Has(FileMask(k), j) <==> j in Range(k, 64, 8)
  {
    assert OnBoard(Range(k, 64, 8));
    MaskOfMembers(Range(k, 64, 8), j);
  }

  lemma RankMaskMeaning(k: int, j: nat)
    requires 0 <= k < 8 && j < 64
    ensures Has(RankMask(k), j) <==> Rank(j) == k
  {
    RankMaskMembers(k, j);
    RangeMembers(8 * k, 8 * k + 8, 1, j);
    assert (j - 8 * k) % 1 == 0;
    assert 8 * k <= j < 8 * k + 8 <==> j / 8 == k;
  }

  lemma RankMaskMembers(k: int, j: nat)
    requires 0 <= k < 8 && j < 64
    ensures Has(RankMask(k), j) <==> j in Range(8 * k, 8 * k + 8, 1)
  {
    assert OnBoard(Range(8 * k, 8 * k + 8, 1));
    MaskOfMembers(Range(8 * k, 8 * k + 8, 1), j);
  }

  /** How far to shift the occupancy so that the rank of `i` lands in the low byte. */
  function HorizontalShift(i: int): (r: int)
    ensures 0 <= i < 64 ==> r == 8 * Rank(i) && 0 <= r <= 56
  {
    8 * (i / 8)
  }

  /** How far to shift the 90-degree occupancy so that the file of `i` lands in the low byte. */
  function VerticalShift(i: int): (r: int)
    ensures r == 8 * File(i) && 0 <= r <= 56
  {
    8 * (i % 8)
  }

  // ------------------------------------------------------------ edge rays

  /** The eight directions of the to-the-edge masks; "right" is towards file 0. */
  datatype Direction = Right | Left | Up | Down | UpRight | DownRight | UpLeft | DownLeft

  /** The square increment of one step in a direction. */
  function Step(d: Direction): int
  {
    match d
    case Right => -1
    case Left => 1
    case Up => 8
    case Down => -8
    case UpRight => 7
    case DownRight => -9
    case UpLeft => 9
    case DownLeft => -7
  }

  /** The change of rank and of file one step makes. */
  function RankStep(d: Direction): int
  {
    match d
    case Right => 0
    case Left => 0
    case Up => 1
    case Down => -1
    case UpRight => 1
    case DownRight => -1
    case UpLeft => 1
    case DownLeft => -1
  }

  function FileStep(d: Direction): int
  {
    match d
    case Right => -1
    case Left => 1
    case Up => 0
    case Down => 0
    case UpRight => -1
    case DownRight => -1
    case UpLeft => 1
    case DownLeft => 1
  }

  /** The loop test of each mask: the walk goes on while the next square is still on the board. */
  predicate CanStep(l: int, d: Direction)
  {
    match d
    case Right => File(l) > 0
    case Left => File(l) < 7
    case Up => Rank(l) < 7
    case Down => Rank(l) > 0
    case UpRight => File(l) > 0 && Rank(l) < 7
    case DownRight => File(l) > 0 && Rank(l) > 0
    case UpLeft => File(l) < 7 && Rank(l) < 7
    case DownLeft => File(l) < 7 && Rank(l) > 0
  }

  /** The steps still possible from `l` in a direction. */
  function StepsLeft(l: int, d: Direction): nat
    requires 0 <= l < 64
  {
    match d
    case Right => File(l)
    case Left => 7 - File(l)
    case Up => 7 - Rank(l)
    case Down => Rank(l)
    case UpRight => 7 - Rank(l)
    case DownRight => Rank(l)
    case UpLeft => 7 - Rank(l)
    case DownLeft => Rank(l)
  }

  /** One step moves the rank and the file by one at most, and stays on the board. */
  lemma StepCoordinates(l: int, d: Direction)
    requires 0 <= l < 64 && CanStep(l, d)
    ensures 0 <= l + Step(d) < 64
    ensures Rank(l + Step(d)) == Rank(l) + RankStep(d) && File(l + Step(d)) == File(l) + FileStep(d)
    ensures StepsLeft(l + Step(d), d) < StepsLeft(l, d)
  {
    SquareAt(Rank(l) + RankStep(d), File(l) + FileStep(d));
    assert l + Step(d) == 8 * (Rank(l) + RankStep(d)) + (File(l) + FileStep(d));
  }

  /** The squares a to-the-edge loop visits from `l`: `l` itself, then one step at a time up to the last one. */
  function EdgeRay(l: int, d: Direction): seq<int>
    requires 0 <= l < 64
    decreases StepsLeft(l, d)
  {
    if CanStep(l, d) then
      StepCoordinates(l, d);
      [l] + EdgeRay(l + Step(d), d)
    else [l]
  }

  /** The to-the-edge mask of square `i` in direction `d`. */
  function ToEdgeMask(i: int, d: Direction): bv64
    requires 0 <= i < 64
  {
    MaskOf(EdgeRay(i, d))
  }

  /**
   * `j` is `t >= 0` steps from `l` in direction `d`, in coordinates: the
   * rank and the file moved by `t` times the step's changes.
   */
  predicate OnEdgeRay(l: int, j: int, d: Direction)
  {
    var t := if RankStep(d) != 0 then (Rank(j) - Rank(l)) * RankStep(d) else (File(j) - File(l)) * FileStep(d);
    t >= 0 && Rank(j) == Rank(l) + t * RankStep(d) && File(j) == File(l) + t * FileStep(d)
  }

  lemma {:induction false} EdgeRayMembers(l: int, j: int, d: Direction)
    requires 0 <= l < 64 && 0 <= j < 64
    ensures j in EdgeRay(l, d) <==> OnEdgeRay(l, j, d)
    decreases StepsLeft(l, d)
  {
    if CanStep(l, d) {
      StepCoordinates(l, d);
      EdgeRayMembers(l + Step(d), j, d);
      EdgeRayStep(l, j, d);
    } else {
      EdgeRayEnd(l, j, d);
    }
  }

  lemma EdgeRayStep(l: int, j: int, d: Direction)
    requires 0 <= l < 64 && 0 <= j < 64 && CanStep(l, d)
    ensures OnEdgeRay(l, j, d) <==> j == l || OnEdgeRay(l + Step(d), j, d)
  {
    StepCoordinates(l, d);
    assert j == 8 * Rank(j) + File(j) && l == 8 * Rank(l) + File(l);
  }

  lemma EdgeRayEnd(l: int, j: int, d: Direction)
    requires 0 <= l < 64 && 0 <= j < 64 && !CanStep(l, d)
    ensures OnEdgeRay(l, j, d) <==> j == l
  {
    assert j == 8 * Rank(j) + File(j) && l == 8 * Rank(l) + File(l);
  }

  /** The to-the-edge mask holds exactly the squares of the ray from `i` in direction `d`, `i` included. */
  lemma ToEdgeMaskMeaning(i: int, j: nat, d: Direction)
    requires 0 <= i < 64 && j < 64
    ensures Has(ToEdgeMask(i, d), j) <==> OnEdgeRay(i, j, d)
  {
    EdgeRayOnBoard(i, d);
    MaskOfMembers(EdgeRay(i, d), j);
    EdgeRayMembers(i, j, d);
  }

  lemma {:induction false} EdgeRayOnBoard(l: int, d: Direction)
    requires 0 <= l < 64
    ensures OnBoard(EdgeRay(l, d))
    decreases StepsLeft(l, d)
  {
    if CanStep(l, d) {
      StepCoordinates(l, d);
      EdgeRayOnBoard(l + Step(d), d);
    }
  }

  /** Where each square is kept in the bitboard rotated by 90 degrees: files become ranks. (entries 0..63 in order). */
  function Rotated90(sq: int): int
    requires 0 <= sq < 64
  {
    match sq
    case 0 => 7 case 1 => 15 case 2 => 23 case 3 => 31 case 4 => 39 case 5 => 47 case 6 => 55 case 7 => 63
    case 8 => 6 case 9 => 14 case 10 => 22 case 11 => 30 case 12 => 38 case 13 => 46 case 14 => 54 case 15 => 62
    case 16 => 5 case 17 => 13 case 18 => 21 case 19 => 29 case 20 => 37 case 21 => 45 case 22 => 53 case 23 => 61
    case 24 => 4 case 25 => 12 case 26 => 20 case 27 => 28 case 28 => 36 case 29 => 44 case 30 => 52 case 31 => 60
    case 32 => 3 case 33 => 11 case 34 => 19 case 35 => 27 case 36 => 35 case 37 => 43 case 38 => 51 case 39 => 59
    case 40 => 2 case 41 => 10 case 42 => 18 case 43 => 26 case 44 => 34 case 45 => 42 case 46 => 50 case 47 => 58
    case 48 => 1 case 49 => 9 case 50 => 17 case 51 => 25 case 52 => 33 case 53 => 41 case 54 => 49 case 55 => 57
    case 56 => 0 case 57 => 8 case 58 => 16 case 59 => 24 case 60 => 32 case 61 => 40 case 62 => 48 case _ => 56
  }

  /** Where each square is kept in the bitboard rotated by 45 degrees: each diagonal of one direction becomes a run of consecutive bits. (entries 0..63 in order). */
  function Rotated45(sq: int): int
    requires 0 <= sq < 64
  {
    match sq
    case 0 => 48 case 1 => 40 case 2 => 32 case 3 => 24 case 4 => 16 case 5 => 8 case 6 => 0 case 7 => 56
    case 8 => 41 case 9 => 33 case 10 => 25 case 11 => 17 case 12 => 9 case 13 => 1 case 14 => 57 case 15 => 49
    case 16 => 34 case 17 => 26 case 18 => 18 case 19 => 10 case 20 => 2 case 21 => 58 case 22 => 50 case 23 => 42
    case 24 => 27 case 25 => 19 case 26 => 11 case 27 => 3 case 28 => 59 case 29 => 51 case 30 => 43 case 31 => 35
    case 32 => 20 case 33 => 12 case 34 => 4 case 35 => 60 case 36 => 52 case 37 => 44 case 38 => 36 case 39 => 28
    case 40 => 13 case 41 => 5 case 42 => 61 case 43 => 53 case 44 => 45 case 45 => 37 case 46 => 29 case 47 => 21
    case 48 => 6 case 49 => 62 case 50 => 54 case 51 => 46 case 52 => 38 case 53 => 30 case 54 => 22 case 55 => 14
    case 56 => 63 case 57 => 55 case 58 => 47 case 59 => 39 case 60 => 31 case 61 => 23 case 62 => 15 case _ => 7
  }

  /** Where each square is kept in the bitboard rotated by 135 degrees: the same for the other diagonal direction. (entries 0..63 in order). */
  function Rotated135(sq: int): int
    requires 0 <= sq < 64
  {
    match sq
    case 0 => 0 case 1 => 56 case 2 => 48 case 3 => 40 case 4 => 32 case 5 => 24 case 6 => 16 case 7 => 8
    case 8 => 9 case 9 => 1 case 10 => 57 case 11 => 49 case 12 => 41 case 13 => 33 case 14 => 25 case 15 => 17
    case 16 => 18 case 17 => 10 case 18 => 2 case 19 => 58 case 20 => 50 case 21 => 42 case 22 => 34 case 23 => 26
    case 24 => 27 case 25 => 19 case 26 => 11 case 27 => 3 case 28 => 59 case 29 => 51 case 30 => 43 case 31 => 35
    case 32 => 36 case 33 => 28 case 34 => 20 case 35 => 12 case 36 => 4 case 37 => 60 case 38 => 52 case 39 => 44
    case 40 => 45 case 41 => 37 case 42 => 29 case 43 => 21 case 44 => 13 case 45 => 5 case 46 => 61 case 47 => 53
    case 48 => 54 case 49 => 46 case 50 => 38 case 51 => 30 case 52 => 22 case 53 => 14 case 54 => 6 case 55 => 62
    case 56 => 63 case 57 => 55 case 58 => 47 case 59 => 39 case 60 => 31 case 61 => 23 case 62 => 15 case _ => 7
  }

  /** How far to shift the 45-degree bitboard so that the diagonal of a square starts at bit 0. (entries 0..63 in order). */
  function Rotated45Shift(sq: int): int
    requires 0 <= sq < 64
  {
    match sq
    case 0 => 48 case 1 => 40 case 2 => 32 case 3 => 24 case 4 => 16 case 5 => 8 case 6 => 0 case 7 => 56
    case 8 => 40 case 9 => 32 case 10 => 24 case 11 => 16 case 12 => 8 case 13 => 0 case 14 => 56 case 15 => 49
    case 16 => 32 case 17 => 24 case 18 => 16 case 19 => 8 case 20 => 0 case 21 => 56 case 22 => 49 case 23 => 42
    case 24 => 24 case 25 => 16 case 26 => 8 case 27 => 0 case 28 => 56 case 29 => 49 case 30 => 42 case 31 => 35
    case 32 => 16 case 33 => 8 case 34 => 0 case 35 => 56 case 36 => 49 case 37 => 42 case 38 => 35 case 39 => 28
    case 40 => 8 case 41 => 0 case 42 => 56 case 43 => 49 case 44 => 42 case 45 => 35 case 46 => 28 case 47 => 21
    case 48 => 0 case 49 => 56 case 50 => 49 case 51 => 42 case 52 => 35 case 53 => 28 case 54 => 21 case 55 => 14
    case 56 => 56 case 57 => 49 case 58 => 42 case 59 => 35 case 60 => 28 case 61 => 21 case 62 => 14 case _ => 7
  }

  /** The same for the 135-degree bitboard. (entries 0..63 in order). */
  function Rotated135Shift(sq: int): int
    requires 0 <= sq < 64
  {
    match sq
    case 0 => 0 case 1 => 56 case 2 => 48 case 3 => 40 case 4 => 32 case 5 => 24 case 6 => 16 case 7 => 8
    case 8 => 9 case 9 => 0 case 10 => 56 case 11 => 48 case 12 => 40 case 13 => 32 case 14 => 24 case 15 => 16
    case 16 => 18 case 17 => 9 case 18 => 0 case 19 => 56 case 20 => 48 case 21 => 40 case 22 => 32 case 23 => 24
    case 24 => 27 case 25 => 18 case 26 => 9 case 27 => 0 case 28 => 56 case 29 => 48 case 30 => 40 case 31 => 32
    case 32 => 36 case 33 => 27 case 34 => 18 case 35 => 9 case 36 => 0 case 37 => 56 case 38 => 48 case 39 => 40
    case 40 => 45 case 41 => 36 case 42 => 27 case 43 => 18 case 44 => 9 case 45 => 0 case 46 => 56 case 47 => 48
    case 48 => 54 case 49 => 45 case 50 => 36 case 51 => 27 case 52 => 18 case 53 => 9 case 54 => 0 case 55 => 56
    case 56 => 63 case 57 => 54 case 58 => 45 case 59 => 36 case 60 => 27 case 61 => 18 case 62 => 9 case _ => 0
  }

  /** The low bits that hold the diagonal of a square once shifted (45 degrees). (entries 0..63 in order). */
  function Rotated45SquareMask(sq: int): bv64
    requires 0 <= sq < 64
  {
    match sq
    case 0 => 1 case 1 => 3 case 2 => 7 case 3 => 15 case 4 => 31 case 5 => 63 case 6 => 127 case 7 => 255
    case 8 => 3 case 9 => 7 case 10 => 15 case 11 => 31 case 12 => 63 case 13 => 127 case 14 => 255 case 15 => 127
    case 16 => 7 case 17 => 15 case 18 => 31 case 19 => 63 case 20 => 127 case 21 => 255 case 22 => 127 case 23 => 63
    case 24 => 15 case 25 => 31 case 26 => 63 case 27 => 127 case 28 => 255 case 29 => 127 case 30 => 63 case 31 => 31
    case 32 => 31 case 33 => 63 case 34 => 127 case 35 => 255 case 36 => 127 case 37 => 63 case 38 => 31 case 39 => 15
    case 40 => 63 case 41 => 127 case 42 => 255 case 43 => 127 case 44 => 63 case 45 => 31 case 46 => 15 case 47 => 7
    case 48 => 127 case 49 => 255 case 50 => 127 case 51 => 63 case 52 => 31 case 53 => 15 case 54 => 7 case 55 => 3
    case 56 => 255 case 57 => 127 case 58 => 63 case 59 => 31 case 60 => 15 case 61 => 7 case 62 => 3 case _ => 1
  }

  /** The same for the 135-degree bitboard. (entries 0..63 in order). */
  function Rotated135SquareMask(sq: int): bv64
    requires 0 <= sq < 64
  {
    match sq
    case 0 => 255 case 1 => 127 case 2 => 63 case 3 => 31 case 4 => 15 case 5 => 7 case 6 => 3 case 7 => 1
    case 8 => 127 case 9 => 255 case 10 => 127 case 11 => 63 case 12 => 31 case 13 => 15 case 14 => 7 case 15 => 3
    case 16 => 63 case 17 => 127 case 18 => 255 case 19 => 127 case 20 => 63 case 21 => 31 case 22 => 15 case 23 => 7
    case 24 => 31 case 25 => 63 case 26 => 127 case 27 => 255 case 28 => 127 case 29 => 63 case 30 => 31 case 31 => 15
    case 32 => 15 case 33 => 31 case 34 => 63 case 35 => 127 case 36 => 255 case 37 => 127 case 38 => 63 case 39 => 31
    case 40 => 7 case 41 => 15 case 42 => 31 case 43 => 63 case 44 => 127 case 45 => 255 case 46 => 127 case 47 => 63
    case 48 => 3 case 49 => 7 case 50 => 15 case 51 => 31 case 52 => 63 case 53 => 127 case 54 => 255 case 55 => 127
    case 56 => 1 case 57 => 3 case 58 => 7 case 59 => 15 case 60 => 31 case 61 => 63 case 62 => 127 case _ => 255
  }

  /** The length of the 45-degree diagonal through each square. (entries 0..63 in order). */
  function LengthRotated45(sq: int): nat
    requires 0 <= sq < 64
  {
    match sq
    case 0 => 1 case 1 => 2 case 2 => 3 case 3 => 4 case 4 => 5 case 5 => 6 case 6 => 7 case 7 => 8
    case 8 => 2 case 9 => 3 case 10 => 4 case 11 => 5 case 12 => 6 case 13 => 7 case 14 => 8 case 15 => 7
    case 16 => 3 case 17 => 4 case 18 => 5 case 19 => 6 case 20 => 7 case 21 => 8 case 22 => 7 case 23 => 6
    case 24 => 4 case 25 => 5 case 26 => 6 case 27 => 7 case 28 => 8 case 29 => 7 case 30 => 6 case 31 => 5
    case 32 => 5 case 33 => 6 case 34 => 7 case 35 => 8 case 36 => 7 case 37 => 6 case 38 => 5 case 39 => 4
    case 40 => 6 case 41 => 7 case 42 => 8 case 43 => 7 case 44 => 6 case 45 => 5 case 46 => 4 case 47 => 3
    case 48 => 7 case 49 => 8 case 50 => 7 case 51 => 6 case 52 => 5 case 53 => 4 case 54 => 3 case 55 => 2
    case 56 => 8 case 57 => 7 case 58 => 6 case 59 => 5 case 60 => 4 case 61 => 3 case 62 => 2 case _ => 1
  }

  /** The length of the 135-degree diagonal through each square. (entries 0..63 in order). */
  function LengthRotated135(sq: int): nat
    requires 0 <= sq < 64
  {
    match sq
    case 0 => 8 case 1 => 7 case 2 => 6 case 3 => 5 case 4 => 4 case 5 => 3 case 6 => 2 case 7 => 1
    case 8 => 7 case 9 => 8 case 10 => 7 case 11 => 6 case 12 => 5 case 13 => 4 case 14 => 3 case 15 => 2
    case 16 => 6 case 17 => 7 case 18 => 8 case 19 => 7 case 20 => 6 case 21 => 5 case 22 => 4 case 23 => 3
    case 24 => 5 case 25 => 6 case 26 => 7 case 27 => 8 case 28 => 7 case 29 => 6 case 30 => 5 case 31 => 4
    case 32 => 4 case 33 => 5 case 34 => 6 case 35 => 7 case 36 => 8 case 37 => 7 case 38 => 6 case 39 => 5
    case 40 => 3 case 41 => 4 case 42 => 5 case 43 => 6 case 44 => 7 case 45 => 8 case 46 => 7 case 47 => 6
    case 48 => 2 case 49 => 3 case 50 => 4 case 51 => 5 case 52 => 6 case 53 => 7 case 54 => 8 case 55 => 7
    case 56 => 1 case 57 => 2 case 58 => 3 case 59 => 4 case 60 => 5 case 61 => 6 case 62 => 7 case _ => 8
  }

  /** Where a square lies on its 135-degree diagonal, counted for the downward ray. (entries 0..63 in order). */
  function DownRight(sq: int): int
    requires 0 <= sq < 64
  {
    match sq
    case 0 => 8 case 1 => 7 case 2 => 6 case 3 => 5 case 4 => 4 case 5 => 3 case 6 => 2 case 7 => 1
    case 8 => 7 case 9 => 7 case 10 => 6 case 11 => 5 case 12 => 4 case 13 => 3 case 14 => 2 case 15 => 1
    case 16 => 6 case 17 => 6 case 18 => 6 case 19 => 5 case 20 => 4 case 21 => 3 case 22 => 2 case 23 => 1
    case 24 => 5 case 25 => 5 case 26 => 5 case 27 => 5 case 28 => 4 case 29 => 3 case 30 => 2 case 31 => 1
    case 32 => 4 case 33 => 4 case 34 => 4 case 35 => 4 case 36 => 4 case 37 => 3 case 38 => 2 case 39 => 1
    case 40 => 3 case 41 => 3 case 42 => 3 case 43 => 3 case 44 => 3 case 45 => 3 case 46 => 2 case 47 => 1
    case 48 => 2 case 49 => 2 case 50 => 2 case 51 => 2 case 52 => 2 case 53 => 2 case 54 => 2 case 55 => 1
    case 56 => 1 case 57 => 1 case 58 => 1 case 59 => 1 case 60 => 1 case 61 => 1 case 62 => 1 case _ => 1
  }

  /** Where a square lies on its 45-degree diagonal, counted for the downward ray. (entries 0..63 in order). */
  function DownLeft(sq: int): int
    requires 0 <= sq < 64
  {
    match sq
    case 0 => 1 case 1 => 2 case 2 => 3 case 3 => 4 case 4 => 5 case 5 => 6 case 6 => 7 case 7 => 8
    case 8 => 1 case 9 => 2 case 10 => 3 case 11 => 4 case 12 => 5 case 13 => 6 case 14 => 7 case 15 => 7
    case 16 => 1 case 17 => 2 case 18 => 3 case 19 => 4 case 20 => 5 case 21 => 6 case 22 => 6 case 23 => 6
    case 24 => 1 case 25 => 2 case 26 => 3 case 27 => 4 case 28 => 5 case 29 => 5 case 30 => 5 case 31 => 5
    case 32 => 1 case 33 => 2 case 34 => 3 case 35 => 4 case 36 => 4 case 37 => 4 case 38 => 4 case 39 => 4
    case 40 => 1 case 41 => 2 case 42 => 3 case 43 => 3 case 44 => 3 case 45 => 3 case 46 => 3 case 47 => 3
    case 48 => 1 case 49 => 2 case 50 => 2 case 51 => 2 case 52 => 2 case 53 => 2 case 54 => 2 case 55 => 2
    case 56 => 1 case 57 => 1 case 58 => 1 case 59 => 1 case 60 => 1 case 61 => 1 case 62 => 1 case _ => 1
  }

  /** Where a square lies on its 135-degree diagonal, counted for the upward ray. (entries 0..63 in order). */
  function UpLeft(sq: int): int
    requires 0 <= sq < 64
  {
    match sq
    case 0 => 1 case 1 => 1 case 2 => 1 case 3 => 1 case 4 => 1 case 5 => 1 case 6 => 1 case 7 => 1
    case 8 => 1 case 9 => 2 case 10 => 2 case 11 => 2 case 12 => 2 case 13 => 2 case 14 => 2 case 15 => 2
    case 16 => 1 case 17 => 2 case 18 => 3 case 19 => 3 case 20 => 3 case 21 => 3 case 22 => 3 case 23 => 3
    case 24 => 1 case 25 => 2 case 26 => 3 case 27 => 4 case 28 => 4 case 29 => 4 case 30 => 4 case 31 => 4
    case 32 => 1 case 33 => 2 case 34 => 3 case 35 => 4 case 36 => 5 case 37 => 5 case 38 => 5 case 39 => 5
    case 40 => 1 case 41 => 2 case 42 => 3 case 43 => 4 case 44 => 5 case 45 => 6 case 46 => 6 case 47 => 6
    case 48 => 1 case 49 => 2 case 50 => 3 case 51 => 4 case 52 => 5 case 53 => 6 case 54 => 7 case 55 => 7
    case 56 => 1 case 57 => 2 case 58 => 3 case 59 => 4 case 60 => 5 case 61 => 6 case 62 => 7 case _ => 8
  }

  /** Where a square lies on its 45-degree diagonal, counted for the upward ray. (entries 0..63 in order). */
  function UpRight(sq: int): int
    requires 0 <= sq < 64
  {
    match sq
    case 0 => 1 case 1 => 1 case 2 => 1 case 3 => 1 case 4 => 1 case 5 => 1 case 6 => 1 case 7 => 1
    case 8 => 2 case 9 => 2 case 10 => 2 case 11 => 2 case 12 => 2 case 13 => 2 case 14 => 2 case 15 => 1
    case 16 => 3 case 17 => 3 case 18 => 3 case 19 => 3 case 20 => 3 case 21 => 3 case 22 => 2 case 23 => 1
    case 24 => 4 case 25 => 4 case 26 => 4 case 27 => 4 case 28 => 4 case 29 => 3 case 30 => 2 case 31 => 1
    case 32 => 5 case 33 => 5 case 34 => 5 case 35 => 5 case 36 => 4 case 37 => 3 case 38 => 2 case 39 => 1
    case 40 => 6 case 41 => 6 case 42 => 6 case 43 => 5 case 44 => 4 case 45 => 3 case 46 => 2 case 47 => 1
    case 48 => 7 case 49 => 7 case 50 => 6 case 51 => 5 case 52 => 4 case 53 => 3 case 54 => 2 case 55 => 1
    case 56 => 8 case 57 => 7 case 58 => 6 case 59 => 5 case 60 => 4 case 61 => 3 case 62 => 2 case _ => 1
  }

  /** The 90-degree renumbering: the square on rank r and file f goes to 8f + 7 - r. */
  lemma Rotated90Formula(sq: int)
    requires 0 <= sq < 64
    ensures Rotated90(sq) == 8 * (sq % 8) + 7 - sq / 8
  {
    if sq < 8 {
      Rotated90FormulaPart0(sq);
    } else if sq < 16 {
      Rotated90FormulaPart1(sq);
    } else if sq < 24 {
      Rotated90FormulaPart2(sq);
    } else if sq < 32 {
      Rotated90FormulaPart3(sq);
    } else if sq < 40 {
      Rotated90FormulaPart4(sq);
    } else if sq < 48 {
      Rotated90FormulaPart5(sq);
    } else if sq < 56 {
      Rotated90FormulaPart6(sq);
    } else {
      Rotated90FormulaPart7(sq);
    }
  }

  lemma Rotated90FormulaPart0(sq: int)
    requires 0 <= sq < 8
    ensures Rotated90(sq) == 8 * (sq % 8) + 7 - sq / 8
  {
    if sq == 0 {} else if sq == 1 {} else if sq == 2 {} else if sq == 3 {} else if sq == 4 {} else if sq == 5 {} else
    if sq == 6 {}
    else { assert sq == 7; }
  }

  lemma Rotated90FormulaPart1(sq: int)
    requires 8 <= sq < 16
    ensures Rotated90(sq) == 8 * (sq % 8) + 7 - sq / 8
  {
    if sq == 8 {} else if sq == 9 {} else if sq == 10 {} else if sq == 11 {} else if sq == 12 {} else if sq == 13 {} else
    if sq == 14 {}
    else { assert sq == 15; }
  }

  lemma Rotated90FormulaPart2(sq: int)
    requires 16 <= sq < 24
    ensures Rotated90(sq) == 8 * (sq % 8) + 7 - sq / 8
  {
    if sq == 16 {} else if sq == 17 {} else if sq == 18 {} else if sq == 19 {} else if sq == 20 {} else if sq == 21 {} else
    if sq == 22 {}
    else { assert sq == 23; }
  }

  lemma Rotated90FormulaPart3(sq: int)
    requires 24 <= sq < 32
    ensures Rotated90(sq) == 8 * (sq % 8) + 7 - sq / 8
  {
    if sq == 24 {} else if sq == 25 {} else if sq == 26 {} else if sq == 27 {} else if sq == 28 {} else if sq == 29 {} else
    if sq == 30 {}
    else { assert sq == 31; }
  }

  lemma Rotated90FormulaPart4(sq: int)
    requires 32 <= sq < 40
    ensures Rotated90(sq) == 8 * (sq % 8) + 7 - sq / 8
  {
    if sq == 32 {} else if sq == 33 {} else if sq == 34 {} else if sq == 35 {} else if sq == 36 {} else if sq == 37 {} else
    if sq == 38 {}
    else { assert sq == 39; }
  }

  lemma Rotated90FormulaPart5(sq: int)
    requires 40 <= sq < 48
    ensures Rotated90(sq) == 8 * (sq % 8) + 7 - sq / 8
  {
    if sq == 40 {} else if sq == 41 {} else if sq == 42 {} else if sq == 43 {} else if sq == 44 {} else if sq == 45 {} else
    if sq == 46 {}
    else { assert sq == 47; }
  }

  lemma Rotated90FormulaPart6(sq: int)
    requires 48 <= sq < 56
    ensures Rotated90(sq) == 8 * (sq % 8) + 7 - sq / 8
  {
    if sq == 48 {} else if sq == 49 {} else if sq == 50 {} else if sq == 51 {} else if sq == 52 {} else if sq == 53 {} else
    if sq == 54 {}
    else { assert sq == 55; }
  }

  lemma Rotated90FormulaPart7(sq: int)
    requires 56 <= sq < 64
    ensures Rotated90(sq) == 8 * (sq % 8) + 7 - sq / 8
  {
    if sq == 56 {} else if sq == 57 {} else if sq == 58 {} else if sq == 59 {} else if sq == 60 {} else if sq == 61 {} else
    if sq == 62 {}
    else { assert sq == 63; }
  }

  /** The 45-degree renumbering as arithmetic on the rank and the file. */
  lemma Rotated45Formula(sq: int)
    requires 0 <= sq < 64
    ensures Rotated45(sq) == (48 - 8 * (sq % 8) - 7 * (sq / 8)) % 64
  {
    if sq < 8 {
      Rotated45FormulaPart0(sq);
    } else if sq < 16 {
      Rotated45FormulaPart1(sq);
    } else if sq < 24 {
      Rotated45FormulaPart2(sq);
    } else if sq < 32 {
      Rotated45FormulaPart3(sq);
    } else if sq < 40 {
      Rotated45FormulaPart4(sq);
    } else if sq < 48 {
      Rotated45FormulaPart5(sq);
    } else if sq < 56 {
      Rotated45FormulaPart6(sq);
    } else {
      Rotated45FormulaPart7(sq);
    }
  }

  lemma Rotated45FormulaPart0(sq: int)
    requires 0 <= sq < 8
    ensures Rotated45(sq) == (48 - 8 * (sq % 8) - 7 * (sq / 8)) % 64
  {
    if sq == 0 {} else if sq == 1 {} else if sq == 2 {} else if sq == 3 {} else if sq == 4 {} else if sq == 5 {} else
    if sq == 6 {}
    else { assert sq == 7; }
  }

  lemma Rotated45FormulaPart1(sq: int)
    requires 8 <= sq < 16
    ensures Rotated45(sq) == (48 - 8 * (sq % 8) - 7 * (sq / 8)) % 64
  {
    if sq == 8 {} else if sq == 9 {} else if sq == 10 {} else if sq == 11 {} else if sq == 12 {} else if sq == 13 {} else
    if sq == 14 {}
    else { assert sq == 15; }
  }

  lemma Rotated45FormulaPart2(sq: int)
    requires 16 <= sq < 24
    ensures Rotated45(sq) == (48 - 8 * (sq % 8) - 7 * (sq / 8)) % 64
  {
    if sq == 16 {} else if sq == 17 {} else if sq == 18 {} else if sq == 19 {} else if sq == 20 {} else if sq == 21 {} else
    if sq == 22 {}
    else { assert sq == 23; }
  }

  lemma Rotated45FormulaPart3(sq: int)
    requires 24 <= sq < 32
    ensures Rotated45(sq) == (48 - 8 * (sq % 8) - 7 * (sq / 8)) % 64
  {
    if sq == 24 {} else if sq == 25 {} else if sq == 26 {} else if sq == 27 {} else if sq == 28 {} else if sq == 29 {} else
    if sq == 30 {}
    else { assert sq == 31; }
  }

  lemma Rotated45FormulaPart4(sq: int)
    requires 32 <= sq < 40
    ensures Rotated45(sq) == (48 - 8 * (sq % 8) - 7 * (sq / 8)) % 64
  {
    if sq == 32 {} else if sq == 33 {} else if sq == 34 {} else if sq == 35 {} else if sq == 36 {} else if sq == 37 {} else
    if sq == 38 {}
    else { assert sq == 39; }
  }

  lemma Rotated45FormulaPart5(sq: int)
    requires 40 <= sq < 48
    ensures Rotated45(sq) == (48 - 8 * (sq % 8) - 7 * (sq / 8)) % 64
  {
    if sq == 40 {} else if sq == 41 {} else if sq == 42 {} else if sq == 43 {} else if sq == 44 {} else if sq == 45 {} else
    if sq == 46 {}
    else { assert sq == 47; }
  }

  lemma Rotated45FormulaPart6(sq: int)
    requires 48 <= sq < 56
    ensures Rotated45(sq) == (48 - 8 * (sq % 8) - 7 * (sq / 8)) % 64
  {
    if sq == 48 {} else if sq == 49 {} else if sq == 50 {} else if sq == 51 {} else if sq == 52 {} else if sq == 53 {} else
    if sq == 54 {}
    else { assert sq == 55; }
  }

  lemma Rotated45FormulaPart7(sq: int)
    requires 56 <= sq < 64
    ensures Rotated45(sq) == (48 - 8 * (sq % 8) - 7 * (sq / 8)) % 64
  {
    if sq == 56 {} else if sq == 57 {} else if sq == 58 {} else if sq == 59 {} else if sq == 60 {} else if sq == 61 {} else
    if sq == 62 {}
    else { assert sq == 63; }
  }

  /** The 135-degree renumbering as arithmetic on the rank and the file. */
  lemma Rotated135Formula(sq: int)
    requires 0 <= sq < 64
    ensures Rotated135(sq) == (9 * (sq / 8) - 8 * (sq % 8)) % 64
  {
    if sq < 8 {
      Rotated135FormulaPart0(sq);
    } else if sq < 16 {
      Rotated135FormulaPart1(sq);
    } else if sq < 24 {
      Rotated135FormulaPart2(sq);
    } else if sq < 32 {
      Rotated135FormulaPart3(sq);
    } else if sq < 40 {
      Rotated135FormulaPart4(sq);
    } else if sq < 48 {
      Rotated135FormulaPart5(sq);
    } else if sq < 56 {
      Rotated135FormulaPart6(sq);
    } else {
      Rotated135FormulaPart7(sq);
    }
  }

  lemma Rotated135FormulaPart0(sq: int)
    requires 0 <= sq < 8
    ensures Rotated135(sq) == (9 * (sq / 8) - 8 * (sq % 8)) % 64
  {
    if sq == 0 {} else if sq == 1 {} else if sq == 2 {} else if sq == 3 {} else if sq == 4 {} else if sq == 5 {} else
    if sq == 6 {}
    else { assert sq == 7; }
  }

  lemma Rotated135FormulaPart1(sq: int)
    requires 8 <= sq < 16
    ensures Rotated135(sq) == (9 * (sq / 8) - 8 * (sq % 8)) % 64
  {
    if sq == 8 {} else if sq == 9 {} else if sq == 10 {} else if sq == 11 {} else if sq == 12 {} else if sq == 13 {} else
    if sq == 14 {}
    else { assert sq == 15; }
  }

  lemma Rotated135FormulaPart2(sq: int)
    requires 16 <= sq < 24
    ensures Rotated135(sq) == (9 * (sq / 8) - 8 * (sq % 8)) % 64
  {
    if sq == 16 {} else if sq == 17 {} else if sq == 18 {} else if sq == 19 {} else if sq == 20 {} else if sq == 21 {} else
    if sq == 22 {}
    else { assert sq == 23; }
  }

  lemma Rotated135FormulaPart3(sq: int)
    requires 24 <= sq < 32
    ensures Rotated135(sq) == (9 * (sq / 8) - 8 * (sq % 8)) % 64
  {
    if sq == 24 {} else if sq == 25 {} else if sq == 26 {} else if sq == 27 {} else if sq == 28 {} else if sq == 29 {} else
    if sq == 30 {}
    else { assert sq == 31; }
  }

  lemma Rotated135FormulaPart4(sq: int)
    requires 32 <= sq < 40
    ensures Rotated135(sq) == (9 * (sq / 8) - 8 * (sq % 8)) % 64
  {
    if sq == 32 {} else if sq == 33 {} else if sq == 34 {} else if sq == 35 {} else if sq == 36 {} else if sq == 37 {} else
    if sq == 38 {}
    else { assert sq == 39; }
  }

  lemma Rotated135FormulaPart5(sq: int)
    requires 40 <= sq < 48
    ensures Rotated135(sq) == (9 * (sq / 8) - 8 * (sq % 8)) % 64
  {
    if sq == 40 {} else if sq == 41 {} else if sq == 42 {} else if sq == 43 {} else if sq == 44 {} else if sq == 45 {} else
    if sq == 46 {}
    else { assert sq == 47; }
  }

  lemma Rotated135FormulaPart6(sq: int)
    requires 48 <= sq < 56
    ensures Rotated135(sq) == (9 * (sq / 8) - 8 * (sq % 8)) % 64
  {
    if sq == 48 {} else if sq == 49 {} else if sq == 50 {} else if sq == 51 {} else if sq == 52 {} else if sq == 53 {} else
    if sq == 54 {}
    else { assert sq == 55; }
  }

  lemma Rotated135FormulaPart7(sq: int)
    requires 56 <= sq < 64
    ensures Rotated135(sq) == (9 * (sq / 8) - 8 * (sq % 8)) % 64
  {
    if sq == 56 {} else if sq == 57 {} else if sq == 58 {} else if sq == 59 {} else if sq == 60 {} else if sq == 61 {} else
    if sq == 62 {}
    else { assert sq == 63; }
  }

  /** Every 45-degree shift is a shift count below 64. */
  lemma Rotated45ShiftBounds(sq: int)
    requires 0 <= sq < 64
    ensures 0 <= Rotated45Shift(sq) <= 63
  {
    if sq < 8 {
      Rotated45ShiftBoundsPart0(sq);
    } else if sq < 16 {
      Rotated45ShiftBoundsPart1(sq);
    } else if sq < 24 {
      Rotated45ShiftBoundsPart2(sq);
    } else if sq < 32 {
      Rotated45ShiftBoundsPart3(sq);
    } else if sq < 40 {
      Rotated45ShiftBoundsPart4(sq);
    } else if sq < 48 {
      Rotated45ShiftBoundsPart5(sq);
    } else if sq < 56 {
      Rotated45ShiftBoundsPart6(sq);
    } else {
      Rotated45ShiftBoundsPart7(sq);
    }
  }

  lemma Rotated45ShiftBoundsPart0(sq: int)
    requires 0 <= sq < 8
    ensures 0 <= Rotated45Shift(sq) <= 63
  {
    if sq == 0 {} else if sq == 1 {} else if sq == 2 {} else if sq == 3 {} else if sq == 4 {} else if sq == 5 {} else
    if sq == 6 {}
    else { assert sq == 7; }
  }

  lemma Rotated45ShiftBoundsPart1(sq: int)
    requires 8 <= sq < 16
    ensures 0 <= Rotated45Shift(sq) <= 63
  {
    if sq == 8 {} else if sq == 9 {} else if sq == 10 {} else if sq == 11 {} else if sq == 12 {} else if sq == 13 {} else
    if sq == 14 {}
    else { assert sq == 15; }
  }

  lemma Rotated45ShiftBoundsPart2(sq: int)
    requires 16 <= sq < 24
    ensures 0 <= Rotated45Shift(sq) <= 63
  {
    if sq == 16 {} else if sq == 17 {} else if sq == 18 {} else if sq == 19 {} else if sq == 20 {} else if sq == 21 {} else
    if sq == 22 {}
    else { assert sq == 23; }
  }

  lemma Rotated45ShiftBoundsPart3(sq: int)
    requires 24 <= sq < 32
    ensures 0 <= Rotated45Shift(sq) <= 63
  {
    if sq == 24 {} else if sq == 25 {} else if sq == 26 {} else if sq == 27 {} else if sq == 28 {} else if sq == 29 {} else
    if sq == 30 {}
    else { assert sq == 31; }
  }

  lemma Rotated45ShiftBoundsPart4(sq: int)
    requires 32 <= sq < 40
    ensures 0 <= Rotated45Shift(sq) <= 63
  {
    if sq == 32 {} else if sq == 33 {} else if sq == 34 {} else if sq == 35 {} else if sq == 36 {} else if sq == 37 {} else
    if sq == 38 {}
    else { assert sq == 39; }
  }

  lemma Rotated45ShiftBoundsPart5(sq: int)
    requires 40 <= sq < 48
    ensures 0 <= Rotated45Shift(sq) <= 63
  {
    if sq == 40 {} else if sq == 41 {} else if sq == 42 {} else if sq == 43 {} else if sq == 44 {} else if sq == 45 {} else
    if sq == 46 {}
    else { assert sq == 47; }
  }

  lemma Rotated45ShiftBoundsPart6(sq: int)
    requires 48 <= sq < 56
    ensures 0 <= Rotated45Shift(sq) <= 63
  {
    if sq == 48 {} else if sq == 49 {} else if sq == 50 {} else if sq == 51 {} else if sq == 52 {} else if sq == 53 {} else
    if sq == 54 {}
    else { assert sq == 55; }
  }

  lemma Rotated45ShiftBoundsPart7(sq: int)
    requires 56 <= sq < 64
    ensures 0 <= Rotated45Shift(sq) <= 63
  {
    if sq == 56 {} else if sq == 57 {} else if sq == 58 {} else if sq == 59 {} else if sq == 60 {} else if sq == 61 {} else
    if sq == 62 {}
    else { assert sq == 63; }
  }

  /** Every 135-degree shift is a shift count below 64. */
  lemma Rotated135ShiftBounds(sq: int)
    requires 0 <= sq < 64
    ensures 0 <= Rotated135Shift(sq) <= 63
  {
    if sq < 8 {
      Rotated135ShiftBoundsPart0(sq);
    } else if sq < 16 {
      Rotated135ShiftBoundsPart1(sq);
    } else if sq < 24 {
      Rotated135ShiftBoundsPart2(sq);
    } else if sq < 32 {
      Rotated135ShiftBoundsPart3(sq);
    } else if sq < 40 {
      Rotated135ShiftBoundsPart4(sq);
    } else if sq < 48 {
      Rotated135ShiftBoundsPart5(sq);
    } else if sq < 56 {
      Rotated135ShiftBoundsPart6(sq);
    } else {
      Rotated135ShiftBoundsPart7(sq);
    }
  }

  lemma Rotated135ShiftBoundsPart0(sq: int)
    requires 0 <= sq < 8
    ensures 0 <= Rotated135Shift(sq) <= 63
  {
    if sq == 0 {} else if sq == 1 {} else if sq == 2 {} else if sq == 3 {} else if sq == 4 {} else if sq == 5 {} else
    if sq == 6 {}
    else { assert sq == 7; }
  }

  lemma Rotated135ShiftBoundsPart1(sq: int)
    requires 8 <= sq < 16
    ensures 0 <= Rotated135Shift(sq) <= 63
  {
    if sq == 8 {} else if sq == 9 {} else if sq == 10 {} else if sq == 11 {} else if sq == 12 {} else if sq == 13 {} else
    if sq == 14 {}
    else { assert sq == 15; }
  }

  lemma Rotated135ShiftBoundsPart2(sq: int)
    requires 16 <= sq < 24
    ensures 0 <= Rotated135Shift(sq) <= 63
  {
    if sq == 16 {} else if sq == 17 {} else if sq == 18 {} else if sq == 19 {} else if sq == 20 {} else if sq == 21 {} else
    if sq == 22 {}
    else { assert sq == 23; }
  }

  lemma Rotated135ShiftBoundsPart3(sq: int)
    requires 24 <= sq < 32
    ensures 0 <= Rotated135Shift(sq) <= 63
  {
    if sq == 24 {} else if sq == 25 {} else if sq == 26 {} else if sq == 27 {} else if sq == 28 {} else if sq == 29 {} else
    if sq == 30 {}
    else { assert sq == 31; }
  }

  lemma Rotated135ShiftBoundsPart4(sq: int)
    requires 32 <= sq < 40
    ensures 0 <= Rotated135Shift(sq) <= 63
  {
    if sq == 32 {} else if sq == 33 {} else if sq == 34 {} else if sq == 35 {} else if sq == 36 {} else if sq == 37 {} else
    if sq == 38 {}
    else { assert sq == 39; }
  }

  lemma Rotated135ShiftBoundsPart5(sq: int)
    requires 40 <= sq < 48
    ensures 0 <= Rotated135Shift(sq) <= 63
  {
    if sq == 40 {} else if sq == 41 {} else if sq == 42 {} else if sq == 43 {} else if sq == 44 {} else if sq == 45 {} else
    if sq == 46 {}
    else { assert sq == 47; }
  }

  lemma Rotated135ShiftBoundsPart6(sq: int)
    requires 48 <= sq < 56
    ensures 0 <= Rotated135Shift(sq) <= 63
  {
    if sq == 48 {} else if sq == 49 {} else if sq == 50 {} else if sq == 51 {} else if sq == 52 {} else if sq == 53 {} else
    if sq == 54 {}
    else { assert sq == 55; }
  }

  lemma Rotated135ShiftBoundsPart7(sq: int)
    requires 56 <= sq < 64
    ensures 0 <= Rotated135Shift(sq) <= 63
  {
    if sq == 56 {} else if sq == 57 {} else if sq == 58 {} else if sq == 59 {} else if sq == 60 {} else if sq == 61 {} else
    if sq == 62 {}
    else { assert sq == 63; }
  }

  /** Every 45-degree diagonal has 1 to 8 squares. */
  lemma LengthRotated45Bounds(sq: int)
    requires 0 <= sq < 64
    ensures 1 <= LengthRotated45(sq) <= 8
  {
    if sq < 8 {
      LengthRotated45BoundsPart0(sq);
    } else if sq < 16 {
      LengthRotated45BoundsPart1(sq);
    } else if sq < 24 {
      LengthRotated45BoundsPart2(sq);
    } else if sq < 32 {
      LengthRotated45BoundsPart3(sq);
    } else if sq < 40 {
      LengthRotated45BoundsPart4(sq);
    } else if sq < 48 {
      LengthRotated45BoundsPart5(sq);
    } else if sq < 56 {
      LengthRotated45BoundsPart6(sq);
    } else {
      LengthRotated45BoundsPart7(sq);
    }
  }

  lemma LengthRotated45BoundsPart0(sq: int)
    requires 0 <= sq < 8
    ensures 1 <= LengthRotated45(sq) <= 8
  {
    if sq == 0 {} else if sq == 1 {} else if sq == 2 {} else if sq == 3 {} else if sq == 4 {} else if sq == 5 {} else
    if sq == 6 {}
    else { assert sq == 7; }
  }

  lemma LengthRotated45BoundsPart1(sq: int)
    requires 8 <= sq < 16
    ensures 1 <= LengthRotated45(sq) <= 8
  {
    if sq == 8 {} else if sq == 9 {} else if sq == 10 {} else if sq == 11 {} else if sq == 12 {} else if sq == 13 {} else
    if sq == 14 {}
    else { assert sq == 15; }
  }

  lemma LengthRotated45BoundsPart2(sq: int)
    requires 16 <= sq < 24
    ensures 1 <= LengthRotated45(sq) <= 8
  {
    if sq == 16 {} else if sq == 17 {} else if sq == 18 {} else if sq == 19 {} else if sq == 20 {} else if sq == 21 {} else
    if sq == 22 {}
    else { assert sq == 23; }
  }

  lemma LengthRotated45BoundsPart3(sq: int)
    requires 24 <= sq < 32
    ensures 1 <= LengthRotated45(sq) <= 8
  {
    if sq == 24 {} else if sq == 25 {} else if sq == 26 {} else if sq == 27 {} else if sq == 28 {} else if sq == 29 {} else
    if sq == 30 {}
    else { assert sq == 31; }
  }

  lemma LengthRotated45BoundsPart4(sq: int)
    requires 32 <= sq < 40
    ensures 1 <= LengthRotated45(sq) <= 8
  {
    if sq == 32 {} else if sq == 33 {} else if sq == 34 {} else if sq == 35 {} else if sq == 36 {} else if sq == 37 {} else
    if sq == 38 {}
    else { assert sq == 39; }
  }

  lemma LengthRotated45BoundsPart5(sq: int)
    requires 40 <= sq < 48
    ensures 1 <= LengthRotated45(sq) <= 8
  {
    if sq == 40 {} else if sq == 41 {} else if sq == 42 {} else if sq == 43 {} else if sq == 44 {} else if sq == 45 {} else
    if sq == 46 {}
    else { assert sq == 47; }
  }

  lemma LengthRotated45BoundsPart6(sq: int)
    requires 48 <= sq < 56
    ensures 1 <= LengthRotated45(sq) <= 8
  {
    if sq == 48 {} else if sq == 49 {} else if sq == 50 {} else if sq == 51 {} else if sq == 52 {} else if sq == 53 {} else
    if sq == 54 {}
    else { assert sq == 55; }
  }

  lemma LengthRotated45BoundsPart7(sq: int)
    requires 56 <= sq < 64
    ensures 1 <= LengthRotated45(sq) <= 8
  {
    if sq == 56 {} else if sq == 57 {} else if sq == 58 {} else if sq == 59 {} else if sq == 60 {} else if sq == 61 {} else
    if sq == 62 {}
    else { assert sq == 63; }
  }

  /** Every 135-degree diagonal has 1 to 8 squares. */
  lemma LengthRotated135Bounds(sq: int)
    requires 0 <= sq < 64
    ensures 1 <= LengthRotated135(sq) <= 8
  {
    if sq < 8 {
      LengthRotated135BoundsPart0(sq);
    } else if sq < 16 {
      LengthRotated135BoundsPart1(sq);
    } else if sq < 24 {
      LengthRotated135BoundsPart2(sq);
    } else if sq < 32 {
      LengthRotated135BoundsPart3(sq);
    } else if sq < 40 {
      LengthRotated135BoundsPart4(sq);
    } else if sq < 48 {
      LengthRotated135BoundsPart5(sq);
    } else if sq < 56 {
      LengthRotated135BoundsPart6(sq);
    } else {
      LengthRotated135BoundsPart7(sq);
    }
  }

  lemma LengthRotated135BoundsPart0(sq: int)
    requires 0 <= sq < 8
    ensures 1 <= LengthRotated135(sq) <= 8
  {
    if sq == 0 {} else if sq == 1 {} else if sq == 2 {} else if sq == 3 {} else if sq == 4 {} else if sq == 5 {} else
    if sq == 6 {}
    else { assert sq == 7; }
  }

  lemma LengthRotated135BoundsPart1(sq: int)
    requires 8 <= sq < 16
    ensures 1 <= LengthRotated135(sq) <= 8
  {
    if sq == 8 {} else if sq == 9 {} else if sq == 10 {} else if sq == 11 {} else if sq == 12 {} else if sq == 13 {} else
    if sq == 14 {}
    else { assert sq == 15; }
  }

  lemma LengthRotated135BoundsPart2(sq: int)
    requires 16 <= sq < 24
    ensures 1 <= LengthRotated135(sq) <= 8
  {
    if sq == 16 {} else if sq == 17 {} else if sq == 18 {} else if sq == 19 {} else if sq == 20 {} else if sq == 21 {} else
    if sq == 22 {}
    else { assert sq == 23; }
  }

  lemma LengthRotated135BoundsPart3(sq: int)
    requires 24 <= sq < 32
    ensures 1 <= LengthRotated135(sq) <= 8
  {
    if sq == 24 {} else if sq == 25 {} else if sq == 26 {} else if sq == 27 {} else if sq == 28 {} else if sq == 29 {} else
    if sq == 30 {}
    else { assert sq == 31; }
  }

  lemma LengthRotated135BoundsPart4(sq: int)
    requires 32 <= sq < 40
    ensures 1 <= LengthRotated135(sq) <= 8
  {
    if sq == 32 {} else if sq == 33 {} else if sq == 34 {} else if sq == 35 {} else if sq == 36 {} else if sq == 37 {} else
    if sq == 38 {}
    else { assert sq == 39; }
  }

  lemma LengthRotated135BoundsPart5(sq: int)
    requires 40 <= sq < 48
    ensures 1 <= LengthRotated135(sq) <= 8
  {
    if sq == 40 {} else if sq == 41 {} else if sq == 42 {} else if sq == 43 {} else if sq == 44 {} else if sq == 45 {} else
    if sq == 46 {}
    else { assert sq == 47; }
  }

  lemma LengthRotated135BoundsPart6(sq: int)
    requires 48 <= sq < 56
    ensures 1 <= LengthRotated135(sq) <= 8
  {
    if sq == 48 {} else if sq == 49 {} else if sq == 50 {} else if sq == 51 {} else if sq == 52 {} else if sq == 53 {} else
    if sq == 54 {}
    else { assert sq == 55; }
  }

  lemma LengthRotated135BoundsPart7(sq: int)
    requires 56 <= sq < 64
    ensures 1 <= LengthRotated135(sq) <= 8
  {
    if sq == 56 {} else if sq == 57 {} else if sq == 58 {} else if sq == 59 {} else if sq == 60 {} else if sq == 61 {} else
    if sq == 62 {}
    else { assert sq == 63; }
  }

  /** The square whose bit sits at each position of the 90-degree bitboard. (entries 0..63 in order). */
  function InverseRotated90(sq: int): int
    requires 0 <= sq < 64
  {
    match sq
    case 0 => 56 case 1 => 48 case 2 => 40 case 3 => 32 case 4 => 24 case 5 => 16 case 6 => 8 case 7 => 0
    case 8 => 57 case 9 => 49 case 10 => 41 case 11 => 33 case 12 => 25 case 13 => 17 case 14 => 9 case 15 => 1
    case 16 => 58 case 17 => 50 case 18 => 42 case 19 => 34 case 20 => 26 case 21 => 18 case 22 => 10 case 23 => 2
    case 24 => 59 case 25 => 51 case 26 => 43 case 27 => 35 case 28 => 27 case 29 => 19 case 30 => 11 case 31 => 3
    case 32 => 60 case 33 => 52 case 34 => 44 case 35 => 36 case 36 => 28 case 37 => 20 case 38 => 12 case 39 => 4
    case 40 => 61 case 41 => 53 case 42 => 45 case 43 => 37 case 44 => 29 case 45 => 21 case 46 => 13 case 47 => 5
    case 48 => 62 case 49 => 54 case 50 => 46 case 51 => 38 case 52 => 30 case 53 => 22 case 54 => 14 case 55 => 6
    case 56 => 63 case 57 => 55 case 58 => 47 case 59 => 39 case 60 => 31 case 61 => 23 case 62 => 15 case _ => 7
  }

  /** Every square has its own position in the 90-degree bitboard. */
  lemma Rotated90Inverts(sq: int)
    requires 0 <= sq < 64
    ensures 0 <= Rotated90(sq) < 64 && InverseRotated90(Rotated90(sq)) == sq
  {
    if sq < 8 {
      Rotated90InvertsPart0(sq);
    } else if sq < 16 {
      Rotated90InvertsPart1(sq);
    } else if sq < 24 {
      Rotated90InvertsPart2(sq);
    } else if sq < 32 {
      Rotated90InvertsPart3(sq);
    } else if sq < 40 {
      Rotated90InvertsPart4(sq);
    } else if sq < 48 {
      Rotated90InvertsPart5(sq);
    } else if sq < 56 {
      Rotated90InvertsPart6(sq);
    } else {
      Rotated90InvertsPart7(sq);
    }
  }

  lemma Rotated90InvertsPart0(sq: int)
    requires 0 <= sq < 8
    ensures 0 <= Rotated90(sq) < 64 && InverseRotated90(Rotated90(sq)) == sq
  {
    if sq == 0 {} else if sq == 1 {} else if sq == 2 {} else if sq == 3 {} else if sq == 4 {} else if sq == 5 {} else
    if sq == 6 {}
    else { assert sq == 7; }
  }

  lemma Rotated90InvertsPart1(sq: int)
    requires 8 <= sq < 16
    ensures 0 <= Rotated90(sq) < 64 && InverseRotated90(Rotated90(sq)) == sq
  {
    if sq == 8 {} else if sq == 9 {} else if sq == 10 {} else if sq == 11 {} else if sq == 12 {} else if sq == 13 {} else
    if sq == 14 {}
    else { assert sq == 15; }
  }

  lemma Rotated90InvertsPart2(sq: int)
    requires 16 <= sq < 24
    ensures 0 <= Rotated90(sq) < 64 && InverseRotated90(Rotated90(sq)) == sq
  {
    if sq == 16 {} else if sq == 17 {} else if sq == 18 {} else if sq == 19 {} else if sq == 20 {} else if sq == 21 {} else
    if sq == 22 {}
    else { assert sq == 23; }
  }

  lemma Rotated90InvertsPart3(sq: int)
    requires 24 <= sq < 32
    ensures 0 <= Rotated90(sq) < 64 && InverseRotated90(Rotated90(sq)) == sq
  {
    if sq == 24 {} else if sq == 25 {} else if sq == 26 {} else if sq == 27 {} else if sq == 28 {} else if sq == 29 {} else
    if sq == 30 {}
    else { assert sq == 31; }
  }

  lemma Rotated90InvertsPart4(sq: int)
    requires 32 <= sq < 40
    ensures 0 <= Rotated90(sq) < 64 && InverseRotated90(Rotated90(sq)) == sq
  {
    if sq == 32 {} else if sq == 33 {} else if sq == 34 {} else if sq == 35 {} else if sq == 36 {} else if sq == 37 {} else
    if sq == 38 {}
    else { assert sq == 39; }
  }

  lemma Rotated90InvertsPart5(sq: int)
    requires 40 <= sq < 48
    ensures 0 <= Rotated90(sq) < 64 && InverseRotated90(Rotated90(sq)) == sq
  {
    if sq == 40 {} else if sq == 41 {} else if sq == 42 {} else if sq == 43 {} else if sq == 44 {} else if sq == 45 {} else
    if sq == 46 {}
    else { assert sq == 47; }
  }

  lemma Rotated90InvertsPart6(sq: int)
    requires 48 <= sq < 56
    ensures 0 <= Rotated90(sq) < 64 && InverseRotated90(Rotated90(sq)) == sq
  {
    if sq == 48 {} else if sq == 49 {} else if sq == 50 {} else if sq == 51 {} else if sq == 52 {} else if sq == 53 {} else
    if sq == 54 {}
    else { assert sq == 55; }
  }

  lemma Rotated90InvertsPart7(sq: int)
    requires 56 <= sq < 64
    ensures 0 <= Rotated90(sq) < 64 && InverseRotated90(Rotated90(sq)) == sq
  {
    if sq == 56 {} else if sq == 57 {} else if sq == 58 {} else if sq == 59 {} else if sq == 60 {} else if sq == 61 {} else
    if sq == 62 {}
    else { assert sq == 63; }
  }

  /** The square whose bit sits at each position of the 45-degree bitboard. (entries 0..63 in order). */
  function InverseRotated45(sq: int): int
    requires 0 <= sq < 64
  {
    match sq
    case 0 => 6 case 1 => 13 case 2 => 20 case 3 => 27 case 4 => 34 case 5 => 41 case 6 => 48 case 7 => 63
    case 8 => 5 case 9 => 12 case 10 => 19 case 11 => 26 case 12 => 33 case 13 => 40 case 14 => 55 case 15 => 62
    case 16 => 4 case 17 => 11 case 18 => 18 case 19 => 25 case 20 => 32 case 21 => 47 case 22 => 54 case 23 => 61
    case 24 => 3 case 25 => 10 case 26 => 17 case 27 => 24 case 28 => 39 case 29 => 46 case 30 => 53 case 31 => 60
    case 32 => 2 case 33 => 9 case 34 => 16 case 35 => 31 case 36 => 38 case 37 => 45 case 38 => 52 case 39 => 59
    case 40 => 1 case 41 => 8 case 42 => 23 case 43 => 30 case 44 => 37 case 45 => 44 case 46 => 51 case 47 => 58
    case 48 => 0 case 49 => 15 case 50 => 22 case 51 => 29 case 52 => 36 case 53 => 43 case 54 => 50 case 55 => 57
    case 56 => 7 case 57 => 14 case 58 => 21 case 59 => 28 case 60 => 35 case 61 => 42 case 62 => 49 case _ => 56
  }

  /** Every square has its own position in the 45-degree bitboard. */
  lemma Rotated45Inverts(sq: int)
    requires 0 <= sq < 64
    ensures 0 <= Rotated45(sq) < 64 && InverseRotated45(Rotated45(sq)) == sq
  {
    if sq < 8 {
      Rotated45InvertsPart0(sq);
    } else if sq < 16 {
      Rotated45InvertsPart1(sq);
    } else if sq < 24 {
      Rotated45InvertsPart2(sq);
    } else if sq < 32 {
      Rotated45InvertsPart3(sq);
    } else if sq < 40 {
      Rotated45InvertsPart4(sq);
    } else if sq < 48 {
      Rotated45InvertsPart5(sq);
    } else if sq < 56 {
      Rotated45InvertsPart6(sq);
    } else {
      Rotated45InvertsPart7(sq);
    }
  }

  lemma Rotated45InvertsPart0(sq: int)
    requires 0 <= sq < 8
    ensures 0 <= Rotated45(sq) < 64 && InverseRotated45(Rotated45(sq)) == sq
  {
    if sq == 0 {} else if sq == 1 {} else if sq == 2 {} else if sq == 3 {} else if sq == 4 {} else if sq == 5 {} else
    if sq == 6 {}
    else { assert sq == 7; }
  }

  lemma Rotated45InvertsPart1(sq: int)
    requires 8 <= sq < 16
    ensures 0 <= Rotated45(sq) < 64 && InverseRotated45(Rotated45(sq)) == sq
  {
    if sq == 8 {} else if sq == 9 {} else if sq == 10 {} else if sq == 11 {} else if sq == 12 {} else if sq == 13 {} else
    if sq == 14 {}
    else { assert sq == 15; }
  }

  lemma Rotated45InvertsPart2(sq: int)
    requires 16 <= sq < 24
    ensures 0 <= Rotated45(sq) < 64 && InverseRotated45(Rotated45(sq)) == sq
  {
    if sq == 16 {} else if sq == 17 {} else if sq == 18 {} else if sq == 19 {} else if sq == 20 {} else if sq == 21 {} else
    if sq == 22 {}
    else { assert sq == 23; }
  }

  lemma Rotated45InvertsPart3(sq: int)
    requires 24 <= sq < 32
    ensures 0 <= Rotated45(sq) < 64 && InverseRotated45(Rotated45(sq)) == sq
  {
    if sq == 24 {} else if sq == 25 {} else if sq == 26 {} else if sq == 27 {} else if sq == 28 {} else if sq == 29 {} else
    if sq == 30 {}
    else { assert sq == 31; }
  }

  lemma Rotated45InvertsPart4(sq: int)
    requires 32 <= sq < 40
    ensures 0 <= Rotated45(sq) < 64 && InverseRotated45(Rotated45(sq)) == sq
  {
    if sq == 32 {} else if sq == 33 {} else if sq == 34 {} else if sq == 35 {} else if sq == 36 {} else if sq == 37 {} else
    if sq == 38 {}
    else { assert sq == 39; }
  }

  lemma Rotated45InvertsPart5(sq: int)
    requires 40 <= sq < 48
    ensures 0 <= Rotated45(sq) < 64 && InverseRotated45(Rotated45(sq)) == sq
  {
    if sq == 40 {} else if sq == 41 {} else if sq == 42 {} else if sq == 43 {} else if sq == 44 {} else if sq == 45 {} else
    if sq == 46 {}
    else { assert sq == 47; }
  }

  lemma Rotated45InvertsPart6(sq: int)
    requires 48 <= sq < 56
    ensures 0 <= Rotated45(sq) < 64 && InverseRotated45(Rotated45(sq)) == sq
  {
    if sq == 48 {} else if sq == 49 {} else if sq == 50 {} else if sq == 51 {} else if sq == 52 {} else if sq == 53 {} else
    if sq == 54 {}
    else { assert sq == 55; }
  }

  lemma Rotated45InvertsPart7(sq: int)
    requires 56 <= sq < 64
    ensures 0 <= Rotated45(sq) < 64 && InverseRotated45(Rotated45(sq)) == sq
  {
    if sq == 56 {} else if sq == 57 {} else if sq == 58 {} else if sq == 59 {} else if sq == 60 {} else if sq == 61 {} else
    if sq == 62 {}
    else { assert sq == 63; }
  }

  /** The square whose bit sits at each position of the 135-degree bitboard. (entries 0..63 in order). */
  function InverseRotated135(sq: int): int
    requires 0 <= sq < 64
  {
    match sq
    case 0 => 0 case 1 => 9 case 2 => 18 case 3 => 27 case 4 => 36 case 5 => 45 case 6 => 54 case 7 => 63
    case 8 => 7 case 9 => 8 case 10 => 17 case 11 => 26 case 12 => 35 case 13 => 44 case 14 => 53 case 15 => 62
    case 16 => 6 case 17 => 15 case 18 => 16 case 19 => 25 case 20 => 34 case 21 => 43 case 22 => 52 case 23 => 61
    case 24 => 5 case 25 => 14 case 26 => 23 case 27 => 24 case 28 => 33 case 29 => 42 case 30 => 51 case 31 => 60
    case 32 => 4 case 33 => 13 case 34 => 22 case 35 => 31 case 36 => 32 case 37 => 41 case 38 => 50 case 39 => 59
    case 40 => 3 case 41 => 12 case 42 => 21 case 43 => 30 case 44 => 39 case 45 => 40 case 46 => 49 case 47 => 58
    case 48 => 2 case 49 => 11 case 50 => 20 case 51 => 29 case 52 => 38 case 53 => 47 case 54 => 48 case 55 => 57
    case 56 => 1 case 57 => 10 case 58 => 19 case 59 => 28 case 60 => 37 case 61 => 46 case 62 => 55 case _ => 56
  }

  /** Every square has its own position in the 135-degree bitboard. */
  lemma Rotated135Inverts(sq: int)
    requires 0 <= sq < 64
    ensures 0 <= Rotated135(sq) < 64 && InverseRotated135(Rotated135(sq)) == sq
  {
    if sq < 8 {
      Rotated135InvertsPart0(sq);
    } else if sq < 16 {
      Rotated135InvertsPart1(sq);
    } else if sq < 24 {
      Rotated135InvertsPart2(sq);
    } else if sq < 32 {
      Rotated135InvertsPart3(sq);
    } else if sq < 40 {
      Rotated135InvertsPart4(sq);
    } else if sq < 48 {
      Rotated135InvertsPart5(sq);
    } else if sq < 56 {
      Rotated135InvertsPart6(sq);
    } else {
      Rotated135InvertsPart7(sq);
    }
  }

  lemma Rotated135InvertsPart0(sq: int)
    requires 0 <= sq < 8
    ensures 0 <= Rotated135(sq) < 64 && InverseRotated135(Rotated135(sq)) == sq
  {
    if sq == 0 {} else if sq == 1 {} else if sq == 2 {} else if sq == 3 {} else if sq == 4 {} else if sq == 5 {} else
    if sq == 6 {}
    else { assert sq == 7; }
  }

  lemma Rotated135InvertsPart1(sq: int)
    requires 8 <= sq < 16
    ensures 0 <= Rotated135(sq) < 64 && InverseRotated135(Rotated135(sq)) == sq
  {
    if sq == 8 {} else if sq == 9 {} else if sq == 10 {} else if sq == 11 {} else if sq == 12 {} else if sq == 13 {} else
    if sq == 14 {}
    else { assert sq == 15; }
  }

  lemma Rotated135InvertsPart2(sq: int)
    requires 16 <= sq < 24
    ensures 0 <= Rotated135(sq) < 64 && InverseRotated135(Rotated135(sq)) == sq
  {
    if sq == 16 {} else if sq == 17 {} else if sq == 18 {} else if sq == 19 {} else if sq == 20 {} else if sq == 21 {} else
    if sq == 22 {}
    else { assert sq == 23; }
  }

  lemma Rotated135InvertsPart3(sq: int)
    requires 24 <= sq < 32
    ensures 0 <= Rotated135(sq) < 64 && InverseRotated135(Rotated135(sq)) == sq
  {
    if sq == 24 {} else if sq == 25 {} else if sq == 26 {} else if sq == 27 {} else if sq == 28 {} else if sq == 29 {} else
    if sq == 30 {}
    else { assert sq == 31; }
  }

  lemma Rotated135InvertsPart4(sq: int)
    requires 32 <= sq < 40
    ensures 0 <= Rotated135(sq) < 64 && InverseRotated135(Rotated135(sq)) == sq
  {
    if sq == 32 {} else if sq == 33 {} else if sq == 34 {} else if sq == 35 {} else if sq == 36 {} else if sq == 37 {} else
    if sq == 38 {}
    else { assert sq == 39; }
  }

  lemma Rotated135InvertsPart5(sq: int)
    requires 40 <= sq < 48
    ensures 0 <= Rotated135(sq) < 64 && InverseRotated135(Rotated135(sq)) == sq
  {
    if sq == 40 {} else if sq == 41 {} else if sq == 42 {} else if sq == 43 {} else if sq == 44 {} else if sq == 45 {} else
    if sq == 46 {}
    else { assert sq == 47; }
  }

  lemma Rotated135InvertsPart6(sq: int)
    requires 48 <= sq < 56
    ensures 0 <= Rotated135(sq) < 64 && InverseRotated135(Rotated135(sq)) == sq
  {
    if sq == 48 {} else if sq == 49 {} else if sq == 50 {} else if sq == 51 {} else if sq == 52 {} else if sq == 53 {} else
    if sq == 54 {}
    else { assert sq == 55; }
  }

  lemma Rotated135InvertsPart7(sq: int)
    requires 56 <= sq < 64
    ensures 0 <= Rotated135(sq) < 64 && InverseRotated135(Rotated135(sq)) == sq
  {
    if sq == 56 {} else if sq == 57 {} else if sq == 58 {} else if sq == 59 {} else if sq == 60 {} else if sq == 61 {} else
    if sq == 62 {}
    else { assert sq == 63; }
  }

}
