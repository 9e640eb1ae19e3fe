/**
 * The searching brain: iterative deepening over an alpha-beta search with
 * a quiescence search at the horizon, the transposition table, killer
 * moves and principal-variation bookkeeping, in the three varieties the
 * program offers (plain alpha-beta, alpha-beta with null-move pruning, and
 * MTD(f) driving the alpha-beta search with null windows).
 *
 * The brain owns a scratch board that the search makes and takes back its
 * moves on, and one record per ply (`PlyInfo`) holding the board to go back
 * to, the line found from that ply and the killers. Taking back a move is
 * copying the ply's board back into the scratch board, so every search
 * leaves the scratch board as it found it, up to the recomputed game stage
 * (`Restored`), and touches only the records of its own ply and deeper ones
 * (`Frame`).
 *
 * The clock is a node budget: the brain thinks while it has evaluated
 * fewer than `nodeBudget` nodes.
 */
module Search {
  import opened Globals
  import opened Moves
  import opened Zobrist
  import opened Positions
  import opened MoveGeneration
  import opened StaticEvaluator
  import opened TranspositionTables
  import opened Boards
  import opened PlyInfos
  import MaterialEvaluation
  import Generators
  import Killers
  import PrincipalVariations
  import MoveOrdering
  import NullMovePruning
  import Mtdf

  /** Which override of the search the brain runs. */
  datatype BrainKind = BasicAlphaBeta | NullMove | MTDf

  /** Why a search returned what it did: one case per `return` of the source. */
  datatype Exit =
    | PlyLimit                        // the deepest ply: beta
    | TableCutoff(entryType: EntryType) // the transposition table answered
    | Horizon                         // no depth left: the quiescence score
    | Pruned                          // the null move failed high
    | Checkmated                      // no way out of check
    | Stopped                         // out of time, in the move loop
    | FailHigh                        // a move reached beta
    | FailLow                         // no move raised alpha
    | Improved                        // some move raised alpha, none reached beta
    | StandPat                        // quiescence: the static score reaches beta
    | Best                            // quiescence: the best of standing pat and the captures

  /** A search window: alpha below beta, both within the scores. */
  predicate Window(alpha: int, beta: int)
  {
    MinScore <= alpha < beta <= MaxScore
  }

  /** A score the search can return. */
  predicate InRange(score: int)
  {
    MinScore <= score <= MaxScore
  }

  /** What a search returning `r` for the window `alpha0`, `beta0` promises, by the way it returned. */
  predicate Outcome(exit: Exit, r: int, alpha0: int, beta0: int, remainingDepth: int, ply: int)
  {
    match exit
    case PlyLimit => r == beta0
    case TableCutoff(entryType) =>
      entryType != Junk && (entryType == LowerBound ==> r >= beta0) && (entryType == UpperBound ==> r <= alpha0)
    case Horizon => remainingDepth <= 0 && r >= alpha0
    case Pruned => r >= beta0
    case Checkmated => r == ply - LargestMateScore
    case Stopped => alpha0 <= r < beta0
    case FailHigh => r >= beta0
    case FailLow => r == alpha0
    case Improved => alpha0 < r < beta0
    case StandPat => r == beta0
    case Best => alpha0 <= r < beta0
  }

  /**
   * The scratch board after a search, against the one before: the same,
   * or the same with its game stage recomputed (what copying a board
   * does).
   */
  predicate Restored(now: Position, before: Position)
    requires WellFormed(before)
  {
    now == before || now == UpdateGameStageSpec(before)
  }

  /** The moves the base `GenerateMoves` lists: the check escapes when in check, else all moves. */
  function Generated(p: Position, side: Side): seq<Move>
    requires WellFormed(p)
  {
    var n := KingAttackCount(p, side);
    if n > 0 then CheckEscapes(p, n) else AllMoves(p)
  }

  /**
   * The optimistic gain of a capture for delta pruning, in 32-bit
   * arithmetic: the captured piece, the promotion piece if any, and a
   * pawn's worth of margin.
   */
  function CaptureGain(move: Move): Int32
    requires InBounds(move)
  {
    var value := PieceValue[GetKind(move.capturedPiece)];
    var withPromotion := if IsPromotion(move) then Wrap32(value as int + PieceValue[GetKind(move.promotionPiece)] as int) else value;
    Wrap32(withPromotion as int + PieceValue[Pawn] as int)
  }

  /** The quiescence search skips a capture that cannot lift the static score to alpha. */
  predicate DeltaPruned(move: Move, staticScore: Int32, alpha: Int32)
    requires InBounds(move)
  {
    IsCapture(move) && Wrap32(staticScore as int + CaptureGain(move) as int) < alpha
  }

  /** The per-ply records are distinct objects, and so are their boards, arrays and the scratch board. */
  ghost predicate Separated(plies: seq<PlyInfo>, scratch: Board)
  {
    (forall i, j :: 0 <= i < |plies| && 0 <= j < |plies| && i != j ==>
       plies[i] != plies[j] && plies[i].board != plies[j].board &&
       plies[i].board.occupant != plies[j].board.occupant &&
       plies[i].principalVariation != plies[j].principalVariation && plies[i].killer != plies[j].killer &&
       plies[i].principalVariation != plies[j].killer) &&
    (forall i :: 0 <= i < |plies| ==> plies[i].board != scratch && plies[i].board.occupant != scratch.occupant)
  }

  /**
   * The results an analysis publishes: `_Score`, `_BestMove` and
   * `_PrincipalVariation` of the brain. They are kept in an object of their
   * own so that their place outside every search's frame shows that only
   * the publishing step changes them.
   */
  class Analysis {
    var score: Int32
    var bestMove: Move
    var principalVariation: seq<Move>

    constructor ()
      ensures score == 0 && bestMove == Empty && principalVariation == []
    {
      score := 0;
      bestMove := Empty;
      principalVariation := [];
    }
  }

  class Brain {
    const kind: BrainKind
    const scratch: Board
    const table: TranspositionTable
    const plies: seq<PlyInfo>
    const keys: ZobristKeys
    const nodeBudget: int
    /** The records and boards of all plies: what `Valid` looks at. */
    ghost const plyObjects: set<object>
    var ourSide: Side
    /** The published results. */
    const published: Analysis
    var nodesEvaluated: int

    /** The objects of the records of plies `from` and deeper. */
    ghost function PlyFrame(from: nat): set<object>
    {
      (set i | from <= i < |plies| :: plies[i] as object) +
      (set i | from <= i < |plies| :: plies[i].board as object) +
      (set i | from <= i < |plies| :: plies[i].board.occupant as object) +
      (set i | from <= i < |plies| :: plies[i].principalVariation as object) +
      (set i | from <= i < |plies| :: plies[i].killer as object)
    }

    /** What a search from ply `from` may change: the brain, the scratch board, the table, and the records from `from` on. */
    ghost function Frame(from: nat): set<object>
    {
      {this, scratch, scratch.occupant, table, table.globalTable, table.localTable} + PlyFrame(from)
    }

    /**
     * The ply records: one per ply, each valid, all apart from each other
     * and from the scratch board. The scratch board and the table have
     * their own `Valid`, which every operation keeps beside this one.
     */
    ghost predicate Valid()
      reads plyObjects
    {
      |plies| == MaxPly + 1 && ValidKeys(keys) &&
      (forall i :: 0 <= i < |plies| ==>
         plies[i] in plyObjects && plies[i].board in plyObjects && plies[i].board.occupant in plyObjects && plies[i].Valid()) &&
      Separated(plies, scratch) &&
      {this, scratch, scratch.occupant, table, table.globalTable, table.localTable} !! plyObjects
    }

    /** What the two tables answer for the scratch board with `side` to move (`Lookup`). */
    ghost function TableAnswer(remainingDepth: Int32, ply: nat, side: Side, alpha: Int32, beta: Int32): ProbeResult
      requires table.Valid() && ply < MaxPly
      reads scratch, table, table.globalTable, table.localTable
    {
      var key := TableKey(scratch.hashKey, side);
      Lookup(table.globalTable[Slot(key, table.globalTable.Length)], table.localTable[Slot(key, table.localTable.Length)],
             key, remainingDepth, ply, alpha, beta)
    }

    /** The move the two tables hold for the scratch board with `side` to move (`BestMove`). */
    ghost function TableMove(side: Side): Move
      requires table.Valid()
      reads scratch, table, table.globalTable, table.localTable
    {
      var key := TableKey(scratch.hashKey, side);
      BestMove(table.globalTable[Slot(key, table.globalTable.Length)], table.localTable[Slot(key, table.localTable.Length)], key)
    }

    /** The published score, best move and line. */
    ghost function Published(): (Int32, Move, seq<Move>)
      reads published
    {
      (published.score, published.bestMove, published.principalVariation)
    }

    /** `_AreWeThinking`: the node budget is not used up. */
    predicate Thinking()
      reads this
    {
      nodesEvaluated < nodeBudget
    }

    /** The records of ply `k` belong to the frame of every ply up to `k`. */
    lemma InFrame(k: int, from: int)
      requires 0 <= from <= k < |plies|
      ensures plies[k] in Frame(from) && plies[k].board in Frame(from) && plies[k].board.occupant in Frame(from)
      ensures plies[k].principalVariation in Frame(from) && plies[k].killer in Frame(from)
    {
      assert plies[k] in (set i | from <= i < |plies| :: plies[i] as object);
      assert plies[k].board in (set i | from <= i < |plies| :: plies[i].board as object);
      assert plies[k].board.occupant in (set i | from <= i < |plies| :: plies[i].board.occupant as object);
      assert plies[k].principalVariation in (set i | from <= i < |plies| :: plies[i].principalVariation as object);
      assert plies[k].killer in (set i | from <= i < |plies| :: plies[i].killer as object);
    }

    /** The published results lie outside every search's frame. */
    lemma PublishedOutOfFrame(from: nat)
      ensures published !in Frame(from)
    {
      forall i | from <= i < |plies|
        ensures plies[i] as object != published && plies[i].board as object != published
        ensures plies[i].board.occupant as object != published
        ensures plies[i].principalVariation as object != published && plies[i].killer as object != published
      {
      }
    }

    /** The records of ply `k` lie outside the frame of the deeper plies. */
    lemma OutOfFrame(k: nat)
      requires |plies| == MaxPly + 1 && Separated(plies, scratch) && k < MaxPly
      ensures plies[k] !in Frame(k + 1) && plies[k].board !in Frame(k + 1) && plies[k].board.occupant !in Frame(k + 1)
      ensures plies[k].principalVariation !in Frame(k + 1) && plies[k].killer !in Frame(k + 1)
    {
      OutOfFrameA(k);
      OutOfFrameB(k);
      OutOfFrameC(k);
      OutOfFrameD(k);
      OutOfFrameE(k);
    }

    lemma OutOfFrameA(k: nat)
      requires |plies| == MaxPly + 1 && Separated(plies, scratch) && k < MaxPly
      ensures plies[k] !in Frame(k + 1)
    {
      forall i | k + 1 <= i < |plies|
        ensures plies[k] != plies[i]
      {
        assert i != k;
      }
    }

    lemma OutOfFrameB(k: nat)
      requires |plies| == MaxPly + 1 && Separated(plies, scratch) && k < MaxPly
      ensures plies[k].board !in Frame(k + 1)
    {
      forall i | k + 1 <= i < |plies|
        ensures plies[k].board != plies[i].board
      {
        assert i != k;
      }
    }

    lemma OutOfFrameC(k: nat)
      requires |plies| == MaxPly + 1 && Separated(plies, scratch) && k < MaxPly
      ensures plies[k].board.occupant !in Frame(k + 1)
    {
      forall i | k + 1 <= i < |plies|
        ensures plies[k].board.occupant != plies[i].board.occupant
      {
        assert i != k;
      }
    }

    lemma OutOfFrameD(k: nat)
      requires |plies| == MaxPly + 1 && Separated(plies, scratch) && k < MaxPly
      ensures plies[k].principalVariation !in Frame(k + 1)
    {
      forall i | k + 1 <= i < |plies|
        ensures plies[k].principalVariation != plies[i].principalVariation && plies[k].principalVariation != plies[i].killer
      {
        assert i != k;
      }
    }

    lemma OutOfFrameE(k: nat)
      requires |plies| == MaxPly + 1 && Separated(plies, scratch) && k < MaxPly
      ensures plies[k].killer !in Frame(k + 1)
    {
      forall i | k + 1 <= i < |plies|
        ensures plies[k].killer != plies[i].killer && plies[k].killer != plies[i].principalVariation
      {
        assert i != k;
      }
    }

    /**
     * The brain of `kind` with a table of `memoryCapacityMB` megabytes at
     * `entrySize` bytes an entry, `MaxPly + 1` new ply records, and a
     * new scratch board.
     */
    constructor (kind: BrainKind, memoryCapacityMB: Int32, entrySize: Int32, keys: ZobristKeys, nodeBudget: int)
      requires entrySize > 0 && ValidKeys(keys)
      ensures Valid() && scratch.Valid() && table.Valid()
      ensures this.kind == kind && this.keys == keys && this.nodeBudget == nodeBudget
      ensures table.globalTable.Length == Max(2, TruncatedDivision(Wrap32(memoryCapacityMB as int * 1048576), entrySize)) / 2
      ensures scratch.State() == Setup.NewPosition()
      ensures forall i :: 0 <= i < |plies| ==> plies[i].board.State() == Setup.NewPosition() && plies[i].principalVariationLength == 0
      ensures nodesEvaluated == 0 && fresh(published) && published.principalVariation == []
    {
      this.kind := kind;
      this.keys := keys;
      this.nodeBudget := nodeBudget;
      var s := new Board();
      var t := new TranspositionTable(Wrap32(memoryCapacityMB as int * 1048576), entrySize);
      var ps, objects := NewPlies(s);
      scratch := s;
      table := t;
      plies := ps;
      plyObjects := objects;
      ourSide := White;
      published := new Analysis();
      nodesEvaluated := 0;
    }

    /**
     * Ply `ply`'s line becomes `move` followed by the line of ply `ply + 1`,
     * with the child's length.
     */
    method UpdatePrincipalVariation(move: Move, ply: int)
      requires Valid() && scratch.Valid() && table.Valid() && 0 <= ply < MaxPly
      modifies plies[ply], plies[ply].principalVariation
      ensures Valid() && scratch.Valid() && table.Valid()
      ensures plies[ply].principalVariation[..] ==
        PrincipalVariations.Spliced(old(plies[ply].principalVariation[..]), plies[ply + 1].principalVariation[..],
                                    ply, move, plies[ply + 1].principalVariationLength)
      ensures plies[ply].principalVariationLength == plies[ply + 1].principalVariationLength
      ensures scratch.State() == old(scratch.State()) && plies[ply].board.State() == old(plies[ply].board.State())
    {
      var info, next := plies[ply], plies[ply + 1];
      assert info != next && info.principalVariation != next.principalVariation;
      SpliceLine(info.principalVariation, next.principalVariation, ply, move, next.principalVariationLength);
      info.principalVariationLength := next.principalVariationLength;
    }

    /** Records `k` as ply `ply`'s newest killer, as `Killers.KillersAfter` says. */
    method SetKiller(k: Move, ply: int)
      requires Valid() && scratch.Valid() && table.Valid() && 0 <= ply <= MaxPly
      modifies plies[ply].killer
      ensures Valid() && scratch.Valid() && table.Valid()
      ensures plies[ply].killer[..] == Killers.KillersAfter(old(plies[ply].killer[..]), k)
      ensures scratch.State() == old(scratch.State()) && plies[ply].board.State() == old(plies[ply].board.State())
      ensures plies[ply].principalVariationLength == old(plies[ply].principalVariationLength)
    {
      var killer := plies[ply].killer;
      ghost var ks := killer[..];
      var holeIndex := killer.Length - 1;
      var i := 0;
      while i < killer.Length
        invariant 0 <= i <= killer.Length && killer[..] == ks
        invariant k !in ks[..i] && holeIndex == killer.Length - 1
      {
        if killer[i] == k {
          holeIndex := i;
          break;
        }
        i := i + 1;
      }
      assert holeIndex == Killers.HoleIndex(ks, k) by {
        HoleIsFirst(ks, k, holeIndex);
      }
      i := holeIndex;
      while i >= 1
        invariant 0 <= i <= holeIndex
        invariant forall j :: 0 <= j <= i ==> killer[j] == ks[j]
        invariant forall j :: i < j <= holeIndex ==> killer[j] == ks[j - 1]
        invariant forall j :: holeIndex < j < killer.Length ==> killer[j] == ks[j]
      {
        killer[i] := killer[i - 1];
        i := i - 1;
      }
      killer[0] := k;
      Killers.KillerShift(ks, k);
    }

    /** The search's `UndoMove`: the scratch board becomes a copy of ply `ply`'s board. */
    method UndoMove(ply: int)
      requires Valid() && scratch.Valid() && table.Valid() && 0 <= ply <= MaxPly
      modifies scratch, scratch.occupant
      ensures Valid() && scratch.Valid() && table.Valid()
      ensures scratch.State() == UpdateGameStageSpec(plies[ply].board.State())
    {
      scratch.CopyFrom(plies[ply].board);
    }

    /** The frame of the deeper plies lies within the frame of this one. */
    lemma FrameShrinks(ply: nat)
      ensures Frame(ply + 1) <= Frame(ply)
    {
    }

    /**
     * The base `GenerateMoves`: the check escapes when the side to move is
     * in check, mated when there are none; all moves otherwise.
     */
    method GenerateMovesBase(side: Side) returns (result: MoveGenerationResult, moves: seq<Move>)
      requires Valid() && scratch.Valid() && table.Valid()
      ensures moves == Generated(scratch.State(), side)
      ensures result == Mated <==> KingAttackCount(scratch.State(), side) > 0 && moves == []
    {
      ghost var p := scratch.State();
      var kingAttackCount := scratch.KingAttackCount(side);
      if kingAttackCount > 0 {
        moves := Generators.GenerateCheckEscapes(scratch, kingAttackCount);
        assert Generated(p, side) == moves;
        result := if |moves| == 0 then Mated else NotMated;
      } else {
        moves := Generators.GenerateAll(scratch);
        assert Generated(p, side) == moves;
        result := NotMated;
      }
    }

    /**
     * The alpha-beta brain's `GenerateMoves` at ply `ply`: the base list
     * with each killer, the last slot first, and then the table's move
     * swapped to the front when the list holds it (`MoveOrdering.Ordered`).
     */
    method GenerateMoves(ply: nat, side: Side) returns (result: MoveGenerationResult, moves: seq<Move>)
      requires Valid() && scratch.Valid() && table.Valid() && ply <= MaxPly
      modifies table.globalTable
      ensures Valid() && scratch.Valid() && table.Valid()
      ensures var p := scratch.State();
        result == Mated <==> KingAttackCount(p, side) > 0 && Generated(p, side) == []
      ensures result == Mated ==> moves == []
      ensures result == NotMated ==>
        var key := TableKey(scratch.hashKey, side);
        var tableMove := BestMove(old(table.globalTable[Slot(key, table.globalTable.Length)]),
                                  table.localTable[Slot(key, table.localTable.Length)], key);
        moves == MoveOrdering.Ordered(Generated(scratch.State(), side), plies[ply].killer[..], tableMove)
    {
      var generated;
      result, generated := GenerateMovesBase(side);
      if result == Mated {
        return result, [];
      }
      moves := OrderMoves(generated, ply, side);
    }

    /** The ordering half of the alpha-beta brain's `GenerateMoves`: the killers, then the table's move. */
    method OrderMoves(generated: seq<Move>, ply: nat, side: Side) returns (moves: seq<Move>)
      requires Valid() && scratch.Valid() && table.Valid() && ply <= MaxPly
      modifies table.globalTable
      ensures Valid() && scratch.Valid() && table.Valid()
      ensures scratch.State() == old(scratch.State())
      ensures
        var key := TableKey(scratch.hashKey, side);
        var tableMove := BestMove(old(table.globalTable[Slot(key, table.globalTable.Length)]),
                                  table.localTable[Slot(key, table.localTable.Length)], key);
        moves == MoveOrdering.Ordered(generated, plies[ply].killer[..], tableMove)
    {
      moves := SwapInKillers(generated, plies[ply].killer);
      var tableMove := table.GetBestMove(scratch, side);
      moves := MoveOrdering.SwappedIn(moves, tableMove);
    }

    /** `GenerateQuiescenceMoves`: the quiescence captures (queen promotions only); never mated. */
    method GenerateQuiescenceMoves(side: Side) returns (result: MoveGenerationResult, moves: seq<Move>)
      requires Valid() && scratch.Valid() && table.Valid()
      ensures result == NotMated && moves == CaptureMoves(scratch.State(), false)
    {
      moves := Generators.GenerateCaptures(scratch, false);
      return NotMated, moves;
    }

    /** `SkipNullMove`: no null move when the ply forbids one or the side to move is in check. */
    method SkipNullMove(ply: nat, side: Side) returns (skip: bool)
      requires Valid() && scratch.Valid() && table.Valid() && ply <= MaxPly
      ensures skip == (plies[ply].skipNullMove || InCheck(scratch.State(), side))
    {
      if plies[ply].skipNullMove {
        return true;
      }
      skip := scratch.InCheck(side);
    }

    /** The bookkeeping on entering a node: one more node evaluated, and the ply's line emptied. */
    method EnterNode(ply: nat)
      requires Valid() && scratch.Valid() && table.Valid() && ply <= MaxPly
      modifies this, plies[ply]
      ensures Valid() && scratch.Valid() && table.Valid()
      ensures nodesEvaluated == old(nodesEvaluated) + 1 && plies[ply].principalVariationLength == ply
      ensures scratch.State() == old(scratch.State())
    {
      nodesEvaluated := nodesEvaluated + 1;
      plies[ply].principalVariationLength := ply;
    }

    /** The ply's record keeps a copy of the scratch board to take moves back to. */
    method SaveBoard(ply: nat)
      requires Valid() && scratch.Valid() && table.Valid() && ply <= MaxPly
      modifies plies[ply].board, plies[ply].board.occupant
      ensures Valid() && scratch.Valid() && table.Valid()
      ensures plies[ply].board.State() == UpdateGameStageSpec(scratch.State())
      ensures scratch.State() == old(scratch.State())
      ensures plies[ply].principalVariationLength == old(plies[ply].principalVariationLength)
    {
      plies[ply].board.CopyFrom(scratch);
    }

    /** The table's `AddPosition` for the scratch board, as the search calls it. */
    method StorePosition(move: Move, score: Int32, remainingDepth: Int32, ply: nat, side: Side, entryType: EntryType)
      requires Valid() && scratch.Valid() && table.Valid() && ply <= MaxPly && score != Int32Min
      modifies table.globalTable, table.localTable
      ensures Valid() && scratch.Valid() && table.Valid()
      ensures scratch.State() == old(scratch.State()) && plies[ply].board.State() == old(plies[ply].board.State())
    {
      table.AddPosition(scratch, move, score, remainingDepth, ply, side, entryType);
    }

    /**
     * Half of the null move: the side to move on the scratch board flips,
     * and ply `ply + 1` is forbidden (or again allowed) a null move.
     */
    method PassTurn(ply: nat, forbidNext: bool)
      requires Valid() && scratch.Valid() && table.Valid() && ply < MaxPly
      modifies scratch, plies[ply + 1]
      ensures Valid() && scratch.Valid() && table.Valid()
      ensures scratch.State() == old(scratch.State()).(side := OtherSide(old(scratch.State()).side))
      ensures plies[ply + 1].skipNullMove == forbidNext
    {
      scratch.side := OtherSide(scratch.side);
      plies[ply + 1].skipNullMove := forbidNext;
    }

    /**
     * The scratch board's `MakeMove` as the move loops see it: whether the
     * move leaves the mover's king in check. (The new board itself is what
     * `Board.MakeMove` states; the loops only take the move back.)
     */
    method PlayMove(move: Move) returns (legal: bool)
      requires Valid() && scratch.Valid() && table.Valid() && InBounds(move)
      modifies scratch, scratch.occupant
      ensures Valid() && scratch.Valid() && table.Valid()
      ensures legal == !MakeMoveResultOf(scratch.State()).UndoMove?
    {
      var made := scratch.MakeMove(move, keys);
      legal := !made.UndoMove?;
    }

    /**
     * `GenerateMoves` as `AlphaBetaSearch` sees it: whether the side is
     * mated, and a move list; the scratch board is left alone.
     */
    method NodeMoves(ply: nat, side: Side) returns (mated: bool, moves: seq<Move>)
      requires Valid() && scratch.Valid() && table.Valid() && ply <= MaxPly
      modifies table.globalTable
      ensures Valid() && scratch.Valid() && table.Valid()
      ensures scratch.State() == old(scratch.State())
    {
      var generation;
      generation, moves := GenerateMoves(ply, side);
      mated := generation == Mated;
    }

    /** `GenerateQuiescenceMoves` as `QuiescenceSearch` sees it: a move list. */
    method NodeCaptures(side: Side) returns (moves: seq<Move>)
      requires Valid() && scratch.Valid() && table.Valid()
      ensures Valid() && scratch.Valid() && table.Valid()
    {
      var generation;
      generation, moves := GenerateQuiescenceMoves(side);
    }

    /**
     * `AlphaBetaSearch` of the window `alpha0`, `beta0` with `remainingDepth`
     * plies to go at ply `ply`: every node counts and resets the ply's
     * line; the deepest ply returns beta; the table may cut off
     * (`ConsultTable`); the horizon hands over to the quiescence search;
     * otherwise the node is expanded (`ExpandNode`).
     */
    method AlphaBetaSearch(alpha0: Int32, beta0: Int32, remainingDepth: Int32, ply: nat, side: Side)
      returns (r: Int32, ghost exit: Exit)
      requires Valid() && scratch.Valid() && table.Valid() && ply <= MaxPly && Window(alpha0, beta0)
      modifies Frame(ply)
      ensures Valid() && scratch.Valid() && table.Valid() && nodesEvaluated > old(nodesEvaluated)
      ensures InRange(r) && Outcome(exit, r, alpha0, beta0, remainingDepth, ply)
      ensures exit.PlyLimit? <==> ply >= MaxPly
      ensures ply < MaxPly ==>
        (exit.TableCutoff? <==> old(TableAnswer(remainingDepth, ply, side, alpha0, beta0)).kind != Junk)
      ensures exit.TableCutoff? ==> ply < MaxPly
      ensures exit.TableCutoff? && ply < MaxPly ==>
        var answer := old(TableAnswer(remainingDepth, ply, side, alpha0, beta0));
        exit.entryType == answer.kind && r == (if answer.kind == LowerBound then answer.beta else answer.alpha)
      ensures !exit.StandPat? && !exit.Best?
      ensures exit.Pruned? ==> kind == NullMove
      ensures exit.Stopped? ==> !Thinking()
      ensures exit.PlyLimit? || exit.FailLow? ==> plies[ply].principalVariationLength == ply
      ensures Restored(scratch.State(), old(scratch.State()))
      decreases MaxPly - ply, 9
    {
      InFrame(ply, ply);
      EnterNode(ply);
      if ply >= MaxPly {
        return beta0, PlyLimit;
      }
      r, exit := SearchBelowLimit(alpha0, beta0, remainingDepth, ply, side);
    }

    /** `AlphaBetaSearch` once the node is counted and below the deepest ply. */
    method SearchBelowLimit(alpha0: Int32, beta0: Int32, remainingDepth: Int32, ply: nat, side: Side)
      returns (r: Int32, ghost exit: Exit)
      requires Valid() && scratch.Valid() && table.Valid() && ply < MaxPly && Window(alpha0, beta0)
      modifies Frame(ply)
      ensures Valid() && scratch.Valid() && table.Valid() && nodesEvaluated >= old(nodesEvaluated)
      ensures InRange(r) && Outcome(exit, r, alpha0, beta0, remainingDepth, ply)
      ensures exit.TableCutoff? <==> old(TableAnswer(remainingDepth, ply, side, alpha0, beta0)).kind != Junk
      ensures exit.TableCutoff? ==>
        var answer := old(TableAnswer(remainingDepth, ply, side, alpha0, beta0));
        exit.entryType == answer.kind && r == (if answer.kind == LowerBound then answer.beta else answer.alpha)
      ensures !exit.PlyLimit? && !exit.StandPat? && !exit.Best?
      ensures exit.Pruned? ==> kind == NullMove
      ensures exit.Stopped? ==> !Thinking()
      ensures exit.FailLow? ==> plies[ply].principalVariationLength == old(plies[ply].principalVariationLength)
      ensures Restored(scratch.State(), old(scratch.State()))
      decreases MaxPly - ply, 8
    {
      InFrame(ply, ply);
      var cut;
      cut, r, exit := ConsultTable(alpha0, beta0, remainingDepth, ply, side);
      if cut {
        return;
      }
      if remainingDepth <= 0 {
        ghost var quiescenceExit: Exit;
        r, quiescenceExit := QuiescenceSearch(alpha0, beta0, ply, side);
        return r, Horizon;
      }
      r, exit := ExpandNode(alpha0, beta0, remainingDepth, ply, side);
    }

    /**
     * The table lookup of `AlphaBetaSearch`: a lower bound returns the
     * (raised) beta, an upper bound the (lowered) alpha, an exact entry
     * its score after putting the table's move at the head of the line;
     * anything else leaves the window as it was and the search goes on.
     */
    method ConsultTable(alpha0: Int32, beta0: Int32, remainingDepth: Int32, ply: nat, side: Side)
      returns (cut: bool, r: Int32, ghost exit: Exit)
      requires Valid() && scratch.Valid() && table.Valid() && ply < MaxPly && Window(alpha0, beta0)
      modifies table.globalTable, table.localTable, plies[ply], plies[ply].principalVariation
      ensures Valid() && scratch.Valid() && table.Valid()
      ensures scratch.State() == old(scratch.State())
      ensures cut ==> InRange(r) && exit.TableCutoff? && Outcome(exit, r, alpha0, beta0, remainingDepth, ply)
      ensures cut <==> old(TableAnswer(remainingDepth, ply, side, alpha0, beta0)).kind != Junk
      ensures cut ==> var answer := old(TableAnswer(remainingDepth, ply, side, alpha0, beta0));
        exit == TableCutoff(answer.kind) && r == (if answer.kind == LowerBound then answer.beta else answer.alpha)
      ensures if old(TableAnswer(remainingDepth, ply, side, alpha0, beta0)).kind == Exact && old(TableMove(side)) != Empty
        then plies[ply].principalVariation[..] ==
               PrincipalVariations.Spliced(old(plies[ply].principalVariation[..]), plies[ply + 1].principalVariation[..],
                                           ply, old(TableMove(side)), plies[ply + 1].principalVariationLength) &&
             plies[ply].principalVariationLength == plies[ply + 1].principalVariationLength
        else plies[ply].principalVariation[..] == old(plies[ply].principalVariation[..]) &&
             plies[ply].principalVariationLength == old(plies[ply].principalVariationLength)
    {
      ghost var key := TableKey(scratch.hashKey, side);
      ghost var g, l := table.globalTable[Slot(key, table.globalTable.Length)], table.localTable[Slot(key, table.localTable.Length)];
      ghost var answer, move0 := TableAnswer(remainingDepth, ply, side, alpha0, beta0), TableMove(side);
      var result, alpha, beta := table.LookupPosition(scratch, remainingDepth, ply, side, alpha0, beta0);
      assert ProbeResult(result, alpha, beta) == answer;
      LookupWindow(g, l, key, remainingDepth, ply, alpha0, beta0);
      if result == LowerBound {
        return true, beta, TableCutoff(LowerBound);
      } else if result == Exact {
        ghost var l' := table.localTable[Slot(key, table.localTable.Length)];
        assert l' == l || l' == Touched(l, key);
        var tableMove := table.GetBestMove(scratch, side);
        BestMoveIgnoresFreshness(g, l, l', key);
        assert tableMove == move0;
        if tableMove != Empty {
          UpdatePrincipalVariation(tableMove, ply);
        }
        return true, alpha, TableCutoff(Exact);
      } else if result == UpperBound {
        return true, alpha, TableCutoff(UpperBound);
      }
      return false, 0, Horizon;
    }

    /**
     * The expansion of an `AlphaBetaSearch` node with depth left: the null
     * move may prune; a mated side scores the mate from this ply, stored
     * as exact; otherwise the board is saved in the ply's record and the
     * moves are searched in order (`SearchMoves`).
     */
    method ExpandNode(alpha: Int32, beta: Int32, remainingDepth: Int32, ply: nat, side: Side)
      returns (r: Int32, ghost exit: Exit)
      requires Valid() && scratch.Valid() && table.Valid() && ply < MaxPly && Window(alpha, beta) && remainingDepth > 0
      modifies Frame(ply)
      ensures Valid() && scratch.Valid() && table.Valid() && nodesEvaluated >= old(nodesEvaluated)
      ensures InRange(r) && Outcome(exit, r, alpha, beta, remainingDepth, ply)
      ensures exit.Pruned? || exit.Checkmated? || exit.Stopped? || exit.FailHigh? || exit.FailLow? || exit.Improved?
      ensures exit.Pruned? ==> kind == NullMove
      ensures exit.Stopped? ==> !Thinking()
      ensures exit.FailLow? ==> plies[ply].principalVariationLength == old(plies[ply].principalVariationLength)
      ensures Restored(scratch.State(), old(scratch.State()))
      decreases MaxPly - ply, 7
    {
      FrameShrinks(ply);
      OutOfFrame(ply);
      ghost var entry := scratch.State();
      var pruned, pruneScore := CanPrune(alpha, beta, remainingDepth, ply, side);
      if pruned {
        return pruneScore, Pruned;
      }
      ghost var pruneChecked := scratch.State();
      r, exit := SearchNode(alpha, beta, remainingDepth, ply, side);
      RestoredTransitive(scratch.State(), pruneChecked, entry);
    }

    /**
     * The rest of an expansion once the null move did not prune: a mated
     * side scores the mate from this ply, stored as exact; otherwise the
     * board is saved in the ply's record and the ordered moves are
     * searched (`SearchMoves`).
     */
    method SearchNode(alpha: Int32, beta: Int32, remainingDepth: Int32, ply: nat, side: Side)
      returns (r: Int32, ghost exit: Exit)
      requires Valid() && scratch.Valid() && table.Valid() && ply < MaxPly && Window(alpha, beta) && remainingDepth > 0
      modifies Frame(ply)
      ensures Valid() && scratch.Valid() && table.Valid() && nodesEvaluated >= old(nodesEvaluated)
      ensures InRange(r) && Outcome(exit, r, alpha, beta, remainingDepth, ply)
      ensures exit.Checkmated? || exit.Stopped? || exit.FailHigh? || exit.FailLow? || exit.Improved?
      ensures exit.Stopped? ==> !Thinking()
      ensures exit.FailLow? ==> plies[ply].principalVariationLength == old(plies[ply].principalVariationLength)
      ensures Restored(scratch.State(), old(scratch.State()))
      decreases MaxPly - ply, 6
    {
      InFrame(ply, ply);
      var mated, moves := NodeMoves(ply, side);
      if mated {
        var mateScore := -MateScoreFromPly(ply);
        StorePosition(Empty, mateScore, remainingDepth, ply, side, Exact);
        return mateScore, Checkmated;
      }
      SaveBoard(ply);
      r, exit := SearchMoves(alpha, beta, remainingDepth, ply, side, moves);
    }

    /**
     * The move loop of `AlphaBetaSearch` over `moves`: out of time it
     * returns alpha; a move reaching beta returns at once; one raising
     * alpha becomes the new alpha (`SearchOneMove`). At the end a stored
     * upper bound if none did, else the best move as killer and an exact
     * score.
     */
    method SearchMoves(alpha0: Int32, beta: Int32, remainingDepth: Int32, ply: nat, side: Side, moves: seq<Move>)
      returns (r: Int32, ghost exit: Exit)
      requires Valid() && scratch.Valid() && table.Valid() && ply < MaxPly && Window(alpha0, beta) && remainingDepth > 0
      requires plies[ply].board.State() == UpdateGameStageSpec(scratch.State())
      modifies Frame(ply)
      ensures Valid() && scratch.Valid() && table.Valid() && nodesEvaluated >= old(nodesEvaluated)
      ensures InRange(r) && (exit.Stopped? || exit.FailHigh? || exit.FailLow? || exit.Improved?)
      ensures Outcome(exit, r, alpha0, beta, remainingDepth, ply)
      ensures exit.Stopped? ==> !Thinking()
      ensures exit.FailLow? ==> plies[ply].principalVariationLength == old(plies[ply].principalVariationLength)
      ensures Restored(scratch.State(), old(scratch.State()))
      decreases MaxPly - ply, 5
    {
      ghost var entry := scratch.State();
      var alpha := alpha0;
      var i := 0;
      while i < |moves|
        invariant 0 <= i <= |moves|
        invariant Valid() && scratch.Valid() && table.Valid() && alpha0 <= alpha < beta && nodesEvaluated >= old(nodesEvaluated)
        invariant plies[ply].board.State() == UpdateGameStageSpec(entry)
        invariant Restored(scratch.State(), entry)
        invariant alpha == alpha0 ==> plies[ply].principalVariationLength == old(plies[ply].principalVariationLength)
      {
        if !Thinking() {
          return alpha, Stopped;
        }
        var failHigh, score := SearchOneMove(moves[i], alpha, beta, remainingDepth, ply, side, entry);
        if failHigh {
          return score, FailHigh;
        }
        alpha := score;
        i := i + 1;
      }
      InFrame(ply, ply);
      exit := CloseNode(alpha0, alpha, remainingDepth, ply, side);
      r := alpha;
    }

    /**
     * The end of `AlphaBetaSearch`'s move loop: with alpha never raised,
     * an upper bound is stored; otherwise the first move of the line
     * becomes a killer and the score is stored as exact.
     */
    method CloseNode(alpha0: Int32, alpha: Int32, remainingDepth: Int32, ply: nat, side: Side) returns (ghost exit: Exit)
      requires Valid() && scratch.Valid() && table.Valid() && ply < MaxPly && InRange(alpha0) && InRange(alpha) && alpha0 <= alpha
      modifies plies[ply], plies[ply].killer, table.globalTable, table.localTable
      ensures Valid() && scratch.Valid() && table.Valid()
      ensures scratch.State() == old(scratch.State()) && plies[ply].board.State() == old(plies[ply].board.State())
      ensures plies[ply].principalVariationLength == old(plies[ply].principalVariationLength)
      ensures exit == if alpha == alpha0 then FailLow else Improved
    {
      if alpha == alpha0 {
        StorePosition(Empty, alpha, remainingDepth, ply, side, UpperBound);
        return FailLow;
      }
      var best := plies[ply].principalVariation[ply];
      SetKiller(best, ply);
      StorePosition(best, alpha, remainingDepth, ply, side, Exact);
      return Improved;
    }

    /**
     * One move of `AlphaBetaSearch`'s loop: a move reaching beta becomes a
     * killer and a stored lower bound and fails high with its score; one
     * above alpha extends the line and is the new alpha; otherwise alpha
     * stays.
     */
    method SearchOneMove(move: Move, alpha: Int32, beta: Int32, remainingDepth: Int32, ply: nat, side: Side, ghost entry: Position)
      returns (failHigh: bool, r: Int32)
      requires Valid() && scratch.Valid() && table.Valid() && ply < MaxPly && Window(alpha, beta) && remainingDepth > 0
      requires WellFormed(entry) && plies[ply].board.State() == UpdateGameStageSpec(entry) && Restored(scratch.State(), entry)
      modifies Frame(ply)
      ensures Valid() && scratch.Valid() && table.Valid() && nodesEvaluated >= old(nodesEvaluated)
      ensures plies[ply].board.State() == UpdateGameStageSpec(entry) && Restored(scratch.State(), entry)
      ensures failHigh ==> beta <= r && InRange(r)
      ensures !failHigh ==> alpha <= r < beta
      ensures r == alpha ==> plies[ply].principalVariationLength == old(plies[ply].principalVariationLength)
      decreases MaxPly - ply, 4
    {
      FrameShrinks(ply);
      OutOfFrame(ply);
      InFrame(ply, ply);
      StageIdempotent(entry);
      var searched, score := TryMove(move, alpha, beta, remainingDepth, ply, side, false);
      if !searched {
        return false, alpha;
      }
      failHigh, r := ScoreMove(move, score, alpha, beta, remainingDepth, ply, side);
    }

    /**
     * What `AlphaBetaSearch`'s loop does with a searched move's score: at
     * beta or above the move becomes a killer and a stored lower bound;
     * above alpha it extends the line and is the new alpha.
     */
    method ScoreMove(move: Move, score: Int32, alpha: Int32, beta: Int32, remainingDepth: Int32, ply: nat, side: Side)
      returns (failHigh: bool, r: Int32)
      requires Valid() && scratch.Valid() && table.Valid() && ply < MaxPly && alpha < beta && InRange(score)
      modifies plies[ply], plies[ply].principalVariation, plies[ply].killer, table.globalTable, table.localTable
      ensures Valid() && scratch.Valid() && table.Valid()
      ensures scratch.State() == old(scratch.State()) && plies[ply].board.State() == old(plies[ply].board.State())
      ensures failHigh <==> score >= beta
      ensures r == if failHigh then score else Max(alpha, score)
      ensures r == alpha ==> plies[ply].principalVariationLength == old(plies[ply].principalVariationLength)
    {
      if score >= beta {
        RecordCutoff(move, score, remainingDepth, ply, side);
        return true, score;
      }
      if score > alpha {
        UpdatePrincipalVariation(move, ply);
        return false, score;
      }
      return false, alpha;
    }

    /**
     * One move of a move loop: a move the board cannot hold is skipped; a
     * move that leaves the king in check is taken back and skipped;
     * otherwise the child search (quiescence or full) is run with the
     * window negated and swapped, the move is taken back, and the negated
     * child score is the move's score.
     */
    method TryMove(move: Move, alpha: Int32, beta: Int32, remainingDepth: Int32, ply: nat, side: Side, quiescence: bool)
      returns (searched: bool, score: Int32)
      requires Valid() && scratch.Valid() && table.Valid() && ply < MaxPly && Window(alpha, beta)
      requires !quiescence ==> remainingDepth > 0
      modifies Frame(ply + 1)
      ensures Valid() && scratch.Valid() && table.Valid() && nodesEvaluated >= old(nodesEvaluated)
      ensures searched ==> InRange(score)
      ensures scratch.State() == old(scratch.State()) || scratch.State() == UpdateGameStageSpec(plies[ply].board.State())
      decreases MaxPly - ply, 2
    {
      if !InBounds(move) {
        return false, 0;
      }
      var legal := PlayMove(move);
      if !legal {
        UndoMove(ply);
        return false, 0;
      }
      score := SearchChild(alpha, beta, remainingDepth, ply, side, quiescence);
      return true, score;
    }

    /**
     * The child search of a move just made: quiescence or full, with the
     * window negated and swapped, for the other side one ply deeper; then
     * the move is taken back and the child's score negated.
     */
    method SearchChild(alpha: Int32, beta: Int32, remainingDepth: Int32, ply: nat, side: Side, quiescence: bool)
      returns (score: Int32)
      requires Valid() && scratch.Valid() && table.Valid() && ply < MaxPly && Window(alpha, beta)
      requires !quiescence ==> remainingDepth > 0
      modifies Frame(ply + 1)
      ensures Valid() && scratch.Valid() && table.Valid() && nodesEvaluated > old(nodesEvaluated)
      ensures InRange(score)
      ensures scratch.State() == UpdateGameStageSpec(plies[ply].board.State())
      decreases MaxPly - ply, 1
    {
      var child := ChildScore(-beta, -alpha, remainingDepth - 1, ply, OtherSide(side), quiescence);
      UndoMove(ply);
      return -child;
    }

    /** A search one ply deeper, quiescence or full, with the window and depth given. */
    method ChildScore(alpha: Int32, beta: Int32, depth: int, ply: nat, side: Side, quiescence: bool)
      returns (child: Int32)
      requires Valid() && scratch.Valid() && table.Valid() && ply < MaxPly && Window(alpha, beta)
      requires !quiescence ==> 0 <= depth <= Int32Max
      modifies Frame(ply + 1)
      ensures Valid() && scratch.Valid() && table.Valid() && nodesEvaluated > old(nodesEvaluated)
      ensures InRange(child)
      ensures Restored(scratch.State(), old(scratch.State()))
      decreases MaxPly - ply, 0
    {
      if quiescence {
        child := QuiescenceChild(alpha, beta, ply, side);
      } else {
        child := FullChild(alpha, beta, depth as Int32, ply, side);
      }
    }

    /** `ChildScore` for a quiescence search. */
    method QuiescenceChild(alpha: Int32, beta: Int32, ply: nat, side: Side) returns (child: Int32)
      requires Valid() && scratch.Valid() && table.Valid() && ply < MaxPly && Window(alpha, beta)
      modifies Frame(ply + 1)
      ensures Valid() && scratch.Valid() && table.Valid() && nodesEvaluated > old(nodesEvaluated)
      ensures InRange(child)
      ensures Restored(scratch.State(), old(scratch.State()))
      decreases MaxPly - ply, -1
    {
      ghost var childExit: Exit;
      child, childExit := QuiescenceSearch(alpha, beta, ply + 1, side);
    }

    /** `ChildScore` for a full search. */
    method FullChild(alpha: Int32, beta: Int32, depth: Int32, ply: nat, side: Side) returns (child: Int32)
      requires Valid() && scratch.Valid() && table.Valid() && ply < MaxPly && Window(alpha, beta)
      modifies Frame(ply + 1)
      ensures Valid() && scratch.Valid() && table.Valid() && nodesEvaluated > old(nodesEvaluated)
      ensures InRange(child)
      ensures Restored(scratch.State(), old(scratch.State()))
      decreases MaxPly - ply, -1
    {
      ghost var childExit: Exit;
      child, childExit := AlphaBetaSearch(alpha, beta, depth, ply + 1, side);
    }

    /** A move that reached beta: it becomes the ply's newest killer and the table stores a lower bound. */
    method RecordCutoff(move: Move, score: Int32, remainingDepth: Int32, ply: nat, side: Side)
      requires Valid() && scratch.Valid() && table.Valid() && ply <= MaxPly && score != Int32Min
      modifies plies[ply].killer, table.globalTable, table.localTable
      ensures Valid() && scratch.Valid() && table.Valid()
      ensures plies[ply].killer[..] == Killers.KillersAfter(old(plies[ply].killer[..]), move)
      ensures scratch.State() == old(scratch.State()) && plies[ply].board.State() == old(plies[ply].board.State())
    {
      SetKiller(move, ply);
      StorePosition(move, score, remainingDepth, ply, side, LowerBound);
    }

    /**
     * `QuiescenceSearch`: every node counts and resets the ply's line; the
     * deepest ply returns beta; a static score at beta stands pat, one
     * above alpha raises it; then the board is saved and the captures are
     * searched (`QuiescenceMoves`).
     */
    method QuiescenceSearch(alpha0: Int32, beta0: Int32, ply: nat, side: Side) returns (r: Int32, ghost exit: Exit)
      requires Valid() && scratch.Valid() && table.Valid() && ply <= MaxPly && Window(alpha0, beta0)
      modifies Frame(ply)
      ensures Valid() && scratch.Valid() && table.Valid() && nodesEvaluated > old(nodesEvaluated)
      ensures InRange(r) && Outcome(exit, r, alpha0, beta0, 0, ply) && r >= alpha0
      ensures exit.PlyLimit? || exit.StandPat? || exit.FailHigh? || exit.Best?
      ensures exit.PlyLimit? <==> ply >= MaxPly
      ensures exit.StandPat? ==> ply < MaxPly
      ensures ply < MaxPly ==> (exit.StandPat? <==> MaterialEvaluation.Evaluate(old(scratch.State()), side) >= beta0)
      ensures exit.Best? ==> r >= MaterialEvaluation.Evaluate(old(scratch.State()), side)
      ensures Restored(scratch.State(), old(scratch.State()))
      decreases MaxPly - ply, 6
    {
      InFrame(ply, ply);
      EnterNode(ply);
      if ply >= MaxPly {
        return beta0, PlyLimit;
      }
      var staticScore := MaterialEvaluation.Evaluate(scratch.State(), side);
      if staticScore >= beta0 {
        return beta0, StandPat;
      }
      var alpha := alpha0;
      if staticScore > alpha {
        alpha := staticScore;
      }
      r, exit := QuiescenceCaptures(alpha, beta0, staticScore, ply, side);
    }

    /** The captures of `QuiescenceSearch`: the board is saved in the ply's record and the captures searched. */
    method QuiescenceCaptures(alpha: Int32, beta: Int32, staticScore: Int32, ply: nat, side: Side) returns (r: Int32, ghost exit: Exit)
      requires Valid() && scratch.Valid() && table.Valid() && ply < MaxPly && Window(alpha, beta)
      modifies Frame(ply)
      ensures Valid() && scratch.Valid() && table.Valid() && nodesEvaluated >= old(nodesEvaluated)
      ensures InRange(r) && (exit.FailHigh? || exit.Best?) && Outcome(exit, r, alpha, beta, 0, ply)
      ensures Restored(scratch.State(), old(scratch.State()))
      decreases MaxPly - ply, 5
    {
      InFrame(ply, ply);
      var moves := NodeCaptures(side);
      SaveBoard(ply);
      r, exit := QuiescenceMoves(alpha, beta, staticScore, ply, side, moves);
    }

    /**
     * The capture loop of `QuiescenceSearch`: a capture reaching beta
     * returns at once, the others leave alpha at the best so far
     * (`QuiescenceOneMove`).
     */
    method QuiescenceMoves(alpha0: Int32, beta: Int32, staticScore: Int32, ply: nat, side: Side, moves: seq<Move>)
      returns (r: Int32, ghost exit: Exit)
      requires Valid() && scratch.Valid() && table.Valid() && ply < MaxPly && Window(alpha0, beta)
      requires plies[ply].board.State() == UpdateGameStageSpec(scratch.State())
      modifies Frame(ply)
      ensures Valid() && scratch.Valid() && table.Valid() && nodesEvaluated >= old(nodesEvaluated)
      ensures InRange(r) && (exit.FailHigh? || exit.Best?) && Outcome(exit, r, alpha0, beta, 0, ply)
      ensures Restored(scratch.State(), old(scratch.State()))
      decreases MaxPly - ply, 4
    {
      ghost var entry := scratch.State();
      var alpha := alpha0;
      var i := 0;
      while i < |moves|
        invariant 0 <= i <= |moves|
        invariant Valid() && scratch.Valid() && table.Valid() && alpha0 <= alpha < beta && nodesEvaluated >= old(nodesEvaluated)
        invariant plies[ply].board.State() == UpdateGameStageSpec(entry)
        invariant Restored(scratch.State(), entry)
      {
        var failHigh, score := QuiescenceOneMove(moves[i], alpha, beta, staticScore, ply, side, entry);
        if failHigh {
          return score, FailHigh;
        }
        alpha := score;
        i := i + 1;
      }
      return alpha, Best;
    }

    /**
     * One capture of `QuiescenceSearch`'s loop: delta pruning skips a
     * capture that cannot reach alpha; a capture reaching beta fails high
     * with its score; one above alpha extends the line and is the new
     * alpha; otherwise alpha stays.
     */
    method QuiescenceOneMove(move: Move, alpha: Int32, beta: Int32, staticScore: Int32, ply: nat, side: Side, ghost entry: Position)
      returns (failHigh: bool, r: Int32)
      requires Valid() && scratch.Valid() && table.Valid() && ply < MaxPly && Window(alpha, beta)
      requires WellFormed(entry) && plies[ply].board.State() == UpdateGameStageSpec(entry) && Restored(scratch.State(), entry)
      modifies Frame(ply)
      ensures Valid() && scratch.Valid() && table.Valid() && nodesEvaluated >= old(nodesEvaluated)
      ensures plies[ply].board.State() == UpdateGameStageSpec(entry) && Restored(scratch.State(), entry)
      ensures failHigh ==> beta <= r && InRange(r)
      ensures !failHigh ==> alpha <= r < beta
      ensures InBounds(move) && DeltaPruned(move, staticScore, alpha) ==> !failHigh && r == alpha
      decreases MaxPly - ply, 3
    {
      if InBounds(move) && DeltaPruned(move, staticScore, alpha) {
        return false, alpha;
      }
      FrameShrinks(ply);
      OutOfFrame(ply);
      InFrame(ply, ply);
      StageIdempotent(entry);
      var searched, score := TryMove(move, alpha, beta, 0, ply, side, true);
      if !searched {
        return false, alpha;
      }
      failHigh, r := ScoreCapture(move, score, alpha, beta, ply);
    }

    /**
     * The scoring step of `QuiescenceOneMove`: a capture reaching beta fails
     * high with its score (no killer, no table entry); one above alpha
     * extends the line and is the new alpha; otherwise alpha stays.
     */
    method ScoreCapture(move: Move, score: Int32, alpha: Int32, beta: Int32, ply: nat)
      returns (failHigh: bool, r: Int32)
      requires Valid() && scratch.Valid() && table.Valid() && ply < MaxPly && alpha < beta && InRange(score)
      modifies plies[ply], plies[ply].principalVariation
      ensures Valid() && scratch.Valid() && table.Valid()
      ensures scratch.State() == old(scratch.State()) && plies[ply].board.State() == old(plies[ply].board.State())
      ensures failHigh <==> score >= beta
      ensures r == if failHigh then score else Max(alpha, score)
    {
      if score >= beta {
        return true, score;
      }
      if score > alpha {
        UpdatePrincipalVariation(move, ply);
        return false, score;
      }
      return false, alpha;
    }

    /**
     * `CanPrune`: never for the plain and MTD(f) brains. The null-move
     * brain, unless the ply forbids it or the side is in check, runs the
     * null-move search (`NullMoveSearch`); with time left, a score at
     * least beta is stored as a lower bound and prunes.
     */
    method CanPrune(alpha: Int32, beta: Int32, remainingDepth: Int32, ply: nat, side: Side) returns (prune: bool, score: Int32)
      requires Valid() && scratch.Valid() && table.Valid() && ply < MaxPly && Window(alpha, beta) && remainingDepth > 0
      modifies Frame(ply + 1)
      ensures Valid() && scratch.Valid() && table.Valid() && nodesEvaluated >= old(nodesEvaluated)
      ensures prune ==> kind == NullMove && score >= beta && InRange(score) && Thinking()
      ensures kind != NullMove ==> !prune && score == 0 && nodesEvaluated == old(nodesEvaluated)
      ensures Restored(scratch.State(), old(scratch.State()))
      decreases MaxPly - ply, 6
    {
      if kind != NullMove {
        return false, 0;
      }
      score := 0;
      var skip := SkipNullMove(ply, side);
      if skip {
        return false, score;
      }
      prune, score := NullMovePrune(beta, remainingDepth, ply, side);
    }

    /**
     * The null-move brain's pruning test once a null move is allowed: the
     * null-move search, and with time left a score at least beta is stored
     * as a lower bound and prunes.
     */
    method NullMovePrune(beta: Int32, remainingDepth: Int32, ply: nat, side: Side) returns (prune: bool, score: Int32)
      requires Valid() && scratch.Valid() && table.Valid() && ply < MaxPly && MinScore < beta
      modifies Frame(ply + 1)
      ensures Valid() && scratch.Valid() && table.Valid() && nodesEvaluated >= old(nodesEvaluated)
      ensures prune <==> Thinking() && score >= beta
      ensures InRange(score)
      ensures Restored(scratch.State(), old(scratch.State()))
      decreases MaxPly - ply, 5
    {
      score := NullMoveSearch(beta, remainingDepth, ply);
      if !Thinking() {
        return false, score;
      }
      if score >= beta {
        StorePosition(Empty, score, remainingDepth, ply, side, LowerBound);
        return true, score;
      }
      return false, score;
    }

    /**
     * The null move of `CanPrune`: the side to move passes (the board's
     * side flips), the next ply may not pass in turn, and a null-window
     * search at beta runs to the reduced depth (the quiescence search when
     * that is not positive); then both changes are undone and the negated
     * child score returned.
     */
    method NullMoveSearch(beta: Int32, remainingDepth: Int32, ply: nat) returns (score: Int32)
      requires Valid() && scratch.Valid() && table.Valid() && ply < MaxPly && MinScore < beta
      modifies Frame(ply + 1)
      ensures Valid() && scratch.Valid() && table.Valid() && nodesEvaluated > old(nodesEvaluated)
      ensures InRange(score) && !plies[ply + 1].skipNullMove
      ensures Restored(scratch.State(), old(scratch.State()))
      decreases MaxPly - ply, 4
    {
      ghost var before := scratch.State();
      PassTurn(ply, true);
      ghost var passed := scratch.State();
      var depth := NullMovePruning.NullMoveSearchDepth(remainingDepth as int);
      NullMovePruning.NullMoveReduces(remainingDepth as int);
      score := NullWindowChild(beta, depth, ply);
      PassTurn(ply, false);
      StageIgnoresSide(before, passed.side);
    }

    /**
     * The reduced search behind the null move, for the side now to move
     * one ply deeper, in the null window just below `-beta + 1`: the full
     * search with `depth` plies when that is positive, else the quiescence
     * search; its score negated.
     */
    method NullWindowChild(beta: Int32, depth: int, ply: nat) returns (score: Int32)
      requires Valid() && scratch.Valid() && table.Valid() && ply < MaxPly && MinScore < beta && depth <= Int32Max
      modifies Frame(ply + 1)
      ensures Valid() && scratch.Valid() && table.Valid() && nodesEvaluated > old(nodesEvaluated)
      ensures InRange(score)
      ensures Restored(scratch.State(), old(scratch.State()))
      decreases MaxPly - ply, 3
    {
      var child := ChildScore(-beta, 1 - beta, depth, ply, scratch.side, depth <= 0);
      score := -child;
    }

    /**
     * `Search` at the root for `depth` plies from the guess `scoreGuess`:
     * the plain and null-move brains run one full-window alpha-beta search
     * for our side; the MTD(f) brain runs `MtdfSearch`.
     */
    method Search(depth: Int32, scoreGuess: Int32) returns (r: Int32)
      requires Valid() && scratch.Valid() && table.Valid() && InRange(scoreGuess)
      modifies Frame(0)
      ensures Valid() && scratch.Valid() && table.Valid()
      ensures InRange(r) && (nodesEvaluated > old(nodesEvaluated) || r == MinScore)
      ensures kind != MTDf ==> nodesEvaluated > old(nodesEvaluated)
      ensures Restored(scratch.State(), old(scratch.State()))
    {
      if kind != MTDf {
        ghost var exit: Exit;
        r, exit := AlphaBetaSearch(MinScore, MaxScore, depth, 0, ourSide);
      } else {
        ghost var bounds: Mtdf.Bounds;
        r, bounds := MtdfSearch(depth, scoreGuess);
      }
    }

    /**
     * The MTD(f) brain's `Search`: null-window probes at `beta - 1, beta`
     * (`Mtdf.ProbeBeta`) until the bounds meet; a result below the probe
     * is a new upper bound, any other a new lower bound. The bounds meet
     * at the returned score. A probe at `MinScore` would need the window
     * to start below `MinScore`; the search stops there instead.
     */
    method MtdfSearch(depth: Int32, scoreGuess: Int32) returns (score: Int32, ghost bounds: Mtdf.Bounds)
      requires Valid() && scratch.Valid() && table.Valid() && InRange(scoreGuess)
      modifies Frame(0)
      ensures Valid() && scratch.Valid() && table.Valid()
      ensures InRange(score) && (nodesEvaluated > old(nodesEvaluated) || score == MinScore)
      ensures score == MinScore ||
        (bounds.upperBound <= bounds.lowerBound && (score == bounds.lowerBound || score == bounds.upperBound))
      ensures Restored(scratch.State(), old(scratch.State()))
    {
      var upperBound: Int32 := Int32Max;
      var lowerBound: Int32 := Int32Min;
      score := scoreGuess;
      Mtdf.InitialBracket(score);
      ghost var entry := scratch.State();
      ghost var searched := false;
      while lowerBound < upperBound
        invariant Valid() && scratch.Valid() && table.Valid() && Restored(scratch.State(), entry)
        invariant InRange(score) && Mtdf.Bracketed(Mtdf.Bounds(lowerBound, upperBound), score)
        invariant nodesEvaluated >= old(nodesEvaluated)
        invariant searched ==> nodesEvaluated > old(nodesEvaluated) && (score == lowerBound || score == upperBound)
        invariant !searched ==> lowerBound == Int32Min && upperBound == Int32Max
        decreases upperBound - lowerBound
      {
        Mtdf.ProbeInside(Mtdf.Bounds(lowerBound, upperBound), score);
        var beta := Mtdf.ProbeBeta(score, lowerBound);
        if beta == MinScore {
          return score, Mtdf.Bounds(lowerBound, upperBound);
        }
        ghost var before := scratch.State();
        var result := NullWindowProbe(beta, depth);
        Mtdf.NarrowingProgress(Mtdf.Bounds(lowerBound, upperBound), score, result);
        RestoredTransitive(scratch.State(), before, entry);
        if result < beta {
          upperBound := result;
        } else {
          lowerBound := result;
        }
        score := result;
        searched := true;
      }
      bounds := Mtdf.Bounds(lowerBound, upperBound);
    }

    /** One probe of `MtdfSearch`: the alpha-beta search of the null window `beta - 1, beta` at the root for our side. */
    method NullWindowProbe(beta: Int32, depth: Int32) returns (result: Int32)
      requires Valid() && scratch.Valid() && table.Valid() && MinScore < beta
      modifies Frame(0)
      ensures Valid() && scratch.Valid() && table.Valid() && nodesEvaluated > old(nodesEvaluated)
      ensures InRange(result)
      ensures Restored(scratch.State(), old(scratch.State()))
    {
      ghost var exit: Exit;
      result, exit := AlphaBetaSearch(beta - 1, beta, depth, 0, ourSide);
    }

    /**
     * `AnalyzeOurBoard`: iterative deepening from two plies. Each round
     * searches one ply deeper from the last score; out of time it stops
     * without publishing; otherwise the score, the best move and the line
     * are published (`Publish`), a mate score ends the analysis, and the
     * line is put into the table for the next round. It ends out of time
     * or with a mate score, the published line starting with the best move.
     */
    method AnalyzeOurBoard() returns (ghost rounds: nat)
      requires Valid() && scratch.Valid() && table.Valid() && nodeBudget <= Int32Max - 2
      modifies published, Frame(0)
      ensures Valid() && scratch.Valid() && table.Valid()
      ensures Thinking() ==>
        rounds > 0 && InRange(published.score) && IsMate(published.score) &&
        (|published.principalVariation| > 0 ==> published.principalVariation[0] == published.bestMove)
      ensures !Thinking() && rounds == 1 ==> Published() == old(Published())
    {
      nodesEvaluated := 0;
      table.SetStale();
      var depth: Int32 := 2;
      var searchScore: Int32 := 0;
      rounds := 0;
      while true
        invariant Valid() && scratch.Valid() && table.Valid()
        invariant InRange(searchScore) && 0 <= nodesEvaluated && 2 <= depth <= nodesEvaluated + 2
        invariant rounds == 0 ==> Published() == old(Published())
        decreases nodeBudget - nodesEvaluated
      {
        var done;
        searchScore, done := Deepen(depth, searchScore);
        rounds := rounds + 1;
        if done {
          return;
        }
        depth := depth + 1;
      }
    }

    /**
     * One round of `AnalyzeOurBoard`'s deepening at `depth` from the guess
     * `guess`: the search; out of time, nothing is published and the
     * analysis is done; otherwise the round is published, and a mate score
     * ends the analysis while any other puts the line into the table and
     * goes on.
     */
    method Deepen(depth: Int32, guess: Int32) returns (searchScore: Int32, done: bool)
      requires Valid() && scratch.Valid() && table.Valid() && InRange(guess) && depth >= 2
      modifies published, Frame(0)
      ensures Valid() && scratch.Valid() && table.Valid() && InRange(searchScore)
      ensures done && Thinking() ==>
        published.score == searchScore && IsMate(published.score) &&
        (|published.principalVariation| > 0 ==> published.principalVariation[0] == published.bestMove)
      ensures !done ==> Thinking() && nodesEvaluated > old(nodesEvaluated) && published.score == searchScore
      ensures !Thinking() ==> done && Published() == old(Published())
    {
      PublishedOutOfFrame(0);
      searchScore := Search(depth, guess);
      if !Thinking() {
        return searchScore, true;
      }
      Publish(searchScore);
      if IsMate(published.score) {
        return searchScore, true;
      }
      StuffPrincipalVariation(0, ourSide, depth);
      return searchScore, false;
    }

    /**
     * The publishing step of `AnalyzeOurBoard`: the score, the first move
     * of the root's line as the best move, and the root's line itself.
     */
    method Publish(searchScore: Int32)
      requires Valid() && scratch.Valid() && table.Valid()
      modifies published
      ensures Valid() && scratch.Valid() && table.Valid()
      ensures published.score == searchScore && published.bestMove == plies[0].principalVariation[0]
      ensures published.principalVariation == plies[0].principalVariation[..plies[0].principalVariationLength]
    {
      var root := plies[0];
      published.score := searchScore;
      published.bestMove := root.principalVariation[0];
      var line := [];
      var i := 0;
      while i < root.principalVariationLength
        invariant 0 <= i <= root.principalVariationLength
        invariant line == root.principalVariation[..i]
      {
        assert root.principalVariation[..i + 1] == root.principalVariation[..i] + [root.principalVariation[i]];
        line := line + [root.principalVariation[i]];
        i := i + 1;
      }
      published.principalVariation := line;
    }

    /**
     * `StuffPrincipalVariationIntoTranspositionTable` from ply `ply`: each
     * move of the root's line from `ply` on is stored under its position
     * as a `Junk` entry of the remaining depth (so that the next round
     * tries it first), played, and taken back after the rest of the line.
     */
    method StuffPrincipalVariation(ply: nat, side: Side, searchDepth: Int32)
      requires Valid() && scratch.Valid() && table.Valid() && ply <= plies[0].principalVariationLength
      requires searchDepth as int >= Int32Min as int + MaxPly - ply
      modifies scratch, scratch.occupant, table.globalTable, table.localTable
      ensures Valid() && scratch.Valid() && table.Valid()
      ensures ply == plies[0].principalVariationLength ==> scratch.State() == old(scratch.State())
      ensures ply < plies[0].principalVariationLength ==> scratch.State() == UpdateGameStageSpec(plies[ply].board.State())
      decreases plies[0].principalVariationLength - ply
    {
      if ply == plies[0].principalVariationLength {
        return;
      }
      var move := plies[0].principalVariation[ply];
      StorePosition(move, 0, searchDepth, ply, side, Junk);
      if InBounds(move) {
        var legal := PlayMove(move);
      }
      StuffPrincipalVariation(ply + 1, OtherSide(side), searchDepth - 1);
      UndoMove(ply);
    }
  }

  /** Recomputing the game stage twice is recomputing it once. */
  lemma StageIdempotent(p: Position)
    requires WellFormed(p)
    ensures UpdateGameStageSpec(UpdateGameStageSpec(p)) == UpdateGameStageSpec(p)
  {
  }

  /** Recomputing the game stage does not look at the side to move. */
  lemma StageIgnoresSide(p: Position, side: Side)
    requires WellFormed(p)
    ensures WellFormed(p.(side := side))
    ensures UpdateGameStageSpec(p.(side := side)) == UpdateGameStageSpec(p).(side := side)
  {
  }

  /** Two restorations in a row are one. */
  lemma RestoredTransitive(a: Position, b: Position, c: Position)
    requires WellFormed(b) && WellFormed(c) && Restored(a, b) && Restored(b, c)
    ensures Restored(a, c)
  {
    StageIdempotent(c);
  }

  /**
   * The copying of `UpdatePrincipalVariation`: `move` into slot `ply` of
   * `line`, then the slots of `next` after `ply` up to `nextLength`.
   */
  method SpliceLine(line: array<Move>, next: array<Move>, ply: nat, move: Move, nextLength: nat)
    requires line != next && line.Length == next.Length && ply < line.Length && nextLength <= line.Length
    modifies line
    ensures line[..] == PrincipalVariations.Spliced(old(line[..]), next[..], ply, move, nextLength)
  {
    ghost var before := line[..];
    line[ply] := move;
    var i := ply + 1;
    while i < nextLength
      invariant ply + 1 <= i <= line.Length && (i == ply + 1 || i <= nextLength)
      invariant line[..] == PrincipalVariations.Spliced(before, next[..], ply, move, i)
    {
      PrincipalVariations.SplicedStep(before, next[..], ply, move, i);
      line[i] := next[i];
      i := i + 1;
    }
  }

  /** The killer loop of `GenerateMoves`: each killer of `killer`, the last slot first, swapped to the front when listed. */
  method SwapInKillers(generated: seq<Move>, killer: array<Move>) returns (moves: seq<Move>)
    ensures moves == MoveOrdering.KillersSwappedIn(generated, killer[..])
  {
    moves := generated;
    var i := killer.Length;
    while i > 0
      invariant 0 <= i <= killer.Length
      invariant moves == MoveOrdering.KillersSwappedIn(generated, killer[i..])
    {
      i := i - 1;
      assert killer[i..][1..] == killer[i + 1..];
      moves := MoveOrdering.SwappedIn(moves, killer[i]);
    }
    assert killer[0..] == killer[..];
  }

  /** `MaxPly + 1` new ply records, apart from each other and from `scratch`. */
  method NewPlies(scratch: Board) returns (ps: seq<PlyInfo>, ghost objects: set<object>)
    ensures |ps| == MaxPly + 1 && Separated(ps, scratch)
    ensures forall i :: 0 <= i < |ps| ==> ps[i] in objects && ps[i].board in objects && ps[i].board.occupant in objects
    ensures forall o :: o in objects ==> fresh(o)
    ensures forall i :: 0 <= i < |ps| ==> ps[i].Valid() && ps[i].board.State() == Setup.NewPosition() && ps[i].principalVariationLength == 0
  {
    ps, objects := [], {};
    while |ps| < MaxPly + 1
      invariant |ps| <= MaxPly + 1
      invariant forall i :: 0 <= i < |ps| ==> ps[i] in objects && ps[i].board in objects && ps[i].board.occupant in objects
      invariant forall o :: o in objects ==> fresh(o)
      invariant forall i :: 0 <= i < |ps| ==> ps[i].Valid() && ps[i].board.State() == Setup.NewPosition() && ps[i].principalVariationLength == 0
      invariant Separated(ps, scratch)
    {
      var p := new PlyInfo();
      ps, objects := ps + [p], objects + {p, p.board, p.board.occupant};
    }
  }

  /** No slot before `h` holds `k` when `ks[..h]` does not. */
  lemma NotBefore(ks: seq<Move>, k: Move, h: int)
    requires 0 <= h <= |ks| && k !in ks[..h]
    ensures forall j :: 0 <= j < h ==> ks[j] != k
  {
    forall j | 0 <= j < h
      ensures ks[j] != k
    {
      assert ks[..h][j] == ks[j];
    }
  }

  /** The slot the killer loop stops at is the hole `Killers.HoleIndex` names. */
  lemma HoleIsFirst(ks: seq<Move>, k: Move, h: int)
    requires 0 <= h < |ks|
    requires (ks[h] == k && k !in ks[..h]) || (h == |ks| - 1 && k !in ks)
    ensures h == Killers.HoleIndex(ks, k)
  {
    var g := Killers.HoleIndex(ks, k);
    if k in ks {
      NotBefore(ks, k, h);
      NotBefore(ks, k, g);
    }
  }
}
