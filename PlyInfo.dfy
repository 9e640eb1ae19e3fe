/**
 * The scratch record the search keeps for each ply: a board to undo
 * to, the principal variation found from this ply, the killer moves and
 * the flag that forbids a null move. (The record's move list is kept by
 * the search itself: only the ply that generated it reads it.)
 */
module PlyInfos {
  import opened Moves
  import opened Boards
  import Setup

  const MaxPly: int := 300
  const KillerCount: int := 4

  class PlyInfo {
    const board: Board
    const principalVariation: array<Move>
    var principalVariationLength: int
    const killer: array<Move>
    var skipNullMove: bool

    /** The arrays keep their sizes, the recorded length fits the array and the board is well formed. */
    predicate Valid()
      reads this, board, board.occupant
    {
      principalVariation.Length == MaxPly && killer.Length == KillerCount &&
      0 <= principalVariationLength <= MaxPly && board.Valid() &&
      principalVariation != killer
    }

    /**
     * A new record: a new empty board, `MaxPly` principal-variation slots
     * and `KillerCount` killer slots, all holding the default move, no null
     * move forbidden.
     */
    constructor ()
      ensures Valid()
      ensures fresh(board) && fresh(board.occupant) && fresh(principalVariation) && fresh(killer)
      ensures board.State() == Setup.NewPosition()
      ensures principalVariationLength == 0 && !skipNullMove
      ensures forall i :: 0 <= i < KillerCount ==> killer[i] == Empty
      ensures forall i :: 0 <= i < MaxPly ==> principalVariation[i] == Empty
    {
      board := new Board();
      principalVariation := new Move[MaxPly](_ => Empty);
      principalVariationLength := 0;
      killer := new Move[KillerCount](_ => Empty);
      skipNullMove := false;
    }
  }
}
