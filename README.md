# A verified model of a bitboard chess engine

This project models the core of a C# chess engine in Dafny 4.11 and proves properties of the model. The engine keeps a position as an occupant array plus nineteen 64-bit bitboards, three of them rotated, and it generates moves from precomputed attack tables. It makes and takes back moves in place, hashes positions with Zobrist keys into a two-level transposition table, and searches with negamax alpha-beta. The search has several parts: transposition-table cutoffs, a quiescence search, killer moves, principal-variation bookkeeping, null-move pruning, MTD(f) and iterative deepening.

The modules follow the program's files:

| module | models |
|---|---|
| `Globals` | piece codes, sides, squares and castle flags, and the FEN letter map (`Globals.cs`) |
| `Moves` | the move value, its equality and its algebraic rendering (`Move.cs`) |
| `BitOperations` | De Bruijn lowest-bit lookup, bit clearing, population count and bit listing on `bv64` (`BitOperations.cs`) |
| `BoardTables` | the precomputed knight, king, ray, `Obstructed`, edge and rotation tables, entry by entry (`Board.cs`) |
| `Positions` | the board as a value, and the specification functions of the attack queries, `MovePiece`, `MakeMove`, `IsLegal` and `UpdateGameStage` (`Board.cs`) |
| `Boards` | the board as a class whose methods update the occupant array and fields in place, each proved against `Positions` (`Board.cs`) |
| `MoveMaking` | the consistency of the occupant array, the bitboards, the king squares and the hash key across `MakeMove` (`Board.cs`) |
| `Setup` | FEN setup: `SetBoard`, `InitializeBitBoards` and the `FromFEN` constructor (`Board.cs`, with `Utility.Split`) |
| `MoveGeneration`, `Generators` | the move lists as specification functions, and the list-building generator methods proved against them (`MoveGenerator.cs`) |
| `MoveProperties`, `PawnProperties`, `EscapeProperties` | what the generated moves are: origins, targets, captured pieces, promotions, pushes and check escapes |
| `MoveEnumeration` | the lazy enumerators as sequence functions, and their agreement with the generators (`MoveEnumerator.cs`) |
| `Zobrist` | `HashBoard`, the en-passant and castle keys as XOR folds over fixed key arrays (`TranspositionTable.cs`) |
| `TranspositionTables` | the two-array table class: `AddPosition`, `LookupPosition`, `GetBestMove` and `SetStale` (`TranspositionTable.cs`) |
| `StaticEvaluator`, `MaterialEvaluation` | mate-score arithmetic with 32-bit wrap-around, and the material evaluator (`StaticEvaluator.cs`, `MaterialOnlyEvaluator.cs`) |
| `PlyInfos` | the per-ply record (`PlyInfo.cs`) |
| `Killers`, `PrincipalVariations`, `MoveOrdering` | killer-table shifting, principal-variation splicing and `SwapInIfLegal` ordering as sequence functions (`Brain.cs`, `BasicAlphaBetaBrain.cs`) |
| `NullMovePruning`, `Mtdf` | the null-move depth and the MTD(f) bound arithmetic (`NullMoveBrain.cs`, `MTDfBrain.cs`) |
| `Search` | the brain class: the alpha-beta and quiescence searches, null-move pruning, MTD(f), iterative deepening and principal-variation stuffing (`Brain.cs`, `BasicAlphaBetaBrain.cs`, `NullMoveBrain.cs`, `MTDfBrain.cs`, `TranspositionTableBrain.cs`) |

The C# class hierarchy of brains (`Brain`, `TranspositionTableBrain`, `BasicAlphaBetaBrain`, `NullMoveBrain`, `MTDfBrain`) becomes one class, `Search.Brain`. A constant, `kind`, selects which overrides of `CanPrune` and `Search` it runs. The brain's published results (`_Score`, `_BestMove`, `_PrincipalVariation`) are the fields of a small object of their own, `Search.Analysis`. It lies outside the frame of every search, so the verifier itself checks that only the publishing step changes them.

Some things are inputs to the model rather than computed by it:
- The Zobrist key arrays and the table's entry size are parameters (`ZobristKeys`, `entrySize`).
- The `_AreWeThinking` flag is a node budget: the brain thinks while it has evaluated fewer than `nodeBudget` nodes.
- C# `Int64` bitboards are `bv64`, with the sign-extending `>>` written out where bit 63 can be set.
- C# `int` arithmetic that can overflow is written out as 32-bit wrap-around (`Wrap32`).

Where the code and its comments disagree, the model follows the code. The findings below are modelled as written everywhere the rest of the model uses them. Beside each one, a corrected member states the evidently intended behaviour and proves it.

## Model

| member | source | states |
|---|---|---|
| Globals.IsValidSquare | Globals.cs:78-81 | a square index is valid exactly when it is 0..63, so the "no square" marker is never valid |
| Globals.GetKind | Globals.cs:108-114 | a black piece is its own kind; a white piece maps to the black code six below; "no piece" stays "no piece" |
| Globals.GetSide | Globals.cs:125-128 | a piece belongs to Black exactly when its code is a black code; every other code counts as White |
| Globals.OtherSide | Board.cs:1231-1234 | the other side is never the side given |
| Globals.ToFEN | Globals.cs:154-157 | a name exists exactly for the codes 0..12; it is one letter, lower case for Black and upper case for White |
| Globals.FromFEN | Globals.cs:159-162 | a string that is a key names a piece code whose letter it is; any other string is none of the thirteen letters |
| Globals.FenRoundTrip | Globals.cs:169-183 | for every piece code, reading back the FEN name of the piece gives the piece |
| Globals.FenRoundTripName | Globals.cs:169-183 | for every FEN name, naming the piece read from it gives the same name |
| Moves.NewMove | Move.cs:44-52 | the constructor keeps the four arguments, the captured piece defaulting to none, with no modifier and no promotion |
| Moves.Equals | Move.cs:153-163 | field-by-field comparison holds exactly when the two moves are equal |
| Moves.FileName | Move.cs:59-62 | one letter 'a'..'h', the code 104 minus the file |
| Moves.RankName | Move.cs:64-67 | the decimal form of the rank plus one, a single digit '1'..'8' on the board |
| Moves.SquareNameRoundTrip | Move.cs:54-67 | every square has a two-character name that reads back as that square |
| Moves.SquareNameCorners | Move.cs:54-67 | square 0 is named "h1" and square 63 "a8" |
| Moves.NotationSuffix | Move.cs:28-42 | a suffix exists exactly for the nine single-flag values of the notation modifiers |
| Moves.PieceLetter | Move.cs:136-145 | a letter exists exactly for the codes 0..12; for a piece it is the upper-case form of its FEN letter |
| Moves.CastlingNotation | Move.cs:84-95 | a castling move is written "O-O" or "O-O-O" followed by the suffix, whatever its squares and pieces |
| Moves.QuietMoveNotation | Move.cs:96-107 | a quiet pawn move is just its destination; any other quiet move is the piece letter and then the destination |
| Moves.CaptureNotation | Move.cs:108-119 | a capture puts "x" before the destination, preceded by the pawn's file or the capturing piece's letter |
| Moves.PromotionNotation | Move.cs:127-130 | a promotion appends "=" and the upper-case letter of the new piece to the move's plain notation |
| BitOperations.LeastSignificantBit | BitOperations.cs:31-34 | the index is below 64; on a nonzero word it is the lowest member and `b & -b` is that square's mask; on 0 it is 63 |
| BitOperations.LeastSignificantBitCorrect | BitOperations.cs:11-34 | the De Bruijn hash of the isolated lowest bit, looked up in the table, is the lowest member of the word |
| BitOperations.DeBruijnInverts | BitOperations.cs:11-21 | the lookup table inverts the multiplier hash on each of the 64 square masks |
| BitOperations.LowestMaskIsLowest | BitOperations.cs:33 | the square whose mask `b & -b` is, is the lowest member of `b` |
| BitOperations.FindAndZeroLeastSignificantBit | BitOperations.cs:23-29 | returns the lowest member (63 for the empty word) and the word with exactly that square removed |
| BitOperations.ListBits | BitOperations.cs:67-77 | the list is the word's members, lowest first |
| BitOperations.SquaresMeaning | BitOperations.cs:67-77 | the member list holds exactly the set squares, in strictly ascending order |
| BitOperations.PeelLowest | BitOperations.cs:70-74 | taking the lowest member out of a word takes the head off its member list |
| BitOperations.ClearLowestBit | BitOperations.cs:42 | `b & (b - 1)` removes exactly the lowest member of a nonzero word |
| BitOperations.PopulationCount | BitOperations.cs:36-45 | the loop as written, guarded by the signed test `b > 0`, returns the positive-loop count of the word |
| BitOperations.PositiveLoopCountMeaning | BitOperations.cs:36-45 | that count is 0 for a word holding square 63 (A8) and the number of members otherwise |
| BitOperations.PositiveLoopCountMissesA8 | BitOperations.cs:39 | every word holding A8 counts as empty although it has a member |
| BitOperations.PopulationCountCorrected | BitOperations.cs:36-45 | with the test `b != 0` the loop returns the number of members |
| BitOperations.IsPositiveInt64Meaning | BitOperations.cs:39 | a word is positive as a signed 64-bit integer exactly when it is nonzero and bit 63 is clear |
| BitOperations.CountBound | BitOperations.cs:36-45 | both counts are at most 64 |
| BitOperations.SignedShiftMasked | Board.cs:241-259 | after the arithmetic right shift of a signed word, masking to a byte (one bit past 56) reads the same as after a logical shift |
| BitOperations.HasSquareMask | Board.cs:669-673 | the mask of square j holds square i exactly when i == j |
| BitOperations.ClearSquare | BitOperations.cs:26 | and-ing with the inverted mask of k removes k and keeps every other member |
| BitOperations.Without | Board.cs:328-356 | `b & NotSquareMask[k]` holds the members of b other than k |
| BitOperations.With | Board.cs:328-356 | `b \| SquareMask[k]` holds the members of b and k |
| BitOperations.Flipped | Board.cs:328-356 | `b ^ (SquareMask[f] \| SquareMask[t])` toggles exactly squares f and t |
| BitOperations.Union | MoveGenerator.cs:31 | `a \| b` holds the squares of either |
| BitOperations.Intersection | MoveGenerator.cs:247 | `a & b` holds the squares of both |
| BitOperations.Except | MoveGenerator.cs:385 | `a & ~b` holds the squares of a that are not in b |
| BitOperations.ZeroIfNoBits | BitOperations.cs:70 | a word with no member among the 64 squares is zero |
| BoardTables.Rank | Board.cs:1222-1225 | a byte; on the board it is the square divided by 8, below 8 |
| BoardTables.File | Board.cs:1226-1229 | below 8; on the board a square is 8 times its rank plus its file |
| BoardTables.MaskOfMembers | Board.cs:709 | a table word built by OR-ing in one bit per visited square holds exactly the visited squares |
| BoardTables.KnightMovesMeaning | Board.cs:684-697 | the knight mask of i holds exactly the squares one file and two ranks, or two files and one rank, away |
| BoardTables.KingMovesMeaning | Board.cs:699-712 | the king mask of i holds exactly the other squares at most one file and one rank away |
| BoardTables.ZeroRightMeaning | Board.cs:663-672 | the ZeroRight mask holds exactly the squares off file 0 (the h-file) |
| BoardTables.ZeroLeftMeaning | Board.cs:663-672 | the ZeroLeft mask holds exactly the squares off file 7 (the a-file) |
| BoardTables.HorizontalShift | Board.cs:715-720 | the shift that brings the rank of i to the low byte: 8 times its rank |
| BoardTables.VerticalShift | Board.cs:715-720 | the shift that brings the file of i to the low byte of the 90-degree board: 8 times its file |
| BoardTables.RookAttacksHorizontalMeaning | Board.cs:721-745 | for a rank occupancy q, the entry holds exactly the other squares of i's rank with every file strictly between them empty in q |
| BoardTables.RookAttacksVerticalMeaning | Board.cs:746-770 | for a file occupancy q (rank r at bit 7 - r), the entry holds exactly the other squares of i's file with every rank strictly between them empty |
| BoardTables.Distance | Board.cs:833-837 | the larger of the file and rank distances |
| BoardTables.DistanceShort | Board.cs:838-842 | the smaller of the file and rank distances |
| BoardTables.DirectionIncrementZero | Board.cs:844-885 | the step is 0 exactly from a square to itself or to a square off its rank, file and diagonals |
| BoardTables.DirectionIncrementAntisymmetric | Board.cs:844-885 | the step from l to i is the negated step from i to l |
| BoardTables.DirectionIncrementReaches | Board.cs:844-885 | Distance(i, l) steps of DirectionIncrement(i, l) lead from i to l |
| BoardTables.ObstructedMeaning | Board.cs:887-941 | Obstructed(i, q) holds exactly the squares strictly between i and q on the line they share, and none when they share no line |
| BoardTables.BetweenSymmetric | Board.cs:887-941 | lying between two squares does not depend on their order |
| BoardTables.FileMaskMeaning | Board.cs:946-954 | FileMask[k] holds exactly the squares of file k |
| BoardTables.RankMaskMeaning | Board.cs:955-962 | RankMask[k] holds exactly the squares of rank k |
| BoardTables.ToEdgeMaskMeaning | Board.cs:979-1021 | each to-the-edge mask of i holds exactly the squares of the ray from i in its direction, i included |
| BoardTables.Rotated90Formula | Board.cs:1114-1121 | the 90-degree table puts the square on rank r and file f at 8f + 7 - r |
| BoardTables.Rotated45Formula | Board.cs:1106-1113 | the 45-degree table as arithmetic on rank and file |
| BoardTables.Rotated135Formula | Board.cs:1122-1129 | the 135-degree table as arithmetic on rank and file |
| BoardTables.Rotated90Inverts | Board.cs:1114-1121 | the 90-degree renumbering is one-to-one: each square has its own bit |
| BoardTables.Rotated45Inverts | Board.cs:1106-1113 | the 45-degree renumbering is one-to-one |
| BoardTables.Rotated135Inverts | Board.cs:1122-1129 | the 135-degree renumbering is one-to-one |
| BoardTables.Rotated45ShiftBounds | Board.cs:1130-1137 | every 45-degree shift is below 64 |
| BoardTables.Rotated135ShiftBounds | Board.cs:1138-1145 | every 135-degree shift is below 64 |
| BoardTables.LengthRotated45Bounds | Board.cs:1162-1169 | every 45-degree diagonal has 1 to 8 squares |
| BoardTables.LengthRotated135Bounds | Board.cs:1170-1177 | every 135-degree diagonal has 1 to 8 squares |
| Boards.Board.constructor | Board.cs:20-22 | a new board: every square empty, every bitboard zero, every scalar at its default |
| Boards.Board.FromFEN | Board.cs:15-29 | a board exists exactly when the record sets up, and it is fresh and holds the setup, the bitboards and the computed hash |
| Boards.Board.SetBoard | Board.cs:48-120 | succeeds exactly when the record is accepted, and leaves the position that reading the record gives |
| Boards.Board.ClearOccupants | Board.cs:54-57 | every square holds no piece afterwards |
| Boards.Board.PlaceRanksInPlace | Board.cs:59-80 | the squares after placing the ranks of the placement field, rank 8 first; fails exactly where the source throws |
| Boards.Board.PlaceRankInPlace | Board.cs:64-79 | one rank of the placement field placed from file 7 down; fails exactly where the source throws |
| Boards.Board.InitializeBitBoards | Board.cs:122-172 | the new state is the bitboards, the king squares and the game stage computed from the occupants |
| Boards.Board.ScanOccupants | Board.cs:141-169 | the boards and king squares the loop over the 64 squares computes |
| Boards.Board.InitializeHashes | Board.cs:174-177 | the hash key is the hash of the whole board, nothing else changes |
| Boards.Board.CopyFrom | Board.cs:31-45 | the board becomes the other board's position with its game stage recomputed |
| Boards.Board.CopyOccupants | Board.cs:33 | the 64 occupants are those of the source array |
| Boards.Board.MovePiece | Board.cs:328-356 | the new state is the move of the piece (or its promotion piece) on the occupants, the bitboards and the hash |
| Boards.Board.ToggleStateKeys | Board.cs:398-399 | the en-passant and castling keys are XORed into the hash |
| Boards.Board.MoverEffects | Board.cs:405-454 | the moved piece's side effects: the en-passant square, castling rights, the castling rook and the king square |
| Boards.Board.PawnPush | Board.cs:409-419 | a double push with an enemy pawn beside the target sets the en-passant square to the skipped square |
| Boards.Board.RookLeaves | Board.cs:424-433 | a rook leaving h1 or a1 (h8 or a8) drops that castling right |
| Boards.Board.KingMove | Board.cs:436-453 | castling moves the rook along; then the king square follows the king and both rights of the side go |
| Boards.Board.Castle | Board.cs:437-448 | castling records that the side has castled and moves the rook from its corner |
| Boards.Board.ClearCaptured | Board.cs:456-463 | an ordinary capture takes the captured piece off its board and its key out of the hash |
| Boards.Board.CaptureEffects | Board.cs:456-499 | the captured piece's effects: off the target, or off the square behind it for en passant; a rook taken on its corner drops that right |
| Boards.Board.RemoveCapturedPawn | Board.cs:470-481 | the en-passant victim leaves its square, its boards, the rotated boards and the hash |
| Boards.Board.UpdateGameStage | Board.cs:633-653 | the pawn and piece counts are the population counts of their boards and the stage follows the thresholds |
| Boards.Board.FinishMove | Board.cs:598-605 | the all-pieces board is the union of the colour sets, the state keys go back in, the other side moves and the stage is recomputed |
| Boards.Board.MakeMove | Board.cs:390-611 | the new state is the made move, and the result is UndoMove exactly when the side that moved is left in check |
| Boards.Board.AttackerCount | Board.cs:215-225 | the population count of the attacking side's attack set on the square |
| Boards.Board.KingAttackCount | Board.cs:227-230 | the attacker count on the side's own king square by the other side |
| Boards.Board.InCheck | Board.cs:232-235 | the side is in check exactly when that count is positive |
| Positions.RotatedSquaresDiffer | Board.cs:1106-1129 | distinct squares have distinct bits in each of the three rotated bitboards |
| Positions.ClearCaptured | Board.cs:456-463 | an ordinary capture changes no occupant, flag or side |
| Positions.RemovePieceSpec | Board.cs:470-481 | taking the en-passant victim off changes no flag and not the side to move |
| Positions.IsLegalMeaning | Board.cs:358-387 | a move passes exactly when it moves a piece of the side to move from the square it stands on and captures nothing, or an enemy piece other than a king standing on the target (anywhere for en passant); the empty move fails because it moves no piece |
| Positions.IsLegalForOneSide | Board.cs:370 | a move passes for at most one side to move |
| MoveMaking.MakeMoveKeepsConsistency | Board.cs:390-611 | a move that fits the board keeps it consistent: the bitboards, the king squares and the hash describe the new occupants |
| MoveMaking.MadeMoveOccupants | Board.cs:390-611 | the squares after a move are the chess-level result (piece or promotion placed, castling rook moved, en-passant victim removed), and a moved king's square follows it |
| MoveMaking.KingsStayOnTheirSquares | Board.cs:450 | after a move that fits the board each side's king square still holds that side's king |
| MoveMaking.MadeMoveFlags | Board.cs:405-596 | no castling right is gained and no castling forgotten; a king move drops both rights of its side; a rook leaving or captured on its corner drops that right |
| MoveMaking.MoverFlags | Board.cs:405-454 | the flags after the mover's side effects, as stated for the whole move |
| MoveMaking.CaptureFlags | Board.cs:456-499 | the flags after the capture step: only a rook captured on its corner drops a right |
| MoveMaking.MadeMoveEnPassant | Board.cs:403-419 | an en-passant square is set exactly when the move is a double push beside an enemy pawn, and it is the skipped square |
| MoveMaking.MadeMoveSide | Board.cs:603-605 | the other side is to move and the stage is the one the new piece counts call for |
| MoveMaking.MovePieceStep | Board.cs:328-356 | moving a piece onto an empty or enemy square keeps the boards and hash in agreement except for the captured piece still marked on the target |
| MoveMaking.MovePieceHash | Board.cs:331-344 | the XOR of the two square keys is the hash of the new occupants with the key of whatever stood on the target |
| MoveMaking.RemovePieceStep | Board.cs:470-481 | removing the piece that stands on a square keeps the boards and hash in agreement |
| MoveMaking.CastleStep | Board.cs:437-448 | the castling rook's move, from its corner to an empty target, keeps the boards in agreement |
| MoveMaking.CaptureStep | Board.cs:456-499 | the capture step clears the stale capture mark, off the target or off the en-passant victim's square |
| MoveMaking.StateKeysOut | Board.cs:398-399 | taking the state keys out of a consistent board leaves only the square keys in the hash |
| MoveMaking.FinishStep | Board.cs:598-605 | the end of a move leaves the boards in agreement, the all-pieces board holding the occupied squares, and the full hash |
| MoveMaking.JoinedBoardsAgree | Board.cs:598 | the union of the two colour sets holds exactly the occupied squares |
| Setup.Split | Utility.cs:14-17 | no field is empty and none contains the separator |
| Setup.SplitWithoutSeparator | Utility.cs:14-17 | a string without the separator is a single field, or no field when it is empty |
| Setup.SplitAtSeparator | Utility.cs:14-17 | a separator ends the field before it, and the fields after it are the fields of the rest of the string |
| Setup.EmptyOccupants | Board.cs:54-57 | every square holds no piece |
| Setup.PlaceRankMeaning | Board.cs:64-79 | for a rank that fits on the board, each piece letter lands on the file the digits before it skip to, and every other square keeps its occupant |
| Setup.CastlingFieldMeaning | Board.cs:89-108 | the parsed castling rights are exactly the rights whose letter the field holds (all four when there is no field), with no has-castled bit |
| Setup.EnPassantFieldReadsSquareName | Board.cs:110-119 | the en-passant field reads back the square whose name it holds |
| Setup.SetBoardCorrected | Board.cs:89-109 | the corrected setup stores exactly the castling rights the record grants |
| Setup.FromFENDropsCastling | Board.cs:89-109 | as written, a board built from a record has no castling right at all, even when the field grants it; the corrected setup keeps it |
| Setup.KingUpTo | Board.cs:141-169 | the king square the loop reports is unchanged, or a square it has visited that holds that king |
| Setup.ClearedDescribesNothing | Board.cs:124-139 | with the king boards empty, the boards after zeroing describe no square yet |
| Setup.AddSquareDescribes | Board.cs:143-168 | visiting one more square keeps the boards describing exactly the squares visited so far |
| Setup.BoardsUpToDescribe | Board.cs:141-170 | after the loop, the boards describe the occupants of every visited square and nothing else |
| Setup.KingUpToFinds | Board.cs:153-165 | with one king of a colour on the board, the loop finds its square |
| Setup.FromFENConsistent | Board.cs:24-29 | a board built from a record with one king of each colour is consistent: its bitboards, king squares and hash describe its occupants |
| Zobrist.HashBoard | TranspositionTable.cs:209-221 | the hash is the XOR of every square's key for its occupant, the en-passant key and the castling keys |
| Zobrist.GetCastleHash | TranspositionTable.cs:235-257 | the castling contribution is zero for every set of rights, because the castling keys are never written |
| Zobrist.SquaresHashUpdate | TranspositionTable.cs:209-215 | putting a piece on a square changes the hash by the key of the old occupant and the key of the new one |
| Zobrist.XorCancels | TranspositionTable.cs:214 | XORing the same key in twice takes it back out |
| Zobrist.XorReplace | TranspositionTable.cs:214 | replacing one key by another is XORing out the first and XORing in the second |
| Zobrist.EmptyBoardHash | TranspositionTable.cs:189-191 | an empty board without an en-passant square hashes to zero whatever the keys |
| Zobrist.HashIgnoresCastling | TranspositionTable.cs:235-261 | two positions that differ only in their castling rights have the same hash |
| Zobrist.CastleHashTerms | TranspositionTable.cs:235-256 | with keys filled, the castling hash is the XOR of the keys of the rights held |
| Zobrist.CastleRightKeyedCorrected | TranspositionTable.cs:235-261 | with keys filled, granting one right XORs exactly its key into the castling hash, so a non-zero key tells the two positions apart |
| Zobrist.EnPassantKey | TranspositionTable.cs:223-233 | an en-passant square XORs exactly that square's key into the hash |
| Zobrist.ComplementIsXorAllOnes | TranspositionTable.cs:40 | the complemented key is the key XORed with all ones, and complementing twice gives it back |
| TranspositionTables.TableKey | TranspositionTable.cs:40 | White to move uses the hash, Black its complement |
| TranspositionTables.SidesNeverShareKey | TranspositionTable.cs:40 | the two sides never share a key for the same position |
| TranspositionTables.Slot | TranspositionTable.cs:42-43 | the slot of a key lies inside the table |
| TranspositionTables.NewEntry | TranspositionTable.cs:166-174 | the entry written is fresh and carries the key, the depth and the type, with a non-mate score stored unchanged |
| TranspositionTables.TranspositionTable.constructor | TranspositionTable.cs:19-26 | the two tables hold half of max(2, size / entry size) entries each, with the division truncating, every slot at the default entry |
| TranspositionTables.TranspositionTable.SetStale | TranspositionTable.cs:28-34 | every global entry is marked stale and nothing else changes |
| TranspositionTables.TranspositionTable.AddPosition | TranspositionTable.cs:36-80 | the global and local slots of the key hold exactly the entries the replacement rule decides; no other slot changes |
| TranspositionTables.StoredOrRejected | TranspositionTable.cs:45-78 | a store is dropped only when the global slot holds a fresh entry for the same key that is at least as valuable and is not improved; otherwise the new entry lands in one of the slots |
| TranspositionTables.DisplacedEntryKept | TranspositionTable.cs:67-77 | a fresh global entry for another key is never lost: it stays or moves to the local slot |
| TranspositionTables.StaleSlotOverwritten | TranspositionTable.cs:47-50 | after `SetStale` the next store lands in the global slot and leaves the local one alone |
| TranspositionTables.UpperBoundNeverTightened | TranspositionTable.cs:58-60 | as written, an upper bound at the same depth never replaces a stored upper bound, tighter or not |
| TranspositionTables.UpperBoundDisplacesLowerBound | TranspositionTable.cs:58-62 | as written, an upper bound below a stored lower bound of the same position and depth replaces it |
| TranspositionTables.TighterBoundReplacesCorrected | TranspositionTable.cs:58-62 | with the corrected test, a same-depth entry that is not more valuable replaces a fresh one of its position exactly when it is a tighter bound of the same type |
| TranspositionTables.TranspositionTable.ProbeTable | TranspositionTable.cs:95-129 | the answer is the probe of the key's slot, and only that slot changes: a matching entry is marked fresh |
| TranspositionTables.ProbeWindow | TranspositionTable.cs:104-128 | any answer but Junk comes from an entry with the key, deep enough, of that type; a lower bound only raises beta, an upper bound only lowers alpha, Junk leaves the window |
| TranspositionTables.ProbeHits | TranspositionTable.cs:104-128 | a probe answers something other than Junk exactly when the entry matches, is deep enough and is exact, a lower bound at least beta or an upper bound at most alpha |
| TranspositionTables.JunkNeverCutsOff | TranspositionTable.cs:106-125 | an entry of type Junk never answers, and staleness never changes an answer |
| TranspositionTables.TranspositionTable.LookupPosition | TranspositionTable.cs:82-93 | the answer is the global probe, or the local probe when the global one answers Junk; only the probed slots change |
| TranspositionTables.LocalOnlyOnJunk | TranspositionTable.cs:86-90 | the local table is consulted only when the global one answers Junk |
| TranspositionTables.LookupWindow | TranspositionTable.cs:82-129 | within the first thousand plies a lookup never answers with the smallest integer, and it moves alpha and beta only in the allowed direction |
| TranspositionTables.ExpandedNeverMin | TranspositionTable.cs:102 | a stored score expanded again within the first thousand plies is never the smallest integer |
| TranspositionTables.ExactStoredFound | TranspositionTable.cs:36-117 | an exact score stored at some depth comes back unchanged from a probe for the same key at no greater depth |
| TranspositionTables.StoreThenLookup | TranspositionTable.cs:28-129 | after `SetStale`, storing an exact score and then looking up the same position at the same ply and no greater depth returns that score |
| TranspositionTables.TranspositionTable.GetBestMove | TranspositionTable.cs:131-156 | the move is that of the matching global entry, replaced by a deeper matching non-empty local move; a matching global entry is marked fresh |
| TranspositionTables.BestMoveFromKey | TranspositionTable.cs:131-156 | the best move is the empty move or the move of an entry stored under the key |
| TranspositionTables.BestMoveIgnoresFreshness | TranspositionTable.cs:131-156 | marking the slots fresh, as a lookup does, does not change the move the table gives |
| TranspositionTables.TruncatedDivision | TranspositionTable.cs:22 | C# integer division: the Euclidean quotient for a non-negative dividend, rounded towards zero otherwise |
| StaticEvaluator.Wrap32 | StaticEvaluator.cs:65 | 32-bit wrap-around: a value in range is kept, any other is moved by a multiple of 2^32 |
| StaticEvaluator.PieceValues | StaticEvaluator.cs:16-25 | the piece values are 0, 100, 300, 300, 500, 900 and int.MaxValue for the king |
| StaticEvaluator.Abs | StaticEvaluator.cs:32-54 | `Math.Abs`: a non-negative value equal to the argument or its negation, undefined for int.MinValue as the source throws |
| StaticEvaluator.Sign | StaticEvaluator.cs:42-54 | `Math.Sign`: -1, 0 or 1 following the sign of the argument |
| StaticEvaluator.MateScoreFromPly | StaticEvaluator.cs:27-30 | being mated at a ply scores LargestMateScore minus that ply |
| StaticEvaluator.PlyFromMateScore | StaticEvaluator.cs:32-35 | the ply read from a score is at most LargestMateScore |
| StaticEvaluator.RemovePlyDependence | StaticEvaluator.cs:42-47 | every mate score becomes ±LargestMateScore with the same sign; any other score is kept |
| StaticEvaluator.AddPlyDependence | StaticEvaluator.cs:49-54 | ±LargestMateScore becomes the mate score of the ply with that sign; any other score is kept |
| StaticEvaluator.DrawScore | StaticEvaluator.cs:56-59 | a draw scores zero at every ply for either side |
| StaticEvaluator.FromPerspective | StaticEvaluator.cs:65 | White sees the score, Black its negation |
| StaticEvaluator.MatePlyRoundTrip | StaticEvaluator.cs:27-35 | a mate score and its negation both decode to the ply they encode |
| StaticEvaluator.MateScoreIsMate | StaticEvaluator.cs:11-40 | mating at a ply counts as a mate score exactly up to ply 1000 |
| StaticEvaluator.PlyDependenceRoundTrip | StaticEvaluator.cs:42-54 | storing a mate score and reading it back at the same ply gives it back, for both signs |
| StaticEvaluator.NonMatePassesThrough | StaticEvaluator.cs:42-54 | a score that is not a mate passes through both conversions unchanged at any ply |
| StaticEvaluator.PerspectiveNegates | StaticEvaluator.cs:9-66 | between MinScore and MaxScore, Black's view is the exact negation of White's, stays in range, and changing side twice is the identity |
| StaticEvaluator.PerspectiveOfInt32Min | StaticEvaluator.cs:65 | int.MinValue is its own negation under wrap-around |
| MaterialEvaluation.SideMaterial | MaterialOnlyEvaluator.cs:13-23 | one side's material is non-negative and bounded, so the sum never overflows |
| MaterialEvaluation.EvaluateInternal | MaterialOnlyEvaluator.cs:9-26 | White's material minus Black's, always within the 32-bit range |
| MaterialEvaluation.SideMaterialValues | MaterialOnlyEvaluator.cs:13-23 | a side's material is 100 per pawn, 300 per bishop and knight, 500 per rook and 900 per queen that the population count reports |
| MaterialEvaluation.SameCountsSameScore | MaterialOnlyEvaluator.cs:9-26 | boards with the same counts score the same |
| MaterialEvaluation.Evaluate | StaticEvaluator.cs:61-66 | the score for either side is bounded by the material bound |
| MaterialEvaluation.EvaluateNegates | StaticEvaluator.cs:61-66 | the two perspectives are exact negations of each other |
| MaterialEvaluation.SignedValue | MaterialOnlyEvaluator.cs:13-23 | kings and empty squares add nothing to the score |
| MaterialEvaluation.KindTallyIsMaterial | MaterialOnlyEvaluator.cs:13-23 | tallying by piece kind equals summing the signed value of each square |
| MaterialEvaluation.BitsFromCountsOccurrences | MaterialOnlyEvaluator.cs:13-23 | a board holding exactly the squares of a piece has as many members as there are such squares |
| MaterialEvaluation.PieceBoardCount | MaterialOnlyEvaluator.cs:13-23 | on a consistent position, the count of a piece board is the number of squares holding that piece, unless A8 holds it |
| MaterialEvaluation.MaterialCountsOccupants | MaterialOnlyEvaluator.cs:9-26 | on a consistent position without a non-king piece on A8, the score is the signed sum of the values of the pieces on the board |
| MaterialEvaluation.ScoreFromCounts | MaterialOnlyEvaluator.cs:9-26 | when every counted board is counted correctly, the score is the tally of the occupants |
| MaterialEvaluation.KingsNeverContribute | MaterialOnlyEvaluator.cs:13-23 | the king boards never change the score |
| MaterialEvaluation.NoPiecesScoreZero | MaterialOnlyEvaluator.cs:9-26 | with no pawn, knight, bishop, rook or queen the score is zero for either side |
| MaterialEvaluation.A8PieceIgnored | MaterialOnlyEvaluator.cs:13-23 | as written, a counted piece board that holds A8 adds nothing, however many pieces it holds |
| Generators.AddPromotions | MoveGenerator.cs:191-208 | a pawn move onto the last rank becomes the queen promotion, then the rook, bishop and knight promotions when all are asked for |
| PawnProperties.PromotionsInOrder | MoveGenerator.cs:191-208 | the promotions are the move once per promotion piece, in the order queen, rook, bishop, knight (the queen alone without all promotions) |
| PawnProperties.PromotionsMembers | MoveGenerator.cs:191-208 | a move is among the promotions exactly when it is the pawn move with one of the promotion pieces |
| Generators.EmitSquares | MoveGenerator.cs:167-173 | the inner `while (toMap != 0)` loop appends the moves of every square of the map, lowest square first |
| MoveProperties.EmittedSource | MoveGenerator.cs:167-173 | every move the inner loop emits comes from a square of the map |
| MoveProperties.EmittedComplete | MoveGenerator.cs:167-173 | every square of the map contributes its moves |
| Generators.GeneratePieceMoves | MoveGenerator.cs:154-176 | the knight, bishop-queen and rook-queen generators append, for each piece lowest first, one move to each target the mask keeps |
| MoveProperties.PieceMovesMembers | MoveGenerator.cs:154-176 | a move is generated for a knight, bishop-queen or rook-queen exactly when it starts on a square of such a piece and ends on a target it reaches that the mask keeps |
| MoveProperties.TargetsFromAllMembers | MoveGenerator.cs:154-176 | the loop over the from-squares gives exactly the moves to kept targets from those squares |
| MoveProperties.TargetMoveFields | MoveGenerator.cs:166-171 | a generated move has the mover's piece, no modifier, no promotion, and records the target's occupant exactly when it is a capture |
| MoveProperties.TargetMaskMeaning | MoveGenerator.cs:385-391 | a square is a capture target exactly when an enemy piece stands on it, and a quiet target exactly when it is empty |
| Generators.GenerateKingMoves | MoveGenerator.cs:325-343 | the king's captures or quiet moves are those to the king-table squares the mask keeps |
| Generators.GeneratePawnCaptures | MoveGenerator.cs:178-270 | the pawn captures towards each side, then the pushes onto the last rank, each promoting as asked |
| PawnProperties.PawnCaptureMoveShape | MoveGenerator.cs:178-270 | every move of the pawn capture generator either captures an enemy piece diagonally and records it, or pushes onto an empty last-rank square, and promotes exactly on the last rank |
| PawnProperties.LastRankMeaning | MoveGenerator.cs:191-208 | the last-rank mask holds exactly the squares where a pawn of that side promotes |
| PawnProperties.PromotionPushSquare | MoveGenerator.cs:247-267 | a push promotes onto exactly the empty last-rank squares one step ahead of a pawn |
| Generators.GenerateEnPassantCaptures | MoveGenerator.cs:345-371 | at most one en-passant capture from each side of the en-passant square |
| Generators.EnPassantCapture | MoveGenerator.cs:351-369 | one en-passant test: the capture from that side exactly when a pawn of the mover stands there |
| Generators.GeneratePawnNonCaptures | MoveGenerator.cs:417-439 | single pushes short of the last rank, each followed by its double push when allowed |
| PawnProperties.QuietPushSquare | MoveGenerator.cs:417-431 | a quiet push goes onto exactly the empty squares off the last rank one step ahead of a pawn |
| PawnProperties.PawnQuietMoveShape | MoveGenerator.cs:417-439 | every quiet pawn move is a single push onto an empty square off the last rank, or a double push from the first rank past such a square onto an empty square |
| PawnProperties.SinglePushPresent | MoveGenerator.cs:425-431 | every square of the quiet push map gives its single push |
| PawnProperties.DoublePushPresent | MoveGenerator.cs:432-436 | a quiet push onto the double-step rank with the square beyond empty gives the double push as well |
| Generators.GenerateCastling | MoveGenerator.cs:28-50 | the king-side castle, then the queen-side castle, each when allowed |
| Generators.CastleKingSide | MoveGenerator.cs:28-38 | king-side castling exactly when the right is held, the two squares beside the king are empty and none of the three squares is attacked |
| Generators.CastleQueenSide | MoveGenerator.cs:40-50 | queen-side castling exactly when the right is held, the three squares towards the rook are empty and the king's square and the next two are unattacked |
| MoveProperties.CastlingMembers | MoveGenerator.cs:28-50 | the castling moves are exactly those whose conditions hold, at most one each way |
| MoveProperties.KingSideMembers | MoveGenerator.cs:28-38 | the king-side castle is generated exactly under its right, its empty squares and its three unattacked squares |
| MoveProperties.QueenSideMembers | MoveGenerator.cs:40-50 | the queen-side castle is generated exactly under its right, its three empty squares and its three unattacked squares; b1 is not tested for attack |
| Generators.GenerateAll | MoveGenerator.cs:15-99 | the list is cleared, then the captures (pawn, en passant, knight, bishop-queen, rook-queen, king), castling and the quiet moves are appended in that order |
| Generators.GenerateCaptures | MoveGenerator.cs:101-151 | the list is cleared, then the captures are appended, knights first, with all promotions or (for the quiescence search) the queen only |
| Generators.GenerateCheckEscapes | MoveGenerator.cs:845-1188 | the list is cleared; the king's safe steps, then with a single attacker the captures of the checker, then the interpositions over the squares the loop visits as written |
| Generators.KingEscapeMoves | MoveGenerator.cs:853-874 | the king moves to every square beside it that holds none of its own pieces and that the enemy does not attack once the king is gone |
| EscapeProperties.AttackedAmongMembers | MoveGenerator.cs:855-866 | the escape loop collects exactly the squares the enemy attacks once the king is gone |
| EscapeProperties.SafeEscapeMeaning | MoveGenerator.cs:853-874 | a square is a safe escape exactly when the king reaches it, no own piece stands there and it is unattacked with the king gone |
| EscapeProperties.KingEscapeMembers | MoveGenerator.cs:853-874 | a move is a king escape exactly when it steps the king onto a safe escape square and records the occupant |
| EscapeProperties.DoubleCheckEscapes | MoveGenerator.cs:876-879 | with more than one attacker the escapes are the king's moves and nothing else |
| Generators.CheckerCaptureSources | MoveGenerator.cs:884-898 | the pieces that may take the checker: its attackers except the king, plus the pawns beside a checking pawn that may take it en passant |
| Generators.TakeChecker | MoveGenerator.cs:884-952 | every capture of the checker is appended in the order of the capturing pieces |
| Generators.CheckerCapture | MoveGenerator.cs:904-950 | one capture of the checker: the four promotions, the en-passant capture, a plain capture, or nothing when it exposes the king |
| Generators.BlockCheck | MoveGenerator.cs:954-1016 | the blocks over the squares the brace-less `if` leaves in the map, as written |
| EscapeProperties.SliderCheckNotBlocked | MoveGenerator.cs:954-963 | as written, against a single checking slider the list ends with the captures of the checker: no interposition is generated |
| EscapeProperties.CorrectedBlockSquares | MoveGenerator.cs:954-961 | the corrected loop visits exactly the squares strictly between the king and a checking slider |
| EscapeProperties.CorrectedEscapesExtend | MoveGenerator.cs:954-1016 | the corrected escapes are the as-written ones followed by the blocks on the squares between the king and the checking slider |
| Generators.Interpose | MoveGenerator.cs:963-1016 | for each square of the map, lowest first, every block onto it |
| Generators.BlockOnto | MoveGenerator.cs:973-1014 | every piece of the map, lowest first, moves onto the square unless that exposes the king |
| Generators.BlockMove | MoveGenerator.cs:978-1013 | one block: a pawn push (promoting as written when the checker stands on the last rank) or a piece move, or nothing when it exposes the king |
| EscapeProperties.ExposedCheckRuledOut | MoveGenerator.cs:1192-1203 | no exposed check when `from` is not aligned with the king, when the move stays on that line, or when a piece already stands between |
| MoveEnumeration.UnionMembers | MoveEnumerator.cs:44-57 | `Union` has no duplicates and holds exactly the moves of both streams |
| MoveEnumeration.UnionOfDistinct | MoveEnumerator.cs:44-57 | over streams without repeated moves, `Union` is concatenation |
| MoveEnumeration.ChainMembers | MoveEnumerator.cs:44-57 | a chain of unions has no duplicates and holds exactly the moves of its streams |
| MoveEnumeration.EnumerateAllMembers | MoveEnumerator.cs:16-100 | `EnumerateAll` yields each move `GenerateAll` generates exactly once and nothing else |
| MoveEnumeration.CastlingFirst | MoveEnumerator.cs:18-42 | `EnumerateAll` yields the castling moves first and none afterwards |
| MoveEnumeration.CastlingShape | MoveEnumerator.cs:18-42 | castling is offered at most once each way, king side first |
| MoveEnumeration.EnumerateCapturesMembers | MoveEnumerator.cs:102-128 | `EnumerateCaptures` yields each move of `GenerateCaptures` with all promotions exactly once, and nothing else |
| MoveEnumeration.EnumerateCapturesAreCaptures | MoveEnumerator.cs:102-128 | `EnumerateCaptures` never yields castling or a quiet move |
| MoveEnumeration.CaptureStreamMove | MoveEnumerator.cs:102-128 | no capture stream emits castling or a quiet move, and only pawn captures promote |
| MoveEnumeration.AllFourPromotions | MoveEnumerator.cs:148-221 | with a promoting capture, `EnumerateCaptures` yields the same move promoting to each of queen, rook, bishop and knight |
| PawnProperties.WhitePawnSourcesOfA8 | Board.cs:247 | as written, the arithmetic right shift of A8's mask fills the top bits, so a white pawn on a7 is taken to attack a8 from behind |
| PawnProperties.WhitePawnSourcesCorrectedOfA8 | Board.cs:247 | with an unsigned shift the only square a white pawn attacks a8 from is b7 |
| PawnProperties.WhitePawnSourcesAgreeBelowA8 | Board.cs:247 | for every square below a8 the as-written and the corrected pawn terms agree |
| Killers.HoleFrom | Brain.cs:182-189 | the search from slot `from` stops at the first slot holding the killer, or at the last slot when none after `from` does |
| Killers.HoleIndex | Brain.cs:181-189 | the hole is the first slot holding the new killer, or the last slot when the table does not hold it |
| Killers.KillerShift | Brain.cs:191-196 | slot by slot after `SetKiller`: the new killer in slot 0, the killers before the hole one slot further down, the slots after the hole untouched, the length kept |
| Killers.PresentKillerPermutes | Brain.cs:179-197 | a killer already held only changes place: the table's multiset is unchanged |
| Killers.AbsentKillerDropsLast | Brain.cs:179-197 | a new killer goes in front and the oldest killer drops off the end |
| Killers.KillersStayDistinct | Brain.cs:179-197 | a table without repeated moves has none after a killer is recorded |
| Killers.KillerIdempotent | Brain.cs:179-197 | recording the same killer twice in a row leaves the table as one recording does |
| Killers.KillerMembers | Brain.cs:179-197 | with no repeats, the table afterwards holds exactly the new killer and the old killers, less the last one when the killer was new |
| PlyInfos.PlyInfo.constructor | PlyInfo.cs:14-24 | a new ply record holds a fresh empty board, `MaxPly` line slots and `KillerCount` killer slots all holding the empty move, a line length of 0 and no null move forbidden |
| PrincipalVariations.Spliced | Brain.cs:132-140 | the spliced line array keeps its length |
| PrincipalVariations.SplicedSlots | Brain.cs:132-140 | slot `ply` holds the move, slots strictly between `ply` and the child's length hold the child's moves, every other slot is unchanged |
| PrincipalVariations.SplicedLine | Brain.cs:132-140 | read from `ply` to the new length, the line is the move followed by the child's line, and the slots before `ply` are kept |
| PrincipalVariations.SplicedStep | Brain.cs:136-137 | one more turn of the copying loop extends the splice by exactly one slot of the child's line |
| PrincipalVariations.SplicedIdempotent | Brain.cs:132-140 | splicing the same move and child line a second time changes nothing |
| NullMovePruning.FloorSqrt | NullMoveBrain.cs:54-60 | `(int)Math.Sqrt(d)` for a non-negative depth: the `r` with `r * r <= d < (r + 1) * (r + 1)` |
| NullMovePruning.FloorSqrtUnique | NullMoveBrain.cs:54-60 | only one number satisfies that bracket, so the truncated square root is determined |
| NullMovePruning.FloorSqrtMonotone | NullMoveBrain.cs:54-60 | a larger depth never has a smaller square root |
| NullMovePruning.NullMoveReduces | NullMoveBrain.cs:54-60 | the null-move search is always shallower than the full one, at least two plies deep above six remaining plies, and falls back to quiescence exactly at four plies or fewer |
| NullMovePruning.NullMoveDepthMonotone | NullMoveBrain.cs:54-60 | a deeper full search never gets a shallower null-move search, across the switch at six plies |
| Mtdf.ProbeInside | MTDfBrain.cs:25-28 | while the bounds are open the probe lies above the lower bound and at most at the upper bound, and `score + 1` does not wrap |
| Mtdf.NarrowingProgress | MTDfBrain.cs:23-36 | whatever a probe returns, the gap between the bounds shrinks strictly, neither bound moves outward, and the result lies within the new bounds |
| Mtdf.InitialBracket | MTDfBrain.cs:17-20 | the starting bounds `int.MinValue`, `int.MaxValue` bracket every guess |
| MoveOrdering.RemoveFirst | BasicAlphaBetaBrain.cs:203-209 | `List.Remove`: one element shorter when the move is listed, the list itself when it is not |
| MoveOrdering.RemoveFirstSplits | BasicAlphaBetaBrain.cs:203-209 | removal cuts the list at the first occurrence of the move |
| MoveOrdering.RemoveFirstMultiset | BasicAlphaBetaBrain.cs:203-209 | removal takes exactly one copy of the move out of the list's multiset |
| MoveOrdering.SwappedInMeaning | BasicAlphaBetaBrain.cs:203-209 | `SwapInIfLegal` keeps the multiset; a listed move goes to the front with the rest in its old order; an unlisted move leaves the list alone |
| MoveOrdering.SwappedInIdempotent | BasicAlphaBetaBrain.cs:203-209 | swapping in the same move again changes nothing |
| MoveOrdering.WithoutMembers | BasicAlphaBetaBrain.cs:185-188 | the moves left behind the killers are listed moves that are not killers |
| MoveOrdering.PresentMembers | BasicAlphaBetaBrain.cs:185-188 | the killers brought to the front are killers the list holds |
| MoveOrdering.KillersFirst | BasicAlphaBetaBrain.cs:185-188 | swapping in the killers from the last slot to the first puts the listed killers first in killer order, then the other moves in their generated order |
| MoveOrdering.KillersKeepMultiset | BasicAlphaBetaBrain.cs:185-188 | swapping in the killers never adds or loses a move |
| MoveOrdering.OrderedMoves | BasicAlphaBetaBrain.cs:180-194 | the ordered list is a permutation of the generated one: the table's move first when listed, then the listed killers in killer order, then the rest in generated order |
| Search.Brain.constructor | Brain.cs:17-25 | a brain of the given kind, its table sized from the megabytes and the entry size, `MaxPly + 1` fresh empty ply records, an empty scratch board, no nodes counted and no line |
| Search.NewPlies | Brain.cs:21-24 | `MaxPly + 1` new ply records, each holding an empty board and an empty line, apart from each other and from the scratch board |
| Search.Brain.UpdatePrincipalVariation | Brain.cs:132-140 | ply `ply`'s line array becomes the splice of the move and ply `ply + 1`'s line, its length becomes the child's, and no board changes |
| Search.SpliceLine | Brain.cs:134-137 | the array loop leaves the line array equal to `Spliced` of its old contents |
| Search.Brain.UndoMove | Brain.cs:142-145 | the scratch board becomes the ply's saved board with its game stage recomputed |
| Search.StageIdempotent | Brain.cs:142-145 | copying a copied board again gives the same position |
| Search.StageIgnoresSide | Brain.cs:142-145 | the game stage a copy recomputes does not depend on the side to move |
| Search.RestoredTransitive | Brain.cs:142-145 | a board restored from a restored board is restored from the original |
| Search.Brain.GenerateMovesBase | Brain.cs:147-168 | the check escapes when the side is in check, every move otherwise; mated exactly when in check with no escape |
| Search.Brain.GenerateMoves | BasicAlphaBetaBrain.cs:180-194 | mated exactly as the base generator says, with no moves then; otherwise the generated moves ordered by the ply's killers and the table's best move |
| Search.Brain.OrderMoves | BasicAlphaBetaBrain.cs:185-191 | the killers and then the table's move swapped in, as `Ordered` describes, with the scratch board unchanged |
| Search.SwapInKillers | BasicAlphaBetaBrain.cs:185-188 | the killer loop over the array, from the last slot down, computes `KillersSwappedIn` |
| Search.Brain.GenerateQuiescenceMoves | Brain.cs:170-177 | never mated, and the moves are the quiescence captures with queen promotions only |
| Search.Brain.SetKiller | Brain.cs:179-197 | the ply's killer array becomes `KillersAfter` of its old contents; nothing else the search reads changes |
| Search.HoleIsFirst | Brain.cs:181-189 | the slot where the first loop stops is the hole `HoleIndex` names |
| Search.Brain.EnterNode | BasicAlphaBetaBrain.cs:33-35 | one more node evaluated and the ply's line length reset to the ply |
| Search.Brain.SaveBoard | BasicAlphaBetaBrain.cs:68 | the ply's record holds a copy of the scratch board |
| Search.Brain.AlphaBetaSearch | BasicAlphaBetaBrain.cs:31-119 | the score is a legal score and agrees with how the node ended: beta at the ply limit; a table cut exactly when the table answers for this depth and window, with the table's raised beta for a lower bound and its alpha otherwise; a null-move cut at least beta; a mate the mate score from this ply; out of time within the window; a cutoff at least beta; no improvement exactly alpha; otherwise strictly inside the window; the node count grows and the scratch board is restored |
| Search.Brain.SearchBelowLimit | BasicAlphaBetaBrain.cs:39-119 | below the ply limit, the table answer, then the quiescence search at the horizon, then the expansion, each with the score its ending promises |
| Search.Brain.ConsultTable | BasicAlphaBetaBrain.cs:39-51 | the node is cut exactly when `Lookup` of the table's two slots answers; the score is the answer's beta for a lower bound and its alpha for an exact entry or an upper bound; an exact answer with a table move splices that move into the ply's line; otherwise the line is left as it was; the scratch board is untouched |
| Search.Brain.ExpandNode | BasicAlphaBetaBrain.cs:55-118 | with depth left the node ends by a null-move cut (null-move brain only), a mate, time running out, a cutoff, no improvement or an improvement, with the score that ending promises |
| Search.Brain.SearchNode | BasicAlphaBetaBrain.cs:58-118 | a side with no move out of check scores the mate from this ply; otherwise the move loop's ending and score, with the scratch board restored |
| Search.Brain.SearchMoves | BasicAlphaBetaBrain.cs:70-118 | the move loop ends out of time, by a cutoff, with alpha never raised (the ply's line then untouched) or with alpha raised inside the window |
| Search.Brain.CloseNode | BasicAlphaBetaBrain.cs:105-116 | an upper bound when alpha was never raised, otherwise an exact entry and a killer, and the ending says which |
| Search.Brain.SearchOneMove | BasicAlphaBetaBrain.cs:77-102 | one move fails high with a score at least beta, or leaves alpha within the window; the ply's line changes only when alpha rises; the scratch board is restored |
| Search.Brain.ScoreMove | BasicAlphaBetaBrain.cs:87-102 | fails high exactly when the score reaches beta, and then returns it; otherwise the new alpha is the larger of alpha and the score |
| Search.Brain.TryMove | BasicAlphaBetaBrain.cs:77-85 | a searched move has a legal score, and the scratch board is either untouched or back at the ply's saved board |
| Search.Brain.SearchChild | BasicAlphaBetaBrain.cs:83-85 | the child search counts at least one node, scores within range, and the move is taken back |
| Search.Brain.RecordCutoff | BasicAlphaBetaBrain.cs:89-92 | the move becomes the ply's newest killer as `KillersAfter` says, and no board changes |
| Search.Brain.PassTurn | NullMoveBrain.cs:20-21 | only the scratch board's side to move flips, and the next ply's null-move flag is set as given |
| Search.Brain.SkipNullMove | NullMoveBrain.cs:46-52 | no null move exactly when the ply forbids one or the side to move is in check |
| Search.Brain.CanPrune | NullMoveBrain.cs:15-44 | only the null-move brain prunes, and only in time with a score at least beta; the other brains neither prune nor count a node; the scratch board is restored |
| Search.Brain.NullMovePrune | NullMoveBrain.cs:20-44 | prunes exactly when the search is still in time and the null-move score reaches beta |
| Search.Brain.NullMoveSearch | NullMoveBrain.cs:20-30 | the null-move search counts nodes, scores within range, clears the next ply's flag again and restores the scratch board |
| Search.Brain.NullWindowChild | NullMoveBrain.cs:23-27 | the reduced search (full or quiescence by depth) counts nodes and scores within range |
| Search.Brain.QuiescenceSearch | BasicAlphaBetaBrain.cs:121-177 | the score is at least alpha and agrees with how the node ended: beta at the ply limit; below it, exactly beta if and only if the static score reaches beta; a capture's score at least beta; otherwise at least the static score and inside the window |
| Search.Brain.QuiescenceCaptures | BasicAlphaBetaBrain.cs:137-176 | the capture loop ends by a cutoff or with the best score inside the window |
| Search.Brain.QuiescenceMoves | BasicAlphaBetaBrain.cs:142-176 | a capture reaching beta ends the loop; otherwise alpha stays inside the window |
| Search.Brain.QuiescenceOneMove | BasicAlphaBetaBrain.cs:144-173 | a capture that cannot reach alpha by its material gain plus a pawn is skipped and leaves alpha; otherwise it fails high at beta or leaves alpha inside the window |
| Search.Brain.ScoreCapture | BasicAlphaBetaBrain.cs:166-173 | fails high exactly when the score reaches beta, and then returns it; otherwise the larger of alpha and the score |
| Search.Brain.Search | BasicAlphaBetaBrain.cs:17-23 | a score within range; the plain and null-move brains always search at least one node |
| Search.Brain.MtdfSearch | MTDfBrain.cs:15-39 | the score is `MinScore`, the point where the probes would leave the window; otherwise the loop ended with the bounds met and the score one of them |
| Search.Brain.NullWindowProbe | MTDfBrain.cs:30 | one null-window search at the root counts nodes and scores within range |
| Search.Brain.AnalyzeOurBoard | TranspositionTableBrain.cs:16-45 | in time, the deepening stops only at a mate score, after at least one round, with the best move the first move of the published line; out of time in the first round, the published results are the ones from before |
| Search.Brain.Deepen | TranspositionTableBrain.cs:26-43 | out of time the round ends the analysis and the published score, best move and line are left as they were; in time the round's score is published and the deepening stops only at a mate |
| Search.Brain.Publish | TranspositionTableBrain.cs:30-35 | the score, the first move of the root line as best move, and the root line up to its length as the principal variation |
| Search.Brain.StuffPrincipalVariation | TranspositionTableBrain.cs:47-59 | at the end of the root line the scratch board is untouched; before it the board is back at the ply's saved board |

## Left out

- `TimeControl.cs`, `TestSuite.cs` and `Program.cs` are not part of this model: they hold timers, file and console I/O, thread synchronisation and the entry point. Of `Utility.cs` only `Split` is modelled, as `Setup.Split`; the ASCII encoder is left out.
- The threading and event parts of `Brain.cs` are left out: `StartGame`, `StopGame`, `Analyze`, pondering, `ThinkAboutGame`, `ForceMove`, `ReportSearchInformation` and `DisplayScore`. Time running out is the node budget described above.
- Random Zobrist key generation and `Marshal.SizeOf` are left out. The keys and the entry size are parameters.
- `Math.Sqrt` in `NullMoveSearchDepth` is `NullMovePruning.FloorSqrt`, the integer floor square root it computes on the non-negative depths the search passes. Floating point is not modelled.
- `BitOperations.DrawBits` (console output), `Board.Check` (no effect), `Move.FromAlgebraic` (returns the empty move) and `Move.GetHashCode` (runtime hashing) are left out.
- The diagonal attack tables `AttacksRotated45` and `AttacksRotated135` are computed by the model as the source builds them. Unlike the rank and file tables, they carry no lemma about which squares they hold.
- `IsLegal` is modelled exactly as written. The source marks its en-passant and castling exceptions as still to do. `Positions.IsLegalMeaning` states what it checks; no property of chess legality is claimed for it.
- The evaluator is fixed to the material evaluator, `MaterialEvaluation.Evaluate`. The source's `Brain` takes any `StaticEvaluator` (Brain.cs:17-19), and its program runs a piece-square evaluator, which is not part of this model. Only the mate-score arithmetic of `StaticEvaluator.cs` is shared by all evaluators, and it is modelled.
- `EnumerateCheckEscapes` yields the same moves, in the same order, as `GenerateCheckEscapes`, so the model uses one definition for both. The enumerators are sequence functions, not iterators.
- Each search node builds its move list as a local sequence. The model does not write it into `PlyInfo.Moves`: every generator clears that list before filling it, so its earlier contents never matter.
- `Search.Brain.TryMove` skips a move whose squares are off the board before making it. `Search.Brain.QuiescenceOneMove` skips the delta-pruning test for such a move, and `Search.Brain.StuffPrincipalVariation` stores it without playing it. The source has none of these tests. They stand there because the board model demands squares on the board, and every move the generators and the table hand to the search passes them.
- `Search.Brain.Search`: the MTD(f) brain requires the score guess to be a legal score. The source starts with 0 and then passes only search results.
- `Search.Brain.MtdfSearch`: a probe whose search ran out of time still narrows the bounds, as in the source. The model does not state anything about such a probe's value beyond its range.
- `Search.Brain.MtdfSearch` stops with the score `MinScore` when the next probe's beta would be `MinScore` (MTDfBrain.cs:25-30). The source runs one more probe there, `AlphaBetaSearch(int.MinValue, int.MinValue + 1, ...)`, and returns its result. That window starts at `int.MinValue`, whose negation wraps around in 32-bit arithmetic, so the alpha-beta search's own promises do not hold for it. It arises once a probe returns `MinScore` below its beta, as the stopped searches of a round out of time can.
- `Search.Brain.AlphaBetaSearch`: the contract states the score, how the node ended, the node count, the ply's line and the restored scratch board. It does not state the transposition table's contents after the search.
- `Search.Brain.PlayMove` states only whether the mover's king is left in check. The new board itself is what `Boards.Board.MakeMove` states.
- `Search.Brain.NodeMoves` is `GenerateMoves` as the search sees it. It states only that the scratch board is unchanged; the move list itself is what `Search.Brain.GenerateMoves` states.
- `Search.Brain.NodeCaptures` is `GenerateQuiescenceMoves` as the search sees it. It states nothing about the list; the list itself is what `Search.Brain.GenerateQuiescenceMoves` states.
- `Search.Brain.StorePosition` states what stays unchanged. The table's new contents are what `TranspositionTables.TranspositionTable.AddPosition` states.
- `Search.Brain.AnalyzeOurBoard` ties the published line to the best move and the mate score only when the deepening stops in time. It states neither the reset of the node count nor the `SetStale` call: the node count is a bookkeeping value the budget reads, and the stale marks are what `TranspositionTables.TranspositionTable.SetStale` states. That an interrupted round leaves the results of the last finished round is stated round by round, by `Search.Brain.Deepen`; across rounds only the first round's case is stated.
- `Search.Brain.StuffPrincipalVariation` states the scratch board after the recursion. It does not state the `Junk` entries it stores.

## Findings

The model keeps each of these behaviours as written, and every other member describes the program as it is. Each corrected member proves the evidently intended property; no other member uses the corrected definition.

| source | as written | input that shows it | evidently intended | confidence | as-written member | corrected member |
|---|---|---|---|---|---|---|
| BitOperations.cs:39 | `PopulationCount` loops `while (b > 0)` on a signed 64-bit board, so a board with bit 63 (a8) set counts as 0. The material evaluator then ignores every piece board holding a8. | a black rook on a8: the black rook board is `0x8000000000000000` and counts 0 | the number of set bits (`b != 0`) | not executed | BitOperations.PositiveLoopCountMissesA8 | BitOperations.PopulationCountCorrected |
| Board.cs:247 | the white-pawn term of `WhiteAttacks` shifts `SquareMask[sq] & ZeroRight` right by 9 with the sign-extending `>>`, so for a8 the term fills the top ten bits | a white pawn on a7 (square 55) is reported as attacking a8 | an unsigned shift: for a8 only a pawn on b7 | not executed | PawnProperties.WhitePawnSourcesOfA8 | PawnProperties.WhitePawnSourcesCorrectedOfA8 |
| Board.cs:89-109 | `SetBoard` computes the castling rights from the third FEN field into a local and never stores it, so every board built from FEN has no castling rights | the start position's FEN with castling field `KQkq` | the rights the field grants | not executed | Setup.FromFENDropsCastling | Setup.SetBoardCorrected |
| MoveGenerator.cs:954-963 | the brace-less `if` guards only the block-square assignment, and only for pawn and knight checkers; for a slider the block map stays 0 and no interposition is generated | a single rook check with an empty square between rook and king | interpositions on the squares between king and slider | not executed | EscapeProperties.SliderCheckNotBlocked | EscapeProperties.CorrectedEscapesExtend |
| TranspositionTable.cs:239-261 | `CastleModifier` is allocated and XORed in for every right held, but never filled, so it stays all zeros and the castling rights never reach the hash | two positions that differ only in White's king-side right hash alike, and a table entry for one answers for the other | four keys of their own, filled like the square/piece and en-passant keys | not executed | Zobrist.HashIgnoresCastling | Zobrist.CastleRightKeyedCorrected |
| TranspositionTable.cs:58-60 | `improvesBound` lets an upper bound replace a stored entry only when that entry is a lower bound | a stored upper bound 50 and a new upper bound 20 at the same depth: the tighter bound is dropped; a stored lower bound 50 and a new upper bound 20: the lower bound is lost | an upper bound improves a stored upper bound by being lower | not executed | TranspositionTables.UpperBoundNeverTightened | TranspositionTables.TighterBoundReplacesCorrected |
