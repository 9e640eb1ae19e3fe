/**
 * The transposition table: two arrays of entries of the same length, a
 * depth-preferred "global" table and an always-replace "local" one. A
 * position's key is its hash for White to move and the complemented hash
 * for Black; its slot in either table is the key modulo the length.
 *
 * Each operation is a method on the arrays whose new state is a function
 * of the old slots (`GlobalAfter`, `LocalAfter`, `Probe`, `Lookup`,
 * `BestMove`); the replacement policy and what a probe may conclude are
 * lemmas about those functions.
 */
module TranspositionTables {
  import opened Globals
  import opened Zobrist
  import opened Moves
  import opened StaticEvaluator
  import opened Boards

  datatype EntryType = Junk | LowerBound | Exact | UpperBound

  datatype HashEntry = HashEntry(hashKey: UInt64, move: Move, score: Int32, searchDepth: Int32,
                                 entryType: EntryType, isStale: bool)

  /** The value of a slot never written: C#'s default for the struct. */
  const DefaultEntry: HashEntry := HashEntry(0, Moves.Empty, 0, 0, Junk, false)

  /** What every stored score satisfies: it came out of `RemovePlyDependence`, or is the default zero. */
  predicate Storable(e: HashEntry)
  {
    e.score != Int32Min
  }

  /** The key under which a position with hash `hashKey` is stored for `side` to move. */
  function TableKey(hashKey: UInt64, side: Side): (r: UInt64)
    ensures side == White ==> r == hashKey
    ensures side == Black ==> r + hashKey == TwoTo64 - 1
  {
    if side == White then hashKey else Complement(hashKey)
  }

  /** The slot of key `key` in a table of `length` entries. */
  function Slot(key: UInt64, length: int): (r: nat)
    requires length > 0
    ensures r < length
  {
    key % length
  }

  /** The entry `AddPosition` writes, with its score made ply-independent. */
  function NewEntry(key: UInt64, move: Move, score: Int32, searchDepth: Int32, entryType: EntryType): (e: HashEntry)
    requires score != Int32Min
    ensures Storable(e) && !e.isStale && e.hashKey == key && e.searchDepth == searchDepth && e.entryType == entryType
    ensures !IsMate(score) ==> e.score == score
  {
    HashEntry(key, move, RemovePlyDependence(score), searchDepth, entryType, false)
  }

  // ----------------------------------------------------------- AddPosition

  /** The new entry searched deeper, or as deep with an exact score. */
  predicate IsMoreValuable(e: HashEntry, g: HashEntry)
  {
    e.searchDepth > g.searchDepth || (e.searchDepth == g.searchDepth && e.entryType == Exact)
  }

  /**
   * At equal depth, a higher lower bound over a lower bound, or (as
   * written) an upper bound below the score of a lower bound.
   */
  predicate ImprovesBound(e: HashEntry, g: HashEntry)
  {
    e.searchDepth == g.searchDepth &&
    ((e.entryType == LowerBound && g.entryType == LowerBound && e.score > g.score) ||
     (e.entryType == UpperBound && g.entryType == LowerBound && e.score < g.score))
  }

  /** The global slot after storing `e` where `g` was. */
  function GlobalAfter(g: HashEntry, e: HashEntry): HashEntry
  {
    if g.isStale then e
    else if g.hashKey == e.hashKey then (if IsMoreValuable(e, g) || ImprovesBound(e, g) then e else g)
    else if IsMoreValuable(e, g) then e
    else g
  }

  /** The local slot after storing `e` where the global slot held `g` and the local one `l`. */
  function LocalAfter(g: HashEntry, l: HashEntry, e: HashEntry): HashEntry
  {
    if g.isStale || g.hashKey == e.hashKey then l
    else if IsMoreValuable(e, g) then g
    else e
  }

  // ---------------------------------------------------------- LookupPosition

  datatype ProbeResult = ProbeResult(kind: EntryType, alpha: Int32, beta: Int32)

  /** One table's answer for the entry `entry` in the key's slot, and the window it leaves. */
  function Probe(entry: HashEntry, key: UInt64, desiredDepth: Int32, currentPly: Int32, alpha: Int32, beta: Int32): ProbeResult
    requires Storable(entry)
  {
    if entry.hashKey != key || entry.searchDepth < desiredDepth then ProbeResult(Junk, alpha, beta)
    else
      var score := AddPlyDependence(entry.score, currentPly);
      match entry.entryType
      case LowerBound => if score >= beta then ProbeResult(LowerBound, alpha, score) else ProbeResult(Junk, alpha, beta)
      case Exact => ProbeResult(Exact, score, beta)
      case UpperBound => if score <= alpha then ProbeResult(UpperBound, score, beta) else ProbeResult(Junk, alpha, beta)
      case Junk => ProbeResult(Junk, alpha, beta)
  }

  /** The global table's answer, or the local table's when the global one says `Junk`. */
  function Lookup(g: HashEntry, l: HashEntry, key: UInt64, desiredDepth: Int32, currentPly: Int32, alpha: Int32, beta: Int32): ProbeResult
    requires Storable(g) && Storable(l)
  {
    var r := Probe(g, key, desiredDepth, currentPly, alpha, beta);
    if r.kind == Junk then Probe(l, key, desiredDepth, currentPly, r.alpha, r.beta) else r
  }

  /** A probe marks a matching entry fresh and leaves any other alone. */
  function Touched(entry: HashEntry, key: UInt64): HashEntry
  {
    if entry.hashKey == key then entry.(isStale := false) else entry
  }

  // ------------------------------------------------------------ GetBestMove

  /**
   * The global entry's move when its key matches, replaced by the local
   * entry's move when that key matches too, the move is not empty and it
   * was searched deeper than the global entry, whatever that entry's key.
   */
  function BestMove(g: HashEntry, l: HashEntry, key: UInt64): Move
  {
    var move := if g.hashKey == key then g.move else Moves.Empty;
    if l.hashKey == key && l.move != Moves.Empty && l.searchDepth > g.searchDepth then l.move else move
  }

  /** Marking entries fresh does not change the move they give. */
  lemma BestMoveIgnoresFreshness(g: HashEntry, l: HashEntry, l': HashEntry, key: UInt64)
    requires l' == l || l' == Touched(l, key)
    ensures BestMove(Touched(g, key), l', key) == BestMove(g, l, key)
  {
  }

  // ------------------------------------------------------------- the class

  class TranspositionTable {
    const globalTable: array<HashEntry>
    const localTable: array<HashEntry>

    /** Two distinct non-empty arrays of the same length whose scores can all be re-expanded. */
    predicate Valid()
      reads this, globalTable, localTable
    {
      globalTable != localTable && globalTable.Length > 0 && localTable.Length == globalTable.Length &&
      (forall i :: 0 <= i < globalTable.Length ==> Storable(globalTable[i])) &&
      (forall i :: 0 <= i < localTable.Length ==> Storable(localTable[i]))
    }

    /**
     * `size` bytes at `entrySize` bytes an entry make `Max(2, size / entrySize)`
     * entries, half in each table, every slot at its default value.
     */
    constructor (size: Int32, entrySize: Int32)
      requires entrySize > 0
      ensures Valid() && fresh(globalTable) && fresh(localTable)
      ensures globalTable.Length == Max(2, TruncatedDivision(size, entrySize)) / 2
      ensures forall i :: 0 <= i < globalTable.Length ==> globalTable[i] == DefaultEntry && localTable[i] == DefaultEntry
    {
      var count := Max(2, TruncatedDivision(size, entrySize));
      globalTable := new HashEntry[count / 2](_ => DefaultEntry);
      localTable := new HashEntry[count / 2](_ => DefaultEntry);
    }

    /** Every global entry becomes stale; the local table is untouched. */
    method SetStale()
      requires Valid()
      modifies globalTable
      ensures Valid()
      ensures forall i :: 0 <= i < globalTable.Length ==> globalTable[i] == old(globalTable[i]).(isStale := true)
    {
      var i := 0;
      while i < globalTable.Length
        invariant 0 <= i <= globalTable.Length
        invariant forall j :: 0 <= j < i ==> globalTable[j] == old(globalTable[j]).(isStale := true)
        invariant forall j :: i <= j < globalTable.Length ==> globalTable[j] == old(globalTable[j])
      {
        globalTable[i] := globalTable[i].(isStale := true);
        i := i + 1;
      }
    }

    /**
     * Stores the search result for `board` with `currentSide` to move in
     * the key's global slot or local slot, as `GlobalAfter` and
     * `LocalAfter` decide. The ply is not used.
     */
    method AddPosition(board: Board, bestMove: Move, score: Int32, searchDepth: Int32, currentPly: Int32,
                       currentSide: Side, entryType: EntryType)
      requires Valid() && score != Int32Min
      modifies globalTable, localTable
      ensures Valid()
      ensures
        var key := TableKey(board.hashKey, currentSide);
        var gi := Slot(key, globalTable.Length);
        var li := Slot(key, localTable.Length);
        var e := NewEntry(key, bestMove, score, searchDepth, entryType);
        globalTable[..] == old(globalTable[..])[gi := GlobalAfter(old(globalTable[gi]), e)] &&
        localTable[..] == old(localTable[..])[li := LocalAfter(old(globalTable[gi]), old(localTable[li]), e)]
    {
      var stored := RemovePlyDependence(score);
      var hashKey := TableKey(board.hashKey, currentSide);
      var globalIndex := hashKey % globalTable.Length;
      var localIndex := hashKey % localTable.Length;
      var globalEntry := globalTable[globalIndex];
      var entry := HashEntry(hashKey, bestMove, stored, searchDepth, entryType, false);

      if globalEntry.isStale {
        globalTable[globalIndex] := entry;
      } else {
        var isMoreValuable := searchDepth > globalEntry.searchDepth ||
                              (searchDepth == globalEntry.searchDepth && entryType == Exact);
        if globalEntry.hashKey == hashKey {
          var improvesBound := searchDepth == globalEntry.searchDepth &&
            ((entryType == LowerBound && globalEntry.entryType == LowerBound && stored > globalEntry.score) ||
             (entryType == UpperBound && globalEntry.entryType == LowerBound && stored < globalEntry.score));
          if isMoreValuable || improvesBound {
            globalTable[globalIndex] := entry;
          }
        } else {
          if isMoreValuable {
            globalTable[globalIndex] := entry;
            localTable[localIndex] := globalEntry;
          } else {
            localTable[localIndex] := entry;
          }
        }
      }
    }

    /**
     * `LookupPosition` on one table: the answer of `Probe` for the key's
     * slot, which is marked fresh when its key matches.
     */
    static method ProbeTable(table: array<HashEntry>, hashKey: UInt64, desiredDepth: Int32, currentPly: Int32,
                             alpha: Int32, beta: Int32)
      returns (result: EntryType, alpha': Int32, beta': Int32)
      requires table.Length > 0 && forall i :: 0 <= i < table.Length ==> Storable(table[i])
      modifies table
      ensures
        var i := Slot(hashKey, table.Length);
        ProbeResult(result, alpha', beta') == Probe(old(table[i]), hashKey, desiredDepth, currentPly, alpha, beta) &&
        table[..] == old(table[..])[i := Touched(old(table[i]), hashKey)]
    {
      alpha', beta' := alpha, beta;
      var tableIndex := hashKey % table.Length;
      if table[tableIndex].hashKey == hashKey {
        table[tableIndex] := table[tableIndex].(isStale := false);
        var score := AddPlyDependence(table[tableIndex].score, currentPly);
        if table[tableIndex].searchDepth < desiredDepth {
          return Junk, alpha', beta';
        }
        match table[tableIndex].entryType
        case LowerBound =>
          if score >= beta' {
            beta' := score;
            return LowerBound, alpha', beta';
          }
        case Exact =>
          alpha' := score;
          return Exact, alpha', beta';
        case UpperBound =>
          if score <= alpha' {
            alpha' := score;
            return UpperBound, alpha', beta';
          }
        case Junk =>
      }
      return Junk, alpha', beta';
    }

    /** Probes the global table, then the local one when the global answer is `Junk`. */
    method LookupPosition(board: Board, desiredDepth: Int32, currentPly: Int32, currentSide: Side, alpha: Int32, beta: Int32)
      returns (result: EntryType, alpha': Int32, beta': Int32)
      requires Valid()
      modifies globalTable, localTable
      ensures Valid()
      ensures
        var key := TableKey(board.hashKey, currentSide);
        var gi := Slot(key, globalTable.Length);
        var li := Slot(key, localTable.Length);
        ProbeResult(result, alpha', beta') ==
          Lookup(old(globalTable[gi]), old(localTable[li]), key, desiredDepth, currentPly, alpha, beta) &&
        globalTable[..] == old(globalTable[..])[gi := Touched(old(globalTable[gi]), key)] &&
        localTable[..] == (if Probe(old(globalTable[gi]), key, desiredDepth, currentPly, alpha, beta).kind == Junk
                           then old(localTable[..])[li := Touched(old(localTable[li]), key)] else old(localTable[..]))
    {
      var hashKey := TableKey(board.hashKey, currentSide);
      result, alpha', beta' := ProbeTable(globalTable, hashKey, desiredDepth, currentPly, alpha, beta);
      if result == Junk {
        result, alpha', beta' := ProbeTable(localTable, hashKey, desiredDepth, currentPly, alpha', beta');
      }
    }

    /** The move `BestMove` picks; a matching global entry is marked fresh. */
    method GetBestMove(board: Board, currentSide: Side) returns (move: Move)
      requires Valid()
      modifies globalTable
      ensures Valid()
      ensures
        var key := TableKey(board.hashKey, currentSide);
        var gi := Slot(key, globalTable.Length);
        move == BestMove(old(globalTable[gi]), localTable[Slot(key, localTable.Length)], key) &&
        globalTable[..] == old(globalTable[..])[gi := Touched(old(globalTable[gi]), key)]
    {
      var hashKey := TableKey(board.hashKey, currentSide);
      var globalIndex := hashKey % globalTable.Length;
      var localIndex := hashKey % localTable.Length;
      move := Moves.Empty;
      if globalTable[globalIndex].hashKey == hashKey {
        globalTable[globalIndex] := globalTable[globalIndex].(isStale := false);
        move := globalTable[globalIndex].move;
      }
      if localTable[localIndex].hashKey == hashKey {
        if localTable[localIndex].move != Moves.Empty && localTable[localIndex].searchDepth > globalTable[globalIndex].searchDepth {
          move := localTable[localIndex].move;
        }
      }
    }
  }

  // ----------------------------------------------------------------- lemmas

  /** White and Black to move never share a key: the key and its complement add up to an odd number. */
  lemma SidesNeverShareKey(hashKey: UInt64)
    ensures TableKey(hashKey, White) != TableKey(hashKey, Black)
  {
  }

  /** After `SetStale` the next store into a slot always lands in the global table, leaving the local one alone. */
  lemma StaleSlotOverwritten(g: HashEntry, l: HashEntry, e: HashEntry)
    ensures GlobalAfter(g.(isStale := true), e) == e
    ensures LocalAfter(g.(isStale := true), l, e) == l
  {
  }

  /**
   * A store lands in one of the two slots, unless the global slot holds a
   * fresh entry for the same key that is at least as valuable and that it
   * does not improve; then neither slot changes.
   */
  lemma StoredOrRejected(g: HashEntry, l: HashEntry, e: HashEntry)
    ensures var rejected := !g.isStale && g.hashKey == e.hashKey && !IsMoreValuable(e, g) && !ImprovesBound(e, g);
      (rejected ==> GlobalAfter(g, e) == g && LocalAfter(g, l, e) == l) &&
      (!rejected ==> GlobalAfter(g, e) == e || LocalAfter(g, l, e) == e)
  {
  }

  /**
   * The entry in the global slot is lost only when it is stale or holds
   * the same key; otherwise it stays there or moves to the local slot.
   */
  lemma DisplacedEntryKept(g: HashEntry, l: HashEntry, e: HashEntry)
    requires !g.isStale && g.hashKey != e.hashKey
    ensures GlobalAfter(g, e) == g || LocalAfter(g, l, e) == g
    ensures GlobalAfter(g, e) == e || LocalAfter(g, l, e) == e
  {
  }

  /**
   * As written, a tighter upper bound for the same position at the same
   * depth never replaces a stored upper bound: the test for it looks for
   * a stored lower bound.
   */
  lemma UpperBoundNeverTightened(g: HashEntry, l: HashEntry, e: HashEntry)
    requires !g.isStale && g.hashKey == e.hashKey && g.searchDepth == e.searchDepth
    requires g.entryType == UpperBound && e.entryType == UpperBound
    ensures GlobalAfter(g, e) == g && LocalAfter(g, l, e) == l
  {
  }

  /**
   * As written, an upper bound below a stored lower bound of the same
   * position and depth replaces it, although the two bounds contradict
   * each other.
   */
  lemma UpperBoundDisplacesLowerBound(g: HashEntry, l: HashEntry, e: HashEntry)
    requires !g.isStale && g.hashKey == e.hashKey && g.searchDepth == e.searchDepth
    requires g.entryType == LowerBound && e.entryType == UpperBound && e.score < g.score
    ensures GlobalAfter(g, e) == e && LocalAfter(g, l, e) == l
  {
  }

  /**
   * `improvesBound` as evidently intended: a bound improves a stored bound
   * of the same type and depth when it is tighter, a lower bound by being
   * higher and an upper bound by being lower.
   */
  predicate ImprovesBoundCorrected(e: HashEntry, g: HashEntry)
  {
    e.searchDepth == g.searchDepth &&
    ((e.entryType == LowerBound && g.entryType == LowerBound && e.score > g.score) ||
     (e.entryType == UpperBound && g.entryType == UpperBound && e.score < g.score))
  }

  /** The global slot after storing `e` where `g` was, with the corrected bound test. */
  function GlobalAfterCorrected(g: HashEntry, e: HashEntry): HashEntry
  {
    if g.isStale then e
    else if g.hashKey == e.hashKey then (if IsMoreValuable(e, g) || ImprovesBoundCorrected(e, g) then e else g)
    else if IsMoreValuable(e, g) then e
    else g
  }

  /**
   * With the corrected test, a live entry of the same position and depth
   * that is not more valuable is replaced exactly when the new entry is a
   * tighter bound of the same type: in particular a lower upper bound
   * replaces a stored upper bound.
   */
  lemma TighterBoundReplacesCorrected(g: HashEntry, e: HashEntry)
    requires !g.isStale && g.hashKey == e.hashKey && g.searchDepth == e.searchDepth && e.entryType != Exact
    ensures GlobalAfterCorrected(g, e) == e <==>
      e == g ||
      (e.entryType == g.entryType &&
       (e.entryType == LowerBound ==> e.score > g.score) &&
       (e.entryType == UpperBound ==> e.score < g.score) &&
       e.entryType != Junk)
  {
  }

  /**
   * What a probe concludes: any answer but `Junk` comes from an entry with
   * the key, searched at least as deep, of that type; a lower bound only
   * raises beta, an upper bound only lowers alpha, `Junk` leaves the
   * window alone.
   */
  lemma ProbeWindow(entry: HashEntry, key: UInt64, desiredDepth: Int32, currentPly: Int32, alpha: Int32, beta: Int32)
    requires Storable(entry)
    ensures var r := Probe(entry, key, desiredDepth, currentPly, alpha, beta);
      (r.kind != Junk ==> entry.hashKey == key && entry.searchDepth >= desiredDepth && entry.entryType == r.kind) &&
      (r.kind == Junk ==> r.alpha == alpha && r.beta == beta) &&
      (r.kind == LowerBound ==> r.alpha == alpha && r.beta >= beta) &&
      (r.kind == UpperBound ==> r.beta == beta && r.alpha <= alpha) &&
      (r.kind == Exact ==> r.beta == beta)
  {
  }

  /**
   * A probe cuts off exactly when the entry has the key and the depth and
   * is exact, a lower bound at least beta, or an upper bound at most
   * alpha, once re-expanded at the current ply.
   */
  lemma ProbeHits(entry: HashEntry, key: UInt64, desiredDepth: Int32, currentPly: Int32, alpha: Int32, beta: Int32)
    requires Storable(entry)
    ensures var score := AddPlyDependence(entry.score, currentPly);
      Probe(entry, key, desiredDepth, currentPly, alpha, beta).kind != Junk <==>
        entry.hashKey == key && entry.searchDepth >= desiredDepth &&
        (entry.entryType == Exact || (entry.entryType == LowerBound && score >= beta) ||
         (entry.entryType == UpperBound && score <= alpha))
  {
  }

  /** An entry of type `Junk` never cuts off, nor does staleness ever matter to a probe. */
  lemma JunkNeverCutsOff(entry: HashEntry, key: UInt64, desiredDepth: Int32, currentPly: Int32, alpha: Int32, beta: Int32, stale: bool)
    requires Storable(entry)
    ensures entry.entryType == Junk ==> Probe(entry, key, desiredDepth, currentPly, alpha, beta) == ProbeResult(Junk, alpha, beta)
    ensures Probe(entry.(isStale := stale), key, desiredDepth, currentPly, alpha, beta) ==
            Probe(entry, key, desiredDepth, currentPly, alpha, beta)
  {
  }

  /** The local table is consulted only when the global one answers `Junk`. */
  lemma LocalOnlyOnJunk(g: HashEntry, l: HashEntry, key: UInt64, desiredDepth: Int32, currentPly: Int32, alpha: Int32, beta: Int32)
    requires Storable(g) && Storable(l)
    ensures var r := Probe(g, key, desiredDepth, currentPly, alpha, beta);
      r.kind != Junk ==> Lookup(g, l, key, desiredDepth, currentPly, alpha, beta) == r
    ensures var r := Probe(g, key, desiredDepth, currentPly, alpha, beta);
      r.kind == Junk ==> Lookup(g, l, key, desiredDepth, currentPly, alpha, beta) == Probe(l, key, desiredDepth, currentPly, alpha, beta)
  {
    ProbeWindow(g, key, desiredDepth, currentPly, alpha, beta);
  }

  /**
   * Within the search's plies, a lookup never answers with `Int32Min`; a
   * lower bound only raises beta, an upper bound only lowers alpha, and
   * `Junk` leaves the window alone.
   */
  lemma LookupWindow(g: HashEntry, l: HashEntry, key: UInt64, desiredDepth: Int32, currentPly: Int32, alpha: Int32, beta: Int32)
    requires Storable(g) && Storable(l) && 0 <= currentPly <= 1000
    requires alpha != Int32Min && beta != Int32Min
    ensures var r := Lookup(g, l, key, desiredDepth, currentPly, alpha, beta);
      r.alpha != Int32Min && r.beta != Int32Min &&
      (r.kind == Junk ==> r.alpha == alpha && r.beta == beta) &&
      (r.kind == LowerBound ==> r.alpha == alpha && r.beta >= beta) &&
      (r.kind == UpperBound ==> r.beta == beta && r.alpha <= alpha) &&
      (r.kind == Exact ==> r.beta == beta)
  {
    ProbeWindow(g, key, desiredDepth, currentPly, alpha, beta);
    ProbeWindow(l, key, desiredDepth, currentPly, alpha, beta);
    ExpandedNeverMin(g.score, currentPly);
    ExpandedNeverMin(l.score, currentPly);
  }

  /** A stored score re-expanded within the first thousand plies is never `Int32Min`. */
  lemma ExpandedNeverMin(score: Int32, ply: Int32)
    requires score != Int32Min && 0 <= ply <= 1000
    ensures AddPlyDependence(score, ply) != Int32Min
  {
  }

  /** The scores the round trip through the table gives back unchanged at `ply`. */
  predicate Recoverable(score: Int32, ply: Int32)
  {
    score != Int32Min &&
    (!IsMate(score) || (0 <= ply && (score == MateScoreFromPly(ply) || score == -MateScoreFromPly(ply))))
  }

  /**
   * An exact score stored at some depth is found again by a probe for the
   * same key at no greater depth, and comes back as the score stored:
   * mate scores are re-expanded for the ply they were stored at.
   */
  lemma ExactStoredFound(key: UInt64, move: Move, score: Int32, searchDepth: Int32, desiredDepth: Int32,
                         ply: Int32, alpha: Int32, beta: Int32)
    requires Recoverable(score, ply) && desiredDepth <= searchDepth
    ensures Probe(NewEntry(key, move, score, searchDepth, Exact), key, desiredDepth, ply, alpha, beta) ==
            ProbeResult(Exact, score, beta)
  {
    if IsMate(score) {
      PlyDependenceRoundTrip(ply);
    } else {
      NonMatePassesThrough(score, ply);
    }
  }

  /**
   * After `SetStale`, storing an exact score and looking the same position
   * up at the same ply and no greater depth returns that exact score.
   */
  lemma StoreThenLookup(g: HashEntry, l: HashEntry, key: UInt64, move: Move, score: Int32, searchDepth: Int32,
                        desiredDepth: Int32, ply: Int32, alpha: Int32, beta: Int32)
    requires Storable(g) && Storable(l) && Recoverable(score, ply) && desiredDepth <= searchDepth
    ensures var e := NewEntry(key, move, score, searchDepth, Exact);
      var stale := g.(isStale := true);
      Lookup(GlobalAfter(stale, e), LocalAfter(stale, l, e), key, desiredDepth, ply, alpha, beta) ==
        ProbeResult(Exact, score, beta)
  {
    var e := NewEntry(key, move, score, searchDepth, Exact);
    StaleSlotOverwritten(g, l, e);
    ExactStoredFound(key, move, score, searchDepth, desiredDepth, ply, alpha, beta);
  }

  /** The best move is the empty move or the move of an entry stored under the key. */
  lemma BestMoveFromKey(g: HashEntry, l: HashEntry, key: UInt64)
    ensures var m := BestMove(g, l, key);
      m == Moves.Empty || (g.hashKey == key && m == g.move) || (l.hashKey == key && m == l.move)
    ensures g.hashKey == key && l.hashKey != key ==> BestMove(g, l, key) == g.move
    ensures g.hashKey != key && l.hashKey != key ==> BestMove(g, l, key) == Moves.Empty
  {
  }

  // ------------------------------------------------------------- arithmetic

  function Max(a: int, b: int): (r: int)
    ensures r >= a && r >= b && (r == a || r == b)
  {
    if a >= b then a else b
  }

  /** C#'s `/` on `int`, which truncates towards zero. */
  function TruncatedDivision(a: int, b: int): (r: int)
    requires b > 0
    ensures a >= 0 ==> r == a / b
    ensures a < 0 ==> r == -((-a) / b)
  {
    if a >= 0 then a / b else -((-a) / b)
  }
}
