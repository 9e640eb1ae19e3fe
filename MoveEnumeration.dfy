/**
 * The lazy move enumerators. Each per-piece enumerator runs the loop of
 * the matching generator with `yield return` in place of `moves.Add`, and
 * promotes to all four pieces, so its stream is the generator's list for
 * all promotions (`PieceMoves`, `PawnCaptureMoves(p, white, true)`, ...).
 * What is new is how `EnumerateAll` and `EnumerateCaptures` put the
 * streams together: castling first, then the rest chained with LINQ's
 * `Union`, which yields each distinct move once, at its first occurrence.
 * `EnumerateCheckEscapes` is the generator's code line for line, with the
 * same brace-less `if`; it is `CheckEscapes`.
 */
module MoveEnumeration {
  import opened Globals
  import opened BitOperations
  import opened Moves
  import opened Positions
  import BoardTables
  import opened MoveGeneration
  import MoveProperties
  import PawnProperties
  import Generators

  // ------------------------------------------------------ Enumerable.Union

  /** The elements of `s` that `seen` does not hold yet, appended to it in order, each once. */
  function AppendNew<T(==)>(seen: seq<T>, s: seq<T>): seq<T>
    decreases |s|
  {
    if s == [] then seen
    else AppendNew(if s[0] in seen then seen else seen + [s[0]], s[1..])
  }

  /** `a.Union(b)`: the distinct elements of `a`, then those of `b` not yielded yet. */
  function Union<T(==)>(a: seq<T>, b: seq<T>): seq<T>
  {
    AppendNew(AppendNew([], a), b)
  }

  /** Appending the new elements keeps `seen` as a prefix, adds no duplicate and loses nothing. */
  lemma {:induction false} AppendNewFacts<T>(seen: seq<T>, s: seq<T>)
    requires NoDuplicates(seen)
    ensures NoDuplicates(AppendNew(seen, s))
    ensures seen <= AppendNew(seen, s)
    ensures forall x :: x in AppendNew(seen, s) <==> x in seen || x in s
    decreases |s|
  {
    if s != [] {
      var next := if s[0] in seen then seen else seen + [s[0]];
      AppendNewFacts(next, s[1..]);
      assert forall x :: x in s <==> x == s[0] || x in s[1..];
    }
  }

  /** Over elements that are all new and distinct, appending the new ones is plain concatenation. */
  lemma {:induction false} AppendNewDistinct<T>(seen: seq<T>, s: seq<T>)
    requires NoDuplicates(seen + s)
    ensures AppendNew(seen, s) == seen + s
    decreases |s|
  {
    if s != [] {
      assert s[0] !in seen by {
        forall i | 0 <= i < |seen| ensures seen[i] != s[0] {
          assert (seen + s)[i] == seen[i] && (seen + s)[|seen|] == s[0];
        }
      }
      assert seen + s == (seen + [s[0]]) + s[1..];
      AppendNewDistinct(seen + [s[0]], s[1..]);
    }
  }

  /** The union has no duplicates and holds exactly the elements of both. */
  lemma UnionMembers<T>(a: seq<T>, b: seq<T>)
    ensures NoDuplicates(Union(a, b))
    ensures forall x :: x in Union(a, b) <==> x in a || x in b
  {
    AppendNewFacts([], a);
    AppendNewFacts(AppendNew([], a), b);
  }

  /** When no element repeats, the union is the concatenation. */
  lemma UnionOfDistinct<T>(a: seq<T>, b: seq<T>)
    requires NoDuplicates(a + b)
    ensures Union(a, b) == a + b
  {
    assert [] + a == a;
    assert NoDuplicates([] + a) by {
      forall i, j | 0 <= i < j < |a| ensures a[i] != a[j] {
        assert (a + b)[i] == a[i] && (a + b)[j] == a[j];
      }
    }
    AppendNewDistinct([], a);
    AppendNewDistinct(a, b);
  }

  /** The streams of `rest` one after another. */
  function Concat<T>(rest: seq<seq<T>>): seq<T>
  {
    if rest == [] then [] else rest[0] + Concat(rest[1..])
  }

  /** `first.Union(rest[0]).Union(rest[1])...`, the chain LINQ evaluates left to right. */
  function Chain<T(==)>(first: seq<T>, rest: seq<seq<T>>): seq<T>
    decreases |rest|
  {
    if rest == [] then first else Chain(Union(first, rest[0]), rest[1..])
  }

  /** A chain of at least one `Union` has no duplicates and holds exactly the elements of its streams. */
  lemma {:induction false} ChainMembers<T>(first: seq<T>, rest: seq<seq<T>>)
    requires rest != []
    ensures NoDuplicates(Chain(first, rest))
    ensures forall x :: x in Chain(first, rest) <==> x in first + Concat(rest)
    decreases |rest|
  {
    UnionMembers(first, rest[0]);
    if |rest| > 1 {
      ChainMembers(Union(first, rest[0]), rest[1..]);
    }
  }

  /** A chain of five `Union`s, the shape of `EnumerateCaptures`. */
  lemma ChainOfSix<T>(a: seq<T>, b: seq<T>, c: seq<T>, d: seq<T>, e: seq<T>, f: seq<T>)
    ensures NoDuplicates(Chain(a, [b, c, d, e, f]))
    ensures forall x :: x in Chain(a, [b, c, d, e, f]) <==> x in a + b + c + d + e + f
  {
    ChainMembers(a, [b, c, d, e, f]);
    ConcatFive(b, c, d, e, f);
  }

  /** A chain of ten `Union`s, the shape of the non-castling part of `EnumerateAll`. */
  lemma ChainOfEleven<T>(a: seq<T>, b: seq<T>, c: seq<T>, d: seq<T>, e: seq<T>, f: seq<T>,
                         g: seq<T>, h: seq<T>, i: seq<T>, j: seq<T>, k: seq<T>)
    ensures NoDuplicates(Chain(a, [b, c, d, e, f] + [g, h, i, j, k]))
    ensures forall x :: x in Chain(a, [b, c, d, e, f] + [g, h, i, j, k]) <==>
      x in a + b + c + d + e + f || x in g + h + i + j + k
  {
    ChainMembers(a, [b, c, d, e, f] + [g, h, i, j, k]);
    ConcatAppend([b, c, d, e, f], [g, h, i, j, k]);
    ConcatFive(b, c, d, e, f);
    ConcatFive(g, h, i, j, k);
  }

  // ---------------------------------------------------------- the streams

  /** The moves `EnumerateAll` and `EnumerateCaptures` emit first and second: castling, then captures as chained. */
  function CaptureStreams(p: Position, white: bool): seq<seq<Move>>
    requires WellFormed(p)
  {
    [PawnCaptureMoves(p, white, true), EnPassantMoves(p, white), PieceMoves(p, RooksQueens, white, true),
     PieceMoves(p, BishopsQueens, white, true), KingMoves(p, white, true)]
  }

  /** The quiet streams `EnumerateAll` chains after the captures. */
  function QuietStreams(p: Position, white: bool): seq<seq<Move>>
    requires WellFormed(p)
  {
    [PieceMoves(p, Knights, white, false), KingMoves(p, white, false), PawnQuietMoves(p, white),
     PieceMoves(p, RooksQueens, white, false), PieceMoves(p, BishopsQueens, white, false)]
  }

  /**
   * `EnumerateAll`: king-side then queen-side castling when allowed, then
   * the knight captures united with the pawn captures, the en-passant
   * captures, and so on through the quiet moves.
   */
  function EnumerateAll(p: Position): seq<Move>
    requires WellFormed(p)
  {
    var white := p.side == White;
    CastlingMoves(p, white) + Chain(PieceMoves(p, Knights, white, true), CaptureStreams(p, white) + QuietStreams(p, white))
  }

  /** `EnumerateCaptures`: the capture streams of `EnumerateAll`, chained the same way. */
  function EnumerateCaptures(p: Position): seq<Move>
    requires WellFormed(p)
  {
    var white := p.side == White;
    Chain(PieceMoves(p, Knights, white, true), CaptureStreams(p, white))
  }

  lemma ConcatFive<T>(a: seq<T>, b: seq<T>, c: seq<T>, d: seq<T>, e: seq<T>)
    ensures Concat([a, b, c, d, e]) == a + b + c + d + e
  {
    assert [e][1..] == [];
    assert Concat([e]) == e;
    assert [d, e][1..] == [e];
    assert Concat([d, e]) == d + e;
    assert [c, d, e][1..] == [d, e];
    assert Concat([c, d, e]) == c + d + e;
    assert [b, c, d, e][1..] == [c, d, e];
    assert Concat([b, c, d, e]) == b + c + d + e;
    assert [a, b, c, d, e][1..] == [b, c, d, e];
  }

  lemma {:induction false} ConcatAppend<T>(r: seq<seq<T>>, t: seq<seq<T>>)
    ensures Concat(r + t) == Concat(r) + Concat(t)
    decreases |r|
  {
    if r == [] {
      assert r + t == t;
    } else {
      assert (r + t)[0] == r[0] && (r + t)[1..] == r[1..] + t;
      ConcatAppend(r[1..], t);
      assert Concat(r + t) == r[0] + (Concat(r[1..]) + Concat(t));
    }
  }

  // ------------------------------------------------------ the moves emitted

  predicate IsCastling(m: Move)
  {
    m.modifier == KingSideCastle || m.modifier == QueenSideCastle
  }

  /**
   * A move of an enumerator stream other than castling: no castling
   * modifier; and a move of a capture stream takes an enemy piece, is an
   * en-passant capture or promotes.
   */
  predicate IsStreamMove(p: Position, white: bool, capture: bool, m: Move)
    requires WellFormed(p)
  {
    !IsCastling(m) &&
    (capture ==> m.modifier == EnPassant || m.promotionPiece != NoPiece ||
                 (0 <= m.toSquare < 64 && Has(EnemySet(p, white), m.toSquare)))
  }

  lemma PieceStreamMove(p: Position, mover: Mover, white: bool, capture: bool, m: Move)
    requires WellFormed(p) && m in PieceMoves(p, mover, white, capture)
    ensures IsStreamMove(p, white, capture, m)
    ensures m.promotionPiece == NoPiece
  {
    MoveProperties.PieceMovesMembers(p, mover, white, capture, m);
    KeptTargetIsStreamMove(p, white, capture, MoverPiece(p, mover, white, m.fromSquare), MoverTargets(p, mover, m.fromSquare), m);
  }

  lemma KeptTargetIsStreamMove(p: Position, white: bool, capture: bool, piece: Byte, reach: bv64, m: Move)
    requires WellFormed(p) && MoveProperties.IsKeptTarget(p, white, capture, piece, reach, m)
    ensures IsStreamMove(p, white, capture, m)
    ensures m.promotionPiece == NoPiece
  {
  }

  lemma KingStreamMove(p: Position, white: bool, capture: bool, m: Move)
    requires WellFormed(p) && m in KingMoves(p, white, capture)
    ensures IsStreamMove(p, white, capture, m)
    ensures m.promotionPiece == NoPiece
  {
    var king := OwnKing(p, white);
    Generators.KingMovesAre(p, white, capture, king, BoardTables.KingMoves(king) & TargetMask(p, white, capture));
    EmittedIsStreamMove(p, white, capture, king, KingPiece(white), BoardTables.KingMoves(king), m);
  }

  lemma EmittedIsStreamMove(p: Position, white: bool, capture: bool, from: nat, piece: Byte, reach: bv64, m: Move)
    requires WellFormed(p) && from < 64
    requires m in Emitted(p, Targets(from, piece, capture), reach & TargetMask(p, white, capture))
    ensures IsStreamMove(p, white, capture, m)
    ensures m.promotionPiece == NoPiece
  {
    EmittedIsKeptTarget(p, white, capture, from, piece, reach, m);
    KeptTargetIsStreamMove(p, white, capture, piece, reach, m);
  }

  /** A move emitted from one square to the targets among `reach` is one of them. */
  lemma EmittedIsKeptTarget(p: Position, white: bool, capture: bool, from: nat, piece: Byte, reach: bv64, m: Move)
    requires WellFormed(p) && from < 64
    requires m in Emitted(p, Targets(from, piece, capture), reach & TargetMask(p, white, capture))
    ensures MoveProperties.IsKeptTarget(p, white, capture, piece, reach, m)
  {
    MoveProperties.EmittedTargets(p, from, piece, capture, reach & TargetMask(p, white, capture), m);
    MoveProperties.TargetInSource(p, white, capture, from, piece, reach, m);
  }

  lemma PawnCaptureStreamMove(p: Position, white: bool, m: Move)
    requires WellFormed(p) && m in PawnCaptureMoves(p, white, true)
    ensures IsStreamMove(p, white, true, m)
  {
    PawnProperties.PawnCaptureMoveShape(p, white, true, m);
    CaptureShapeIsStreamMove(p, white, m);
  }

  lemma CaptureShapeIsStreamMove(p: Position, white: bool, m: Move)
    requires WellFormed(p) && PawnProperties.IsCaptureGeneratorMove(p, white, true, m)
    ensures IsStreamMove(p, white, true, m)
  {
  }

  lemma EnPassantStreamMove(p: Position, white: bool, m: Move)
    requires WellFormed(p) && m in EnPassantMoves(p, white)
    ensures IsStreamMove(p, white, true, m)
    ensures m.promotionPiece == NoPiece
  {
  }

  lemma PawnQuietStreamMove(p: Position, white: bool, m: Move)
    requires WellFormed(p) && m in PawnQuietMoves(p, white)
    ensures IsStreamMove(p, white, false, m)
  {
    PawnProperties.PawnQuietMoveShape(p, white, m);
    PushShapeIsStreamMove(p, white, m);
  }

  lemma PushShapeIsStreamMove(p: Position, white: bool, m: Move)
    requires WellFormed(p)
    requires PawnProperties.IsSinglePush(p, white, m) || PawnProperties.IsDoublePush(p, white, Behind(m.toSquare, 8, white), m)
    ensures IsStreamMove(p, white, false, m)
  {
  }

  lemma InOneOfSix<T>(a: seq<T>, b: seq<T>, c: seq<T>, d: seq<T>, e: seq<T>, f: seq<T>, x: T)
    requires x in a + b + c + d + e + f
    ensures x in a || x in b || x in c || x in d || x in e || x in f
  {
  }

  /** No capture stream emits castling or a quiet move, and only the pawn captures promote. */
  lemma CaptureStreamMove(p: Position, white: bool, m: Move)
    requires WellFormed(p) && m in CaptureMoves(p, true) && white == (p.side == White)
    ensures IsStreamMove(p, white, true, m)
    ensures m.promotionPiece != NoPiece ==> m in PawnCaptureMoves(p, white, true)
  {
    var a, b, c, d, e, f := PieceMoves(p, Knights, white, true), PawnCaptureMoves(p, white, true), EnPassantMoves(p, white),
                            PieceMoves(p, RooksQueens, white, true), PieceMoves(p, BishopsQueens, white, true), KingMoves(p, white, true);
    assert CaptureMoves(p, true) == a + b + c + d + e + f;
    InOneOfSix(a, b, c, d, e, f, m);
    if m in a {
      PieceStreamMove(p, Knights, white, true, m);
    } else if m in b {
      PawnCaptureStreamMove(p, white, m);
    } else if m in c {
      EnPassantStreamMove(p, white, m);
    } else if m in d {
      PieceStreamMove(p, RooksQueens, white, true, m);
    } else if m in e {
      PieceStreamMove(p, BishopsQueens, white, true, m);
    } else {
      KingStreamMove(p, white, true, m);
    }
  }

  /** No quiet stream emits castling. */
  lemma QuietStreamMove(p: Position, white: bool, m: Move)
    requires WellFormed(p) && m in QuietLast(p, white)
    ensures IsStreamMove(p, white, false, m)
  {
    if m in PieceMoves(p, Knights, white, false) {
      PieceStreamMove(p, Knights, white, false, m);
    } else if m in PieceMoves(p, BishopsQueens, white, false) {
      PieceStreamMove(p, BishopsQueens, white, false, m);
    } else if m in PieceMoves(p, RooksQueens, white, false) {
      PieceStreamMove(p, RooksQueens, white, false, m);
    } else if m in PawnQuietMoves(p, white) {
      PawnQuietStreamMove(p, white, m);
    } else {
      KingStreamMove(p, white, false, m);
    }
  }

  // ----------------------------------------------------------- the chains

  /** `EnumerateCaptures` yields each move of `GenerateCaptures` once, and nothing else. */
  lemma EnumerateCapturesMembers(p: Position, m: Move)
    requires WellFormed(p)
    ensures NoDuplicates(EnumerateCaptures(p))
    ensures m in EnumerateCaptures(p) <==> m in CaptureMoves(p, true)
  {
    var white := p.side == White;
    ChainOfSix(PieceMoves(p, Knights, white, true), PawnCaptureMoves(p, white, true), EnPassantMoves(p, white),
               PieceMoves(p, RooksQueens, white, true), PieceMoves(p, BishopsQueens, white, true), KingMoves(p, white, true));
  }

  /** `EnumerateCaptures` never yields castling or a quiet move. */
  lemma EnumerateCapturesAreCaptures(p: Position, m: Move)
    requires WellFormed(p) && m in EnumerateCaptures(p)
    ensures IsStreamMove(p, p.side == White, true, m)
  {
    EnumerateCapturesMembers(p, m);
    CaptureStreamMove(p, p.side == White, m);
  }

  /** The same five streams in another order hold the same moves. */
  lemma ReorderedFive<T>(g: seq<T>, h: seq<T>, i: seq<T>, j: seq<T>, k: seq<T>, x: T)
    ensures x in g + h + i + j + k <==> x in g + k + j + i + h
  {
  }

  /** The chained streams of `EnumerateAll`: each move of `GenerateAll` but castling, once. */
  lemma ChainedMembers(p: Position, m: Move)
    requires WellFormed(p)
    ensures
      var white := p.side == White;
      var chained := Chain(PieceMoves(p, Knights, white, true), CaptureStreams(p, white) + QuietStreams(p, white));
      NoDuplicates(chained) && (m in chained <==> m in CaptureMoves(p, true) || m in QuietLast(p, white))
  {
    var white := p.side == White;
    var a, b, c, d, e, f := PieceMoves(p, Knights, white, true), PawnCaptureMoves(p, white, true), EnPassantMoves(p, white),
                            PieceMoves(p, RooksQueens, white, true), PieceMoves(p, BishopsQueens, white, true), KingMoves(p, white, true);
    var g, h, i, j, k := PieceMoves(p, Knights, white, false), KingMoves(p, white, false), PawnQuietMoves(p, white),
                         PieceMoves(p, RooksQueens, white, false), PieceMoves(p, BishopsQueens, white, false);
    assert CaptureStreams(p, white) + QuietStreams(p, white) == [b, c, d, e, f] + [g, h, i, j, k];
    assert CaptureMoves(p, true) == a + b + c + d + e + f;
    assert QuietLast(p, white) == g + k + j + i + h;
    ChainOfEleven(a, b, c, d, e, f, g, h, i, j, k);
    ReorderedFive(g, h, i, j, k, m);
  }

  /** Six streams in the order of `GenerateAll`'s captures hold the moves they hold in the order of `GenerateCaptures`. */
  lemma ReorderedSix<T>(a: seq<T>, b: seq<T>, c: seq<T>, d: seq<T>, e: seq<T>, f: seq<T>, x: T)
    ensures x in a + b + c + d + e + f <==> x in b + c + a + e + d + f
  {
  }

  /** Two sequences without duplicates and without common elements make one without duplicates. */
  lemma JoinDistinct<T>(a: seq<T>, b: seq<T>)
    requires NoDuplicates(a) && NoDuplicates(b)
    requires forall x :: x in a ==> x !in b
    ensures NoDuplicates(a + b)
  {
    forall i, j | 0 <= i < j < |a + b| ensures (a + b)[i] != (a + b)[j] {
      if j < |a| {
        assert (a + b)[i] == a[i] && (a + b)[j] == a[j];
      } else if i < |a| {
        assert (a + b)[i] == a[i] && (a + b)[j] == b[j - |a|] && b[j - |a|] in b;
      } else {
        assert (a + b)[i] == b[i - |a|] && (a + b)[j] == b[j - |a|];
      }
    }
  }

  /** The chained streams never yield castling. */
  lemma ChainedNotCastling(p: Position, m: Move)
    requires WellFormed(p)
    requires m in Chain(PieceMoves(p, Knights, p.side == White, true), CaptureStreams(p, p.side == White) + QuietStreams(p, p.side == White))
    ensures !IsCastling(m)
  {
    ChainedMembers(p, m);
    if m in CaptureMoves(p, true) {
      CaptureStreamMove(p, p.side == White, m);
    } else {
      QuietStreamMove(p, p.side == White, m);
    }
  }

  /** Castling is offered at most once each way, king-side first. */
  lemma CastlingShape(p: Position, white: bool)
    requires WellFormed(p)
    ensures NoDuplicates(CastlingMoves(p, white))
    ensures forall m :: m in CastlingMoves(p, white) ==> IsCastling(m)
  {
  }

  /**
   * `EnumerateAll` yields each move of `GenerateAll` exactly once and
   * nothing else, though in another order.
   */
  lemma EnumerateAllMembers(p: Position, m: Move)
    requires WellFormed(p)
    ensures NoDuplicates(EnumerateAll(p))
    ensures m in EnumerateAll(p) <==> m in AllMoves(p)
  {
    var white := p.side == White;
    var castling := CastlingMoves(p, white);
    var chained := Chain(PieceMoves(p, Knights, white, true), CaptureStreams(p, white) + QuietStreams(p, white));
    ChainedMembers(p, m);
    CastlingShape(p, white);
    forall x | x in castling ensures x !in chained {
      if x in chained {
        ChainedNotCastling(p, x);
      }
    }
    JoinDistinct(castling, chained);
    ReorderedSix(PieceMoves(p, Knights, white, true), PawnCaptureMoves(p, white, true), EnPassantMoves(p, white),
                 PieceMoves(p, RooksQueens, white, true), PieceMoves(p, BishopsQueens, white, true), KingMoves(p, white, true), m);
  }

  /** `EnumerateAll` yields the castling moves first and none afterwards. */
  lemma CastlingFirst(p: Position)
    requires WellFormed(p)
    ensures
      var castling := CastlingMoves(p, p.side == White);
      |castling| <= |EnumerateAll(p)| && EnumerateAll(p)[..|castling|] == castling &&
      forall i :: |castling| <= i < |EnumerateAll(p)| ==> !IsCastling(EnumerateAll(p)[i])
  {
    var white := p.side == White;
    var castling := CastlingMoves(p, white);
    var chained := Chain(PieceMoves(p, Knights, white, true), CaptureStreams(p, white) + QuietStreams(p, white));
    var all := EnumerateAll(p);
    assert all == castling + chained;
    SplitAt(castling, chained);
    forall i | |castling| <= i < |all| ensures !IsCastling(all[i]) {
      var x := chained[i - |castling|];
      assert x in chained;
      ChainedNotCastling(p, x);
    }
  }

  lemma SplitAt<T>(a: seq<T>, b: seq<T>)
    ensures (a + b)[..|a|] == a
    ensures forall i :: |a| <= i < |a + b| ==> (a + b)[i] == b[i - |a|]
  {
  }

  // ------------------------------------------------------- the promotions

  /** A promoting pawn capture comes with its siblings to every promotion piece. */
  lemma CaptureSiblings(p: Position, offset: int, white: bool, bits: bv64, m: Move, x: Byte)
    requires WellFormed(p) && m in Emitted(p, PawnCaptures(offset, white, true), bits)
    requires x in PawnProperties.PromotionPieces(white, true)
    ensures m.promotionPiece != NoPiece ==> m.(promotionPiece := x) in Emitted(p, PawnCaptures(offset, white, true), bits)
  {
    PawnProperties.EmittedPawnCaptures(p, offset, white, true, bits, m);
    PawnProperties.EmittedPawnCaptures(p, offset, white, true, bits, m.(promotionPiece := x));
  }

  /** A push promotion comes with its siblings to every promotion piece. */
  lemma PushSiblings(p: Position, white: bool, bits: bv64, m: Move, x: Byte)
    requires WellFormed(p) && m in Emitted(p, PushPromotions(white, true), bits)
    requires x in PawnProperties.PromotionPieces(white, true)
    ensures m.(promotionPiece := x) in Emitted(p, PushPromotions(white, true), bits)
  {
    PawnProperties.EmittedPushPromotions(p, white, true, bits, m);
    PawnProperties.EmittedPushPromotions(p, white, true, bits, m.(promotionPiece := x));
  }

  lemma PawnCaptureSiblings(p: Position, white: bool, m: Move, x: Byte)
    requires WellFormed(p) && m in PawnCaptureMoves(p, white, true)
    requires x in PawnProperties.PromotionPieces(white, true)
    ensures m.promotionPiece != NoPiece ==> m.(promotionPiece := x) in PawnCaptureMoves(p, white, true)
  {
    var a := Emitted(p, PawnCaptures(LeftOffset(white), white, true), LeftCaptureTargets(p, white));
    var b := Emitted(p, PawnCaptures(RightOffset(white), white, true), RightCaptureTargets(p, white));
    var c := Emitted(p, PushPromotions(white, true), PromotionPushTargets(p, white));
    assert PawnCaptureMoves(p, white, true) == a + b + c;
    if m in a {
      CaptureSiblings(p, LeftOffset(white), white, LeftCaptureTargets(p, white), m, x);
    } else if m in b {
      CaptureSiblings(p, RightOffset(white), white, RightCaptureTargets(p, white), m, x);
    } else {
      PushSiblings(p, white, PromotionPushTargets(p, white), m, x);
    }
  }

  /**
   * `EnumerateCaptures` promotes to all four pieces: with a promoting
   * move it yields the same move promoting to each of queen, rook,
   * bishop and knight.
   */
  lemma AllFourPromotions(p: Position, m: Move, x: Byte)
    requires WellFormed(p) && m in EnumerateCaptures(p) && m.promotionPiece != NoPiece
    requires x in PawnProperties.PromotionPieces(p.side == White, true)
    ensures m.(promotionPiece := x) in EnumerateCaptures(p)
  {
    var white := p.side == White;
    EnumerateCapturesMembers(p, m);
    CaptureStreamMove(p, white, m);
    PawnCaptureSiblings(p, white, m, x);
    EnumerateCapturesMembers(p, m.(promotionPiece := x));
  }
}
