/**
 * The depth of the reduced search behind a null move: four plies less for
 * shallow searches, the square root of the remaining depth for deeper ones.
 * The source takes `(int)Math.Sqrt(d)`; for the non-negative integers a
 * search depth can be, that is the integer floor square root written here.
 */
module NullMovePruning {

  /** The largest `r` with `r * r <= n`. */
  function FloorSqrt(n: nat): (r: nat)
    ensures r * r <= n < (r + 1) * (r + 1)
  {
    if n == 0 then 0
    else
      var s := FloorSqrt(n - 1);
      if (s + 1) * (s + 1) <= n then s + 1 else s
  }

  /** `NullMoveSearchDepth`: `d - 4` up to 6 remaining plies, `FloorSqrt(d)` above. */
  function NullMoveSearchDepth(remainingDepth: int): (r: int)
  {
    if remainingDepth <= 6 then remainingDepth - 4 else FloorSqrt(remainingDepth)
  }

  // ----------------------------------------------------------------- lemmas

  /** The floor square root is the only number whose square and next square bracket `n`. */
  lemma FloorSqrtUnique(n: nat, r: nat)
    requires r * r <= n < (r + 1) * (r + 1)
    ensures r == FloorSqrt(n)
  {
    var s := FloorSqrt(n);
    SquareOrder(r, s + 1);
    SquareOrder(s, r + 1);
  }

  /** Squares of naturals are ordered as the naturals are. */
  lemma SquareOrder(a: nat, b: nat)
    requires a * a < b * b
    ensures a < b
  {
  }

  /** A larger number never has a smaller floor square root. */
  lemma FloorSqrtMonotone(a: nat, b: nat)
    requires a <= b
    ensures FloorSqrt(a) <= FloorSqrt(b)
  {
    var x, y := FloorSqrt(a), FloorSqrt(b);
    SquareOrder(x, y + 1);
  }

  /**
   * The reduced search is always shallower than the full one, it is at
   * least two plies deep once more than six remain, and it only falls
   * back to the quiescence search (a depth of zero or less) at four
   * remaining plies or fewer.
   */
  lemma NullMoveReduces(d: int)
    ensures NullMoveSearchDepth(d) < d
    ensures d > 6 ==> NullMoveSearchDepth(d) >= 2
    ensures NullMoveSearchDepth(d) <= 0 <==> d <= 4
  {
    if d > 6 {
      var r := FloorSqrt(d);
      SquareOrder(1, r + 1);
      SquareOrder(r, d);
    }
  }

  /** A deeper search never gets a shallower null-move search. */
  lemma NullMoveDepthMonotone(a: int, b: int)
    requires a <= b
    ensures NullMoveSearchDepth(a) <= NullMoveSearchDepth(b)
  {
    if a > 6 {
      FloorSqrtMonotone(a, b);
    } else if b > 6 {
      FloorSqrtMonotone(7, b);
      FloorSqrtUnique(7, 2);
    }
  }
}
