/**
 * The bound arithmetic of MTD(f): each probe is a null-window search just
 * above the known lower bound, or at the known upper bound; a result below
 * the probe is a new upper bound, any other a new lower bound. The bounds
 * close in strictly, so the loop ends.
 */
module Mtdf {
  import opened StaticEvaluator

  /** The probe: one above the lower bound when the last score is that bound, else the last score. */
  function ProbeBeta(score: Int32, lowerBound: Int32): Int32
  {
    if score == lowerBound then Wrap32(score as int + 1) else score
  }

  datatype Bounds = Bounds(lowerBound: Int32, upperBound: Int32)

  /** The bounds after a probe at `beta` answered `result`. */
  function Narrowed(b: Bounds, beta: Int32, result: Int32): Bounds
  {
    if result < beta then b.(upperBound := result) else b.(lowerBound := result)
  }

  /** While the bounds are open, the last score lies within them (or is the first guess). */
  predicate Bracketed(b: Bounds, score: Int32)
  {
    b.lowerBound < b.upperBound ==> b.lowerBound <= score <= b.upperBound
  }

  // ----------------------------------------------------------------- lemmas

  /** The probe always lies above the lower bound and at most at the upper bound, without wrapping. */
  lemma ProbeInside(b: Bounds, score: Int32)
    requires b.lowerBound < b.upperBound && Bracketed(b, score)
    ensures b.lowerBound < ProbeBeta(score, b.lowerBound) <= b.upperBound
    ensures score == b.lowerBound ==> ProbeBeta(score, b.lowerBound) == score + 1
  {
  }

  /**
   * Whatever a probe answers, one bound moves strictly inward, and the
   * answer is bracketed by the new bounds while they are still open.
   */
  lemma NarrowingProgress(b: Bounds, score: Int32, result: Int32)
    requires b.lowerBound < b.upperBound && Bracketed(b, score)
    ensures var n := Narrowed(b, ProbeBeta(score, b.lowerBound), result);
      n.upperBound - n.lowerBound < b.upperBound - b.lowerBound &&
      b.lowerBound <= n.lowerBound && n.upperBound <= b.upperBound &&
      Bracketed(n, result)
  {
    ProbeInside(b, score);
  }

  /** The first bounds bracket every guess. */
  lemma InitialBracket(guess: Int32)
    ensures Bracketed(Bounds(Int32Min, Int32Max), guess)
  {
  }
}
