/**
 * Principal-variation splicing. Each ply keeps the best line found from it
 * in an array indexed by ply number, valid from the ply itself up to its
 * recorded length. When a move improves alpha at ply `ply`, the line of
 * ply `ply` becomes that move followed by the line the child ply found.
 */
module PrincipalVariations {
  import opened Moves

  /**
   * The line array of ply `ply` after `UpdatePrincipalVariation(move, ply)`:
   * `move` at index `ply`, the child's entries at `ply + 1 .. nextLength - 1`,
   * every other slot as it was.
   */
  function Spliced(pv: seq<Move>, next: seq<Move>, ply: nat, move: Move, nextLength: nat): (r: seq<Move>)
    requires |next| == |pv| && ply < |pv| && nextLength <= |pv|
    ensures |r| == |pv|
  {
    var end := if nextLength > ply + 1 then nextLength else ply + 1;
    pv[..ply] + [move] + next[ply + 1..end] + pv[end..]
  }

  // ----------------------------------------------------------------- lemmas

  /** Slot by slot, exactly the three cases `UpdatePrincipalVariation` writes. */
  lemma SplicedSlots(pv: seq<Move>, next: seq<Move>, ply: nat, move: Move, nextLength: nat, i: nat)
    requires |next| == |pv| && ply < |pv| && nextLength <= |pv| && i < |pv|
    ensures Spliced(pv, next, ply, move, nextLength)[i] ==
      if i == ply then move else if ply < i < nextLength then next[i] else pv[i]
  {
    var end := if nextLength > ply + 1 then nextLength else ply + 1;
    var r := Spliced(pv, next, ply, move, nextLength);
    assert r == pv[..ply] + ([move] + next[ply + 1..end]) + pv[end..];
    if i < ply {
      assert r[i] == pv[..ply][i];
    } else if i < end {
      assert r[i] == ([move] + next[ply + 1..end])[i - ply];
    } else {
      assert r[i] == pv[end..][i - end];
    }
  }

  /**
   * The line read from ply `ply` up to the new length is the move followed
   * by the child's line, and the entries of the earlier plies are kept.
   */
  lemma SplicedLine(pv: seq<Move>, next: seq<Move>, ply: nat, move: Move, nextLength: nat)
    requires |next| == |pv| && ply < nextLength <= |pv|
    ensures Spliced(pv, next, ply, move, nextLength)[ply..nextLength] == [move] + next[ply + 1..nextLength]
    ensures Spliced(pv, next, ply, move, nextLength)[..ply] == pv[..ply]
  {
    var r := Spliced(pv, next, ply, move, nextLength);
    forall k | 0 <= k < nextLength - ply
      ensures r[ply..nextLength][k] == ([move] + next[ply + 1..nextLength])[k]
    {
      SplicedSlots(pv, next, ply, move, nextLength, ply + k);
    }
    forall i | 0 <= i < ply
      ensures r[..ply][i] == pv[..ply][i]
    {
      SplicedSlots(pv, next, ply, move, nextLength, i);
    }
  }

  /** Copying one more slot of the child's line: how `UpdatePrincipalVariation`'s loop extends the splice. */
  lemma SplicedStep(pv: seq<Move>, next: seq<Move>, ply: nat, move: Move, i: nat)
    requires |next| == |pv| && ply < i < |pv|
    ensures Spliced(pv, next, ply, move, i + 1) == Spliced(pv, next, ply, move, i)[i := next[i]]
  {
    var a, b := Spliced(pv, next, ply, move, i + 1), Spliced(pv, next, ply, move, i)[i := next[i]];
    forall j | 0 <= j < |pv|
      ensures a[j] == b[j]
    {
      SplicedSlots(pv, next, ply, move, i + 1, j);
      SplicedSlots(pv, next, ply, move, i, j);
    }
  }

  /** Splicing the same child line twice changes nothing more. */
  lemma SplicedIdempotent(pv: seq<Move>, next: seq<Move>, ply: nat, move: Move, nextLength: nat)
    requires |next| == |pv| && ply < |pv| && nextLength <= |pv|
    ensures var once := Spliced(pv, next, ply, move, nextLength);
      Spliced(once, next, ply, move, nextLength) == once
  {
    var once := Spliced(pv, next, ply, move, nextLength);
    var twice := Spliced(once, next, ply, move, nextLength);
    forall i | 0 <= i < |pv|
      ensures twice[i] == once[i]
    {
      SplicedSlots(pv, next, ply, move, nextLength, i);
      SplicedSlots(once, next, ply, move, nextLength, i);
    }
  }
}
