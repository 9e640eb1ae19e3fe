/**
 * The killer table of one ply: the few moves that most recently caused a
 * beta cutoff there, the most recent first. Recording a killer moves it to
 * the front; it leaves a hole where it stood before, or, when it was not in
 * the table, at the last slot, so that the oldest killer is dropped.
 */
module Killers {
  import opened Globals
  import opened Moves

  /** The index of the first occurrence of `k` at or after `from`, or the last index when there is none. */
  function HoleFrom(ks: seq<Move>, k: Move, from: nat): (h: nat)
    requires from < |ks|
    ensures from <= h < |ks|
    ensures k in ks[from..] ==> ks[h] == k && k !in ks[from..h]
    ensures k !in ks[from..] ==> h == |ks| - 1
    decreases |ks| - from
  {
    if ks[from] == k || from == |ks| - 1 then from else HoleFrom(ks, k, from + 1)
  }

  /** The slot `SetKiller` empties: where `k` first stands, else the last one. */
  function HoleIndex(ks: seq<Move>, k: Move): (h: nat)
    requires |ks| > 0
    ensures h < |ks|
    ensures k in ks ==> ks[h] == k && k !in ks[..h]
    ensures k !in ks ==> h == |ks| - 1
  {
    assert ks[0..] == ks;
    HoleFrom(ks, k, 0)
  }

  /** The table after `SetKiller(k)`: slots before the hole shift up by one and `k` goes first. */
  function KillersAfter(ks: seq<Move>, k: Move): seq<Move>
    requires |ks| > 0
  {
    var h := HoleIndex(ks, k);
    [k] + ks[..h] + ks[h + 1..]
  }

  // ----------------------------------------------------------------- lemmas

  /**
   * Slot by slot: `k` is first, the killers before the hole move one slot
   * up, those after the hole stay, and the table keeps its length.
   */
  lemma KillerShift(ks: seq<Move>, k: Move)
    requires |ks| > 0
    ensures var r := KillersAfter(ks, k); var h := HoleIndex(ks, k);
      |r| == |ks| && r[0] == k &&
      (forall i :: 1 <= i <= h ==> r[i] == ks[i - 1]) &&
      (forall i :: h < i < |ks| ==> r[i] == ks[i])
  {
  }

  /** A killer already in the table only changes places: the table is a permutation of the old one. */
  lemma PresentKillerPermutes(ks: seq<Move>, k: Move)
    requires |ks| > 0 && k in ks
    ensures multiset(KillersAfter(ks, k)) == multiset(ks)
  {
    var h := HoleIndex(ks, k);
    assert ks == ks[..h] + [k] + ks[h + 1..];
    calc {
      multiset(ks);
      multiset(ks[..h] + [k] + ks[h + 1..]);
      multiset(ks[..h]) + multiset{k} + multiset(ks[h + 1..]);
      multiset([k] + ks[..h] + ks[h + 1..]);
    }
  }

  /** A new killer pushes the others down and the last one drops out. */
  lemma AbsentKillerDropsLast(ks: seq<Move>, k: Move)
    requires |ks| > 0 && k !in ks
    ensures KillersAfter(ks, k) == [k] + ks[..|ks| - 1]
  {
    assert ks[|ks|..] == [];
  }

  /** A table without repeated moves keeps none after a new killer is recorded. */
  lemma KillersStayDistinct(ks: seq<Move>, k: Move)
    requires |ks| > 0 && NoDuplicates(ks)
    ensures NoDuplicates(KillersAfter(ks, k))
  {
    var r := KillersAfter(ks, k);
    var h := HoleIndex(ks, k);
    KillerShift(ks, k);
    forall i, j | 0 <= i < j < |r|
      ensures r[i] != r[j]
    {
      var rest := ks[..h] + ks[h + 1..];
      assert r == [k] + rest;
      if i == 0 {
        assert r[j] == rest[j - 1];
        assert rest[j - 1] in ks[..h] || rest[j - 1] in ks[h + 1..];
        if k in ks {
          assert ks[h] == k;
          if rest[j - 1] in ks[h + 1..] {
            var t :| h + 1 <= t < |ks| && ks[t] == rest[j - 1];
          }
        }
      } else {
        var a := if i <= h then i - 1 else i;
        var b := if j <= h then j - 1 else j;
        assert r[i] == ks[a] && r[j] == ks[b] && a < b;
      }
    }
  }

  /** Recording the same killer twice in a row is the same as recording it once. */
  lemma KillerIdempotent(ks: seq<Move>, k: Move)
    requires |ks| > 0
    ensures KillersAfter(KillersAfter(ks, k), k) == KillersAfter(ks, k)
  {
    var r := KillersAfter(ks, k);
    assert r[0] == k;
    assert HoleIndex(r, k) == 0 by {
      assert k in r && r[..0] == [];
    }
    assert r == [k] + r[1..];
  }

  /**
   * Which moves the table holds afterwards, when it held no move twice:
   * `k` and every old killer, except the last one when `k` is new.
   */
  lemma KillerMembers(ks: seq<Move>, k: Move, x: Move)
    requires |ks| > 0 && NoDuplicates(ks)
    ensures x in KillersAfter(ks, k) <==> x == k || (x in ks && (k in ks || x != ks[|ks| - 1]))
  {
    if k in ks {
      PresentKillerPermutes(ks, k);
      assert x in KillersAfter(ks, k) <==> x in multiset(KillersAfter(ks, k));
    } else {
      AbsentKillerDropsLast(ks, k);
      var last := |ks| - 1;
      assert ks == ks[..last] + [ks[last]];
      if x in ks && x != ks[last] {
        assert x in ks[..last];
      }
      if x in ks[..last] {
        var t :| 0 <= t < last && ks[..last][t] == x;
        assert ks[t] == x;
      }
    }
  }
}
