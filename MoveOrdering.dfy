/**
 * Move ordering of the alpha-beta search: each killer of the ply, the
 * last slot first, and then the transposition table's move are swapped to
 * the front of the generated list when the list holds them (`List.Remove`
 * takes out the first occurrence, `Insert(0, ..)` puts the move first).
 * The result puts the table's move first, then the killers the list holds
 * in killer order, then the other moves in generated order.
 */
module MoveOrdering {
  import opened Globals
  import opened Moves

  /** `List.Remove`: the list without the first occurrence of `m`. */
  function RemoveFirst(s: seq<Move>, m: Move): (r: seq<Move>)
    ensures m in s ==> |r| == |s| - 1
    ensures m !in s ==> r == s
  {
    if s == [] then [] else if s[0] == m then s[1..] else [s[0]] + RemoveFirst(s[1..], m)
  }

  /** `SwapInIfLegal`: a move the list holds goes to the front, else nothing happens. */
  function SwappedIn(s: seq<Move>, m: Move): seq<Move>
  {
    if m in s then [m] + RemoveFirst(s, m) else s
  }

  /** The killers swapped in from the last slot to the first. */
  function KillersSwappedIn(s: seq<Move>, ks: seq<Move>): seq<Move>
  {
    if ks == [] then s else SwappedIn(KillersSwappedIn(s, ks[1..]), ks[0])
  }

  /** The `GenerateMoves` override's ordering of the generated list `s`. */
  function Ordered(s: seq<Move>, ks: seq<Move>, tableMove: Move): seq<Move>
  {
    SwappedIn(KillersSwappedIn(s, ks), tableMove)
  }

  // ------------------------------------------------------------ references

  /** The killers that the list holds, in killer order. */
  function Present(ks: seq<Move>, s: seq<Move>): seq<Move>
  {
    if ks == [] then [] else (if ks[0] in s then [ks[0]] else []) + Present(ks[1..], s)
  }

  /** The moves of the list that are not killers, in list order. */
  function Without(s: seq<Move>, ks: seq<Move>): seq<Move>
  {
    if s == [] then [] else (if s[0] in ks then [] else [s[0]]) + Without(s[1..], ks)
  }

  /** No two slots of the killer table hold the same move of `s`. */
  predicate DistinctIn(ks: seq<Move>, s: seq<Move>)
  {
    forall i, j :: 0 <= i < j < |ks| && ks[i] in s ==> ks[i] != ks[j]
  }

  // -------------------------------------------------------- lemmas: Remove

  /** `List.Remove` splits the list at the first occurrence. */
  lemma {:induction false} RemoveFirstSplits(s: seq<Move>, m: Move) returns (i: nat)
    requires m in s
    ensures i < |s| && s[i] == m && m !in s[..i]
    ensures RemoveFirst(s, m) == s[..i] + s[i + 1..]
  {
    if s[0] == m {
      i := 0;
    } else {
      var j := RemoveFirstSplits(s[1..], m);
      i := j + 1;
      assert s[..i] == [s[0]] + s[1..][..j];
      assert s[i + 1..] == s[1..][j + 1..];
    }
  }

  /** Removing an element keeps every other occurrence: the multiset loses exactly that element. */
  lemma {:induction false} RemoveFirstMultiset(s: seq<Move>, m: Move)
    requires m in s
    ensures multiset(RemoveFirst(s, m)) == multiset(s) - multiset{m}
  {
    var i := RemoveFirstSplits(s, m);
    assert s == s[..i] + [m] + s[i + 1..];
    assert multiset(s) == multiset(s[..i]) + multiset{m} + multiset(s[i + 1..]);
  }

  lemma {:induction false} RemoveFirstAppend(a: seq<Move>, b: seq<Move>, m: Move)
    requires m !in a
    ensures RemoveFirst(a + b, m) == a + RemoveFirst(b, m)
  {
    if a != [] {
      assert (a + b)[0] == a[0] && (a + b)[1..] == a[1..] + b;
      RemoveFirstAppend(a[1..], b, m);
    } else {
      assert a + b == b;
    }
  }

  // ------------------------------------------------------ lemmas: SwapIn

  /**
   * `SwapInIfLegal` with the move present: it is first, the rest is the
   * list without its first occurrence (in the old order), and the multiset
   * is kept; with the move absent the list is unchanged.
   */
  lemma SwappedInMeaning(s: seq<Move>, m: Move)
    ensures multiset(SwappedIn(s, m)) == multiset(s)
    ensures m in s ==>
      exists i :: 0 <= i < |s| && s[i] == m && m !in s[..i] && SwappedIn(s, m) == [m] + s[..i] + s[i + 1..]
    ensures m !in s ==> SwappedIn(s, m) == s
  {
    SwappedInMultiset(s, m);
    if m in s {
      var i := RemoveFirstSplits(s, m);
      assert [m] + s[..i] + s[i + 1..] == [m] + (s[..i] + s[i + 1..]);
    }
  }

  /** Swapping the front move in again changes nothing. */
  lemma SwappedInIdempotent(s: seq<Move>, m: Move)
    ensures SwappedIn(SwappedIn(s, m), m) == SwappedIn(s, m)
  {
    if m in s {
      var r := SwappedIn(s, m);
      assert r[0] == m && r[1..] == RemoveFirst(s, m);
      assert RemoveFirst(r, m) == r[1..];
      assert r == [m] + r[1..];
    }
  }

  // ------------------------------------------------------ lemmas: ordering

  lemma {:induction false} WithoutIgnoresAbsent(s: seq<Move>, ks: seq<Move>, k: Move)
    requires k !in s
    ensures Without(s, [k] + ks) == Without(s, ks)
  {
    if s != [] {
      WithoutIgnoresAbsent(s[1..], ks, k);
    }
  }

  lemma NoDuplicatesTail(s: seq<Move>)
    requires s != [] && NoDuplicates(s)
    ensures NoDuplicates(s[1..]) && s[0] !in s[1..]
  {
    var r := s[1..];
    forall i, j | 0 <= i < j < |r| ensures r[i] != r[j] {
      assert r[i] == s[i + 1] && r[j] == s[j + 1];
    }
    forall j | 0 <= j < |r| ensures r[j] != s[0] {
      assert r[j] == s[j + 1];
    }
  }

  /** The non-killers of a list hold no move the list does not hold. */
  lemma {:induction false} WithoutMembers(s: seq<Move>, ks: seq<Move>, x: Move)
    ensures x in Without(s, ks) ==> x in s && x !in ks
  {
    if s != [] {
      WithoutMembers(s[1..], ks, x);
      assert Without(s, ks) == (if s[0] in ks then [] else [s[0]]) + Without(s[1..], ks);
    }
  }

  /** The listed killers are killers the list holds. */
  lemma {:induction false} PresentMembers(ks: seq<Move>, s: seq<Move>, x: Move)
    ensures x in Present(ks, s) ==> x in ks && x in s
  {
    if ks != [] {
      PresentMembers(ks[1..], s, x);
      assert Present(ks, s) == (if ks[0] in s then [ks[0]] else []) + Present(ks[1..], s);
    }
  }

  /** Removing a move of a list without repeats from its non-killers adds that move to the killers. */
  lemma {:induction false} RemoveFromWithout(s: seq<Move>, ks: seq<Move>, k: Move)
    requires NoDuplicates(s)
    ensures RemoveFirst(Without(s, ks), k) == Without(s, [k] + ks)
  {
    if s != [] {
      var x, r := s[0], s[1..];
      NoDuplicatesTail(s);
      var w := Without(r, ks);
      var wk := Without(r, [k] + ks);
      if x == k {
        WithoutIgnoresAbsent(r, ks, k);
        assert wk == w;
        assert Without(s, [k] + ks) == wk;
        if k !in ks {
          assert Without(s, ks) == [k] + w;
        } else {
          WithoutMembers(r, ks, k);
          assert Without(s, ks) == w;
        }
      } else {
        RemoveFromWithout(r, ks, k);
        if x in ks {
          assert Without(s, ks) == w;
          assert Without(s, [k] + ks) == wk;
        } else {
          assert Without(s, ks) == [x] + w;
          assert Without(s, [k] + ks) == [x] + wk;
        }
      }
    }
  }

  lemma {:induction false} WithoutNone(s: seq<Move>)
    ensures Without(s, []) == s
  {
    if s != [] {
      WithoutNone(s[1..]);
      assert s == [s[0]] + s[1..];
    }
  }

  lemma DistinctInTail(ks: seq<Move>, s: seq<Move>)
    requires ks != [] && DistinctIn(ks, s)
    ensures DistinctIn(ks[1..], s)
    ensures ks[0] in s ==> ks[0] !in ks[1..]
  {
    var t := ks[1..];
    forall i, j | 0 <= i < j < |t| && t[i] in s
      ensures t[i] != t[j]
    {
      assert t[i] == ks[i + 1] && t[j] == ks[j + 1];
    }
    if ks[0] in s {
      forall j | 0 <= j < |t| ensures t[j] != ks[0] {
        assert t[j] == ks[j + 1];
      }
    }
  }

  /**
   * With no move listed twice and no listed move held in two killer slots,
   * swapping in the killers puts the listed killers first in killer order
   * and keeps the others in list order.
   */
  lemma {:induction false} KillersFirst(s: seq<Move>, ks: seq<Move>)
    requires NoDuplicates(s) && DistinctIn(ks, s)
    ensures KillersSwappedIn(s, ks) == Present(ks, s) + Without(s, ks)
  {
    if ks == [] {
      WithoutNone(s);
    } else {
      var k, rest := ks[0], ks[1..];
      DistinctInTail(ks, s);
      KillersFirst(s, rest);
      var p1, w1 := Present(rest, s), Without(s, rest);
      assert KillersSwappedIn(s, ks) == SwappedIn(p1 + w1, k);
      assert ks == [k] + rest;
      if k in s {
        KillerSwappedIn(s, rest, k);
        assert Present(ks, s) == [k] + p1;
      } else {
        KillerAbsent(s, rest, k);
        assert Present(ks, s) == p1;
      }
    }
  }

  lemma KillerSwappedIn(s: seq<Move>, rest: seq<Move>, k: Move)
    requires NoDuplicates(s) && k in s && k !in rest
    ensures SwappedIn(Present(rest, s) + Without(s, rest), k) == [k] + Present(rest, s) + Without(s, [k] + rest)
  {
    var p1, w1 := Present(rest, s), Without(s, rest);
    PresentMembers(rest, s, k);
    assert k in w1 by {
      var i :| 0 <= i < |s| && s[i] == k;
      WithoutHolds(s, rest, i);
    }
    RemoveFirstAppend(p1, w1, k);
    RemoveFromWithout(s, rest, k);
  }

  lemma KillerAbsent(s: seq<Move>, rest: seq<Move>, k: Move)
    requires k !in s
    ensures SwappedIn(Present(rest, s) + Without(s, rest), k) == Present(rest, s) + Without(s, [k] + rest)
  {
    WithoutIgnoresAbsent(s, rest, k);
    PresentMembers(rest, s, k);
    WithoutMembers(s, rest, k);
  }

  lemma {:induction false} WithoutHolds(s: seq<Move>, ks: seq<Move>, i: nat)
    requires i < |s| && s[i] !in ks
    ensures s[i] in Without(s, ks)
  {
    if i > 0 {
      WithoutHolds(s[1..], ks, i - 1);
    }
  }

  /**
   * The order the `GenerateMoves` override leaves: the table's move first
   * when the list holds it, then the listed killers in killer order, then
   * the remaining moves in generated order, each of the latter two without
   * the table's move; the list is a permutation of the generated one.
   */
  lemma OrderedMoves(s: seq<Move>, ks: seq<Move>, tableMove: Move)
    requires NoDuplicates(s) && DistinctIn(ks, s)
    ensures multiset(Ordered(s, ks, tableMove)) == multiset(s)
    ensures tableMove in s ==>
      Ordered(s, ks, tableMove) == [tableMove] + RemoveFirst(Present(ks, s), tableMove) + RemoveFirst(Without(s, ks), tableMove)
    ensures tableMove !in s ==> Ordered(s, ks, tableMove) == Present(ks, s) + Without(s, ks)
  {
    var p, w := Present(ks, s), Without(s, ks);
    var killersFirst := KillersSwappedIn(s, ks);
    KillersFirst(s, ks);
    KillersKeepMultiset(s, ks);
    assert killersFirst == p + w;
    SwappedInMultiset(killersFirst, tableMove);
    if tableMove in s {
      assert tableMove in multiset(killersFirst);
      PresentMembers(ks, s, tableMove);
      WithoutMembers(s, ks, tableMove);
      TableMoveFirst(p, w, tableMove);
    } else {
      assert tableMove !in multiset(killersFirst);
    }
  }

  lemma SwappedInMultiset(s: seq<Move>, m: Move)
    ensures multiset(SwappedIn(s, m)) == multiset(s)
  {
    if m in s {
      RemoveFirstMultiset(s, m);
    }
  }

  lemma TableMoveFirst(p: seq<Move>, w: seq<Move>, m: Move)
    requires m in p + w && (m in p ==> m !in w)
    ensures SwappedIn(p + w, m) == [m] + RemoveFirst(p, m) + RemoveFirst(w, m)
  {
    if m in p {
      RemoveFirstAppendFront(p, w, m);
    } else {
      RemoveFirstAppend(p, w, m);
    }
  }

  lemma {:induction false} RemoveFirstAppendFront(a: seq<Move>, b: seq<Move>, m: Move)
    requires m in a && m !in b
    ensures RemoveFirst(a + b, m) == RemoveFirst(a, m) + RemoveFirst(b, m)
  {
    assert (a + b)[0] == a[0] && (a + b)[1..] == a[1..] + b;
    if a[0] != m {
      assert m in a[1..];
      RemoveFirstAppendFront(a[1..], b, m);
    }
  }

  lemma {:induction false} KillersKeepMultiset(s: seq<Move>, ks: seq<Move>)
    ensures multiset(KillersSwappedIn(s, ks)) == multiset(s)
  {
    if ks != [] {
      KillersKeepMultiset(s, ks[1..]);
      SwappedInMultiset(KillersSwappedIn(s, ks[1..]), ks[0]);
    }
  }
}
