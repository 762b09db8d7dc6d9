/** Listing positions rank by rank, each rank in order. */
module Ranking {

  /** The positions of one rank among the first `n`. */
  function OfRank(ranks: seq<nat>, r: nat, n: nat): seq<nat>
    requires n <= |ranks|
  {
    if n == 0 then [] else OfRank(ranks, r, n - 1) + (if ranks[n - 1] == r then [n - 1] else [])
  }

  /** The positions of the ranks below `n`. */
  function ByRank(ranks: seq<nat>, n: nat): seq<nat> {
    if n == 0 then [] else ByRank(ranks, n - 1) + OfRank(ranks, n - 1, |ranks|)
  }

  ghost predicate Increasing(s: seq<nat>) { forall a, b :: 0 <= a < b < |s| ==> s[a] < s[b] }

  predicate Below(s: seq<nat>, n: nat) { forall k :: 0 <= k < |s| ==> s[k] < n }

  ghost predicate AreOfRank(ranks: seq<nat>, r: nat, n: nat, s: seq<nat>) {
    forall i: nat :: i in s <==> i < n && i < |ranks| && ranks[i] == r
  }

  ghost predicate AreBelowRank(ranks: seq<nat>, n: nat, s: seq<nat>) {
    forall i: nat :: i in s <==> i < |ranks| && ranks[i] < n
  }

  predicate Before(ranks: seq<nat>, i: nat, j: nat) {
    i < |ranks| && j < |ranks| && (ranks[i] < ranks[j] || (ranks[i] == ranks[j] && i < j))
  }

  ghost predicate InOrder(ranks: seq<nat>, s: seq<nat>) {
    forall a, b :: 0 <= a < b < |s| ==> Before(ranks, s[a], s[b])
  }

  lemma {:induction false} OfRankIs(ranks: seq<nat>, r: nat, n: nat)
    requires n <= |ranks|
    ensures AreOfRank(ranks, r, n, OfRank(ranks, r, n))
    ensures Increasing(OfRank(ranks, r, n)) && Below(OfRank(ranks, r, n), n)
  {
    if n > 0 {
      OfRankIs(ranks, r, n - 1);
    }
  }

  lemma AppendInOrder(ranks: seq<nat>, n: nat, before: seq<nat>, more: seq<nat>)
    requires InOrder(ranks, before) && AreBelowRank(ranks, n, before)
    requires Increasing(more) && AreOfRank(ranks, n, |ranks|, more)
    ensures InOrder(ranks, before + more) && AreBelowRank(ranks, n + 1, before + more)
  {
    assert forall a :: 0 <= a < |before| ==> before[a] in before;
    assert forall a :: 0 <= a < |more| ==> more[a] in more;
    var all := before + more;
    forall a, b | 0 <= a < b < |all| ensures Before(ranks, all[a], all[b]) {
      if b < |before| {
        assert Before(ranks, before[a], before[b]);
      } else if a < |before| {
        assert before[a] in before && more[b - |before|] in more;
      } else {
        assert more[a - |before|] in more && more[b - |before|] in more;
      }
    }
  }

  lemma BelowRankIsBelow(ranks: seq<nat>, n: nat, s: seq<nat>)
    requires AreBelowRank(ranks, n, s)
    ensures Below(s, |ranks|)
  {
    assert forall k :: 0 <= k < |s| ==> s[k] in s;
  }

  /** Positions rank by rank. */
  ghost predicate IsByRank(ranks: seq<nat>, n: nat, s: seq<nat>) {
    AreBelowRank(ranks, n, s) && InOrder(ranks, s) && Below(s, |ranks|)
  }

  lemma NextRank(ranks: seq<nat>, n: nat)
    requires n > 0 && IsByRank(ranks, n - 1, ByRank(ranks, n - 1))
    ensures IsByRank(ranks, n, ByRank(ranks, n))
  {
    OfRankIs(ranks, n - 1, |ranks|);
    AppendInOrder(ranks, n - 1, ByRank(ranks, n - 1), OfRank(ranks, n - 1, |ranks|));
    BelowRankIsBelow(ranks, n, ByRank(ranks, n));
  }

  lemma NoRankYet(ranks: seq<nat>)
    ensures IsByRank(ranks, 0, ByRank(ranks, 0))
  {
  }

  /** The positions come rank by rank, each of them once. */
  lemma {:induction false} ByRankIs(ranks: seq<nat>, n: nat)
    ensures IsByRank(ranks, n, ByRank(ranks, n))
  {
    if n == 0 {
      NoRankYet(ranks);
    } else {
      ByRankIs(ranks, n - 1);
      NextRank(ranks, n);
    }
  }

  /** With every rank below `n` no position is left out or told twice. */
  lemma EveryPositionOnce(ranks: seq<nat>, n: nat)
    requires forall i :: 0 <= i < |ranks| ==> ranks[i] < n
    ensures |ByRank(ranks, n)| == |ranks| && forall i: nat :: i in ByRank(ranks, n) <==> i < |ranks|
  {
    ByRankIs(ranks, n);
    var order := ByRank(ranks, n);
    assert forall a, b :: 0 <= a < b < |order| ==> Before(ranks, order[a], order[b]);
    CountDistinct(order, |ranks|);
  }

  /** The items at the listed positions. */
  function Pick<T>(items: seq<T>, order: seq<nat>): (picked: seq<T>)
    requires Below(order, |items|)
    ensures |picked| == |order|
  {
    if order == [] then [] else Pick(items, order[..|order| - 1]) + [items[order[|order| - 1]]]
  }

  lemma PickLast<T>(items: seq<T>, order: seq<nat>, i: nat)
    requires Below(order, |items|) && i < |items|
    ensures Below(order + [i], |items|) && Pick(items, order + [i]) == Pick(items, order) + [items[i]]
  {
    assert (order + [i])[..|order|] == order;
  }

  lemma {:induction false} PickAppend<T>(items: seq<T>, a: seq<nat>, b: seq<nat>)
    requires Below(a, |items|) && Below(b, |items|)
    ensures Below(a + b, |items|) && Pick(items, a + b) == Pick(items, a) + Pick(items, b)
  {
    if b == [] {
      assert a + b == a;
    } else {
      var front, last := b[..|b| - 1], b[|b| - 1];
      PickAppend(items, a, front);
      PickLast(items, a + front, last);
      assert a + b == a + front + [last];
      assert Pick(items, a) + (Pick(items, front) + [items[last]]) == Pick(items, a) + Pick(items, front) + [items[last]];
    }
  }

  /** Picking rank by rank. */
  lemma PickNextRank<T>(items: seq<T>, ranks: seq<nat>, n: nat)
    requires |ranks| == |items|
    ensures Below(ByRank(ranks, n), |items|) && Below(ByRank(ranks, n + 1), |items|)
    ensures Below(OfRank(ranks, n, |items|), |items|)
    ensures Pick(items, ByRank(ranks, n + 1)) == Pick(items, ByRank(ranks, n)) + Pick(items, OfRank(ranks, n, |items|))
  {
    ByRankIs(ranks, n);
    ByRankIs(ranks, n + 1);
    OfRankIs(ranks, n, |items|);
    PickAppend(items, ByRank(ranks, n), OfRank(ranks, n, |items|));
  }

  /** Picking one rank, position by position. */
  lemma PickNextOfRank<T>(items: seq<T>, ranks: seq<nat>, r: nat, n: nat)
    requires n < |items| == |ranks|
    ensures Below(OfRank(ranks, r, n), |items|) && Below(OfRank(ranks, r, n + 1), |items|)
    ensures Pick(items, OfRank(ranks, r, n + 1))
         == Pick(items, OfRank(ranks, r, n)) + (if ranks[n] == r then [items[n]] else [])
  {
    OfRankIs(ranks, r, n);
    OfRankIs(ranks, r, n + 1);
    if ranks[n] == r {
      PickLast(items, OfRank(ranks, r, n), n);
    } else {
      assert OfRank(ranks, r, n) + [] == OfRank(ranks, r, n);
    }
  }

  function FirstNumbers(n: nat): (s: set<nat>)
    ensures |s| == n && forall i: nat :: i in s <==> i < n
  {
    if n == 0 then {} else FirstNumbers(n - 1) + {n - 1}
  }

  /** A sequence that holds every number below `n` once has `n` elements. */
  lemma CountDistinct(order: seq<nat>, n: nat)
    requires forall i: nat :: i in order <==> i < n
    requires forall a, b :: 0 <= a < b < |order| ==> order[a] != order[b]
    ensures |order| == n
  {
    Pigeons(order);
    var elements := set i | 0 <= i < |order| :: order[i];
    forall i: nat ensures i in elements <==> i in FirstNumbers(n) {
      assert i in order <==> i in elements;
    }
    assert elements == FirstNumbers(n);
  }

  lemma {:induction false} Pigeons(order: seq<nat>)
    requires forall a, b :: 0 <= a < b < |order| ==> order[a] != order[b]
    ensures |set i | 0 <= i < |order| :: order[i]| == |order|
  {
    if order != [] {
      var front, last := order[..|order| - 1], order[|order| - 1];
      Pigeons(front);
      var before := set i | 0 <= i < |front| :: front[i];
      assert (set i | 0 <= i < |order| :: order[i]) == before + {last} by {
        assert forall i :: 0 <= i < |front| ==> front[i] == order[i];
      }
      assert last !in before;
    }
  }
}
