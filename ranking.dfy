/** Win ranking: the finishing ranks handed out one win at a time, as a table of
    ranks indexed by player (0 for a player who has not finished). */
module Ranking {

  /** `order` lists the finished players in the order they finished: the player at
      `order[r]` holds rank `r + 1`, and every player with a rank appears in `order`
      at that rank. */
  ghost predicate RankedBy(ranks: seq<nat>, order: seq<nat>) {
    (forall r :: 0 <= r < |order| ==> order[r] < |ranks| && ranks[order[r]] == r + 1) &&
    (forall i :: 0 <= i < |ranks| && ranks[i] > 0 ==> ranks[i] <= |order| && order[ranks[i] - 1] == i)
  }

  /** The players that have finished. */
  ghost function Winners(ranks: seq<nat>): set<nat> {
    set i: nat | i < |ranks| && ranks[i] > 0
  }

  /** The ranks handed out so far. */
  ghost function RankSet(ranks: seq<nat>): set<nat> {
    set i | 0 <= i < |ranks| && ranks[i] > 0 :: ranks[i]
  }

  /** Before the first win nobody holds a rank. */
  lemma RankedByNone(ranks: seq<nat>)
    requires forall i :: 0 <= i < |ranks| ==> ranks[i] == 0
    ensures RankedBy(ranks, [])
  {}

  /** A win by a player without a rank gives that player the next rank, one more than
      the number of wins so far, and keeps the ranking consistent. */
  lemma RankedByStep(ranks: seq<nat>, order: seq<nat>, i: nat)
    requires RankedBy(ranks, order) && i < |ranks| && ranks[i] == 0
    ensures RankedBy(ranks[i := |order| + 1], order + [i])
  {
    var ranks', order' := ranks[i := |order| + 1], order + [i];
    forall r | 0 <= r < |order'| ensures order'[r] < |ranks'| && ranks'[order'[r]] == r + 1 {
      if r < |order| {
        assert order'[r] == order[r] && ranks[order[r]] == r + 1;
      }
    }
  }

  /** Ranks are handed out without repetition: no two players share one. */
  lemma RanksDistinct(ranks: seq<nat>, order: seq<nat>)
    requires RankedBy(ranks, order)
    ensures forall i, j :: 0 <= i < j < |ranks| && ranks[i] > 0 ==> ranks[i] != ranks[j]
    ensures forall r, s :: 0 <= r < s < |order| ==> order[r] != order[s]
  {
    forall i, j | 0 <= i < j < |ranks| && ranks[i] > 0 ensures ranks[i] != ranks[j] {
      assert order[ranks[i] - 1] == i;
    }
  }

  /** After `k` wins the ranks handed out are exactly 1, 2, ..., k. */
  lemma RanksAreFirstNaturals(ranks: seq<nat>, order: seq<nat>)
    requires RankedBy(ranks, order)
    ensures forall r: nat :: r in RankSet(ranks) <==> 1 <= r <= |order|
  {
    forall r: nat | 1 <= r <= |order| ensures r in RankSet(ranks) {
      assert ranks[order[r - 1]] == r;
    }
  }

  /** Taking back the last win: the last finisher loses its rank and the ranking of the
      others stays consistent. */
  lemma RankedByPop(ranks: seq<nat>, order: seq<nat>)
    requires RankedBy(ranks, order) && order != []
    ensures var last := order[|order| - 1];
      RankedBy(ranks[last := 0], order[..|order| - 1]) &&
      Winners(ranks) == Winners(ranks[last := 0]) + {last} && last !in Winners(ranks[last := 0])
  {
    var last := order[|order| - 1];
    var ranks', order' := ranks[last := 0], order[..|order| - 1];
    RanksDistinct(ranks, order);
    forall r | 0 <= r < |order'| ensures order'[r] < |ranks'| && ranks'[order'[r]] == r + 1 {
      assert order'[r] == order[r] != last;
    }
    forall i | 0 <= i < |ranks'| && ranks'[i] > 0 ensures ranks'[i] <= |order'| && order'[ranks'[i] - 1] == i {
      assert i != last && ranks[i] == ranks'[i];
      assert order[ranks[i] - 1] == i;
    }
  }

  /** The number of wins is the number of players who have finished. */
  lemma {:induction false} WinnersCounted(ranks: seq<nat>, order: seq<nat>)
    requires RankedBy(ranks, order)
    ensures |Winners(ranks)| == |order|
    decreases |order|
  {
    if order == [] {
      assert Winners(ranks) == {};
    } else {
      var last := order[|order| - 1];
      RankedByPop(ranks, order);
      WinnersCounted(ranks[last := 0], order[..|order| - 1]);
    }
  }

  /** The indices below `n`. */
  function Indices(n: nat): (r: set<nat>)
    ensures forall i: nat :: i in r <==> i < n
    ensures |r| == n
  {
    if n == 0 then {} else
      var r := Indices(n - 1);
      assert n - 1 !in r;
      r + {n - 1}
  }

  /** The win count reaches the player count exactly when every player has finished. */
  lemma AllRankedIffCountReached(ranks: seq<nat>, order: seq<nat>)
    requires RankedBy(ranks, order)
    ensures |order| == |ranks| <==> forall i :: 0 <= i < |ranks| ==> ranks[i] > 0
    ensures |order| <= |ranks|
  {
    var all := Indices(|ranks|);
    var won := Winners(ranks);
    WinnersCounted(ranks, order);
    assert won <= all;
    assert |all - won| == |all| - |won|;
    if |order| == |ranks| {
      assert all - won == {};
      forall i | 0 <= i < |ranks| ensures ranks[i] > 0 {
        assert i in all;
      }
    }
    if forall i :: 0 <= i < |ranks| ==> ranks[i] > 0 {
      assert all == won;
    }
  }
}
