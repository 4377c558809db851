/** The swap rounds on values: the table of guesses, ranks, finishers and moves that the
    rounds build up, one turn, one round and the whole sequence of rounds as functions of
    the table they start from, and what they promise. */
module Rounds {
  import opened Scoring
  import opened Swaps
  import opened Ranking

  /** What the swap rounds have done so far: each player's guess and rank (0 while the
      player has not finished), the players in the order they finished, and for every
      move used so far the player who made it. The win count is `|order|` and the number
      of moves used is `|log|`. */
  datatype Table = Table(guesses: seq<seq<char>>, ranks: seq<nat>, order: seq<nat>, log: seq<nat>)

  /** The table fits the game: a guess of the pattern length and a rank for every player,
      in-range moves and no more of them used than there are. */
  predicate Fits(length: nat, patterns: seq<seq<char>>, moves: seq<Move>, t: Table) {
    |t.guesses| == |patterns| && |t.ranks| == |patterns| && |t.log| <= |moves| &&
    MovesInRange(moves, length) &&
    forall i :: 0 <= i < |patterns| ==> |t.guesses[i]| == length
  }

  /** Player `p` makes the next move: the guess is swapped, the move is logged as the
      player's, and a guess that now matches in full earns rank win count + 1. */
  function TakeTurn(length: nat, patterns: seq<seq<char>>, moves: seq<Move>, t: Table, p: nat): (r: Table)
    requires Fits(length, patterns, moves, t) && p < |patterns| && |t.log| < |moves|
    ensures Fits(length, patterns, moves, r) && r.log == t.log + [p]
    ensures forall q :: 0 <= q < |patterns| && q != p ==> r.guesses[q] == t.guesses[q] && r.ranks[q] == t.ranks[q]
  {
    var m := moves[|t.log|];
    var guess := Swapped(t.guesses[p], m.first, m.second);
    if Matches(patterns[p], guess) == length then
      Table(t.guesses[p := guess], t.ranks[p := |t.order| + 1], t.order + [p], t.log + [p])
    else
      Table(t.guesses[p := guess], t.ranks, t.order, t.log + [p])
  }

  /** The rest of a round from player `p` on. A player with a rank is skipped. A player
      without one needs a move, and the game stops when none is left; otherwise the player
      takes a turn, and the game stops when every player now has a rank. Returns the table
      and whether the game stopped. */
  function RoundFrom(length: nat, patterns: seq<seq<char>>, moves: seq<Move>, t: Table, p: nat): (r: (Table, bool))
    requires Fits(length, patterns, moves, t) && p <= |patterns|
    ensures Fits(length, patterns, moves, r.0) && |t.log| <= |r.0.log|
    decreases |patterns| - p
  {
    if p == |patterns| then (t, false)
    else if t.ranks[p] > 0 then RoundFrom(length, patterns, moves, t, p + 1)
    else if |t.log| == |moves| then (t, true)
    else
      var next := TakeTurn(length, patterns, moves, t, p);
      if |next.order| == |patterns| then (next, true)
      else RoundFrom(length, patterns, moves, next, p + 1)
  }

  /** The swap rounds from round number `round` on: rounds are played until one stops the
      game. A round that stops nothing and uses no move happens only when every player
      already has a rank, and ends the rounds as well. Returns the final table and the
      number of the last round. */
  function Session(length: nat, patterns: seq<seq<char>>, moves: seq<Move>, t: Table, round: nat): (r: (Table, nat))
    requires Fits(length, patterns, moves, t)
    ensures Fits(length, patterns, moves, r.0) && round <= r.1
    decreases |moves| - |t.log|
  {
    var (next, over) := RoundFrom(length, patterns, moves, t, 0);
    if over || |next.log| == |t.log| then (next, round)
    else Session(length, patterns, moves, next, round + 1)
  }

  /** The moves player `i` made, in order, when move `k` of `moves` went to player `log[k]`. */
  function MovesOf(log: seq<nat>, moves: seq<Move>, i: nat): (r: seq<Move>)
    requires |log| <= |moves|
    ensures |r| <= |log|
    decreases |log|
  {
    if log == [] then []
    else MovesOf(log[..|log| - 1], moves, i) + (if log[|log| - 1] == i then [moves[|log| - 1]] else [])
  }

  /** One more entry in the log is one more move of the player it names, and of nobody else. */
  lemma MovesOfSnoc(log: seq<nat>, moves: seq<Move>, p: nat, i: nat)
    requires |log| < |moves|
    ensures MovesOf(log + [p], moves, i) == MovesOf(log, moves, i) + (if p == i then [moves[|log|]] else [])
  {
    assert (log + [p])[..|log|] == log;
  }

  /** A player the later entries of the log do not name makes none of the later moves. */
  lemma {:induction false} MovesOfAbsent(log: seq<nat>, later: seq<nat>, moves: seq<Move>, i: nat)
    requires |log| + |later| <= |moves| && i !in later
    ensures MovesOf(log + later, moves, i) == MovesOf(log, moves, i)
    decreases |later|
  {
    if later == [] {
      assert log + later == log;
    } else {
      var front := later[..|later| - 1];
      assert (log + later)[..|log + later| - 1] == log + front;
      assert i !in front;
      MovesOfAbsent(log, front, moves, i);
    }
  }

  /** Every move of `made` was made while the guess reached so far from `start` did not yet
      match `pattern` in full. */
  ghost predicate MovedUnsolved(pattern: seq<char>, start: seq<char>, made: seq<Move>)
    requires MovesInRange(made, |start|)
  {
    forall j :: 0 <= j < |made| ==> Matches(pattern, ApplyMoves(start, made[..j])) < |start|
  }

  /** What the table means, player by player: every logged move went to a player; each
      player started from guess `initial[i]` and, with the moves the log gives it, reached
      its guess in the table; the ranks are consistent with the finishing order; a player
      holds a rank exactly when the guess matches the pattern in full; and every move a
      player made was made while the guess did not yet match in full, so a ranked player
      makes no further move. */
  ghost predicate Playing(length: nat, patterns: seq<seq<char>>, initial: seq<seq<char>>, moves: seq<Move>, t: Table) {
    Fits(length, patterns, moves, t) && |initial| == |patterns| &&
    (forall k :: 0 <= k < |t.log| ==> t.log[k] < |patterns|) &&
    RankedBy(t.ranks, t.order) &&
    forall i :: 0 <= i < |patterns| ==>
      |initial[i]| == length && MovesInRange(MovesOf(t.log, moves, i), length) &&
      t.guesses[i] == ApplyMoves(initial[i], MovesOf(t.log, moves, i)) &&
      (t.ranks[i] > 0 <==> Matches(patterns[i], t.guesses[i]) == length) &&
      MovedUnsolved(patterns[i], initial[i], MovesOf(t.log, moves, i))
  }

  /** The table the swap rounds start from: the initial guesses, no ranks, no moves. */
  function Start(initial: seq<seq<char>>): Table
  {
    Table(initial, seq(|initial|, i => 0), [], [])
  }

  /** Before any move the table means what it should, provided no initial guess already
      matches in full. */
  lemma PlayingStart(length: nat, patterns: seq<seq<char>>, initial: seq<seq<char>>, moves: seq<Move>)
    requires |initial| == |patterns| && MovesInRange(moves, length)
    requires forall i :: 0 <= i < |patterns| ==> |initial[i]| == length && Matches(patterns[i], initial[i]) < length
    ensures Playing(length, patterns, initial, moves, Start(initial))
  {
    RankedByNone(Start(initial).ranks);
    assert forall i :: 0 <= i < |patterns| ==> MovesOf([], moves, i) == [];
  }

  /** A turn of a player without a rank keeps the meaning of the table. */
  lemma PlayingTurn(length: nat, patterns: seq<seq<char>>, initial: seq<seq<char>>, moves: seq<Move>, t: Table, p: nat)
    requires Playing(length, patterns, initial, moves, t)
    requires p < |patterns| && t.ranks[p] == 0 && |t.log| < |moves|
    ensures Playing(length, patterns, initial, moves, TakeTurn(length, patterns, moves, t, p))
  {
    var m := moves[|t.log|];
    var guess := Swapped(t.guesses[p], m.first, m.second);
    var mine := MovesOf(t.log, moves, p);
    var moved := mine + [m];
    MovesOfSnoc(t.log, moves, p, p);
    ApplyMovesSnoc(initial[p], mine, m);
    forall i | 0 <= i < |patterns| && i != p ensures MovesOf(t.log + [p], moves, i) == MovesOf(t.log, moves, i) {
      MovesOfSnoc(t.log, moves, p, i);
    }
    forall j | 0 <= j < |moved| ensures Matches(patterns[p], ApplyMoves(initial[p], moved[..j])) < |initial[p]| {
      if j == |mine| {
        assert moved[..j] == mine;
        MatchesBounded(patterns[p], t.guesses[p]);
      } else {
        assert moved[..j] == mine[..j];
      }
    }
    if Matches(patterns[p], guess) == length {
      RankedByStep(t.ranks, t.order, p);
    }
  }

  /** The rest of a round keeps the meaning of the table. */
  lemma {:induction false} RoundPlaying(length: nat, patterns: seq<seq<char>>, initial: seq<seq<char>>, moves: seq<Move>, t: Table, p: nat)
    requires Playing(length, patterns, initial, moves, t) && p <= |patterns|
    ensures Playing(length, patterns, initial, moves, RoundFrom(length, patterns, moves, t, p).0)
    decreases |patterns| - p
  {
    if p < |patterns| {
      if t.ranks[p] > 0 {
        RoundPlaying(length, patterns, initial, moves, t, p + 1);
      } else if |t.log| < |moves| {
        PlayingTurn(length, patterns, initial, moves, t, p);
        var next := TakeTurn(length, patterns, moves, t, p);
        if |next.order| != |patterns| {
          RoundPlaying(length, patterns, initial, moves, next, p + 1);
        }
      }
    }
  }

  /** The whole swap rounds keep the meaning of the table. */
  lemma {:induction false} SessionPlaying(length: nat, patterns: seq<seq<char>>, initial: seq<seq<char>>, moves: seq<Move>, t: Table, round: nat)
    requires Playing(length, patterns, initial, moves, t)
    ensures Playing(length, patterns, initial, moves, Session(length, patterns, moves, t, round).0)
    decreases |moves| - |t.log|
  {
    var (next, over) := RoundFrom(length, patterns, moves, t, 0);
    RoundPlaying(length, patterns, initial, moves, t, 0);
    if !over && |next.log| != |t.log| {
      SessionPlaying(length, patterns, initial, moves, next, round + 1);
    }
  }

  /** The players from `p` on that hold no rank, in increasing order: those the rest of a
      round asks for a move. */
  function Waiting(ranks: seq<nat>, p: nat): (r: seq<nat>)
    requires p <= |ranks|
    ensures |r| <= |ranks| - p
    decreases |ranks| - p
  {
    if p == |ranks| then [] else (if ranks[p] == 0 then [p] else []) + Waiting(ranks, p + 1)
  }

  /** `Waiting` lists exactly the players from `p` on without a rank, each once, in
      increasing order. */
  lemma {:induction false} WaitingMembers(ranks: seq<nat>, p: nat)
    requires p <= |ranks|
    ensures forall k :: 0 <= k < |Waiting(ranks, p)| ==> p <= Waiting(ranks, p)[k] < |ranks| && ranks[Waiting(ranks, p)[k]] == 0
    ensures forall j, k :: 0 <= j < k < |Waiting(ranks, p)| ==> Waiting(ranks, p)[j] < Waiting(ranks, p)[k]
    ensures forall q :: p <= q < |ranks| && ranks[q] == 0 ==> q in Waiting(ranks, p)
    decreases |ranks| - p
  {
    if p < |ranks| {
      WaitingMembers(ranks, p + 1);
    }
  }

  /** Who is waiting from `p` on depends only on the ranks from `p` on. */
  lemma {:induction false} WaitingSame(ranks: seq<nat>, ranks': seq<nat>, p: nat)
    requires p <= |ranks| == |ranks'|
    requires forall q :: p <= q < |ranks| ==> ranks[q] == ranks'[q]
    ensures Waiting(ranks, p) == Waiting(ranks', p)
    decreases |ranks| - p
  {
    if p < |ranks| {
      WaitingSame(ranks, ranks', p + 1);
    }
  }

  /** The rest of a round only adds to the finishing order, and a player holding a rank
      keeps it. */
  lemma {:induction false} RoundGrows(length: nat, patterns: seq<seq<char>>, moves: seq<Move>, t: Table, p: nat)
    requires Fits(length, patterns, moves, t) && p <= |patterns|
    ensures var r := RoundFrom(length, patterns, moves, t, p).0;
      t.order <= r.order && forall q :: 0 <= q < |patterns| && t.ranks[q] > 0 ==> r.ranks[q] == t.ranks[q]
    decreases |patterns| - p
  {
    if p < |patterns| {
      if t.ranks[p] > 0 {
        RoundGrows(length, patterns, moves, t, p + 1);
      } else if |t.log| < |moves| {
        var next := TakeTurn(length, patterns, moves, t, p);
        if |next.order| != |patterns| {
          RoundGrows(length, patterns, moves, next, p + 1);
        }
      }
    }
  }

  /** What the rest of a round keeps, given ranks consistent with the finishing order:
      ranks stay consistent. The round stops the game only when every player has a rank
      or the moves are used up, and a round that does not stop the game leaves someone
      without a rank if someone was without one before. */
  lemma {:induction false} RoundKeeps(length: nat, patterns: seq<seq<char>>, moves: seq<Move>, t: Table, p: nat)
    requires Fits(length, patterns, moves, t) && p <= |patterns| && RankedBy(t.ranks, t.order)
    ensures var r := RoundFrom(length, patterns, moves, t, p);
      RankedBy(r.0.ranks, r.0.order) &&
      (r.1 ==> |r.0.order| == |patterns| || |r.0.log| == |moves|) &&
      (!r.1 && |t.order| < |patterns| ==> |r.0.order| < |patterns|)
    decreases |patterns| - p
  {
    if p < |patterns| {
      if t.ranks[p] > 0 {
        RoundKeeps(length, patterns, moves, t, p + 1);
      } else if |t.log| < |moves| {
        var next := TakeTurn(length, patterns, moves, t, p);
        TurnRanked(length, patterns, moves, t, p);
        if |next.order| != |patterns| {
          RoundKeeps(length, patterns, moves, next, p + 1);
        }
      }
    }
  }

  /** Taking one more element of a sequence with `x` in front. */
  lemma TakeCons(x: nat, s: seq<nat>, c: nat)
    requires c <= |s|
    ensures ([x] + s)[..c + 1] == [x] + s[..c]
  {}

  /** Whom the rest of a round asks for a move: its moves go, one each, to the waiting
      players in increasing order, as far as it gets. */
  lemma {:induction false} RoundVisits(length: nat, patterns: seq<seq<char>>, moves: seq<Move>, t: Table, p: nat)
    requires Fits(length, patterns, moves, t) && p <= |patterns|
    ensures var r := RoundFrom(length, patterns, moves, t, p).0;
      |r.log| - |t.log| <= |Waiting(t.ranks, p)| && r.log == t.log + Waiting(t.ranks, p)[..|r.log| - |t.log|]
    decreases |patterns| - p
  {
    var waiting := Waiting(t.ranks, p);
    if p == |patterns| || (t.ranks[p] == 0 && |t.log| == |moves|) {
      assert t.log + waiting[..0] == t.log;
    } else if t.ranks[p] > 0 {
      assert waiting == Waiting(t.ranks, p + 1);
      RoundVisits(length, patterns, moves, t, p + 1);
    } else {
      var next := TakeTurn(length, patterns, moves, t, p);
      var rest := Waiting(t.ranks, p + 1);
      assert waiting == [p] + rest;
      if |next.order| == |patterns| {
        assert waiting[..1] == [p];
      } else {
        WaitingSame(t.ranks, next.ranks, p + 1);
        RoundVisits(length, patterns, moves, next, p + 1);
        TakeCons(p, rest, |RoundFrom(length, patterns, moves, next, p + 1).0.log| - |next.log|);
      }
    }
  }

  /** A player holding a rank makes no move in the rest of a round: the moves the log
      gives it stay as they were. */
  lemma RoundIdle(length: nat, patterns: seq<seq<char>>, moves: seq<Move>, t: Table, p: nat, q: nat)
    requires Fits(length, patterns, moves, t) && p <= |patterns| && q < |patterns| && t.ranks[q] > 0
    ensures MovesOf(RoundFrom(length, patterns, moves, t, p).0.log, moves, q) == MovesOf(t.log, moves, q)
  {
    var r := RoundFrom(length, patterns, moves, t, p).0;
    RoundVisits(length, patterns, moves, t, p);
    WaitingMembers(t.ranks, p);
    var later := Waiting(t.ranks, p)[..|r.log| - |t.log|];
    assert q !in later;
    MovesOfAbsent(t.log, later, moves, q);
  }

  /** The players from `p` on without a rank, as a set. */
  ghost function WaitingSet(ranks: seq<nat>, p: nat): set<nat> {
    set q: nat | p <= q < |ranks| && ranks[q] == 0
  }

  /** `Waiting` lists each player of `WaitingSet` once. */
  lemma {:induction false} WaitingCounted(ranks: seq<nat>, p: nat)
    requires p <= |ranks|
    ensures |Waiting(ranks, p)| == |WaitingSet(ranks, p)|
    decreases |ranks| - p
  {
    if p == |ranks| {
      assert WaitingSet(ranks, p) == {};
    } else {
      WaitingCounted(ranks, p + 1);
      if ranks[p] == 0 {
        assert WaitingSet(ranks, p) == WaitingSet(ranks, p + 1) + {p};
      } else {
        assert WaitingSet(ranks, p) == WaitingSet(ranks, p + 1);
      }
    }
  }

  /** With ranks consistent with the finishing order, every player either has finished or
      is waiting. */
  lemma WaitingCount(ranks: seq<nat>, order: seq<nat>)
    requires RankedBy(ranks, order)
    ensures |order| + |Waiting(ranks, 0)| == |ranks|
  {
    var all, won := Indices(|ranks|), Winners(ranks);
    WinnersCounted(ranks, order);
    WaitingCounted(ranks, 0);
    assert WaitingSet(ranks, 0) == all - won;
    assert won <= all;
    assert |all - won| == |all| - |won|;
  }

  /** The rest of a round reaches every waiting player unless it stops the game for lack
      of moves, provided that the finished and the waiting players together are no more
      than all of them. */
  lemma {:induction false} RoundReaches(length: nat, patterns: seq<seq<char>>, moves: seq<Move>, t: Table, p: nat)
    requires Fits(length, patterns, moves, t) && p <= |patterns|
    requires |t.order| + |Waiting(t.ranks, p)| <= |patterns|
    ensures var r := RoundFrom(length, patterns, moves, t, p);
      |r.0.log| - |t.log| < |Waiting(t.ranks, p)| ==> r.1 && |r.0.log| == |moves|
    decreases |patterns| - p
  {
    if p < |patterns| && t.ranks[p] > 0 {
      assert Waiting(t.ranks, p) == Waiting(t.ranks, p + 1);
      RoundReaches(length, patterns, moves, t, p + 1);
    } else if p < |patterns| && |t.log| < |moves| {
      var next := TakeTurn(length, patterns, moves, t, p);
      assert Waiting(t.ranks, p) == [p] + Waiting(t.ranks, p + 1);
      WaitingSame(t.ranks, next.ranks, p + 1);
      if |next.order| != |patterns| {
        RoundReaches(length, patterns, moves, next, p + 1);
      }
    }
  }

  /** A turn of a player without a rank keeps the ranks consistent with the finishing
      order. */
  lemma TurnRanked(length: nat, patterns: seq<seq<char>>, moves: seq<Move>, t: Table, p: nat)
    requires Fits(length, patterns, moves, t) && RankedBy(t.ranks, t.order)
    requires p < |patterns| && t.ranks[p] == 0 && |t.log| < |moves|
    ensures var next := TakeTurn(length, patterns, moves, t, p);
      RankedBy(next.ranks, next.order) && |next.order| <= |patterns|
  {
    var next := TakeTurn(length, patterns, moves, t, p);
    RankedByStep(t.ranks, t.order, p);
    AllRankedIffCountReached(next.ranks, next.order);
  }

  /** In a round that starts with a player still waiting, a move is used unless the game stops. */
  lemma RoundProgress(length: nat, patterns: seq<seq<char>>, moves: seq<Move>, t: Table)
    requires Fits(length, patterns, moves, t) && RankedBy(t.ranks, t.order) && |t.order| < |patterns|
    ensures RoundFrom(length, patterns, moves, t, 0).1 || |t.log| < |RoundFrom(length, patterns, moves, t, 0).0.log|
  {
    WaitingCount(t.ranks, t.order);
    RoundReaches(length, patterns, moves, t, 0);
  }

  /** The swap rounds end with every player ranked or with the moves used up. */
  lemma {:induction false} SessionEnds(length: nat, patterns: seq<seq<char>>, moves: seq<Move>, t: Table, round: nat)
    requires Fits(length, patterns, moves, t) && RankedBy(t.ranks, t.order)
    ensures var r := Session(length, patterns, moves, t, round).0;
      |r.order| == |patterns| || |r.log| == |moves|
    decreases |moves| - |t.log|
  {
    var (next, over) := RoundFrom(length, patterns, moves, t, 0);
    RoundKeeps(length, patterns, moves, t, 0);
    RoundGrows(length, patterns, moves, t, 0);
    AllRankedIffCountReached(t.ranks, t.order);
    AllRankedIffCountReached(next.ranks, next.order);
    if !over && |next.log| == |t.log| {
      if |t.order| < |patterns| {
        RoundProgress(length, patterns, moves, t);
      }
    } else if !over {
      SessionEnds(length, patterns, moves, next, round + 1);
    }
  }
}
