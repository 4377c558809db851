/** The swap mechanic: exchanging two positions of a guess, and what it does to the score. */
module Swaps {
  import opened Scoring

  /** One move of the game: the two zero-based positions to exchange. */
  datatype Move = Move(first: nat, second: nat)

  /** The sequence with the symbols at `a` and `b` exchanged. */
  function Swapped(s: seq<char>, a: nat, b: nat): (r: seq<char>)
    requires a < |s| && b < |s|
    ensures |r| == |s| && r[a] == s[b] && r[b] == s[a]
    ensures forall k :: 0 <= k < |s| && k != a && k != b ==> r[k] == s[k]
  {
    s[a := s[b]][b := s[a]]
  }

  /** Swapping keeps the multiset of symbols. */
  lemma SwappedSymbols(s: seq<char>, a: nat, b: nat)
    requires a < |s| && b < |s|
    ensures multiset(Swapped(s, a, b)) == multiset(s)
  {
    var t := s[a := s[b]];
    assert multiset(t) == multiset(s) - multiset{s[a]} + multiset{s[b]};
    assert multiset(t[b := s[a]]) == multiset(t) - multiset{t[b]} + multiset{s[a]};
  }

  /** Swapping a position with itself changes nothing. */
  lemma SwappedSame(s: seq<char>, a: nat)
    requires a < |s|
    ensures Swapped(s, a, a) == s
  {}

  /** Swapping the same pair twice restores the sequence. */
  lemma SwappedTwice(s: seq<char>, a: nat, b: nat)
    requires a < |s| && b < |s|
    ensures Swapped(Swapped(s, a, b), a, b) == s
  {}

  /** The score after a swap of two distinct positions: the two positions lose what they
      contributed and gain what the exchanged symbols contribute; everything else stays. */
  lemma SwapScore(pattern: seq<char>, guess: seq<char>, a: nat, b: nat)
    requires a < |pattern| && b < |pattern| && a < |guess| && b < |guess| && a != b
    ensures Matches(pattern, Swapped(guess, a, b))
         == Matches(pattern, guess)
          - (if pattern[a] == guess[a] then 1 else 0) - (if pattern[b] == guess[b] then 1 else 0)
          + (if pattern[a] == guess[b] then 1 else 0) + (if pattern[b] == guess[a] then 1 else 0)
    ensures Matches(pattern, guess) - 2 <= Matches(pattern, Swapped(guess, a, b)) <= Matches(pattern, guess) + 2
  {
    var once := guess[a := guess[b]];
    MatchesUpdate(pattern, guess, a, pattern[a], guess[b]);
    assert pattern[a := pattern[a]] == pattern;
    MatchesUpdate(pattern, once, b, pattern[b], guess[a]);
    assert pattern[b := pattern[b]] == pattern;
  }

  /** Applying the same swap to pattern and guess leaves the score unchanged. */
  lemma JointSwapScore(pattern: seq<char>, guess: seq<char>, a: nat, b: nat)
    requires a < |pattern| && b < |pattern| && a < |guess| && b < |guess|
    ensures Matches(Swapped(pattern, a, b), Swapped(guess, a, b)) == Matches(pattern, guess)
  {
    if a != b {
      var pattern1, guess1 := pattern[a := pattern[b]], guess[a := guess[b]];
      MatchesUpdate(pattern, guess, a, pattern[b], guess[b]);
      MatchesUpdate(pattern1, guess1, b, pattern[a], guess[a]);
      assert pattern1[b := pattern[a]] == Swapped(pattern, a, b);
      assert guess1[b := guess[a]] == Swapped(guess, a, b);
    } else {
      SwappedSame(pattern, a);
      SwappedSame(guess, a);
    }
  }

  /** Every move stays inside a sequence of length `n`. */
  predicate MovesInRange(moves: seq<Move>, n: nat) {
    forall k :: 0 <= k < |moves| ==> moves[k].first < n && moves[k].second < n
  }

  /** The guess after a sequence of moves. */
  function ApplyMoves(guess: seq<char>, moves: seq<Move>): (r: seq<char>)
    requires MovesInRange(moves, |guess|)
    ensures |r| == |guess|
    decreases |moves|
  {
    if moves == [] then guess
    else ApplyMoves(Swapped(guess, moves[0].first, moves[0].second), moves[1..])
  }

  /** One more move at the end swaps the guess reached so far. */
  lemma {:induction false} ApplyMovesSnoc(guess: seq<char>, moves: seq<Move>, m: Move)
    requires MovesInRange(moves, |guess|) && m.first < |guess| && m.second < |guess|
    ensures MovesInRange(moves + [m], |guess|)
    ensures ApplyMoves(guess, moves + [m]) == Swapped(ApplyMoves(guess, moves), m.first, m.second)
    decreases |moves|
  {
    var extended := moves + [m];
    assert MovesInRange(extended, |guess|) by {
      forall k | 0 <= k < |extended| ensures extended[k].first < |guess| && extended[k].second < |guess| {
        if k < |moves| {
          assert extended[k] == moves[k];
        }
      }
    }
    if moves == [] {
      assert extended[1..] == [];
    } else {
      var next := Swapped(guess, moves[0].first, moves[0].second);
      assert extended[1..] == moves[1..] + [m];
      assert MovesInRange(moves[1..], |next|);
      ApplyMovesSnoc(next, moves[1..], m);
    }
  }

  /** Applying the same sequence of moves to pattern and guess leaves the score unchanged. */
  lemma {:induction false} JointMovesScore(pattern: seq<char>, guess: seq<char>, moves: seq<Move>)
    requires |pattern| == |guess| && MovesInRange(moves, |guess|)
    ensures Matches(ApplyMoves(pattern, moves), ApplyMoves(guess, moves)) == Matches(pattern, guess)
    decreases |moves|
  {
    if moves != [] {
      var a, b := moves[0].first, moves[0].second;
      JointSwapScore(pattern, guess, a, b);
      assert MovesInRange(moves[1..], |guess|);
      JointMovesScore(Swapped(pattern, a, b), Swapped(guess, a, b), moves[1..]);
    }
  }

  /** No sequence of moves changes the multiset of symbols of a guess. */
  lemma {:induction false} MovesKeepSymbols(guess: seq<char>, moves: seq<Move>)
    requires MovesInRange(moves, |guess|)
    ensures multiset(ApplyMoves(guess, moves)) == multiset(guess)
    decreases |moves|
  {
    if moves != [] {
      var next := Swapped(guess, moves[0].first, moves[0].second);
      SwappedSymbols(guess, moves[0].first, moves[0].second);
      assert MovesInRange(moves[1..], |next|);
      MovesKeepSymbols(next, moves[1..]);
    }
  }

  /** A guess whose symbols differ from the pattern's can never be swapped into a full match. */
  lemma NeverSolvedWithOtherSymbols(pattern: seq<char>, guess: seq<char>, moves: seq<Move>)
    requires |pattern| == |guess| && MovesInRange(moves, |guess|)
    requires multiset(pattern) != multiset(guess)
    ensures Matches(pattern, ApplyMoves(guess, moves)) < |pattern|
  {
    var final := ApplyMoves(guess, moves);
    MovesKeepSymbols(guess, moves);
    MatchesFull(pattern, final);
  }
}
