/** Match scoring: how many positions of a guess agree with the pattern. */
module Scoring {

  /** Position `i` scores: it lies inside both sequences and their symbols agree there. */
  predicate Hit(pattern: seq<char>, guess: seq<char>, i: nat) {
    i < |pattern| && i < |guess| && pattern[i] == guess[i]
  }

  /** The match count, accumulated along the pattern from its first symbol on; a
      pattern position beyond the end of the guess never scores. */
  function Matches(pattern: seq<char>, guess: seq<char>): nat
    decreases |pattern|
  {
    if pattern == [] then 0
    else
      var k := |pattern| - 1;
      Matches(pattern[..k], guess) + (if k < |guess| && pattern[k] == guess[k] then 1 else 0)
  }

  /** The matching positions, as a set. */
  ghost function MatchPositions(pattern: seq<char>, guess: seq<char>): set<nat> {
    set i: nat | i < |pattern| && Hit(pattern, guess, i)
  }

  /** The match count is the number of indices i < min(|pattern|, |guess|) with pattern[i] == guess[i]. */
  lemma {:induction false} MatchesCountsPositions(pattern: seq<char>, guess: seq<char>)
    ensures Matches(pattern, guess) == |MatchPositions(pattern, guess)|
    decreases |pattern|
  {
    if pattern != [] {
      var k := |pattern| - 1;
      var front := pattern[..k];
      MatchesCountsPositions(front, guess);
      var before := MatchPositions(front, guess);
      var after := MatchPositions(pattern, guess);
      assert k !in before;
      if Hit(pattern, guess, k) {
        assert after == before + {k};
      } else {
        assert after == before;
      }
    }
  }

  /** The count never exceeds the length of either sequence. */
  lemma {:induction false} MatchesBounded(pattern: seq<char>, guess: seq<char>)
    ensures Matches(pattern, guess) <= |pattern|
    ensures Matches(pattern, guess) <= |guess|
    decreases |pattern|
  {
    if pattern != [] {
      MatchesBounded(pattern[..|pattern| - 1], guess);
    }
  }

  /** Every position of the pattern scores exactly when the pattern is a prefix of the guess. */
  lemma {:induction false} MatchesAllIffPrefix(pattern: seq<char>, guess: seq<char>)
    ensures Matches(pattern, guess) == |pattern| <==> |pattern| <= |guess| && pattern == guess[..|pattern|]
    decreases |pattern|
  {
    if pattern != [] {
      var k := |pattern| - 1;
      var front := pattern[..k];
      MatchesAllIffPrefix(front, guess);
      MatchesBounded(front, guess);
      if Matches(pattern, guess) == |pattern| {
        assert Matches(front, guess) == k && k < |guess| && pattern[k] == guess[k];
        assert pattern == front + [pattern[k]];
        assert guess[..|pattern|] == guess[..k] + [guess[k]];
      }
      if |pattern| <= |guess| && pattern == guess[..|pattern|] {
        assert front == guess[..k];
      }
    }
  }

  /** For a guess as long as the pattern: the count is the full length exactly when the guess is the pattern. */
  lemma MatchesFull(pattern: seq<char>, guess: seq<char>)
    requires |pattern| == |guess|
    ensures Matches(pattern, guess) == |pattern| <==> pattern == guess
    ensures pattern != guess ==> Matches(pattern, guess) < |pattern|
  {
    MatchesAllIffPrefix(pattern, guess);
    MatchesBounded(pattern, guess);
    assert guess[..|pattern|] == guess;
  }

  /** Rewriting one position in both sequences changes the count only by what that position contributes. */
  lemma MatchesUpdate(pattern: seq<char>, guess: seq<char>, i: nat, x: char, y: char)
    requires i < |pattern| && i < |guess|
    ensures Matches(pattern[i := x], guess[i := y])
         == Matches(pattern, guess) - (if pattern[i] == guess[i] then 1 else 0) + (if x == y then 1 else 0)
  {
    var pattern', guess' := pattern[i := x], guess[i := y];
    MatchesCountsPositions(pattern, guess);
    MatchesCountsPositions(pattern', guess');
    var before := MatchPositions(pattern, guess);
    var after := MatchPositions(pattern', guess');
    var rest := before - {i};
    assert after - {i} == rest;
    if pattern[i] == guess[i] {
      assert before == rest + {i};
    } else {
      assert before == rest;
    }
    if x == y {
      assert after == rest + {i};
    } else {
      assert after == rest;
    }
  }
}
