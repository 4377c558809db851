/** The regeneration rule of the initial-guess round: while an accepted initial guess
    matches its pattern in full, the pattern is drawn again. The random draws are given
    as a sequence of index choices, one run per round. */
module Regeneration {
  import opened Alphabet
  import opened Scoring
  import opened Patterns

  /** Draw choices for repeated pattern generation at the given length. */
  predicate Redraws(length: nat, draws: seq<seq<nat>>) {
    length <= MaximumPatternLength && forall k :: 0 <= k < |draws| ==> ValidChoices(length, draws[k])
  }

  /** The `k`-th of `draws` generates `p`. */
  ghost predicate DrawnWith(length: nat, draws: seq<seq<nat>>, k: nat, p: seq<char>) {
    Redraws(length, draws) && k < |draws| && p == Draws(Prefix(length), draws[k])
  }

  /** The `k`-th of `draws` generates a pattern other than `guess`. */
  ghost predicate DrawDiffers(length: nat, draws: seq<seq<nat>>, k: nat, guess: seq<char>) {
    Redraws(length, draws) && k < |draws| && Draws(Prefix(length), draws[k]) != guess
  }

  /** The history of the regeneration rule, started from pattern `start` against `guess`,
      after `redraws` rounds that left `pattern`: with no round the pattern is still `start`;
      otherwise the last round drew `pattern` with `draws[redraws - 1]`, and it was taken
      because the pattern before it, the outcome of the rounds before, was the guess. */
  ghost predicate Regenerated(length: nat, draws: seq<seq<nat>>, guess: seq<char>, start: seq<char>, redraws: nat, pattern: seq<char>)
    decreases redraws
  {
    Redraws(length, draws) && redraws <= |draws| &&
    if redraws == 0 then pattern == start
    else start == guess && DrawnWith(length, draws, redraws - 1, pattern) && Regenerated(length, draws, guess, start, redraws - 1, guess)
  }

  /** The state of the regeneration loop: `matches` scores `pattern` against `guess`, the
      history so far is `Regenerated`, and while the pattern still equals the guess the
      `w`-th draw, which differs from the guess, is still ahead. */
  ghost predicate Regenerating(length: nat, draws: seq<seq<nat>>, guess: seq<char>, start: seq<char>, w: nat, redraws: nat, pattern: seq<char>, matches: nat) {
    |pattern| == length && |guess| == length && matches == Matches(pattern, guess) &&
    (matches == length <==> pattern == guess) &&
    Regenerated(length, draws, guess, start, redraws, pattern) &&
    (pattern == guess ==> redraws <= w && DrawDiffers(length, draws, w, guess))
  }

  /** A round of the regeneration loop, taken while the guess matches in full, keeps its state. */
  lemma RegeneratingStep(length: nat, draws: seq<seq<nat>>, guess: seq<char>, start: seq<char>, w: nat, redraws: nat, pattern: seq<char>, matches: nat)
    requires Regenerating(length, draws, guess, start, w, redraws, pattern, matches) && matches == length
    ensures length <= MaximumPatternLength && redraws < |draws| && ValidChoices(length, draws[redraws])
    ensures var next := Draws(Prefix(length), draws[redraws]);
      Regenerating(length, draws, guess, start, w, redraws + 1, next, Matches(next, guess))
  {
    var next := Draws(Prefix(length), draws[redraws]);
    DrawsPermutation(Prefix(length), draws[redraws]);
    MatchesFull(next, guess);
    assert DrawnWith(length, draws, redraws, next);
  }

  /** The history spelled out: a round is taken only while the pattern equals the guess, so
      the start and every pattern drawn before the last one are the guess. */
  lemma {:induction false} RegeneratedHistory(length: nat, draws: seq<seq<nat>>, guess: seq<char>, start: seq<char>, redraws: nat, pattern: seq<char>)
    requires Regenerated(length, draws, guess, start, redraws, pattern)
    ensures redraws <= |draws|
    ensures redraws == 0 ==> pattern == start
    ensures 0 < redraws ==> start == guess && DrawnWith(length, draws, redraws - 1, pattern)
    ensures forall j :: 0 <= j < redraws - 1 ==> DrawnWith(length, draws, j, guess)
    decreases redraws
  {
    if 1 < redraws {
      RegeneratedHistory(length, draws, guess, start, redraws - 1, guess);
    }
  }

  /** Whatever the regeneration rule leaves is a pattern when it started from one. */
  lemma RegeneratedPattern(length: nat, draws: seq<seq<nat>>, guess: seq<char>, start: seq<char>, redraws: nat, pattern: seq<char>)
    requires Regenerated(length, draws, guess, start, redraws, pattern) && IsPattern(start, length)
    ensures IsPattern(pattern, length)
  {
    if 0 < redraws {
      DrawsArePatterns(length, draws[redraws - 1]);
    }
  }
}
