/** One player's state: the secret pattern, the current guess and the win rank,
    with pattern generation, initial-guess validation, scoring and the swap. */
module Players {
  import opened Alphabet
  import opened Scoring
  import opened Swaps
  import opened Patterns
  import opened Regeneration

  /** Why an initial guess was refused. */
  datatype InitialGuessError = WrongLength | NotADigit(character: char) | NotInPattern(character: char)

  datatype Result<T, E> = Ok(value: T) | Err(error: E)

  /** A character of an initial guess that validation refuses: not a decimal digit,
      or a digit that does not occur in the pattern. */
  predicate Offending(pattern: seq<char>, c: char) {
    !IsDigit(c) || c !in pattern
  }

  /** The error an offending character is reported with; the digit test comes before the membership test. */
  function ErrorFor(pattern: seq<char>, c: char): InitialGuessError {
    if !IsDigit(c) then NotADigit(c) else NotInPattern(c)
  }

  /** Position `i` holds the first offending character of `input`. */
  predicate FirstOffence(pattern: seq<char>, input: seq<char>, i: nat) {
    i < |input| && Offending(pattern, input[i]) &&
    forall j :: 0 <= j < i ==> !Offending(pattern, input[j])
  }

  /** An initial guess that validation accepts: the pattern's length, and only digits of the pattern. */
  predicate Accepts(pattern: seq<char>, input: seq<char>) {
    |input| == |pattern| && forall j :: 0 <= j < |input| ==> !Offending(pattern, input[j])
  }

  /** Validation refuses `input` with error `e`: a wrong length is reported before any
      character, and otherwise the first offending character, scanning left to right, decides. */
  ghost predicate Rejects(pattern: seq<char>, input: seq<char>, e: InitialGuessError) {
    if |input| != |pattern| then e == WrongLength
    else exists i: nat :: FirstOffence(pattern, input, i) && e == ErrorFor(pattern, input[i])
  }

  lemma {:induction false} FirstOffenceExists(pattern: seq<char>, input: seq<char>, i: nat)
    requires i < |input| && Offending(pattern, input[i])
    ensures exists k :: FirstOffence(pattern, input, k)
    decreases i
  {
    if exists j :: 0 <= j < i && Offending(pattern, input[j]) {
      var j :| 0 <= j < i && Offending(pattern, input[j]);
      FirstOffenceExists(pattern, input, j);
    } else {
      assert FirstOffence(pattern, input, i);
    }
  }

  /** Every input is either accepted or refused with some error, never both. */
  lemma AcceptedOrRejected(pattern: seq<char>, input: seq<char>)
    ensures Accepts(pattern, input) <==> !exists e :: Rejects(pattern, input, e)
  {
    if Accepts(pattern, input) {
      assert forall i: nat :: !FirstOffence(pattern, input, i);
    } else if |input| != |pattern| {
      assert Rejects(pattern, input, WrongLength);
    } else {
      var i :| 0 <= i < |input| && Offending(pattern, input[i]);
      FirstOffenceExists(pattern, input, i);
      var k: nat :| FirstOffence(pattern, input, k);
      assert Rejects(pattern, input, ErrorFor(pattern, input[k]));
    }
  }

  /** The error is determined by the input: there is only one first offence. */
  lemma RejectionUnique(pattern: seq<char>, input: seq<char>, e1: InitialGuessError, e2: InitialGuessError)
    requires Rejects(pattern, input, e1) && Rejects(pattern, input, e2)
    ensures e1 == e2
  {
    if |input| == |pattern| {
      var i1: nat :| FirstOffence(pattern, input, i1) && e1 == ErrorFor(pattern, input[i1]);
      var i2: nat :| FirstOffence(pattern, input, i2) && e2 == ErrorFor(pattern, input[i2]);
      assert i1 == i2;
    }
  }

  /** The digit test of an earlier character wins over a later non-digit: against the
      pattern "0123", the guess "9a12" is refused because '9' is not in the pattern,
      not because 'a' is not a digit. */
  lemma EarlierOffenceWins()
    ensures Rejects("0123", "9a12", NotInPattern('9'))
    ensures !Rejects("0123", "9a12", NotADigit('a'))
  {
    var pattern, input := "0123", "9a12";
    assert FirstOffence(pattern, input, 0);
    if Rejects(pattern, input, NotADigit('a')) {
      RejectionUnique(pattern, input, NotInPattern('9'), NotADigit('a'));
    }
  }

  /** Repeated symbols pass validation: "0000" is an accepted initial guess for "1032". */
  lemma RepeatsAccepted()
    ensures Accepts("1032", "0000")
  {
    assert '0' in "1032";
  }

  /** With more than ten symbols the pattern holds a letter while an accepted guess holds
      only digits, so no sequence of swaps ever makes the guess match in full. */
  lemma LongPatternsUnwinnable(pattern: seq<char>, guess: seq<char>, moves: seq<Move>)
    requires 10 < |pattern| && IsPattern(pattern, |pattern|)
    requires Accepts(pattern, guess) && MovesInRange(moves, |guess|)
    ensures Matches(pattern, ApplyMoves(guess, moves)) < |pattern|
  {
    var letter := Prefix(|pattern|)[10];
    PrefixHasLetter(|pattern|);
    assert letter in multiset(pattern);
    assert letter !in guess;
    NeverSolvedWithOtherSymbols(pattern, guess, moves);
  }

  class Player {
    var pattern: seq<char>
    var guess: seq<char>
    /** 0 until the player completes the pattern, then the player's finishing rank. */
    var hasWon: nat

    /** A new player: a freshly drawn pattern, no guess yet, not won. */
    constructor (patternLength: nat, choices: seq<nat>)
      requires patternLength <= MaximumPatternLength
      requires ValidChoices(patternLength, choices)
      ensures pattern == Draws(Prefix(patternLength), choices)
      ensures guess == [] && hasWon == 0
    {
      var p;
      ghost var refills;
      p, refills := GeneratePattern(patternLength, choices);
      pattern := p;
      guess := [];
      hasWon := 0;
    }

    /** Draws `length` symbols from a pool that starts as the first `length` symbols of
        the alphabet as listed; the k-th pick takes the symbol at `choices[k]` and removes it from
        the pool, and an emptied pool is refilled. `refills` records the picks after
        which the refill happened. */
    static method GeneratePattern(length: nat, choices: seq<nat>) returns (pattern: seq<char>, ghost refills: seq<nat>)
      requires length <= MaximumPatternLength
      requires ValidChoices(length, choices)
      ensures pattern == Draws(Prefix(length), choices)
      ensures IsPattern(pattern, length)
      ensures refills == if length == 0 then [] else [length - 1]
    {
      DrawsArePatterns(length, choices);
      pattern := [];
      refills := [];
      CharactersPrefix(length);
      var symbols := Characters[..length];
      var chars := symbols;
      for k := 0 to length
        invariant Drawing(symbols, choices, k, pattern, chars, refills)
      {
        DrawingStep(symbols, choices, k, pattern, chars, refills);
        var i := choices[k];
        pattern := pattern + [chars[i]];
        chars := RemoveAt(chars, i);
        if |chars| == 0 {
          chars := symbols;
          refills := refills + [k];
        }
      }
    }

    /** Validates an initial guess and, when it is accepted, makes it the guess and scores it. */
    method InitialGuess(input: seq<char>) returns (r: Result<nat, InitialGuessError>)
      modifies this
      ensures pattern == old(pattern) && hasWon == old(hasWon)
      ensures r.Ok? <==> Accepts(pattern, input)
      ensures r.Ok? ==> guess == input && r.value == Matches(pattern, guess)
      ensures r.Err? ==> guess == old(guess) && Rejects(pattern, input, r.error)
    {
      if |input| != |pattern| {
        return Err(WrongLength);
      }
      for i := 0 to |input|
        invariant forall j :: 0 <= j < i ==> !Offending(pattern, input[j])
      {
        var c := input[i];
        if !IsDigit(c) {
          assert FirstOffence(pattern, input, i);
          return Err(NotADigit(c));
        }
        if c !in pattern {
          assert FirstOffence(pattern, input, i);
          return Err(NotInPattern(c));
        }
      }
      guess := input;
      var matches := CountMatches();
      return Ok(matches);
    }

    /** The regeneration rule after an accepted initial guess: while the guess matches the
        pattern in full, the pattern is drawn again, the k-th time with `draws[k]`, and the
        guess is scored against the new pattern. Some draw must give a pattern other than the
        guess, since the drawing is otherwise not certain to end. `redraws` counts the rounds:
        each round but the last drew the guess again, and the last one drew the new pattern. */
    method RedrawWhileSolved(matches0: nat, draws: seq<seq<nat>>) returns (matches: nat, redraws: nat)
      requires |guess| == |pattern| && matches0 == Matches(pattern, guess)
      requires Redraws(|pattern|, draws)
      requires guess == pattern ==> exists k :: DrawDiffers(|pattern|, draws, k, guess)
      modifies this
      ensures guess == old(guess) && hasWon == old(hasWon) && |pattern| == old(|pattern|)
      ensures matches == Matches(pattern, guess) && matches < |pattern|
      ensures pattern != guess && Regenerated(|pattern|, draws, guess, old(pattern), redraws, pattern)
    {
      var length := |pattern|;
      ghost var start, g0 := pattern, guess;
      ghost var w: nat := 0;
      if guess == pattern {
        w :| DrawDiffers(length, draws, w, guess);
      }
      matches := matches0;
      redraws := 0;
      MatchesFull(pattern, guess);
      while matches == length
        invariant guess == g0 && hasWon == old(hasWon)
        invariant Regenerating(length, draws, g0, start, w, redraws, pattern, matches)
        decreases |draws| - redraws
      {
        RegeneratingStep(length, draws, g0, start, w, redraws, pattern, matches);
        matches := Redraw(draws[redraws]);
        redraws := redraws + 1;
      }
      MatchesBounded(pattern, guess);
    }

    /** One round of the regeneration rule: a fresh pattern of the same length, drawn with
        `choices`, and the guess scored against it. */
    method Redraw(choices: seq<nat>) returns (matches: nat)
      requires |pattern| <= MaximumPatternLength && ValidChoices(|pattern|, choices)
      modifies this
      ensures |pattern| == old(|pattern|) && pattern == Draws(Prefix(old(|pattern|)), choices)
      ensures guess == old(guess) && hasWon == old(hasWon)
      ensures matches == Matches(pattern, guess)
    {
      var p, refills := GeneratePattern(|pattern|, choices);
      pattern := p;
      matches := CountMatches();
    }

    /** Exchanges positions `a` and `b` of the guess and scores the result. */
    method Swap(a: nat, b: nat) returns (matches: nat)
      requires a < |guess| && b < |guess|
      modifies this
      ensures guess == Swapped(old(guess), a, b)
      ensures pattern == old(pattern) && hasWon == old(hasWon)
      ensures matches == Matches(pattern, guess)
    {
      var x := guess[a];
      var y := guess[b];
      guess := guess[a := y];
      guess := guess[b := x];
      matches := CountMatches();
    }

    /** Walks the pattern and the guess side by side, counting the positions that agree. */
    method CountMatches() returns (matches: nat)
      ensures matches == Matches(pattern, guess)
      ensures matches == |MatchPositions(pattern, guess)|
    {
      matches := 0;
      var k := 0;
      while k < |pattern|
        invariant k <= |pattern|
        invariant matches == Matches(pattern[..k], guess)
      {
        if k < |guess| {
          if pattern[k] == guess[k] {
            matches := matches + 1;
          }
        }
        assert pattern[..k + 1][..k] == pattern[..k];
        k := k + 1;
      }
      assert pattern[..k] == pattern;
      MatchesCountsPositions(pattern, guess);
    }
  }
}
