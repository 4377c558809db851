/** A game session: the players, the initial-guess round with its regeneration rule,
    and the swap rounds that hand out finishing ranks. */
module Games {
  import opened Alphabet
  import opened Scoring
  import opened Swaps
  import opened Patterns
  import opened Players
  import opened Regeneration
  import opened Ranking
  import opened Rounds

  /** No player occurs twice. */
  ghost predicate Distinguished(ps: seq<Player>) {
    forall i, j :: 0 <= i < j < |ps| ==> ps[i] != ps[j]
  }

  /** The players hold exactly the given patterns, guesses and ranks, player by player. */
  ghost predicate Holds(ps: seq<Player>, patterns: seq<seq<char>>, guesses: seq<seq<char>>, ranks: seq<nat>)
    reads ps
  {
    |patterns| == |ps| && |guesses| == |ps| && |ranks| == |ps| &&
    forall i :: 0 <= i < |ps| ==>
      (ps[i].pattern == patterns[i] && ps[i].guess == guesses[i] && ps[i].hasWon == ranks[i])
  }

  /** A player as the game creates it: the pattern drawn with `choices`, no guess, no rank. */
  ghost predicate NewPlayer(p: Player, length: nat, choices: seq<nat>)
    reads p
  {
    length <= MaximumPatternLength && ValidChoices(length, choices) &&
    p.pattern == Draws(Prefix(length), choices) && p.guess == [] && p.hasWon == 0
  }

  class Game {
    var players: seq<Player>
    const patternLength: nat

    /** A pattern length in range and between one and eight distinct players. */
    ghost predicate Roster()
      reads this
    {
      MinimumPatternLength <= patternLength <= MaximumPatternLength &&
      MinimumPlayerCount <= |players| <= MaximumPlayerCount && Distinguished(players)
    }

    /** The roster, each player holding a pattern of the game's length. */
    ghost predicate Valid()
      reads this, players
    {
      Roster() && forall i :: 0 <= i < |players| ==> IsPattern(players[i].pattern, patternLength)
    }

    /** A new game with `playerCount` players; player `k` draws its pattern with `choices[k]`. */
    constructor (playerCount: nat, length: nat, choices: seq<seq<nat>>)
      requires MinimumPlayerCount <= playerCount <= MaximumPlayerCount
      requires MinimumPatternLength <= length <= MaximumPatternLength
      requires |choices| == playerCount && forall k :: 0 <= k < playerCount ==> ValidChoices(length, choices[k])
      ensures Valid() && patternLength == length && |players| == playerCount
      ensures forall k :: 0 <= k < playerCount ==> NewPlayer(players[k], length, choices[k])
      ensures forall k :: 0 <= k < playerCount ==> fresh(players[k])
    {
      var ps: seq<Player> := [];
      for k := 0 to playerCount
        invariant |ps| == k
        invariant Distinguished(ps)
        invariant forall i :: 0 <= i < k ==> fresh(ps[i])
        invariant forall i :: 0 <= i < k ==> NewPlayer(ps[i], length, choices[i])
      {
        var p := new Player(length, choices[k]);
        ps := ps + [p];
      }
      players := ps;
      patternLength := length;
      forall k | 0 <= k < playerCount ensures IsPattern(ps[k].pattern, length) {
        DrawsArePatterns(length, choices[k]);
      }
    }

    /** Player `i` makes an initial guess. When it is accepted and happens to be the
        pattern itself, the pattern is drawn again from `draws` until the guess no longer
        matches in full. */
    method AcceptInitialGuess(i: nat, input: seq<char>, draws: seq<seq<nat>>) returns (r: Result<nat, InitialGuessError>, ghost redraws: nat)
      requires Valid() && i < |players|
      requires Redraws(patternLength, draws)
      requires input == players[i].pattern ==> exists k :: DrawDiffers(patternLength, draws, k, input)
      modifies players[i]
      ensures Valid() && players == old(players)
      ensures players[i].hasWon == old(players[i].hasWon)
      ensures r.Ok? <==> Accepts(old(players[i].pattern), input)
      ensures r.Err? ==> (Rejects(old(players[i].pattern), input, r.error) &&
        players[i].pattern == old(players[i].pattern) && players[i].guess == old(players[i].guess))
      ensures r.Ok? ==> players[i].guess == input && r.value == Matches(players[i].pattern, input)
      ensures r.Ok? ==> r.value < patternLength
      ensures r.Ok? && input != old(players[i].pattern) ==> players[i].pattern == old(players[i].pattern)
      ensures r.Ok? && input == old(players[i].pattern) ==>
        exists k :: DrawnWith(patternLength, draws, k, players[i].pattern)
      ensures r.Ok? ==> Regenerated(patternLength, draws, input, old(players[i].pattern), redraws, players[i].pattern)
    {
      var player := players[i];
      r := player.InitialGuess(input);
      redraws := 0;
      if r.Err? {
        return;
      }
      ghost var start := player.pattern;
      var matches;
      matches, redraws := player.RedrawWhileSolved(r.value, draws);
      RegeneratedPattern(patternLength, draws, input, start, redraws, player.pattern);
      if input == start {
        assert DrawnWith(patternLength, draws, redraws - 1, player.pattern);
      }
      r := Ok(matches);
    }

    /** The swap rounds. Round after round, every player without a rank makes one move,
        the next of `moves`, and is scored; a player whose guess now matches in full gets
        the next rank. The rounds end once every player has a rank; they also stop when a
        move is needed and `moves` is used up. The players start with the patterns
        `patterns`, the guesses `initial` and no rank. Returns the number of the last round,
        the number of wins and of moves used, and, as a ghost, the table the rounds leave:
        the one `Session` computes, which the players hold and `Playing` describes. */
    method Play(moves: seq<Move>, ghost patterns: seq<seq<char>>, ghost initial: seq<seq<char>>)
      returns (round: nat, winCount: nat, used: nat, ghost t: Table)
      requires Roster() && Holds(players, patterns, initial, Start(initial).ranks)
      requires forall i :: 0 <= i < |players| ==>
        |initial[i]| == patternLength && Matches(patterns[i], initial[i]) < patternLength
      requires MovesInRange(moves, patternLength)
      modifies players
      ensures Roster() && players == old(players) && 1 <= round
      ensures Holds(players, patterns, t.guesses, t.ranks) && |t.order| == winCount && |t.log| == used
      ensures (t, round) == Session(patternLength, patterns, moves, Start(initial), 1)
      ensures Playing(patternLength, patterns, initial, moves, t)
      ensures winCount == |players| || used == |moves|
    {
      var ps, n := players, |players|;
      ghost var t0 := Start(initial);
      PlayingStart(patternLength, patterns, initial, moves);
      t, round, winCount, used := t0, 1, 0, 0;
      while true
        invariant players == ps && 1 <= round
        invariant Fits(patternLength, patterns, moves, t) && Holds(ps, patterns, t.guesses, t.ranks)
        invariant |t.order| == winCount < n && |t.log| == used && RankedBy(t.ranks, t.order)
        invariant Session(patternLength, patterns, moves, t, round) == Session(patternLength, patterns, moves, t0, 1)
        decreases |moves| - used
      {
        ghost var before := t;
        var over;
        used, winCount, over, t := PlayRound(moves, used, winCount, patterns, t);
        RoundKeeps(patternLength, patterns, moves, before, 0);
        RoundProgress(patternLength, patterns, moves, before);
        if over {
          break;
        }
        round := round + 1;
      }
      SessionPlaying(patternLength, patterns, initial, moves, t0, 1);
    }

    /** One round of the swap rounds, from the table `t0` the players hold, which has used
        `used0` moves and counted `winCount0` wins. Players are visited in order; each one
        without a rank makes the next move of `moves` (see `PlayTurn`), and a player with a
        rank is skipped. The round is cut short, and `over` is set, when the last player
        gets a rank or when a move is needed and `moves` is used up. The new table, which
        the players hold, and `over` are those `RoundFrom` computes. */
    method PlayRound(moves: seq<Move>, used0: nat, winCount0: nat, ghost patterns: seq<seq<char>>, ghost t0: Table)
      returns (used: nat, winCount: nat, over: bool, ghost t: Table)
      requires Roster() && Fits(patternLength, patterns, moves, t0) && Holds(players, patterns, t0.guesses, t0.ranks)
      requires |t0.log| == used0 && |t0.order| == winCount0
      modifies players
      ensures Holds(players, patterns, t.guesses, t.ranks) && |t.log| == used && |t.order| == winCount
      ensures (t, over) == RoundFrom(patternLength, patterns, moves, t0, 0)
    {
      var ps, n := players, |players|;
      used, winCount, over, t := used0, winCount0, false, t0;
      for p := 0 to n
        invariant Fits(patternLength, patterns, moves, t) && Holds(ps, patterns, t.guesses, t.ranks)
        invariant |t.log| == used && |t.order| == winCount
        invariant RoundFrom(patternLength, patterns, moves, t, p) == RoundFrom(patternLength, patterns, moves, t0, 0)
      {
        if ps[p].hasWon > 0 {
          continue;
        }
        if used == |moves| {
          over := true;
          return;
        }
        winCount, t := PlayTurn(p, moves[used], winCount, moves, patterns, t);
        used := used + 1;
        if winCount == n {
          over := true;
          return;
        }
      }
    }

    /** Player `p` makes the move `m`: the guess is swapped and scored, and when it now
        matches in full the win count goes up by one and becomes the player's rank. The
        ghost parameters are what the players hold before and after the move. */
    method Turn(p: nat, m: Move, winCount0: nat,
                ghost patterns: seq<seq<char>>, ghost guesses0: seq<seq<char>>, ghost ranks0: seq<nat>)
      returns (winCount: nat, ghost guesses: seq<seq<char>>, ghost ranks: seq<nat>)
      requires Roster() && p < |players| && Holds(players, patterns, guesses0, ranks0)
      requires m.first < |guesses0[p]| && m.second < |guesses0[p]|
      modifies players[p]
      ensures Holds(players, patterns, guesses, ranks)
      ensures guesses == guesses0[p := Swapped(guesses0[p], m.first, m.second)]
      ensures Matches(patterns[p], guesses[p]) == patternLength ==>
        (winCount == winCount0 + 1 && ranks == ranks0[p := winCount])
      ensures Matches(patterns[p], guesses[p]) != patternLength ==>
        (winCount == winCount0 && ranks == ranks0)
    {
      var ps, player := players, players[p];
      var swapped := player.Swap(m.first, m.second);
      var matches := player.CountMatches();
      winCount, guesses, ranks := winCount0, guesses0[p := player.guess], ranks0;
      if matches == patternLength {
        winCount := winCount + 1;
        player.hasWon := winCount;
        ranks := ranks[p := winCount];
      }
      assert players == ps;
      forall i | 0 <= i < |ps| ensures ps[i].pattern == patterns[i] && ps[i].guess == guesses[i] && ps[i].hasWon == ranks[i] {
        if i != p {
          assert ps[i] != player;
        }
      }
    }

    /** A turn of the swap rounds on the table `t0` the players hold: player `p` makes the
        move `m`, the next of `moves` (see `Turn`). The new table, which the players hold,
        is the one `TakeTurn` computes: the log names the player for that move, and a
        player who now matches in full is added to the finishing order. */
    method PlayTurn(p: nat, m: Move, winCount0: nat, ghost moves: seq<Move>, ghost patterns: seq<seq<char>>, ghost t0: Table)
      returns (winCount: nat, ghost t: Table)
      requires Roster() && p < |players| && Fits(patternLength, patterns, moves, t0)
      requires Holds(players, patterns, t0.guesses, t0.ranks)
      requires |t0.log| < |moves| && moves[|t0.log|] == m && |t0.order| == winCount0
      modifies players[p]
      ensures Holds(players, patterns, t.guesses, t.ranks) && |t.order| == winCount
      ensures t == TakeTurn(patternLength, patterns, moves, t0, p)
    {
      ghost var guesses, ranks;
      winCount, guesses, ranks := Turn(p, m, winCount0, patterns, t0.guesses, t0.ranks);
      t := Table(guesses, ranks, if winCount != winCount0 then t0.order + [p] else t0.order, t0.log + [p]);
    }
  }
}
