# Pattern match game: the pattern/guess engine in Dafny

This project models the core of a terminal deduction game for one to eight players. Each
player gets a secret pattern: a random rearrangement of the first `length` symbols of a
fixed 64-symbol alphabet, with `4 <= length <= 64`. The player then makes an initial guess
of the same length, made of decimal digits that occur in the pattern. If that guess happens
to be the pattern itself, the pattern is drawn again until it no longer matches. After that,
round after round, every player who has not finished swaps two positions of their guess and
is told how many positions now match. A player whose guess matches in full gets the next
finishing rank. The game ends when every player has a rank.

The model has one module per concern:

- `Alphabet` (alphabet.dfy) holds the constants and the alphabet, both as listed and symbol
  by symbol.
- `Scoring` (scoring.dfy) holds the match count as a function, and its properties.
- `Swaps` (swaps.dfy) holds the swap of two positions, sequences of moves, and what they
  do to the score.
- `Patterns` (patterns.dfy) holds pattern generation as a function of the random index
  choices, with the permutation proofs.
- `Regeneration` (regeneration.dfy) holds the redraw rule of the initial-guess round on
  values.
- `Ranking` (ranking.dfy) holds the finishing ranks as a table indexed by player, with the
  order of finishers.
- `Players` (player.dfy) holds the `Player` class: fields `pattern`, `guess` and `hasWon`,
  updated in place by its methods. Each method that loops in the source loops here too,
  and each is proved against the functions above.
- `Rounds` (rounds.dfy) holds the swap rounds on values: a `Table` of guesses, ranks,
  finishing order and a log naming the player of every move, and one turn (`TakeTurn`),
  the rest of a round (`RoundFrom`) and all the rounds (`Session`) as functions of the
  table they start from, with what they promise.
- `Games` (game.dfy) holds the `Game` class: the sequence of players, the initial guess of
  one player with the redraw rule, and the swap rounds with the win count. Each method of
  the swap rounds is proved to compute on the players exactly what the matching function
  of `Rounds` computes on values.

Randomness enters only as parameters. `GeneratePattern` takes the index choices one pick
at a time, and the redraw rule takes one run of choices per redraw. Terminal input enters
as already-parsed values. An initial guess is a string. A swap is a `Move` of two
zero-based positions, and the swap rounds take the whole sequence of moves the players
will type, in the order they are asked for.

## Model

| member | source | states |
|---|---|---|
| Alphabet.CharactersListed | src/lib.rs:13 | the alphabet as listed (ten digits, `a`-`z`, `A`-`Z`, `-`, `_`) is the 64-symbol sequence `Prefix(64)` used everywhere else |
| Alphabet.CharactersPrefix | src/lib.rs:281 | for every length up to 64, the symbols a pattern of that length uses are `CHARACTERS[0..length]` |
| Alphabet.SymbolRanked | src/lib.rs:13 | each symbol sits at its own rank, and exactly the first ten symbols are decimal digits |
| Alphabet.PrefixDistinct | src/lib.rs:13 | the symbols are pairwise distinct, so every pool `CHARACTERS[0..length]` is too |
| Alphabet.PrefixHasLetter | src/lib.rs:13 | a pool of more than ten symbols holds a symbol that is not a digit |
| Patterns.RemoveAtKeepsRest | src/lib.rs:288 | removing index `i` from the pool keeps the other symbols in order and takes away exactly one occurrence of `pool[i]` |
| Patterns.DrawingStep | src/lib.rs:282-293 | one pick (take `chars[i]`, remove it, refill an emptied pool) keeps the loop state: before the last pick the pool holds `length - k` symbols and has never been refilled; after it, it has been refilled exactly once |
| Players.Player.GeneratePattern | src/lib.rs:276-296 | the result is the draw function of the choices, a rearrangement of the first `length` symbols; the refill fires exactly once, right after the last pick (never when `length` is 0) |
| Patterns.DrawsPermutation | src/lib.rs:276-296 | drawing a whole pool without replacement yields a rearrangement of that pool, of the same length |
| Patterns.DrawsArePatterns | src/lib.rs:276-296 | every in-range run of choices yields a pattern of the requested length |
| Patterns.PatternDistinct | src/lib.rs:276-296 | no symbol occurs twice in a pattern |
| Patterns.PatternSymbols | src/lib.rs:276-296 | a pattern holds exactly the symbols of its pool |
| Patterns.EveryPatternReachable | src/lib.rs:276-296 | conversely, every rearrangement of the pool comes out of generation for some in-range choices |
| Players.Player.constructor | src/lib.rs:267-273 | a new player holds a freshly drawn pattern, an empty guess and rank 0 |
| Games.Game.constructor | src/lib.rs:81-85 | a new game has the requested number of distinct, freshly allocated players, each holding a pattern of the game's length drawn with its own choices, an empty guess and no rank |
| Players.Player.InitialGuess | src/lib.rs:299-317 | accepted exactly when the input has the pattern's length and consists only of digits that occur in the pattern; on success the guess becomes the input and the result is its score; on failure the guess is unchanged and the error is the one `Rejects` names; the pattern and the rank never change |
| Players.AcceptedOrRejected | src/lib.rs:299-317 | every input is accepted or refused with some error, never both |
| Players.RejectionUnique | src/lib.rs:300-312 | the error is determined by the input: a wrong length wins over everything, otherwise the first offending character from the left decides |
| Players.EarlierOffenceWins | src/lib.rs:304-312 | against pattern `0123` the input `9a12` is refused as `NotInPattern('9')`, not `NotADigit('a')`: the digit test of each character runs before the membership test, character by character |
| Players.RepeatsAccepted | src/lib.rs:304-316 | repeated symbols pass validation: `0000` is accepted against the pattern `1032` |
| Players.Player.CountMatches | src/lib.rs:330-345 | the result is the match count, which is the number of positions `i < min(|pattern|, |guess|)` where pattern and guess agree |
| Scoring.MatchesCountsPositions | src/lib.rs:330-345 | the match count is the size of the set of agreeing positions inside both sequences |
| Scoring.MatchesBounded | src/lib.rs:330-345 | the count is at most the length of the pattern and at most the length of the guess |
| Scoring.MatchesAllIffPrefix | src/lib.rs:330-345 | the count equals the pattern's length exactly when the pattern is a prefix of the guess |
| Scoring.MatchesFull | src/lib.rs:330-345 | for sequences of equal length, the count is full exactly when guess and pattern are equal, and below full otherwise |
| Scoring.MatchesUpdate | src/lib.rs:330-345 | rewriting one position of both sequences changes the count only by that position's contribution |
| Players.Player.Swap | src/lib.rs:320-328 | the guess becomes the old guess with positions `a` and `b` exchanged; the pattern and the rank are unchanged; the result is the score of the new guess |
| Swaps.Swapped | src/lib.rs:320-326 | after the exchange the length is kept, position `a` holds the old `b`, position `b` holds the old `a`, and every other position is unchanged |
| Swaps.SwappedSymbols | src/lib.rs:320-326 | a swap keeps the multiset of symbols |
| Swaps.SwappedSame | src/lib.rs:320-326 | swapping a position with itself changes nothing |
| Swaps.SwappedTwice | src/lib.rs:320-326 | the same swap done twice restores the guess (involution), and with it the score |
| Swaps.SwapScore | src/lib.rs:320-328 | a swap of two distinct positions changes the score by what the two positions lose and gain, so by at most two |
| Swaps.JointSwapScore | src/lib.rs:320-328 | applying the same swap to pattern and guess leaves the score unchanged |
| Swaps.JointMovesScore | src/lib.rs:320-328 | applying the same sequence of moves to pattern and guess leaves the score unchanged |
| Swaps.ApplyMovesSnoc | src/lib.rs:218 | one more move at the end of a move sequence swaps the guess reached so far |
| Swaps.MovesKeepSymbols | src/lib.rs:218 | any sequence of in-range moves keeps the multiset of symbols of the guess |
| Swaps.NeverSolvedWithOtherSymbols | src/lib.rs:218 | a guess whose symbols differ from the pattern's as a multiset never reaches a full match, whatever the moves |
| Players.LongPatternsUnwinnable | src/lib.rs:304-312 | with more than ten symbols the pattern holds a letter while an accepted guess holds only digits, so no sequence of swaps ever wins |
| Players.Player.Redraw | src/lib.rs:122-123 | one round of the redraw rule: a new pattern of the same length drawn with the given choices, the guess and the rank unchanged, the result its score |
| Players.Player.RedrawWhileSolved | src/lib.rs:121-124 | on exit the guess and the rank are unchanged, the pattern length is kept, the pattern differs from the guess, and the returned count is its score, below the length; the history is `Regenerated` |
| Regeneration.RegeneratingStep | src/lib.rs:121-124 | one iteration of the redraw loop, taken while the count is full, keeps the loop state |
| Regeneration.RegeneratedHistory | src/lib.rs:121-124 | a redraw happens only while the pattern equals the guess: with no redraw the pattern is untouched; otherwise the start and every draw before the last one equal the guess, and the last draw gives the final pattern |
| Regeneration.RegeneratedPattern | src/lib.rs:121-124 | whatever the redraw rule leaves is still a pattern of the same length |
| Games.Game.AcceptInitialGuess | src/lib.rs:119-126 | one initial guess of one player: it is accepted exactly when `InitialGuess` accepts it; a refusal changes nothing; on acceptance the guess is the input, the score is below the pattern length, the pattern is kept unless it equalled the input, in which case it is the first redrawn pattern that differs from the input; the returned redraw count and the new pattern satisfy `Regenerated`, the redraw history in which every earlier draw equalled the input; the game stays valid |
| Rounds.PlayingStart | src/lib.rs:142-153 | the swap rounds start from the table `Start(initial)`: the initial guesses, no rank, no finisher and no move used; provided no initial guess already matches in full, that table means what `Playing` says: nobody holds a rank, every guess is the initial one with no move applied, and none matches in full |
| Rounds.TakeTurn | src/lib.rs:218-229 | a turn of player `p` logs the move as `p`'s, keeps guesses of the pattern length, and changes no other player's guess or rank |
| Rounds.PlayingTurn | src/lib.rs:218-229 | a move by a player without a rank extends that player's own move history by the move and no one else's; the guess is the initial guess with that history applied; a full match gives rank `wins + 1` and appends the player to the finishing order, and otherwise the player stays unranked |
| Rounds.TurnRanked | src/lib.rs:226-229 | a turn of a player without a rank keeps the ranks consistent with the finishing order, which never exceeds the player count |
| Rounds.RoundPlaying | src/lib.rs:150-247 | the rest of a round keeps the meaning of the table: each guess is the initial guess with the player's own moves applied, a player holds a rank exactly when the guess matches in full, and every move was made before its player matched in full |
| Rounds.RoundGrows | src/lib.rs:150-237 | the rest of a round only appends to the finishing order, and a player holding a rank keeps it |
| Rounds.RoundKeeps | src/lib.rs:150-241 | given consistent ranks, the rest of a round keeps them consistent; it stops the game only when every player has a rank or no move is left, and a round that does not stop the game leaves someone unranked if someone was |
| Rounds.RoundVisits | src/lib.rs:150-218 | the moves of a round go one each, in order, to the players that were waiting (unranked) at its start, in increasing player order, as far as the round gets |
| Rounds.RoundReaches | src/lib.rs:150-241 | the round reaches every waiting player unless it stops the game because a move is needed and none is left |
| Rounds.RoundIdle | src/lib.rs:150-153 | a player holding a rank makes no move during a round: the moves the log gives the player are unchanged |
| Rounds.RoundProgress | src/lib.rs:147-252 | a round that starts with an unranked player uses at least one move unless it stops the game |
| Rounds.SessionPlaying | src/lib.rs:147-252 | all the swap rounds keep the meaning of the table that `Playing` describes |
| Rounds.SessionEnds | src/lib.rs:239-240 | the swap rounds end with every player ranked or with the moves used up |
| Rounds.WaitingMembers | src/lib.rs:150-153 | the players waiting from `p` on are exactly those at or after `p` without a rank, listed once each in increasing order |
| Rounds.WaitingCount | src/lib.rs:150-229 | with consistent ranks, finished and waiting players together are all the players |
| Rounds.MovesOfSnoc | src/lib.rs:218 | one more logged move is one more move of the player it names and of nobody else |
| Rounds.MovesOfAbsent | src/lib.rs:218 | a player the later log entries do not name makes none of the later moves |
| Games.Game.Turn | src/lib.rs:218-229 | on the heap: the player's guess is swapped and rescored; on a full match the win count goes up by one and is stored as the player's rank; no other player changes |
| Games.Game.PlayTurn | src/lib.rs:218-229 | the new table, held by the players, is exactly `TakeTurn` of the old one: the guess is swapped, the move is logged as the player's, and a full match adds the player to the finishing order with rank `wins + 1`; the win count is the number of finishers |
| Games.Game.PlayRound | src/lib.rs:150-247 | the new table, held by the players, and `over` are exactly `RoundFrom` of the old table from player 0: players are visited in order, those with a rank are skipped, each other one takes a turn, and the round stops the game as soon as every player has a rank or a move is needed and none is left |
| Games.Game.Play | src/lib.rs:142-254 | the final table, held by the players, and the number of the last round are exactly `Session` of the start table from round 1; the rounds end with every player ranked or the moves used up; each guess is the initial guess with the moves the log gives that player applied; a player holds a rank exactly when the guess matches in full; every move was made before its player matched in full; the ranks are consistent with the finishing order, whose length is the win count |
| Ranking.RankedByNone | src/lib.rs:144 | with no win yet, the all-zero rank table is consistent with the empty order |
| Ranking.RankedByStep | src/lib.rs:226-229 | a win by a player without a rank, storing the incremented win count as the rank, keeps the table consistent with the order extended by that player |
| Ranking.RanksDistinct | src/lib.rs:226-229 | the ranks handed out are pairwise distinct, and no player finishes twice |
| Ranking.RanksAreFirstNaturals | src/lib.rs:226-229 | after `k` wins the set of ranks handed out is exactly `{1..k}` |
| Ranking.RankedByPop | src/lib.rs:226-229 | taking back the last win leaves a consistent table with one finisher fewer |
| Ranking.WinnersCounted | src/lib.rs:226-229 | the win count is the number of players holding a rank |
| Ranking.AllRankedIffCountReached | src/lib.rs:239-240 | the win count reaches the player count exactly when every player holds a rank, and it never exceeds it |

## Left out

- Terminal input is not modelled. That covers reading and trimming lines and parsing the player count, the pattern length and the swap positions with their range checks and retry messages (src/lib.rs:29-76, 111-117, 170-214). The model takes parsed, in-range values. A swap's 1-based input positions become a `Move` of 0-based positions, which is the subtraction at src/lib.rs:218.
- Output is not modelled: `println!`, `Ordinal` formatting, and the sorted display of the pattern's symbols (src/lib.rs:107). These are presentation and foreign libraries.
- `thread::sleep` is not modelled, because it is timing only.
- `rand::thread_rng` / `gen_range` are replaced by supplied index choices, each inside the current pool. The uniform distribution is not modelled.
- The retry loop of the initial-guess round (src/lib.rs:106-136) is not modelled. `Games.Game.AcceptInitialGuess` is one attempt; a refused guess leaves everything unchanged, so the loop only asks again.
- Games.Game.AcceptInitialGuess: the redraw loop of the source ends only with probability one. The model takes a finite sequence of redraw choices and requires that one of them draws a pattern other than the guess, a precondition the source does not state. Only the exit condition is proved, not termination of the random loop.
- Games.Game.Play: the source blocks on input for as long as players keep typing. The model gets a finite sequence of moves and also stops when a move is needed and none is left. It starts from the state the initial-guess round leaves: no ranks, guesses of the pattern length, none matching in full. The patterns and initial guesses are named by ghost parameters that the players must hold.
- Rounds.Session: a round that stops nothing and uses no move ends the rounds there. That can only happen when every player already has a rank, which the source never reaches, because it stops as soon as the last player gets a rank.
- Games.Game.Play requires only the roster (length and count in range, distinct players), not that patterns are permutations. It promises that the patterns are unchanged rather than restating `Valid`.
- Players.Player.constructor and Players.Player.Redraw promise that the pattern is the draw of the given choices. That it is a pattern follows from `Patterns.DrawsArePatterns`; `Players.Player.GeneratePattern` states it directly.
- Rust `String` length and `replace_range` work on bytes. The model uses `seq<char>`, which agrees under the ASCII alphabet the code relies on. Non-ASCII input, whose byte length differs from its character count, is not modelled.
- `Vec::with_capacity(player_count)` and `String::with_capacity` have no visible effect and are not modelled.
- The player and game counters are unbounded `nat`s. The source's `usize` never comes near overflow with at most eight players.
