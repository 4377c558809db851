/** Pattern generation as a function of the random index choices: drawing without
    replacement from a pool of symbols, and what such a draw always produces. */
module Patterns {
  import opened Alphabet

  /** Draw choices for a pool of `size` symbols: one per pick, the k-th inside
      the k-th pool, which then holds `size - k` symbols. */
  predicate ValidChoices(size: nat, choices: seq<nat>) {
    |choices| == size && forall k :: 0 <= k < size ==> choices[k] < size - k
  }

  lemma ValidChoicesSuffix(size: nat, choices: seq<nat>, k: nat)
    requires ValidChoices(size, choices) && k <= size
    ensures ValidChoices(size - k, choices[k..])
  {
    forall j | 0 <= j < size - k ensures choices[k..][j] < size - k - j {
      assert choices[k..][j] == choices[k + j];
    }
  }

  /** The pool after the symbol at `i` is taken out, the rest closing up in order. */
  function RemoveAt(pool: seq<char>, i: nat): (r: seq<char>)
    requires i < |pool|
    ensures |r| == |pool| - 1
  {
    pool[..i] + pool[i + 1..]
  }

  /** Taking out the symbol at `i` keeps the others in order and removes exactly one
      occurrence of that symbol. */
  lemma RemoveAtKeepsRest(pool: seq<char>, i: nat)
    requires i < |pool|
    ensures forall k :: 0 <= k < i ==> RemoveAt(pool, i)[k] == pool[k]
    ensures forall k :: i <= k < |pool| - 1 ==> RemoveAt(pool, i)[k] == pool[k + 1]
    ensures multiset(RemoveAt(pool, i)) + multiset{pool[i]} == multiset(pool)
  {
    assert pool == pool[..i] + [pool[i]] + pool[i + 1..];
  }

  /** The symbols picked from `pool`, in order, when the k-th pick takes index `choices[k]`. */
  function Draws(pool: seq<char>, choices: seq<nat>): seq<char>
    requires ValidChoices(|pool|, choices)
    decreases |pool|
  {
    if pool == [] then []
    else
      [pool[choices[0]]] + Draws(RemoveAt(pool, choices[0]), choices[1..])
  }

  /** One pick: the first choice takes its symbol, the rest draw from what remains. */
  lemma DrawStep(pool: seq<char>, choices: seq<nat>)
    requires ValidChoices(|pool|, choices) && pool != []
    ensures ValidChoices(|pool| - 1, choices[1..])
    ensures Draws(pool, choices) == [pool[choices[0]]] + Draws(RemoveAt(pool, choices[0]), choices[1..])
  {
    ValidChoicesSuffix(|pool|, choices, 1);
  }

  /** One pick in the middle of a run of draws: `done` followed by the draws from `pool`
      is `done` extended by the picked symbol, followed by the draws from what remains. */
  lemma PickStep(done: seq<char>, pool: seq<char>, choices: seq<nat>, k: nat)
    requires k < |choices| && pool != [] && ValidChoices(|pool|, choices[k..])
    ensures ValidChoices(|pool| - 1, choices[k + 1..])
    ensures (done + [pool[choices[k]]]) + Draws(RemoveAt(pool, choices[k]), choices[k + 1..])
         == done + Draws(pool, choices[k..])
  {
    DrawStep(pool, choices[k..]);
    assert choices[k..][1..] == choices[k + 1..];
  }

  /** The state of pattern generation after `k` of the `|symbols|` picks: `pattern` holds
      the first `k` draws and `chars` the pool they left. Before the last pick the pool still
      holds `|symbols| - k` symbols and no refill has happened; after it, the pool has been
      refilled with `symbols` exactly once, right after the last pick (`refills` lists the
      picks after which the pool was refilled). */
  ghost predicate Drawing(symbols: seq<char>, choices: seq<nat>, k: nat, pattern: seq<char>, chars: seq<char>, refills: seq<nat>)
    requires ValidChoices(|symbols|, choices)
  {
    |pattern| == k <= |symbols| &&
    if k < |symbols| then
      |chars| == |symbols| - k && ValidChoices(|chars|, choices[k..]) &&
      pattern + Draws(chars, choices[k..]) == Draws(symbols, choices) && refills == []
    else
      pattern == Draws(symbols, choices) && chars == symbols &&
      refills == if k == 0 then [] else [k - 1]
  }

  /** One pick of pattern generation keeps `Drawing`: take the symbol at `choices[k]`,
      remove it from the pool, and refill the pool with `symbols` if it is now empty. */
  lemma DrawingStep(symbols: seq<char>, choices: seq<nat>, k: nat, pattern: seq<char>, chars: seq<char>, refills: seq<nat>)
    requires ValidChoices(|symbols|, choices)
    requires Drawing(symbols, choices, k, pattern, chars, refills) && k < |symbols|
    ensures choices[k] < |chars|
    ensures var rest := RemoveAt(chars, choices[k]);
      Drawing(symbols, choices, k + 1, pattern + [chars[choices[k]]],
        if |rest| == 0 then symbols else rest,
        if |rest| == 0 then refills + [k] else refills)
  {
    PickStep(pattern, chars, choices, k);
    var rest := RemoveAt(chars, choices[k]);
    if |rest| == 0 {
      assert Draws(rest, choices[k + 1..]) == [];
    }
  }

  /** Drawing the whole pool yields a rearrangement of the pool. */
  lemma {:induction false} DrawsPermutation(pool: seq<char>, choices: seq<nat>)
    requires ValidChoices(|pool|, choices)
    ensures |Draws(pool, choices)| == |pool|
    ensures multiset(Draws(pool, choices)) == multiset(pool)
    decreases |pool|
  {
    if pool != [] {
      ValidChoicesSuffix(|pool|, choices, 1);
      RemoveAtKeepsRest(pool, choices[0]);
      DrawsPermutation(RemoveAt(pool, choices[0]), choices[1..]);
    }
  }

  /** No symbol of a distinct sequence occurs more than once. */
  lemma {:induction false} DistinctMultiplicity(s: seq<char>, x: char)
    requires Distinct(s)
    ensures multiset(s)[x] <= 1
    decreases |s|
  {
    if s != [] {
      assert s == [s[0]] + s[1..];
      assert Distinct(s[1..]);
      DistinctMultiplicity(s[1..], x);
      if x == s[0] {
        assert x !in s[1..];
      }
    }
  }

  /** A rearrangement of a distinct sequence is distinct. */
  lemma PermutationDistinct(s: seq<char>, t: seq<char>)
    requires multiset(s) == multiset(t) && Distinct(t)
    ensures Distinct(s)
  {
    forall i, j | 0 <= i < j < |s| ensures s[i] != s[j] {
      if s[i] == s[j] {
        assert s == s[..j] + s[j..];
        assert s[i] in s[..j] && s[j] in s[j..];
        assert multiset(s)[s[i]] == multiset(s[..j])[s[i]] + multiset(s[j..])[s[i]];
        DistinctMultiplicity(t, s[i]);
        assert false;
      }
    }
  }

  /** A pattern of the given length: a rearrangement of the first `length` symbols of the alphabet. */
  ghost predicate IsPattern(p: seq<char>, length: nat) {
    length <= MaximumPatternLength && |p| == length && multiset(p) == multiset(Prefix(length))
  }

  /** A pattern holds exactly the symbols of its alphabet prefix. */
  lemma PatternSymbols(p: seq<char>, length: nat)
    requires IsPattern(p, length)
    ensures forall c :: c in p <==> c in Prefix(length)
  {
    forall c ensures c in p <==> c in Prefix(length) {
      assert c in p <==> c in multiset(p);
      assert c in Prefix(length) <==> c in multiset(Prefix(length));
    }
  }

  /** No symbol occurs twice in a pattern. */
  lemma PatternDistinct(p: seq<char>, length: nat)
    requires IsPattern(p, length)
    ensures Distinct(p)
  {
    PrefixDistinct(length);
    PermutationDistinct(p, Prefix(length));
  }

  /** Every valid run of draws from the first `length` symbols yields a pattern. */
  lemma DrawsArePatterns(length: nat, choices: seq<nat>)
    requires length <= MaximumPatternLength && ValidChoices(length, choices)
    ensures IsPattern(Draws(Prefix(length), choices), length)
  {
    DrawsPermutation(Prefix(length), choices);
  }

  /** Some position of `s` holding `x`. */
  ghost function IndexOf(s: seq<char>, x: char): (i: nat)
    requires x in s
    ensures i < |s| && s[i] == x
  {
    var i :| 0 <= i < |s| && s[i] == x; i
  }

  /** Picking the first symbol of a rearrangement of `pool` out of `pool` leaves a pool
      that the rest of the rearrangement rearranges. */
  lemma PickFirst(pool: seq<char>, target: seq<char>, i: nat)
    requires multiset(target) == multiset(pool) && i < |pool| && target != [] && pool[i] == target[0]
    ensures multiset(target[1..]) == multiset(RemoveAt(pool, i))
  {
    RemoveAtKeepsRest(pool, i);
    assert target == [target[0]] + target[1..];
    assert multiset(target[1..]) == multiset(target) - multiset{target[0]};
    assert multiset(RemoveAt(pool, i)) == multiset(pool) - multiset{pool[i]};
  }

  /** The choices that draw exactly `target` out of `pool`. */
  ghost function ChoicesFor(pool: seq<char>, target: seq<char>): (choices: seq<nat>)
    requires multiset(target) == multiset(pool)
    ensures ValidChoices(|pool|, choices) && Draws(pool, choices) == target
    decreases |pool|
  {
    assert |target| == |multiset(target)| == |pool|;
    if pool == [] then []
    else
      assert target[0] in multiset(pool);
      var i := IndexOf(pool, target[0]);
      PickFirst(pool, target, i);
      var tail := ChoicesFor(RemoveAt(pool, i), target[1..]);
      var choices := [i] + tail;
      assert choices[1..] == tail;
      assert target == [target[0]] + target[1..];
      choices
  }

  /** Every rearrangement of the first `length` symbols can come out of pattern generation. */
  lemma EveryPatternReachable(length: nat, target: seq<char>)
    requires length <= MaximumPatternLength
    requires multiset(target) == multiset(Prefix(length))
    ensures exists choices :: ValidChoices(length, choices) && Draws(Prefix(length), choices) == target
  {
    var choices := ChoicesFor(Prefix(length), target);
    assert ValidChoices(length, choices) && Draws(Prefix(length), choices) == target;
  }
}
