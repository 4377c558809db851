/** The fixed symbol alphabet of the game and the bounds on pattern length and
    player count. The alphabet is listed as the game lists it, in four blocks (digits,
    lower-case letters, upper-case letters, two punctuation marks), and is also given
    symbol by symbol as a function of the position; `CharactersListed` shows that the
    two agree, and the rest of the model works with the positional form. */
module Alphabet {

  const MinimumPatternLength: nat := 4
  const MaximumPatternLength: nat := 64
  const MinimumPlayerCount: nat := 1
  const MaximumPlayerCount: nat := 8

  const Digits: seq<char> := ['0','1','2','3','4','5','6','7','8','9']
  const LowerCase: seq<char> := ['a','b','c','d','e','f','g','h','i','j','k','l','m','n','o','p','q','r','s','t','u','v','w','x','y','z']
  const UpperCase: seq<char> := ['A','B','C','D','E','F','G','H','I','J','K','L','M','N','O','P','Q','R','S','T','U','V','W','X','Y','Z']
  const Punctuation: seq<char> := ['-','_']

  /** The 64 symbols patterns are drawn from, in the order the game lists them. */
  const Characters: seq<char> := Digits + LowerCase + UpperCase + Punctuation

  /** The symbol at position `i` of the alphabet. */
  function Symbol(i: nat): char
    requires i < MaximumPatternLength
  {
    if i < 10 then ('0' as int + i) as char
    else if i < 36 then ('a' as int + (i - 10)) as char
    else if i < 62 then ('A' as int + (i - 36)) as char
    else if i == 62 then '-'
    else '_'
  }

  /** The first `length` symbols of the alphabet: the symbols a pattern of that length uses. */
  function Prefix(length: nat): (p: seq<char>)
    requires length <= MaximumPatternLength
    ensures |p| == length
  {
    if length == 0 then [] else Prefix(length - 1) + [Symbol(length - 1)]
  }

  /** The prefix holds the alphabet's symbols in order. */
  lemma {:induction false} PrefixAt(length: nat, i: nat)
    requires i < length <= MaximumPatternLength
    ensures Prefix(length)[i] == Symbol(i)
    decreases length
  {
    if i < length - 1 {
      PrefixAt(length - 1, i);
    }
  }

  /** No symbol occurs twice. */
  predicate Distinct(s: seq<char>) {
    forall i, j :: 0 <= i < j < |s| ==> s[i] != s[j]
  }

  /** A base-10 digit, as `char::is_digit(10)` decides it: one of the ASCII digits. */
  predicate IsDigit(c: char) {
    '0' <= c <= '9'
  }

  /** The position of a symbol in the alphabet (-1 for a character outside it). */
  function Rank(c: char): int {
    if '0' <= c <= '9' then c as int - '0' as int
    else if 'a' <= c <= 'z' then 10 + (c as int - 'a' as int)
    else if 'A' <= c <= 'Z' then 36 + (c as int - 'A' as int)
    else if c == '-' then 62
    else if c == '_' then 63
    else -1
  }

  lemma DigitsListed(i: nat)
    requires i < |Digits|
    ensures Digits[i] == Symbol(i)
  {}

  lemma LowerCaseListed(i: nat)
    requires i < |LowerCase|
    ensures LowerCase[i] == Symbol(10 + i)
  {}

  lemma UpperCaseListed(i: nat)
    requires i < |UpperCase|
    ensures UpperCase[i] == Symbol(36 + i)
  {}

  /** The alphabet as listed is the alphabet symbol by symbol. */
  lemma CharactersListed()
    ensures Characters == Prefix(MaximumPatternLength)
  {
    assert |Digits| == 10 && |LowerCase| == 26 && |UpperCase| == 26 && |Punctuation| == 2;
    forall i | 0 <= i < MaximumPatternLength ensures Characters[i] == Prefix(MaximumPatternLength)[i] {
      PrefixAt(MaximumPatternLength, i);
      if i < 10 {
        DigitsListed(i);
      } else if i < 36 {
        LowerCaseListed(i - 10);
      } else if i < 62 {
        UpperCaseListed(i - 36);
      }
    }
  }

  /** The symbols a pattern of length `length` uses are the first `length` of the
      alphabet as listed. */
  lemma CharactersPrefix(length: nat)
    requires length <= MaximumPatternLength
    ensures Prefix(length) == Characters[..length]
  {
    CharactersListed();
    forall i | 0 <= i < length ensures Prefix(length)[i] == Characters[i] {
      PrefixAt(length, i);
      PrefixAt(MaximumPatternLength, i);
    }
  }

  /** Every symbol sits at its rank; the digits are exactly the first ten symbols. */
  lemma SymbolRanked(i: nat)
    requires i < MaximumPatternLength
    ensures Rank(Symbol(i)) == i
    ensures IsDigit(Symbol(i)) <==> i < 10
  {}

  /** The 64 symbols are pairwise distinct, so every prefix is too. */
  lemma PrefixDistinct(length: nat)
    requires length <= MaximumPatternLength
    ensures Distinct(Prefix(length))
  {
    forall i, j | 0 <= i < j < length ensures Prefix(length)[i] != Prefix(length)[j] {
      PrefixAt(length, i);
      PrefixAt(length, j);
      SymbolRanked(i);
      SymbolRanked(j);
    }
  }

  /** A pattern longer than ten symbols contains a symbol that is not a digit. */
  lemma PrefixHasLetter(length: nat)
    requires 10 < length <= MaximumPatternLength
    ensures !IsDigit(Prefix(length)[10])
  {
    PrefixAt(length, 10);
    SymbolRanked(10);
  }
}
