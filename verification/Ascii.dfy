/** Case-insensitive comparison of byte strings, one byte per character. */
module Ascii {
  function LowerChar(c: char): (r: char) {
    if 'A' <= c <= 'Z' then (c as int + 32) as char else c
  }

  function Lower(s: string): (r: string)
    ensures |r| == |s|
    ensures forall i :: 0 <= i < |s| ==> r[i] == LowerChar(s[i])
  {
    seq(|s|, i requires 0 <= i < |s| => LowerChar(s[i]))
  }

  /** A word in any mixture of the two cases. */
  predicate InEitherCase(word: string, upper: string, lower: string) {
    |word| == |upper| == |lower| && forall i :: 0 <= i < |word| ==> word[i] == upper[i] || word[i] == lower[i]
  }

  /** The same word in both cases; other characters than letters have only one. */
  predicate Cases(upper: string, lower: string) {
    && |upper| == |lower|
    && forall i :: 0 <= i < |upper| ==>
         if 'A' <= upper[i] <= 'Z' then lower[i] as int == upper[i] as int + 32
         else upper[i] == lower[i] && !('a' <= lower[i] <= 'z')
  }

  lemma EitherCaseExact(word: string, upper: string, lower: string)
    requires Cases(upper, lower)
    ensures InEitherCase(word, upper, lower) <==> Lower(word) == lower
  {
    if InEitherCase(word, upper, lower) {
      assert Lower(word) == lower;
    }
  }
}
