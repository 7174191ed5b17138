/** The few JavaScript string operations the storefront's display rules rely on:
    `toLowerCase` (as used for comparing against lower-case ASCII words), `substring(0, n)`,
    and the "first eight characters then an ellipsis" abbreviation of identifiers. */
module Strings {

  /** Lower-cases one character. Only the ASCII letters A-Z change. */
  function LowerChar(c: char): char
  {
    if 'A' <= c <= 'Z' then (c as int + 32) as char else c
  }

  /** `s.toLowerCase()`, restricted to ASCII letters (see README for why this is exact here). */
  function ToLower(s: string): (r: string)
    ensures |r| == |s|
    ensures forall i :: 0 <= i < |s| ==> r[i] == LowerChar(s[i])
  {
    if s == [] then [] else [LowerChar(s[0])] + ToLower(s[1..])
  }

  /** `word` contains no upper-case ASCII letter. */
  predicate IsLowerCase(word: string)
  {
    forall i :: 0 <= i < |word| ==> !('A' <= word[i] <= 'Z')
  }

  /** `s` spells `word`, each of its ASCII letters written in either case. */
  predicate MatchesIgnoringCase(s: string, word: string)
  {
    |s| == |word| &&
    forall i :: 0 <= i < |s| ==>
      s[i] == word[i] || ('A' <= s[i] <= 'Z' && s[i] as int + 32 == word[i] as int)
  }

  /** Comparing the lower-cased string with a lower-case word is a case-insensitive comparison. */
  lemma LowerEqualsIff(s: string, word: string)
    requires IsLowerCase(word)
    ensures ToLower(s) == word <==> MatchesIgnoringCase(s, word)
  {
  }

  /** `s.substring(0, n)` for a non-negative `n`: the first `n` characters, or all of `s` when
      shorter. Characters are Unicode scalar values here, UTF-16 code units in JavaScript; the
      two agree on the ASCII identifiers the tables abbreviate. */
  function Take(s: string, n: nat): (r: string)
    ensures r <= s
    ensures |r| == if |s| < n then |s| else n
  {
    if |s| <= n then s else s[..n]
  }

  /** `${s.substring(0, 8)}...`: how both tables abbreviate a transaction id or hash. */
  function Abbreviate(s: string): (r: string)
    ensures |r| == (if |s| < 8 then |s| else 8) + 3
    ensures r[..|r| - 3] <= s && r[|r| - 3..] == "..."
  {
    Take(s, 8) + "..."
  }
}
