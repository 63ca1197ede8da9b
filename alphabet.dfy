/** The 26-letter alphabet: upper-casing, and the conversions between a
    letter and its index 0..25 that every other part of the machine uses. */
module Alphabet {

  predicate IsUpperLetter(c: char) {
    'A' <= c <= 'Z'
  }

  /** Upper-casing as `toUpperCase` does it on ASCII: 'a'..'z' become
      'A'..'Z', every other character is left as it is. */
  function Upper(c: char): (u: char)
    ensures IsUpperLetter(u) <==> ('A' <= c <= 'Z' || 'a' <= c <= 'z')
    ensures IsUpperLetter(u) ==> u as int - 'A' as int == (c as int - 'A' as int) % 32
    ensures !IsUpperLetter(u) ==> u == c
    ensures Upper(u) == u
  {
    if 'a' <= c <= 'z' then (c as int - 32) as char else c
  }

  /** A character that upper-cases to a letter of the machine's alphabet. */
  predicate IsLetter(c: char) {
    IsUpperLetter(Upper(c))
  }

  /** Every character of s is one of 'A'..'Z'. */
  ghost predicate AllLetters(s: string) {
    forall k :: 0 <= k < |s| ==> IsUpperLetter(s[k])
  }

  /** No character occurs twice in s. */
  ghost predicate NoRepeats(s: string) {
    forall j, k :: 0 <= j < k < |s| ==> s[j] != s[k]
  }

  function UpperString(s: string): (u: string)
    ensures |u| == |s|
    ensures forall k :: 0 <= k < |s| ==> u[k] == Upper(s[k])
  {
    seq(|s|, k requires 0 <= k < |s| => Upper(s[k]))
  }

  /** Upper-casing a string one character at a time, from the end. */
  lemma UpperStringLast(s: string)
    requires s != []
    ensures UpperString(s) == UpperString(s[..|s| - 1]) + [Upper(s[|s| - 1])]
  {
  }

  /** The index of a letter, after upper-casing (enigma.js, IFromCh). */
  function IFromCh(c: char): (i: int)
    ensures IsLetter(c) <==> 0 <= i < 26
  {
    Upper(c) as int - 'A' as int
  }

  /** The letter with index i (enigma.js, ChFromI). */
  function ChFromI(i: int): (c: char)
    requires 0 <= i < 26
    ensures IsUpperLetter(c) && IFromCh(c) == i
  {
    (i + 'A' as int) as char
  }

  /** Converting a letter to its index and back gives the letter upper-cased. */
  lemma LetterRoundTrip(c: char)
    requires IsLetter(c)
    ensures ChFromI(IFromCh(c)) == Upper(c)
  {
  }
}
