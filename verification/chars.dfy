/**
 This module defines the character classes that the tokenizer's regular
 expressions use, as explicit predicates, and the greedy run that `\d+`,
 `\w+`, `.*` and `[^"]*` consume.

 A `char` stands for one UTF-16 code unit of a JavaScript string.
 */
module Chars {

  /** `\d`: an ASCII decimal digit. */
  predicate IsDigit(c: char) {
    '0' <= c <= '9'
  }

  /** `\w`: an ASCII letter, an ASCII digit or the underscore. */
  predicate IsWordChar(c: char) {
    'a' <= c <= 'z' || 'A' <= c <= 'Z' || IsDigit(c) || c == '_'
  }

  /** The line terminators, which `.` refuses to match. */
  predicate IsLineTerminator(c: char) {
    c == '\n' || c == '\r' || c == '\U{2028}' || c == '\U{2029}'
  }

  /** `\s`: the JavaScript white-space and line-terminator characters. */
  predicate IsSpace(c: char) {
    || c == '\t' || c == '\n' || c == '\U{000B}' || c == '\U{000C}' || c == '\r' || c == ' '
    || c == '\U{00A0}' || c == '\U{1680}' || ('\U{2000}' <= c <= '\U{200A}')
    || c == '\U{2028}' || c == '\U{2029}' || c == '\U{202F}' || c == '\U{205F}'
    || c == '\U{3000}' || c == '\U{FEFF}'
  }

  /** `.`: any character but a line terminator. */
  predicate NotLineTerminator(c: char) {
    !IsLineTerminator(c)
  }

  /** The length of the longest prefix of `s` whose characters all satisfy `p`:
      what a greedy `[p]*` consumes. */
  function Run(s: string, p: char -> bool): (n: nat)
    ensures n <= |s|
    ensures forall i :: 0 <= i < n ==> p(s[i])
    ensures n == |s| || !p(s[n])
  {
    if |s| == 0 || !p(s[0]) then 0 else 1 + Run(s[1..], p)
  }

  /** The greedy run is the only prefix length that is all-`p` and maximal. */
  lemma RunUnique(s: string, p: char -> bool, n: nat)
    requires n <= |s|
    requires forall i :: 0 <= i < n ==> p(s[i])
    requires n == |s| || !p(s[n])
    ensures Run(s, p) == n
  {
  }

  /** Whether position `i` of `s` holds a word character (positions outside
      the string do not). */
  predicate WordAt(s: string, i: int) {
    0 <= i < |s| && IsWordChar(s[i])
  }

  /** `\b` at position `i`: exactly one of the two neighbouring positions
      holds a word character. */
  predicate Boundary(s: string, i: int) {
    WordAt(s, i - 1) != WordAt(s, i)
  }
}
