/**
 * The character classes and greedy pieces that the core's regular expressions
 * are built from, as the Android (ICU) regex engine reads them: `\d` (ASCII
 * digits here), `\s`, `\b`, greedy `\d{1,2}` and greedy `\s*`.
 */
module Patterns {
  import opened Text

  predicate IsDigit(c: char) {
    '0' <= c <= '9'
  }

  /** Index `j` holds a digit of `n`. */
  predicate DigitAt(n: string, j: int) {
    0 <= j < |n| && IsDigit(n[j])
  }

  /** Index `j` holds the character `c`. */
  predicate CharAt(n: string, j: int, c: char) {
    0 <= j < |n| && n[j] == c
  }

  predicate IsDigits(s: string) {
    forall i | 0 <= i < |s| :: IsDigit(s[i])
  }

  /** The number of digits that a greedy `\d{1,2}` takes at `j` (0 when it does not match). */
  function Digits12(n: string, j: nat): (k: nat)
    requires j <= |n|
    ensures k <= 2 && j + k <= |n|
    ensures IsDigits(n[j..j + k])
    ensures k == 0 <==> !DigitAt(n, j)
    ensures k == 1 ==> !DigitAt(n, j + 1)
  {
    if !DigitAt(n, j) then 0 else if DigitAt(n, j + 1) then 2 else 1
  }

  /**
   * ICU's `\s`: tab, line feed, form feed, carriage return and the Unicode
   * separators (category Z: the space separators and U+2028, U+2029).
   */
  predicate IsRegexSpace(c: char) {
    c == '\t' || c == '\n' || c == '\U{000C}' || c == '\r' || c == ' ' || c == '\U{00A0}'
    || c == '\U{1680}' || ('\U{2000}' <= c <= '\U{200A}') || c == '\U{2028}' || c == '\U{2029}'
    || c == '\U{202F}' || c == '\U{205F}' || c == '\U{3000}'
  }

  /** Where a greedy `\s*` that starts at `j` stops. */
  function SkipSpaces(n: string, j: nat): (e: nat)
    requires j <= |n|
    ensures j <= e <= |n|
    ensures forall t | j <= t < e :: IsRegexSpace(n[t])
    ensures e == |n| || !IsRegexSpace(n[e])
    decreases |n| - j
  {
    if j < |n| && IsRegexSpace(n[j]) then SkipSpaces(n, j + 1) else j
  }

  /** A run of `\s` characters, as `\s*` matches it. */
  predicate IsSpaceRun(s: string) {
    forall t | 0 <= t < |s| :: IsRegexSpace(s[t])
  }

  /** A greedy `\s*` at `j` stops exactly at the first non-space from `j` on. */
  lemma SkipSpacesStops(n: string, j: nat, e: nat)
    requires j <= e <= |n|
    requires forall t | j <= t < e :: IsRegexSpace(n[t])
    requires e == |n| || !IsRegexSpace(n[e])
    ensures SkipSpaces(n, j) == e
  {
  }

  /** `\s*` from `j` takes exactly a run of spaces `sp` found there when no space follows it. */
  lemma SkipSpacesOver(n: string, j: nat, sp: string)
    requires OccursAt(n, sp, j) && IsSpaceRun(sp)
    requires j + |sp| == |n| || !IsRegexSpace(n[j + |sp|])
    ensures SkipSpaces(n, j) == j + |sp|
  {
    forall t | j <= t < j + |sp| ensures IsRegexSpace(n[t]) {
      assert n[t] == sp[t - j];
    }
    SkipSpacesStops(n, j, j + |sp|);
  }

  /**
   * A word character for `\b`: ASCII letters and digits, `_`, and Hangul
   * (syllables, jamo and compatibility jamo).
   */
  predicate IsWordChar(c: char) {
    ('a' <= c <= 'z') || ('A' <= c <= 'Z') || IsDigit(c) || c == '_'
    || ('\U{AC00}' <= c <= '\U{D7A3}') || ('\U{1100}' <= c <= '\U{11FF}') || ('\U{3130}' <= c <= '\U{318F}')
  }

  /** `\b` at index `i`: a word character on exactly one side. */
  predicate WordBoundaryAt(n: string, i: int)
    requires 0 <= i <= |n|
  {
    (i > 0 && IsWordChar(n[i - 1])) != (i < |n| && IsWordChar(n[i]))
  }
}
