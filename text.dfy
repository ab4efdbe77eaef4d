/**
 * The pieces of Kotlin's String library that the core uses: `contains`,
 * `take`, `trim`, `isBlank`, `lines`, `joinToString`, `lowercase` and
 * `Long.toString`. Strings are sequences of characters; `lowercase` and the
 * ignore-case comparisons fold ASCII letters only.
 */
module Text {

  /** `sub` occurs in `s` starting at index `i`. */
  predicate OccursAt(s: string, sub: string, i: int) {
    0 <= i && i + |sub| <= |s| && s[i..i + |sub|] == sub
  }

  /** Kotlin `s.contains(sub)`. */
  predicate Contains(s: string, sub: string) {
    exists i | 0 <= i <= |s| - |sub| :: OccursAt(s, sub, i)
  }

  /** Kotlin `s.contains(x)` for some `x` of `subs` (a `||` chain or `any`). */
  predicate ContainsAny(s: string, subs: seq<string>) {
    exists k | 0 <= k < |subs| :: Contains(s, subs[k])
  }

  /** A substring of a substring is a substring. */
  lemma ContainsWithin(s: string, i: int, j: int, sub: string)
    requires 0 <= i <= j <= |s|
    requires Contains(s[i..j], sub)
    ensures Contains(s, sub)
  {
    var k :| 0 <= k <= |s[i..j]| - |sub| && OccursAt(s[i..j], sub, k);
    assert s[i..j][k..k + |sub|] == sub;
    forall t | 0 <= t < |sub| ensures s[i + k..i + k + |sub|][t] == sub[t] {
      assert s[i..j][k..k + |sub|][t] == s[i + k + t];
    }
    assert s[i + k..i + k + |sub|] == sub;
    assert OccursAt(s, sub, i + k);
  }

  /** Where `a + b` occurs, `a` occurs at the same index and `b` right after it. */
  lemma OccursSplit(s: string, a: string, b: string, i: int)
    requires OccursAt(s, a + b, i)
    ensures OccursAt(s, a, i) && OccursAt(s, b, i + |a|)
  {
    assert s[i..i + |a|] == (a + b)[..|a|];
    assert s[i + |a|..i + |a| + |b|] == (a + b)[|a|..];
  }

  /** Each of four consecutive pieces occurs where the one before it ends. */
  lemma OccursParts4(s: string, a: string, b: string, c: string, d: string, i: int)
    requires OccursAt(s, a + b + c + d, i)
    ensures OccursAt(s, a, i) && OccursAt(s, b, i + |a|)
    ensures OccursAt(s, c, i + |a| + |b|) && OccursAt(s, d, i + |a| + |b| + |c|)
  {
    OccursSplit(s, a + b + c, d, i);
    OccursSplit(s, a + b, c, i);
    OccursSplit(s, a, b, i);
  }

  /** A slice is the slices on either side of any index inside it. */
  lemma SliceSplit(s: string, a: int, b: int, c: int)
    requires 0 <= a <= b <= c <= |s|
    ensures s[a..c] == s[a..b] + s[b..c]
  {
  }

  /** A slice is the five slices between the indices inside it. */
  lemma SliceParts5(s: string, a: int, b: int, c: int, d: int, e: int, f: int)
    requires 0 <= a <= b <= c <= d <= e <= f <= |s|
    ensures s[a..f] == s[a..b] + s[b..c] + s[c..d] + s[d..e] + s[e..f]
  {
    SliceSplit(s, a, e, f);
    SliceSplit(s, a, d, e);
    SliceSplit(s, a, c, d);
    SliceSplit(s, a, b, c);
  }

  /** An occurrence at a known index witnesses `Contains`. */
  lemma ContainsAt(s: string, sub: string, i: int)
    requires OccursAt(s, sub, i)
    ensures Contains(s, sub)
  {
  }

  /** Kotlin `s.take(n)`: the first `n` characters, or all of `s` when it is shorter. */
  function Take(s: string, n: nat): (r: string)
    ensures |r| == if |s| < n then |s| else n
    ensures r == s[..|r|]
  {
    if |s| <= n then s else s[..n]
  }

  /** ASCII upper-case letters become lower case; every other character is kept. */
  function LowerChar(c: char): char {
    if 'A' <= c <= 'Z' then (c as int + 32) as char else c
  }

  /** `lowercase()`, folding ASCII letters. */
  function Lower(s: string): (r: string)
    ensures |r| == |s|
    ensures forall i :: 0 <= i < |s| ==> r[i] == LowerChar(s[i])
  {
    seq(|s|, i requires 0 <= i < |s| => LowerChar(s[i]))
  }

  /** Lower-casing twice changes nothing more than lower-casing once. */
  lemma LowerIdempotent(s: string)
    ensures Lower(Lower(s)) == Lower(s)
  {
    assert forall i :: 0 <= i < |s| ==> LowerChar(LowerChar(s[i])) == LowerChar(s[i]);
  }

  /** Kotlin `equals(other, ignoreCase = true)`, folding ASCII letters. */
  predicate EqualsIgnoreCase(a: string, b: string) {
    Lower(a) == Lower(b)
  }

  /** Kotlin `contains(sub, ignoreCase = true)`, folding ASCII letters. */
  predicate ContainsIgnoreCase(s: string, sub: string) {
    Contains(Lower(s), Lower(sub))
  }

  /**
   * Kotlin `Char.isWhitespace()` on the JVM: Java's `isWhitespace` or
   * `isSpaceChar` (the Unicode space, line and paragraph separators).
   */
  predicate IsWhitespace(c: char) {
    c == ' ' || c == '\t' || c == '\n' || c == '\U{000B}' || c == '\U{000C}' || c == '\r'
    || ('\U{001C}' <= c <= '\U{001F}') || c == '\U{00A0}' || c == '\U{1680}'
    || ('\U{2000}' <= c <= '\U{200A}') || c == '\U{2028}' || c == '\U{2029}'
    || c == '\U{202F}' || c == '\U{205F}' || c == '\U{3000}'
  }

  /** Kotlin `isBlank()`: empty or whitespace only. */
  predicate IsBlank(s: string) {
    forall i | 0 <= i < |s| :: IsWhitespace(s[i])
  }

  /** Where trimming starts: the first index at `k` or later that holds no whitespace, or `|s|`. */
  function SkipWhitespace(s: string, k: nat): (a: nat)
    requires k <= |s|
    ensures k <= a <= |s|
    ensures forall j | k <= j < a :: IsWhitespace(s[j])
    ensures a == |s| || !IsWhitespace(s[a])
    decreases |s| - k
  {
    if k < |s| && IsWhitespace(s[k]) then SkipWhitespace(s, k + 1) else k
  }

  /** Where trimming ends: `b` moved back over whitespace, but not below `a`. */
  function BackWhitespace(s: string, a: nat, b: nat): (e: nat)
    requires a <= b <= |s|
    ensures a <= e <= b
    ensures forall j | e <= j < b :: IsWhitespace(s[j])
    ensures e == a || !IsWhitespace(s[e - 1])
    decreases b - a
  {
    if a < b && IsWhitespace(s[b - 1]) then BackWhitespace(s, a, b - 1) else b
  }

  /**
   * Kotlin `trim()`: exactly the leading and the trailing whitespace removed.
   * The result sits at some index `i` with only whitespace before and after
   * it, and it neither starts nor ends with whitespace, which fixes `i`.
   */
  function Trim(s: string): (r: string)
    ensures r == [] || (!IsWhitespace(r[0]) && !IsWhitespace(r[|r| - 1]))
    ensures exists i | 0 <= i <= |s| - |r| :: OccursAt(s, r, i) && IsBlank(s[..i]) && IsBlank(s[i + |r|..])
  {
    var a := SkipWhitespace(s, 0);
    var e := BackWhitespace(s, a, |s|);
    TrimmedBetween(s, a, e);
    s[a..e]
  }

  /** The characters between two whitespace-only stretches sit between them. */
  lemma TrimmedBetween(s: string, a: nat, e: nat)
    requires a <= e <= |s|
    requires forall j | 0 <= j < a :: IsWhitespace(s[j])
    requires forall j | e <= j < |s| :: IsWhitespace(s[j])
    ensures exists i | 0 <= i <= |s| - |s[a..e]| :: OccursAt(s, s[a..e], i) && IsBlank(s[..i]) && IsBlank(s[i + |s[a..e]|..])
  {
    assert OccursAt(s, s[a..e], a);
    assert IsBlank(s[..a]);
    assert IsBlank(s[e..]);
  }

  /** Trimming keeps every non-whitespace character, so a non-blank string trims to a non-blank one. */
  lemma TrimKeepsNonBlank(s: string)
    requires !IsBlank(s)
    ensures Trim(s) != [] && !IsBlank(Trim(s))
  {
    var a := SkipWhitespace(s, 0);
    var e := BackWhitespace(s, a, |s|);
    var k :| 0 <= k < |s| && !IsWhitespace(s[k]);
    assert a <= k < e;
    assert Trim(s)[k - a] == s[k];
  }

  /** A line break as Kotlin `lines()` sees it. */
  predicate IsLineBreak(c: char) {
    c == '\n' || c == '\r'
  }

  /** `s` with every CRLF and every lone CR written as LF. */
  function UnifyBreaks(s: string): string
    decreases |s|
  {
    if s == [] then []
    else if s[0] == '\r' && |s| > 1 && s[1] == '\n' then "\n" + UnifyBreaks(s[2..])
    else if s[0] == '\r' then "\n" + UnifyBreaks(s[1..])
    else [s[0]] + UnifyBreaks(s[1..])
  }

  /** Splits `s` at CRLF, LF and CR, with `acc` the line read so far. */
  function SplitLines(s: string, acc: string): (r: seq<string>)
    ensures |r| >= 1
    decreases |s|
  {
    if s == [] then [acc]
    else if s[0] == '\r' && |s| > 1 && s[1] == '\n' then [acc] + SplitLines(s[2..], "")
    else if IsLineBreak(s[0]) then [acc] + SplitLines(s[1..], "")
    else SplitLines(s[1..], acc + [s[0]])
  }

  /**
   * The lines give back the text: joined with LF they are the pending line
   * followed by the text with its line breaks unified to LF.
   */
  lemma {:induction false} SplitLinesJoin(s: string, acc: string)
    ensures Join(SplitLines(s, acc), "\n") == acc + UnifyBreaks(s)
    decreases |s|
  {
    if s == [] {
      assert acc + UnifyBreaks(s) == acc;
    } else if IsLineBreak(s[0]) {
      var skip := if s[0] == '\r' && |s| > 1 && s[1] == '\n' then 2 else 1;
      SplitLinesJoin(s[skip..], "");
      JoinAtBreak(s, acc, skip);
    } else {
      SplitLinesJoin(s[1..], acc + [s[0]]);
      assert UnifyBreaks(s) == [s[0]] + UnifyBreaks(s[1..]);
      assert acc + UnifyBreaks(s) == (acc + [s[0]]) + UnifyBreaks(s[1..]);
    }
  }

  /** One step of `SplitLinesJoin` at a line break of `skip` characters. */
  lemma JoinAtBreak(s: string, acc: string, skip: nat)
    requires s != [] && IsLineBreak(s[0])
    requires skip == if s[0] == '\r' && |s| > 1 && s[1] == '\n' then 2 else 1
    requires Join(SplitLines(s[skip..], ""), "\n") == "" + UnifyBreaks(s[skip..])
    ensures Join(SplitLines(s, acc), "\n") == acc + UnifyBreaks(s)
  {
    BreakStep(s, acc, skip);
    JoinCons(acc, SplitLines(s[skip..], ""), "\n");
    AppendBreak(acc, UnifyBreaks(s[skip..]));
  }

  /** At a line break the pending line is closed, and the break is unified to one LF. */
  lemma BreakStep(s: string, acc: string, skip: nat)
    requires s != [] && IsLineBreak(s[0])
    requires skip == if s[0] == '\r' && |s| > 1 && s[1] == '\n' then 2 else 1
    ensures SplitLines(s, acc) == [acc] + SplitLines(s[skip..], "")
    ensures UnifyBreaks(s) == "\n" + UnifyBreaks(s[skip..])
  {
  }

  lemma AppendBreak(acc: string, u: string)
    ensures acc + "\n" + ("" + u) == acc + ("\n" + u)
  {
    assert "" + u == u;
  }

  /** Kotlin `lines()`: the text between line breaks, so "a\n" gives ["a", ""]. */
  function Lines(s: string): seq<string> {
    SplitLines(s, "")
  }

  /** No line holds a line break, given that the pending line holds none. */
  lemma {:induction false} SplitLinesNoBreaks(s: string, acc: string)
    requires forall j :: 0 <= j < |acc| ==> !IsLineBreak(acc[j])
    ensures forall k, j :: 0 <= k < |SplitLines(s, acc)| && 0 <= j < |SplitLines(s, acc)[k]| ==>
              !IsLineBreak(SplitLines(s, acc)[k][j])
    decreases |s|
  {
    if s == [] {
    } else if s[0] == '\r' && |s| > 1 && s[1] == '\n' {
      SplitLinesNoBreaks(s[2..], "");
    } else if IsLineBreak(s[0]) {
      SplitLinesNoBreaks(s[1..], "");
    } else {
      SplitLinesNoBreaks(s[1..], acc + [s[0]]);
    }
  }

  /** If the text (with the pending line) is not blank, then some line is not blank. */
  lemma {:induction false} SplitLinesNonBlank(s: string, acc: string)
    requires !IsBlank(acc + s)
    ensures exists k | 0 <= k < |SplitLines(s, acc)| :: !IsBlank(SplitLines(s, acc)[k])
    decreases |s|
  {
    var r := SplitLines(s, acc);
    if s == [] {
      assert acc + s == acc;
      assert !IsBlank(r[0]);
    } else if !IsBlank(acc) {
      SplitLinesKeepsAcc(s, acc);
    } else {
      if IsLineBreak(s[0]) {
        var skip := if s[0] == '\r' && |s| > 1 && s[1] == '\n' then 2 else 1;
        BreakStep(s, acc, skip);
        NonBlankAfterBreak(s, acc, skip);
        assert "" + s[skip..] == s[skip..];
        SplitLinesNonBlank(s[skip..], "");
        var k :| 0 <= k < |SplitLines(s[skip..], "")| && !IsBlank(SplitLines(s[skip..], "")[k]);
        LineAfter(acc, SplitLines(s[skip..], ""), k);
      } else {
        assert acc + s == (acc + [s[0]]) + s[1..];
        SplitLinesNonBlank(s[1..], acc + [s[0]]);
      }
    }
  }

  /** The line at `k` of the lines after the first is the line at `k + 1` of all of them. */
  lemma LineAfter(first: string, rest: seq<string>, k: int)
    requires 0 <= k < |rest|
    ensures ([first] + rest)[k + 1] == rest[k]
  {
  }

  /** Past a line break after a blank pending line, a text that was not blank still is not. */
  lemma NonBlankAfterBreak(s: string, acc: string, skip: nat)
    requires s != [] && IsLineBreak(s[0]) && IsBlank(acc) && !IsBlank(acc + s)
    requires skip == if s[0] == '\r' && |s| > 1 && s[1] == '\n' then 2 else 1
    ensures !IsBlank(s[skip..])
  {
    var m :| 0 <= m < |acc + s| && !IsWhitespace((acc + s)[m]);
    assert m >= |acc| + skip;
    assert s[skip..][m - |acc| - skip] == (acc + s)[m];
  }

  /** A pending line that is already not blank grows into the first line, which is then not blank. */
  lemma {:induction false} SplitLinesKeepsAcc(s: string, acc: string)
    requires !IsBlank(acc)
    ensures !IsBlank(SplitLines(s, acc)[0])
    decreases |s|
  {
    if s == [] {
    } else if s[0] == '\r' && |s| > 1 && s[1] == '\n' {
    } else if IsLineBreak(s[0]) {
    } else {
      var m :| 0 <= m < |acc| && !IsWhitespace(acc[m]);
      assert (acc + [s[0]])[m] == acc[m];
      SplitLinesKeepsAcc(s[1..], acc + [s[0]]);
    }
  }

  /** A blank text has only blank lines. */
  lemma {:induction false} SplitLinesBlank(s: string, acc: string)
    requires IsBlank(acc + s)
    ensures forall k | 0 <= k < |SplitLines(s, acc)| :: IsBlank(SplitLines(s, acc)[k])
    decreases |s|
  {
    if s == [] {
      assert acc + s == acc;
    } else {
      assert IsBlank(acc) by { forall j | 0 <= j < |acc| ensures IsWhitespace(acc[j]) { assert (acc + s)[j] == acc[j]; } }
      if s[0] == '\r' && |s| > 1 && s[1] == '\n' {
        assert IsBlank("" + s[2..]) by {
          forall j | 0 <= j < |s[2..]| ensures IsWhitespace(("" + s[2..])[j]) { assert ("" + s[2..])[j] == (acc + s)[|acc| + 2 + j]; }
        }
        SplitLinesBlank(s[2..], "");
      } else if IsLineBreak(s[0]) {
        assert IsBlank("" + s[1..]) by {
          forall j | 0 <= j < |s[1..]| ensures IsWhitespace(("" + s[1..])[j]) { assert ("" + s[1..])[j] == (acc + s)[|acc| + 1 + j]; }
        }
        SplitLinesBlank(s[1..], "");
      } else {
        assert acc + s == (acc + [s[0]]) + s[1..];
        SplitLinesBlank(s[1..], acc + [s[0]]);
      }
    }
  }

  /** Kotlin `joinToString(sep)`. */
  function Join(parts: seq<string>, sep: string): string {
    if parts == [] then ""
    else if |parts| == 1 then parts[0]
    else parts[0] + sep + Join(parts[1..], sep)
  }

  /** Joining a first part onto a non-empty list puts one separator between it and the rest. */
  lemma JoinCons(a: string, rest: seq<string>, sep: string)
    requires rest != []
    ensures Join([a] + rest, sep) == a + sep + Join(rest, sep)
  {
    assert ([a] + rest)[1..] == rest;
  }

  /** A word with a character that the text lacks does not occur in the text. */
  lemma CharBlocks(n: string, w: string, j: int)
    requires 0 <= j < |w| && w[j] !in n
    ensures !Contains(n, w)
    ensures forall i :: !OccursAt(n, w, i)
  {
  }

  /** A word does not occur where the text holds a different first character. */
  lemma NotStartingAt(n: string, w: string, j: int)
    requires 0 <= j < |n| && w != [] && n[j] != w[0]
    ensures !OccursAt(n, w, j)
  {
    if j + |w| <= |n| {
      assert n[j..j + |w|][0] == n[j];
    }
  }

  /** No word of the list occurs when each has, among its first three characters or its last, one the text lacks. */
  lemma WordsBlocked(n: string, words: seq<string>)
    requires forall k | 0 <= k < |words| :: Lacks(n, words[k])
    ensures !ContainsAny(n, words)
  {
    forall k | 0 <= k < |words| ensures !Contains(n, words[k]) {
      var w := words[k];
      if w[0] !in n {
        CharBlocks(n, w, 0);
      } else if w[|w| - 1] !in n {
        CharBlocks(n, w, |w| - 1);
      } else if |w| > 1 && w[1] !in n {
        CharBlocks(n, w, 1);
      } else {
        CharBlocks(n, w, 2);
      }
    }
  }

  predicate Lacks(n: string, w: string) {
    w != [] && (w[0] !in n || w[|w| - 1] !in n || (|w| > 1 && w[1] !in n) || (|w| > 2 && w[2] !in n))
  }

  /** The decimal digit for 0..9. */
  function DigitChar(d: int): char
    requires 0 <= d <= 9
  {
    ('0' as int + d) as char
  }

  function NatToString(n: nat): (r: string)
    ensures |r| >= 1
    ensures forall i :: 0 <= i < |r| ==> '0' <= r[i] <= '9'
  {
    if n < 10 then [DigitChar(n)] else NatToString(n / 10) + [DigitChar(n % 10)]
  }

  /** Kotlin `Long.toString()`: decimal, with a leading '-' for negative values. */
  function IntToString(n: int): string {
    if n < 0 then "-" + NatToString(-n) else NatToString(n)
  }

  /** The decimal value of a string of ASCII digits (Kotlin `toInt()` on such a string). */
  function DigitsValue(s: string): nat
    requires forall i :: 0 <= i < |s| ==> '0' <= s[i] <= '9'
  {
    if s == [] then 0 else DigitsValue(s[..|s| - 1]) * 10 + (s[|s| - 1] as int - '0' as int)
  }

  /** Reading back what `NatToString` wrote gives the number. */
  lemma {:induction false} NatToStringRoundTrip(n: nat)
    ensures DigitsValue(NatToString(n)) == n
  {
    if n >= 10 {
      NatToStringRoundTrip(n / 10);
      var s := NatToString(n);
      assert s[..|s| - 1] == NatToString(n / 10);
    }
  }
}
