/**
 * `TaskRules`: the cue groups (date, time, action verb, deadline) that score a
 * text as a likely task. Every pattern is compiled case-insensitively and
 * applied to the lower-cased text with `containsMatchIn`, so a cue holds when
 * the pattern matches somewhere; the score weights the four groups 0.4, 0.2,
 * 0.3 and 0.1 and is kept here in tenths.
 */
module TaskRules {
  import opened Text
  import opened Patterns

  /** The literal date patterns: note there is no "다음 주", "다음달", "this week" or "this month". */
  const DateWords: seq<string> := ["오늘", "내일", "모레", "이번주", "이번 주", "이번달", "이번 달", "다음주", "다음 달"]

  /** The alternatives of `\b(today|tomorrow|next week|next month)\b`. */
  const EnglishDateWords: seq<string> := ["today", "tomorrow", "next week", "next month"]

  const VerbWords: seq<string> := ["확인", "검토", "보내", "답장", "신청", "제출", "request", "review", "reply", "submit"]

  const DeadlineWords: seq<string> := ["마감", "까지", "due", "deadline"]

  /** `\b(today|tomorrow|next week|next month)\b` matches at `i`. */
  predicate EnglishDateAt(n: string, i: int)
    requires 0 <= i <= |n|
  {
    exists k | 0 <= k < |EnglishDateWords| ::
      OccursAt(n, EnglishDateWords[k], i) && WordBoundaryAt(n, i) && WordBoundaryAt(n, i + |EnglishDateWords[k]|)
  }

  predicate HasDateCue(n: string) {
    ContainsAny(n, DateWords) || exists i | 0 <= i <= |n| :: EnglishDateAt(n, i)
  }

  /** `\b(\d{1,2})시(\d{1,2}분)?` matches at `i` (the optional group never stops a match). */
  predicate KoreanHourCueAt(n: string, i: int)
    requires 0 <= i <= |n|
  {
    var k := Digits12(n, i);
    WordBoundaryAt(n, i) && k >= 1 && CharAt(n, i + k, '시')
  }

  /** `\b(\d{1,2}):(\d{2})` matches at `i`. */
  predicate ColonCueAt(n: string, i: int)
    requires 0 <= i <= |n|
  {
    var k := Digits12(n, i);
    WordBoundaryAt(n, i) && k >= 1 && CharAt(n, i + k, ':') && DigitAt(n, i + k + 1) && DigitAt(n, i + k + 2)
  }

  /** `오전\s*\d{1,2}시` (with `marker` "오전") or `오후\s*\d{1,2}시` matches at `i`. */
  predicate MarkedHourCueAt(n: string, marker: string, i: int)
    requires 0 <= i <= |n|
  {
    OccursAt(n, marker, i) &&
    (var j := SkipSpaces(n, i + |marker|);
     var k := Digits12(n, j);
     k >= 1 && CharAt(n, j + k, '시'))
  }

  /** `\b(AM|PM)\s*\d{1,2}(:\d{2})?`, case-insensitively, matches at `i` of the lower-cased text. */
  predicate MeridiemCueAt(n: string, i: int)
    requires 0 <= i <= |n|
  {
    WordBoundaryAt(n, i) && (OccursAt(n, "am", i) || OccursAt(n, "pm", i)) &&
    DigitAt(n, SkipSpaces(n, i + 2))
  }

  predicate TimeCueAt(n: string, i: int)
    requires 0 <= i <= |n|
  {
    KoreanHourCueAt(n, i) || ColonCueAt(n, i) || MarkedHourCueAt(n, "오전", i)
    || MarkedHourCueAt(n, "오후", i) || MeridiemCueAt(n, i)
  }

  predicate HasTimeCue(n: string) {
    exists i | 0 <= i <= |n| :: TimeCueAt(n, i)
  }

  predicate HasVerbCue(n: string) {
    ContainsAny(n, VerbWords)
  }

  predicate HasDeadlineCue(n: string) {
    ContainsAny(n, DeadlineWords)
  }

  function Weight(cue: bool, tenths: nat): nat {
    if cue then tenths else 0
  }

  /**
   * `computeScore` in tenths: 4 for a date cue, 2 for a time cue, 3 for a
   * verb, 1 for a deadline word. It reaches 8 (the PENDING threshold 0.75)
   * exactly when a date and a verb come with a time or a deadline, and 5
   * (the REVIEW threshold 0.5) exactly when a date comes with any other cue
   * or a verb comes with a time.
   */
  function ComputeScore(text: string): (s: nat)
    ensures s <= 10
    ensures var n := Lower(text);
      s >= 8 <==> HasDateCue(n) && HasVerbCue(n) && (HasTimeCue(n) || HasDeadlineCue(n))
    ensures var n := Lower(text);
      s >= 5 <==> (HasDateCue(n) && (HasTimeCue(n) || HasVerbCue(n) || HasDeadlineCue(n))) || (HasVerbCue(n) && HasTimeCue(n))
    ensures s == 0 <==> var n := Lower(text);
      !HasDateCue(n) && !HasTimeCue(n) && !HasVerbCue(n) && !HasDeadlineCue(n)
    ensures s == 10 <==> var n := Lower(text);
      HasDateCue(n) && HasTimeCue(n) && HasVerbCue(n) && HasDeadlineCue(n)
  {
    var n := Lower(text);
    Weight(HasDateCue(n), 4) + Weight(HasTimeCue(n), 2) + Weight(HasVerbCue(n), 3) + Weight(HasDeadlineCue(n), 1)
  }

  /** The score does not depend on letter case: the text is lower-cased before matching. */
  lemma ScoreIgnoresCase(text: string)
    ensures ComputeScore(Lower(text)) == ComputeScore(text)
  {
    LowerIdempotent(text);
  }

  /** A cue that holds in a part of the text also holds in the whole text (a literal word). */
  lemma WordCueInPart(n: string, i: int, j: int, words: seq<string>)
    requires 0 <= i <= j <= |n|
    requires ContainsAny(n[i..j], words)
    ensures ContainsAny(n, words)
  {
    var k :| 0 <= k < |words| && Contains(n[i..j], words[k]);
    ContainsWithin(n, i, j, words[k]);
  }
}
