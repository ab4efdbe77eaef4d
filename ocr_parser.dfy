/**
 * `OcrParser`: recognised text to a `TaskDraft` — the first non-blank line
 * as title, the trimmed text as description, the resolved due date-time and
 * a bucket by calendar days from today in Seoul (MONTH when nothing resolves).
 * The clock that `ZonedDateTime.now` reads is the parameter `clock`.
 */
module OcrParser {
  import opened Wrappers
  import opened Text
  import opened Calendar
  import TaskRules
  import TimeResolver
  import opened TaskNormalizer

  /** `TaskDraft`; `score` is in tenths. */
  datatype TaskDraft = TaskDraft(title: string, description: string, dueAt: Option<ZonedDateTime>, bucket: string, score: int)

  const DefaultTitle: string := "OCR Task"

  /** `filter { it.isNotBlank() }.firstOrNull()`. */
  function FirstNonBlank(lines: seq<string>): (r: Option<string>)
    ensures r.Some? ==> !IsBlank(r.value) && exists k | 0 <= k < |lines| :: lines[k] == r.value && forall j | 0 <= j < k :: IsBlank(lines[j])
    ensures r.None? <==> forall k | 0 <= k < |lines| :: IsBlank(lines[k])
  {
    if lines == [] then None
    else if !IsBlank(lines[0]) then Some(lines[0])
    else
      var r := FirstNonBlank(lines[1..]);
      assert r.Some? ==> exists k | 0 <= k < |lines[1..]| :: lines[1..][k] == r.value && forall j | 0 <= j < k :: IsBlank(lines[1..][j]);
      if r.Some? then
        var k :| 0 <= k < |lines[1..]| && lines[1..][k] == r.value && forall j | 0 <= j < k :: IsBlank(lines[1..][j]);
        assert lines[k + 1] == r.value && forall j | 0 <= j < k + 1 :: IsBlank(lines[j]);
        r
      else
        assert forall k | 1 <= k < |lines| :: lines[k] == lines[1..][k - 1];
        r
  }

  /** The title: the first non-blank line, trimmed and cut to 60 characters, or "OCR Task". */
  function DraftTitle(text: string): string {
    match FirstNonBlank(Lines(text))
    case Some(line) => Take(Trim(line), 60)
    case None => DefaultTitle
  }

  /**
   * The title is "OCR Task" for a blank text; otherwise it is a non-blank
   * piece of at most 60 characters, starting with no whitespace, of a line of the text.
   */
  lemma DraftTitleShape(text: string)
    ensures IsBlank(text) ==> DraftTitle(text) == DefaultTitle
    ensures !IsBlank(text) ==>
      var t := DraftTitle(text);
      |t| <= 60 && t != [] && !IsWhitespace(t[0]) &&
      exists k | 0 <= k < |Lines(text)| :: Contains(Lines(text)[k], t)
  {
    assert "" + text == text;
    if IsBlank(text) {
      SplitLinesBlank(text, "");
    } else {
      SplitLinesNonBlank(text, "");
      var lines := Lines(text);
      var line := FirstNonBlank(lines).value;
      var k :| 0 <= k < |lines| && lines[k] == line;
      TitleOfLine(line);
    }
  }

  /** A non-blank line gives a non-blank title of at most 60 characters that starts with no whitespace and occurs in the line. */
  lemma TitleOfLine(line: string)
    requires !IsBlank(line)
    ensures var t := Take(Trim(line), 60);
      |t| <= 60 && t != [] && !IsWhitespace(t[0]) && Contains(line, t)
  {
    TrimKeepsNonBlank(line);
    var trimmed := Trim(line);
    var i :| 0 <= i <= |line| - |trimmed| && OccursAt(line, trimmed, i);
    HeadOccurs(line, trimmed, i, Take(trimmed, 60));
  }

  /** A non-empty prefix of a piece of the line that starts with no whitespace does the same, and occurs in the line. */
  lemma HeadOccurs(line: string, piece: string, i: int, t: string)
    requires OccursAt(line, piece, i) && t != [] && |t| <= |piece| && t == piece[..|t|]
    requires !IsWhitespace(piece[0])
    ensures !IsWhitespace(t[0]) && Contains(line, t)
  {
    assert t[0] == piece[0];
    assert line[i..i + |t|] == piece[..|t|];
    ContainsAt(line, t, i);
  }

  /**
   * The private `bucketFor`: whole days between the starts of today and of
   * the due date, both in Seoul.
   */
  function OcrBucketFor(time: ZonedDateTime, clock: ZonedDateTime): string {
    BucketForDays(DurationDays(ToInstant(AtStartOfDay(clock.date)), ToInstant(AtStartOfDay(time.date))))
  }

  /** Only the calendar dates count: the bucket is fixed by the difference of the epoch days. */
  lemma OcrBucketByDates(time: ZonedDateTime, clock: ZonedDateTime)
    ensures OcrBucketFor(time, clock) == BucketForDays(EpochDay(time.date) - EpochDay(clock.date))
  {
    var k := EpochDay(time.date) - EpochDay(clock.date);
    var nanos := ToInstant(AtStartOfDay(time.date)) - ToInstant(AtStartOfDay(clock.date));
    assert nanos == k * NanosPerDay;
    WholeDays(k);
  }

  /** A whole number of days, as a `Duration`, is that many days. */
  lemma WholeDays(k: int)
    ensures DurationDays(0, k * NanosPerDay) == k
  {
    var seconds := (k * NanosPerDay) / NanosPerSecond;
    assert k * NanosPerDay == (k * SecondsPerDay) * NanosPerSecond;
    assert seconds == k * SecondsPerDay;
    if k < 0 {
      assert -seconds == (-k) * SecondsPerDay;
    }
  }

  /**
   * `parse`: `resolve` and `computeScore` on the whole text; `resolve`'s
   * exception passes through.
   */
  function Parse(text: string, clock: ZonedDateTime): (r: Result<TaskDraft, DateTimeError>)
    ensures r.Failure? <==> TimeResolver.ParseTime(Lower(text)).Failure?
    ensures r.Success? ==>
      var d := r.value;
      && d.title == DraftTitle(text)
      && d.description == Take(Trim(text), 400)
      && d.score == TaskRules.ComputeScore(text)
      && d.dueAt == TimeResolver.Resolve(text, clock).value
      && (d.dueAt.None? ==> d.bucket == Month)
      && (d.dueAt.Some? ==> d.bucket == BucketForDays(EpochDay(d.dueAt.value.date) - EpochDay(clock.date)))
  {
    var resolved :- TimeResolver.Resolve(text, clock);
    var bucket := if resolved.Some? then (OcrBucketByDates(resolved.value, clock); OcrBucketFor(resolved.value, clock)) else Month;
    Success(TaskDraft(DraftTitle(text), Take(Trim(text), 400), resolved, bucket, TaskRules.ComputeScore(text)))
  }

  /** A resolved OCR date is never in the past, so its bucket is never decided by a negative day count. */
  lemma ParseDueNotPast(text: string, clock: ZonedDateTime)
    requires Parse(text, clock).Success? && Parse(text, clock).value.dueAt.Some?
    ensures var d := Parse(text, clock).value;
      0 <= EpochDay(d.dueAt.value.date) - EpochDay(clock.date) <= 31
  {
    TimeResolver.ResolveWithinMonth(text, clock);
  }
}
