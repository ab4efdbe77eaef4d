/**
 * `TaskNormalizer`: text to a `TaskEntity` — the score (or its override),
 * the resolved due instant (or its override), the due bucket (or its
 * override) and the status the score implies. The clock that `Instant.now()`
 * and `TimeResolver.resolve`'s default reference read is the parameter `clock`.
 */
module TaskNormalizer {
  import opened Wrappers
  import opened Text
  import opened Calendar
  import opened Entities
  import TaskRules
  import TimeResolver

  const Today: string := "TODAY"
  const Week: string := "WEEK"
  const Month: string := "MONTH"

  /** The buckets' order: today before week before month. */
  function BucketRank(b: string): int {
    if b == Today then 0 else if b == Week then 1 else 2
  }

  /** The bucket for a number of days ahead: `<= 0` today, `<= 7` week, else month. */
  function BucketForDays(days: int): (b: string)
    ensures b == Today <==> days <= 0
    ensures b == Week <==> 0 < days <= 7
    ensures b == Month <==> days > 7
  {
    if days <= 0 then Today else if days <= 7 then Week else Month
  }

  /**
   * `statusForScore` in tenths: 0.75 and up is PENDING, which for a score
   * in tenths means 8 and up; 0.5 and up (5 and up) is REVIEW; below that SNOOZED.
   */
  function StatusForScore(score: int): (s: TaskStatus)
    ensures s == PENDING <==> score >= 8
    ensures s == REVIEW <==> 5 <= score < 8
    ensures s == SNOOZED <==> score < 5
  {
    if score >= 8 then PENDING else if score >= 5 then REVIEW else SNOOZED
  }

  /** `bucketFor(instant, reference)`: by the whole days (truncated) from `reference` to `instant`. */
  function BucketFor(instant: Instant, reference: Instant): string {
    BucketForDays(DurationDays(reference, instant))
  }

  /** The no-due fallback `bucketFor(reference, reference)` is TODAY. */
  lemma BucketForSelf(reference: Instant)
    ensures BucketFor(reference, reference) == Today
  {
    assert DurationDays(reference, reference) == 0;
  }

  /** A later due instant never gets an earlier bucket. */
  lemma BucketForMonotone(i1: Instant, i2: Instant, reference: Instant)
    requires i1 <= i2
    ensures BucketRank(BucketFor(i1, reference)) <= BucketRank(BucketFor(i2, reference))
  {
    DurationDaysMonotone(reference, i1, i2);
  }

  /** Anything due less than a full day after the reference, or before it, is TODAY. */
  lemma BucketForWithinADay(instant: Instant, reference: Instant)
    ensures BucketFor(instant, reference) == Today <==> instant - reference < NanosPerDay
  {
    DurationDaysPositive(reference, instant);
  }

  /** `"$title\n$body"`, the text that is scored and resolved. */
  function TaskText(title: string, body: string): string {
    title + "\n" + body
  }

  /**
   * `normalize`. Each override is used as given when present, and only when
   * it is absent is the score computed or the text resolved; `resolve` runs
   * against the clock, not `reference`, and may throw. Without a due instant
   * or bucket override the bucket is TODAY.
   */
  function Normalize(
    title: string, body: string, source: TaskSource, reference: Instant, clock: ZonedDateTime,
    resolvedInstant: Option<Instant>, scoreOverride: Option<int>, bucketOverride: Option<string>
  ): (r: Result<TaskEntity, DateTimeError>)
    ensures r.Failure? <==> resolvedInstant.None? && TimeResolver.ParseTime(Lower(TaskText(title, body))).Failure?
    ensures r.Success? ==>
      var t := r.value;
      && t.id == UnassignedId
      && t.title == Take(title, 80) && t.description == Some(Take(body, 4000))
      && t.score == (if scoreOverride.Some? then scoreOverride.value else TaskRules.ComputeScore(TaskText(title, body)))
      && t.status == StatusForScore(t.score)
      && (resolvedInstant.Some? ==> t.dueAt == resolvedInstant)
      && t.dueAt == ResolvedDue(TaskText(title, body), clock, resolvedInstant).value
      && (bucketOverride.Some? ==> t.dueBucket == bucketOverride.value)
      && (bucketOverride.None? && t.dueAt.None? ==> t.dueBucket == Today)
      && (bucketOverride.None? && t.dueAt.Some? ==> t.dueBucket == BucketFor(t.dueAt.value, reference))
      && t.source == source && t.createdAt == reference && t.updatedAt == ToInstant(clock)
  {
    var text := TaskText(title, body);
    var score := if scoreOverride.Some? then scoreOverride.value else TaskRules.ComputeScore(text);
    var resolved :- ResolvedDue(text, clock, resolvedInstant);
    var bucket :=
      if bucketOverride.Some? then bucketOverride.value
      else if resolved.Some? then BucketFor(resolved.value, reference)
      else (BucketForSelf(reference); BucketFor(reference, reference));
    Success(TaskEntity(
      id := UnassignedId,
      title := Take(title, 80),
      description := Some(Take(body, 4000)),
      dueAt := resolved,
      dueBucket := bucket,
      score := score,
      status := StatusForScore(score),
      source := source,
      createdAt := reference,
      updatedAt := ToInstant(clock)))
  }

  /** `resolvedInstant ?: TimeResolver.resolve(text)?.toInstant()`; `ResolvedDueValue` says which instant. */
  function ResolvedDue(text: string, clock: ZonedDateTime, resolvedInstant: Option<Instant>): (r: Result<Option<Instant>, DateTimeError>)
    ensures r.Failure? <==> resolvedInstant.None? && TimeResolver.ParseTime(Lower(text)).Failure?
    ensures resolvedInstant.Some? ==> r == Success(resolvedInstant)
  {
    if resolvedInstant.Some? then Success(resolvedInstant)
    else
      match TimeResolver.Resolve(text, clock)
      case Failure(e) => Failure(e)
      case Success(z) => Success(if z.Some? then Some(ToInstant(z.value)) else None)
  }

  /**
   * Without an override there is a due instant exactly when the text names a
   * date, and it is the parsed time (09:00 when none) of that date, in Seoul.
   */
  lemma ResolvedDueValue(text: string, clock: ZonedDateTime)
    requires ResolvedDue(text, clock, None).Success?
    ensures var n := Lower(text);
      var r := ResolvedDue(text, clock, None).value;
      && (r.Some? <==> TimeResolver.ResolveDate(n, clock.date).Some?)
      && (r.Some? ==>
            var date := TimeResolver.ResolveDate(n, clock.date).value;
            var time := TimeResolver.ParseTime(n).value.GetOr(TimeResolver.NineOClock);
            r.value == ToInstant(ZonedDateTime(date, time)))
  {
  }

  /**
   * Without an override a resolved due date lies within the next 31 days of
   * the clock's date: on the clock's day or later, and before the start of
   * the 32nd day after it.
   */
  lemma ResolvedDueWithinMonth(text: string, clock: ZonedDateTime)
    requires ResolvedDue(text, clock, None).Success? && ResolvedDue(text, clock, None).value.Some?
    ensures var due := ResolvedDue(text, clock, None).value.value;
      ToInstant(AtStartOfDay(clock.date)) <= due < ToInstant(AtStartOfDay(PlusDays(clock.date, 32)))
  {
    TimeResolver.ResolveWithinMonth(text, clock);
    ToInstantWithinDays(clock.date, TimeResolver.Resolve(text, clock).value.value);
  }

  /** The status of a computed score, by cues: PENDING needs a date, a verb and a time or deadline cue. */
  lemma StatusOfText(text: string)
    ensures var n := Lower(text);
      StatusForScore(TaskRules.ComputeScore(text)) == PENDING <==>
        TaskRules.HasDateCue(n) && TaskRules.HasVerbCue(n) && (TaskRules.HasTimeCue(n) || TaskRules.HasDeadlineCue(n))
    ensures var n := Lower(text);
      StatusForScore(TaskRules.ComputeScore(text)) == SNOOZED <==>
        !((TaskRules.HasDateCue(n) && (TaskRules.HasTimeCue(n) || TaskRules.HasVerbCue(n) || TaskRules.HasDeadlineCue(n)))
          || (TaskRules.HasVerbCue(n) && TaskRules.HasTimeCue(n)))
  {
  }

  /**
   * The two cue vocabularies disagree: "다음달" gives `resolve` a date (the
   * first of next month) while the scorer sees no date cue in it.
   */
  lemma NextMonthCueGap(d: LocalDate)
    ensures TimeResolver.ResolveDate("다음달", d) == Some(FirstOfNextMonth(d))
    ensures !TaskRules.HasDateCue("다음달")
  {
    NextMonthResolves(d);
    NextMonthNotScored();
  }

  /** "다음달" is the seventh date cue of `resolve` and none of the six before it. */
  lemma NextMonthResolves(d: LocalDate)
    ensures TimeResolver.ResolveDate("다음달", d) == Some(FirstOfNextMonth(d))
  {
    var n := "다음달";
    assert OccursAt(n, TimeResolver.DateCues[6].0[0], 0);
    forall k | 0 <= k < 6 ensures !ContainsAny(n, TimeResolver.DateCues[k].0) {
      WordsBlocked(n, TimeResolver.DateCues[k].0);
    }
    TimeResolver.ResolveDateFirstMatch(n, d, 6);
  }

  /** "다음달" holds none of the scorer's date words, Korean or English. */
  lemma NextMonthNotScored()
    ensures !TaskRules.HasDateCue("다음달")
  {
    var n := "다음달";
    WordsBlocked(n, TaskRules.DateWords);
    forall i | 0 <= i <= |n| ensures !TaskRules.EnglishDateAt(n, i) {
      forall k | 0 <= k < |TaskRules.EnglishDateWords| ensures !OccursAt(n, TaskRules.EnglishDateWords[k], i) {
        CharBlocks(n, TaskRules.EnglishDateWords[k], 0);
      }
    }
  }
}
