/**
 * The slice of java.time that the core uses: ISO calendar dates, times of
 * day, date-times in the fixed zone Asia/Seoul (always +09:00), instants as
 * nanoseconds since the epoch, `plusDays`, `plusMonths(1).withDayOfMonth(1)`,
 * `TemporalAdjusters.nextOrSame`, `LocalTime.of` and `Duration.toDays`.
 */
module Calendar {
  import opened Wrappers

  datatype DayOfWeek = MONDAY | TUESDAY | WEDNESDAY | THURSDAY | FRIDAY | SATURDAY | SUNDAY {
    /** java.time's `getValue() - 1`: MONDAY is 0, SUNDAY is 6. */
    function Index(): (i: int)
      ensures 0 <= i < 7
    {
      match this
      case MONDAY => 0
      case TUESDAY => 1
      case WEDNESDAY => 2
      case THURSDAY => 3
      case FRIDAY => 4
      case SATURDAY => 5
      case SUNDAY => 6
    }
  }

  function DayOfWeekAt(i: int): (d: DayOfWeek)
    requires 0 <= i < 7
    ensures d.Index() == i
  {
    if i == 0 then MONDAY
    else if i == 1 then TUESDAY
    else if i == 2 then WEDNESDAY
    else if i == 3 then THURSDAY
    else if i == 4 then FRIDAY
    else if i == 5 then SATURDAY
    else SUNDAY
  }

  /** The proleptic Gregorian leap-year rule of `IsoChronology.isLeapYear`. */
  predicate IsLeap(year: int) {
    year % 4 == 0 && (year % 100 != 0 || year % 400 == 0)
  }

  function DaysInMonth(year: int, month: int): (n: int)
    requires 1 <= month <= 12
    ensures 28 <= n <= 31
  {
    if month == 2 then (if IsLeap(year) then 29 else 28)
    else if month == 4 || month == 6 || month == 9 || month == 11 then 30
    else 31
  }

  datatype Date = Date(year: int, month: int, day: int) {
    predicate Valid() {
      1 <= month <= 12 && 1 <= day <= DaysInMonth(year, month)
    }
  }

  /** A `LocalDate`: a valid calendar date. */
  type LocalDate = d: Date | d.Valid() witness Date(1970, 1, 1)

  /** Leap years in the years before `year`, counted from a fixed origin. */
  function LeapsBefore(year: int): int {
    (year - 1) / 4 - (year - 1) / 100 + (year - 1) / 400
  }

  lemma LeapsStep(year: int)
    ensures LeapsBefore(year + 1) - LeapsBefore(year) == if IsLeap(year) then 1 else 0
  {
    DivStep(year, 4);
    DivStep(year, 100);
    DivStep(year, 400);
    if year % 100 == 0 {
      MultipleOf(year, 100, 4);
    }
    if year % 400 == 0 {
      MultipleOf(year, 400, 100);
    }
  }

  /** Floor division by `m` steps up by one exactly at multiples of `m`. */
  lemma DivStep(y: int, m: int)
    requires m == 4 || m == 100 || m == 400
    ensures y / m - (y - 1) / m == if y % m == 0 then 1 else 0
  {
    ModSplit(y, m);
    ModSplit(y - 1, m);
  }

  /** A multiple of 100 is a multiple of 4, and a multiple of 400 one of 100. */
  lemma MultipleOf(y: int, m: int, f: int)
    requires (m == 100 && f == 4) || (m == 400 && f == 100)
    requires y % m == 0
    ensures y % f == 0
  {
    var a := y / m;
    ModSplit(y, m);
    if m == 100 {
      assert y == 4 * (25 * a);
    } else {
      assert y == 100 * (4 * a);
    }
  }

  function DaysBeforeYear(year: int): int {
    365 * (year - 1970) + LeapsBefore(year) - LeapsBefore(1970)
  }

  function DaysBeforeMonth(year: int, month: int): int
    requires 1 <= month <= 12
  {
    var leap := if IsLeap(year) && month > 2 then 1 else 0;
    leap + (
      if month == 1 then 0 else if month == 2 then 31 else if month == 3 then 59
      else if month == 4 then 90 else if month == 5 then 120 else if month == 6 then 151
      else if month == 7 then 181 else if month == 8 then 212 else if month == 9 then 243
      else if month == 10 then 273 else if month == 11 then 304 else 334)
  }

  /** `LocalDate.toEpochDay()`: days since 1970-01-01. */
  function EpochDay(d: LocalDate): int {
    DaysBeforeYear(d.year) + DaysBeforeMonth(d.year, d.month) + d.day - 1
  }

  /** The calendar day after `d`. */
  function NextDay(d: LocalDate): (r: LocalDate)
    ensures EpochDay(r) == EpochDay(d) + 1
  {
    if d.day < DaysInMonth(d.year, d.month) then Date(d.year, d.month, d.day + 1)
    else if d.month < 12 then Date(d.year, d.month + 1, 1)
    else
      LeapsStep(d.year);
      Date(d.year + 1, 1, 1)
  }

  /** `plusDays(n)` for a non-negative `n`. */
  function PlusDays(d: LocalDate, n: nat): (r: LocalDate)
    ensures EpochDay(r) == EpochDay(d) + n
    decreases n
  {
    if n == 0 then d else PlusDays(NextDay(d), n - 1)
  }

  /** `getDayOfWeek()`: 1970-01-01 was a Thursday. */
  function DayOfWeekOf(d: LocalDate): (w: DayOfWeek)
    ensures w.Index() == (EpochDay(d) + 3) % 7
  {
    DayOfWeekAt((EpochDay(d) + 3) % 7)
  }

  /** How many days `with(TemporalAdjusters.nextOrSame(dow))` moves forward. */
  function DaysUntil(d: LocalDate, dow: DayOfWeek): (k: nat)
    ensures k < 7
  {
    (dow.Index() - DayOfWeekOf(d).Index()) % 7
  }

  /** `with(TemporalAdjusters.nextOrSame(dow))`. */
  function NextOrSame(d: LocalDate, dow: DayOfWeek): LocalDate {
    PlusDays(d, DaysUntil(d, dow))
  }

  /** The weekday of a date is fixed by its epoch day. */
  lemma DayOfWeekByEpochDay(p: LocalDate, n: int)
    requires EpochDay(p) == n
    ensures DayOfWeekOf(p).Index() == (n + 3) % 7
  {
  }

  /** `nextOrSame(dow)` lands on `dow`. */
  lemma NextOrSameOnDay(d: LocalDate, dow: DayOfWeek)
    ensures DayOfWeekOf(NextOrSame(d, dow)) == dow
  {
    OnDayAfter(d, NextOrSame(d, dow), dow);
  }

  /** The date `DaysUntil(d, dow)` days after `d` is on `dow`. */
  lemma OnDayAfter(d: LocalDate, e: LocalDate, dow: DayOfWeek)
    requires EpochDay(e) == EpochDay(d) + DaysUntil(d, dow)
    ensures DayOfWeekOf(e) == dow
  {
    var n := EpochDay(d);
    var t := dow.Index();
    var k := DaysUntil(d, dow);
    assert k == (t - (n + 3) % 7) % 7;
    WeekReached(n + 3, t);
    DayOfWeekByEpochDay(e, n + k);
    IndexInjective(DayOfWeekOf(e), dow);
  }

  /**
   * `nextOrSame(dow)` is the first day on or after `d` that falls on `dow`:
   * it is on `dow`, 0 to 6 days later, and no earlier day of that span is on `dow`.
   */
  lemma NextOrSameIsFirst(d: LocalDate, dow: DayOfWeek)
    ensures DayOfWeekOf(NextOrSame(d, dow)) == dow
    ensures 0 <= EpochDay(NextOrSame(d, dow)) - EpochDay(d) <= 6
    ensures forall j: nat :: j < EpochDay(NextOrSame(d, dow)) - EpochDay(d) ==> DayOfWeekOf(PlusDays(d, j)) != dow
  {
    NextOrSameOnDay(d, dow);
    forall j: nat | j < DaysUntil(d, dow) ensures DayOfWeekOf(PlusDays(d, j)) != dow {
      NotYetOnDay(d, dow, j);
    }
  }

  /** A day strictly before `nextOrSame(dow)` is not on `dow`. */
  lemma NotYetOnDay(d: LocalDate, dow: DayOfWeek, j: nat)
    requires j < DaysUntil(d, dow)
    ensures DayOfWeekOf(PlusDays(d, j)) != dow
  {
    NotOnDayBefore(d, PlusDays(d, j), dow, j);
  }

  /** A date `j` days after `d`, with `j` short of `DaysUntil(d, dow)`, is not on `dow`. */
  lemma NotOnDayBefore(d: LocalDate, p: LocalDate, dow: DayOfWeek, j: nat)
    requires j < DaysUntil(d, dow) && EpochDay(p) == EpochDay(d) + j
    ensures DayOfWeekOf(p) != dow
  {
    var n := EpochDay(d);
    var t := dow.Index();
    assert DaysUntil(d, dow) == (t - (n + 3) % 7) % 7;
    WeekNotYet(n + 3, t, j);
    DayOfWeekByEpochDay(p, n + j);
    assert DayOfWeekOf(p).Index() != t;
  }

  /** Moving `(t - q % 7) % 7` steps from `q` reaches residue `t`. */
  lemma WeekReached(q: int, t: int)
    requires 0 <= t < 7
    ensures (q + (t - q % 7) % 7) % 7 == t
  {
    var w := q % 7;
    var k := (t - w) % 7;
    ModSplit(q, 7);
    assert k == if t >= w then t - w else t - w + 7;
    if t >= w {
      ModOf(q + k, q / 7, t);
    } else {
      ModOf(q + k, q / 7 + 1, t);
    }
  }

  /** No smaller number of steps from `q` reaches residue `t`. */
  lemma WeekNotYet(q: int, t: int, j: nat)
    requires 0 <= t < 7
    requires j < (t - q % 7) % 7
    ensures (q + j) % 7 != t
  {
    var w := q % 7;
    ModSplit(q, 7);
    assert (t - w) % 7 == if t >= w then t - w else t - w + 7;
    var r := if w + j < 7 then w + j else w + j - 7;
    ModOf(q + j, if w + j < 7 then q / 7 else q / 7 + 1, r);
  }

  lemma IndexInjective(a: DayOfWeek, b: DayOfWeek)
    requires a.Index() == b.Index()
    ensures a == b
  {
  }

  lemma ModSplit(x: int, m: int)
    requires m > 0
    ensures x == m * (x / m) + x % m && 0 <= x % m < m
  {
  }

  lemma ModOf(x: int, c: int, r: int)
    requires x == 7 * c + r && 0 <= r < 7
    ensures x % 7 == r
  {
  }

  /** `plusMonths(1).withDayOfMonth(1)`: the first day of the following month. */
  function FirstOfNextMonth(d: LocalDate): (r: LocalDate)
    ensures r.day == 1
    ensures if d.month == 12 then r.year == d.year + 1 && r.month == 1 else r.year == d.year && r.month == d.month + 1
  {
    if d.month == 12 then Date(d.year + 1, 1, 1) else Date(d.year, d.month + 1, 1)
  }

  /** The first day of the next month is after `d`, by at most 31 days. */
  lemma FirstOfNextMonthIsLater(d: LocalDate)
    ensures 1 <= EpochDay(FirstOfNextMonth(d)) - EpochDay(d) <= 31
  {
    if d.month == 12 {
      LeapsStep(d.year);
    }
  }

  datatype Time = Time(hour: int, minute: int, second: int, nano: int) {
    predicate Valid() {
      0 <= hour < 24 && 0 <= minute < 60 && 0 <= second < 60 && 0 <= nano < 1_000_000_000
    }
  }

  /** A `LocalTime`. */
  type LocalTime = t: Time | t.Valid() witness Time(0, 0, 0, 0)

  /** java.time's `DateTimeException`, raised for an hour or minute out of range. */
  datatype DateTimeError = HourOutOfRange(hour: int) | MinuteOutOfRange(minute: int)

  /** `LocalTime.of(hour, minute)`: the hour is checked first, then the minute. */
  function TimeOf(hour: int, minute: int): (r: Result<LocalTime, DateTimeError>)
    ensures r.Success? <==> 0 <= hour < 24 && 0 <= minute < 60
    ensures r.Success? ==> r.value == Time(hour, minute, 0, 0)
  {
    if !(0 <= hour < 24) then Failure(HourOutOfRange(hour))
    else if !(0 <= minute < 60) then Failure(MinuteOutOfRange(minute))
    else Success(Time(hour, minute, 0, 0))
  }

  const NanosPerSecond: int := 1_000_000_000
  const SecondsPerDay: int := 86_400
  const NanosPerDay: int := SecondsPerDay * NanosPerSecond
  /** Asia/Seoul as a fixed offset of +09:00. */
  const SeoulOffsetSeconds: int := 9 * 3600

  /** An `Instant`: nanoseconds since 1970-01-01T00:00Z. */
  type Instant = int

  function NanoOfDay(t: LocalTime): (n: int)
    ensures 0 <= n < NanosPerDay
  {
    ((t.hour * 60 + t.minute) * 60 + t.second) * NanosPerSecond + t.nano
  }

  /** A `ZonedDateTime` in Asia/Seoul: a local date and a local time. */
  datatype ZonedDateTime = ZonedDateTime(date: LocalDate, time: LocalTime)

  /** `atStartOfDay(zone)`: midnight of the date in Seoul. */
  function AtStartOfDay(d: LocalDate): ZonedDateTime {
    ZonedDateTime(d, Time(0, 0, 0, 0))
  }

  /** `toInstant()`: the local date-time minus the +09:00 offset. */
  function ToInstant(z: ZonedDateTime): Instant {
    (EpochDay(z.date) * SecondsPerDay - SeoulOffsetSeconds) * NanosPerSecond + NanoOfDay(z.time)
  }

  /** A Seoul date-time from 0 to 31 days after `d` lies between the start of `d` and the start of the 32nd day after it. */
  lemma ToInstantWithinDays(d: LocalDate, z: ZonedDateTime)
    requires 0 <= EpochDay(z.date) - EpochDay(d) <= 31
    ensures ToInstant(AtStartOfDay(d)) <= ToInstant(z) < ToInstant(AtStartOfDay(PlusDays(d, 32)))
  {
    if EpochDay(d) < EpochDay(z.date) {
      ToInstantLaterDay(AtStartOfDay(d), z);
    }
    ToInstantLaterDay(z, AtStartOfDay(PlusDays(d, 32)));
  }

  /** A Seoul date-time on a later day is a later instant, whatever the clock times. */
  lemma ToInstantLaterDay(a: ZonedDateTime, b: ZonedDateTime)
    requires EpochDay(a.date) < EpochDay(b.date)
    ensures ToInstant(a) < ToInstant(b)
  {
  }

  /**
   * `Duration.between(from, to).toDays()`: the duration's seconds are the
   * floor of the nanosecond difference (Dafny's `/` by a positive constant is
   * floor division), and `toDays` divides them by 86400 truncating toward zero,
   * as Java's `/` on `long` does.
   */
  function DurationDays(from: Instant, to: Instant): int {
    var seconds := (to - from) / NanosPerSecond;
    if seconds >= 0 then seconds / SecondsPerDay else -((-seconds) / SecondsPerDay)
  }

  /** Whole elapsed days are positive exactly when at least a full day has passed. */
  lemma DurationDaysPositive(from: Instant, to: Instant)
    ensures DurationDays(from, to) > 0 <==> to - from >= NanosPerDay
  {
  }

  /** Whole elapsed days never decrease when the later instant moves later. */
  lemma DurationDaysMonotone(from: Instant, to1: Instant, to2: Instant)
    requires to1 <= to2
    ensures DurationDays(from, to1) <= DurationDays(from, to2)
  {
    var s1 := (to1 - from) / NanosPerSecond;
    var s2 := (to2 - from) / NanosPerSecond;
    assert s1 <= s2;
  }
}
