# localfirstassistant: a verified model of the task pipeline

The Android app collects messages from three places: IMAP mailboxes (Gmail over OAuth2, Naver with an app password), posted notifications (SMS, KakaoTalk, mail apps) and photographed text (OCR). It turns each message into a task. The app scores the text by its date, time, verb and deadline cues. It then resolves a due date-time in Asia/Seoul, puts the task in a TODAY, WEEK or MONTH bucket and gives it a status. The raw message, the task and a link between the two go into the tables `messages`, `tasks` and `task_message_cross_ref` of a Room (SQLite) database. The task screens list tasks by bucket and by status, and completing a task marks it COMPLETED.

This project models that pipeline in Dafny and proves what it does. The model covers:
- the phrase resolver, the scorer, the normaliser and the OCR parser;
- the type converters;
- the three tables, with SQLite's conflict, cascade and foreign-key rules;
- the three ingestion paths;
- the completion rule;
- the credential store.

## Conventions

- **Instants** are integers counting nanoseconds since the epoch. The stored columns keep epoch milliseconds, so an instant reads back truncated to the millisecond.
- **Asia/Seoul** is the fixed offset +09:00.
- **Dates** are civil `(year, month, day)` values with an epoch-day count and a weekday.
- **The clock.** Every `Instant.now()`, `ZonedDateTime.now(zone)` and `System.currentTimeMillis()` becomes a `clock` parameter. One reading stands for every read within one operation.
- **Scores** are integer tenths (0..10). PENDING is 0.75 and up, which is 8 tenths and up for a score that is a multiple of 0.1. REVIEW is 0.5 and up, which is 5 tenths and up. Every float sum the scorer can produce compares with those thresholds exactly as its tenths do.
- **Regular expressions** are deterministic matchers that scan for the leftmost match:
  - `\d` is an ASCII digit.
  - `\s` is the class of Android's ICU engine: tab, line feed, form feed, carriage return and the Unicode space separators.
  - `\b` counts as word characters the ASCII letters and digits, `_` and Hangul.
- **Lower-casing** folds ASCII letters only.
- **Errors.**
  - `LocalTime.of` throws for an out-of-range hour or minute. That is a `DateTimeError`, and it propagates as `Failure`.
  - An enum `valueOf` of an unknown name is a `ConvertError`.
  - A foreign-key violation is a `DbError`.
- **Expiry.** `OAuthTokens.isExpired` is the predicate `Credentials.IsExpired`: the expiry millisecond itself already counts as expired.
- **Mailboxes.** An IMAP mailbox is the list of messages it holds (message number `n` is element `n - 1`), or `Unreachable` when connecting or opening it throws.

### Where the code differs from its documentation

- With no resolved due instant and no bucket override, `normalize` puts the task in TODAY, because the fallback is `bucketFor(reference, reference)`. The OCR parser falls back to MONTH instead.
- The `다음주 + weekday` and `next week + weekday` branches of `findWeekday` can never decide its result. `resolve` catches "다음주" and "next week" first. Even when it does not, the day the pattern captures is itself a `weekdayMap` key, so the loop over the map has already returned. `TimeResolver.NextWeekPatternsUnreachable` proves this.
- A message whose `(accountType, messageId)` is already stored adds no row: the insert is ignored and returns -1. The task is upserted anyway, and because Room turns foreign keys on, the link to row -1 is refused. Each duplicate therefore leaves one task without messages behind, and the calling coroutine throws on the link, which in mail sync ends the mailbox's loop. The documentation speaks of "a link to a non-existent message". The model follows SQLite, which refuses that link.
- `markTaskCompleted` writes the completed copy with `upsert`, which is INSERT OR REPLACE. SQLite deletes the old row first, and the delete cascades to the task's links, so a completed task loses its messages.

## Model

| member | source | states |
|---|---|---|
| TimeResolver.FirstWeekdayEntry | app/src/main/kotlin/com/example/localfirstassistant/domain/parse/TimeResolver.kt:53-58 | the entry found is the first `weekdayMap` entry, in map order, whose key occurs in the text; none is found only when no key occurs |
| TimeResolver.WeekdayOf | app/src/main/kotlin/com/example/localfirstassistant/domain/parse/TimeResolver.kt:17-32 | `weekdayMap[key]` gives a day exactly when some entry has that key, and the entry pairs that key with that day |
| TimeResolver.ColonAt | app/src/main/kotlin/com/example/localfirstassistant/domain/parse/TimeResolver.kt:77-78 | a match at an index is a placement of `(\d{1,2}):(\d{2})` there: group 0 occurs at that index and is the one or two hour digits, `:` and the two minute digits of groups 1 and 2 |
| TimeResolver.MeridiemAt | app/src/main/kotlin/com/example/localfirstassistant/domain/parse/TimeResolver.kt:83-84 | a match at an index is a placement of `(am\|pm)\s*(\d{1,2})(:(\d{2}))?` there: group 0 occurs at that index and is the label, a run of `\s`, the hour digits and either nothing or `:` and two minute digits |
| TimeResolver.MeridiemGroups | app/src/main/kotlin/com/example/localfirstassistant/domain/parse/TimeResolver.kt:83-86 | the groups of an am/pm match, with the optional minute group empty when absent, have the pattern's shape |
| TimeResolver.KoreanMeridiemAt | app/src/main/kotlin/com/example/localfirstassistant/domain/parse/TimeResolver.kt:91-92 | a match at an index is a placement of `(오전\|오후)\s*(\d{1,2})시(\d{1,2})?분?` there: group 0 occurs at that index and is the label, a run of `\s`, the hour digits, `시`, up to two minute digits and an optional `분` |
| TimeResolver.KoreanMeridiemGroups | app/src/main/kotlin/com/example/localfirstassistant/domain/parse/TimeResolver.kt:91-94 | the groups of a 오전/오후 match, with the optional minute group empty when absent, have the pattern's shape |
| TimeResolver.KoreanHourAt | app/src/main/kotlin/com/example/localfirstassistant/domain/parse/TimeResolver.kt:100-101 | a match at an index is a placement of `(\d{1,2})시` there: group 0 occurs at that index and is the hour digits of group 1 and `시` |
| TimeResolver.KoreanNextWeekdayAt | app/src/main/kotlin/com/example/localfirstassistant/domain/parse/TimeResolver.kt:59-60 | a match at an index is a placement of `다음주\s*([월화수목금토일])` there: group 0 occurs at that index and is `다음주`, a run of `\s` and the day character |
| TimeResolver.DayNameAt | app/src/main/kotlin/com/example/localfirstassistant/domain/parse/TimeResolver.kt:66 | the English day name found at an index is a `weekdayMap` key that occurs there |
| TimeResolver.EnglishNextWeekdayAt | app/src/main/kotlin/com/example/localfirstassistant/domain/parse/TimeResolver.kt:66-67 | a match at an index is a placement of `next week\s*(monday\|…\|sunday)` there: group 0 occurs at that index and is `next week`, a run of `\s` and an English `weekdayMap` key |
| TimeResolver.MatchAt | app/src/main/kotlin/com/example/localfirstassistant/domain/parse/TimeResolver.kt:59-104 | whatever pattern matches at an index, its groups are a placement of that pattern at that index |
| TimeResolver.FindFrom | app/src/main/kotlin/com/example/localfirstassistant/domain/parse/TimeResolver.kt:59-104 | the index found is the leftmost match at or after the start; none is found only when no index matches |
| TimeResolver.Find | app/src/main/kotlin/com/example/localfirstassistant/domain/parse/TimeResolver.kt:59-104 | `Regex.find` is null exactly when the pattern matches at no index; otherwise it is the match at the leftmost matching index, placed there |
| TimeResolver.ColonAtComplete | app/src/main/kotlin/com/example/localfirstassistant/domain/parse/TimeResolver.kt:76-78 | wherever HH:MM can be placed, the matcher matches there with exactly that placement, the only one |
| TimeResolver.MeridiemAtComplete | app/src/main/kotlin/com/example/localfirstassistant/domain/parse/TimeResolver.kt:82-84 | wherever the am/pm pattern can be placed, the matcher matches there, at least as long as the placement, as the greedy quantifiers take |
| TimeResolver.KoreanMeridiemAtComplete | app/src/main/kotlin/com/example/localfirstassistant/domain/parse/TimeResolver.kt:90-92 | wherever the 오전/오후 pattern can be placed, the matcher matches there, at least as long as the placement |
| TimeResolver.KoreanHourAtComplete | app/src/main/kotlin/com/example/localfirstassistant/domain/parse/TimeResolver.kt:99-101 | wherever N시 can be placed, the matcher matches there with exactly that placement |
| TimeResolver.MatchAtComplete | app/src/main/kotlin/com/example/localfirstassistant/domain/parse/TimeResolver.kt:76-104 | a time pattern that can be placed at an index matches there, at least as long as the placement |
| TimeResolver.FindLeftmostLongest | app/src/main/kotlin/com/example/localfirstassistant/domain/parse/TimeResolver.kt:76-104 | `find` is null exactly when the pattern can be placed nowhere; otherwise the match is a placement at the leftmost placeable index, and no placement there is longer |
| TimeResolver.MeridiemHour | app/src/main/kotlin/com/example/localfirstassistant/domain/parse/TimeResolver.kt:86-88 | pm/오후 adds 12 to hours 1 to 11 and keeps 12; am/오전 turns 12 into 0 and keeps every other hour; the hour is valid for `LocalTime.of` exactly for pm hours up to 12 and am hours up to 23 |
| TimeResolver.ParseTime | app/src/main/kotlin/com/example/localfirstassistant/domain/parse/TimeResolver.kt:75-105 | there is no time exactly when none of the four patterns matches anywhere in the text; a parsed time has zero seconds and nanoseconds |
| TimeResolver.ParseTimeColon | app/src/main/kotlin/com/example/localfirstassistant/domain/parse/TimeResolver.kt:76-81 | an HH:MM match decides the time whatever else matches, failing exactly for an hour above 23 or a minute above 59 |
| TimeResolver.ParseTimeMeridiem | app/src/main/kotlin/com/example/localfirstassistant/domain/parse/TimeResolver.kt:82-89 | failing HH:MM, an am/pm match decides, failing exactly for a pm hour above 12, an am hour above 23 or a minute above 59, and giving the hour with pm adding 12 |
| TimeResolver.ParseTimeKoreanMeridiem | app/src/main/kotlin/com/example/localfirstassistant/domain/parse/TimeResolver.kt:90-98 | with no Latin match, a 오전/오후 match decides as am/pm does |
| TimeResolver.ParseTimeKoreanHour | app/src/main/kotlin/com/example/localfirstassistant/domain/parse/TimeResolver.kt:99-104 | failing all three, an N시 match gives N o'clock, failing exactly above 23 |
| TimeResolver.WrapTime | app/src/main/kotlin/com/example/localfirstassistant/domain/parse/TimeResolver.kt:78-104 | a thrown `LocalTime.of` passes through as the error, and a built time becomes the parsed time |
| TimeResolver.FindWeekday | app/src/main/kotlin/com/example/localfirstassistant/domain/parse/TimeResolver.kt:52-74 | the loop over `weekdayMap` with an early return computes the weekday lookup's date |
| TimeResolver.FirstWeekdayEntryAt | app/src/main/kotlin/com/example/localfirstassistant/domain/parse/TimeResolver.kt:53-57 | the entry the loop stops at is the first whose key occurs |
| TimeResolver.FirstCue | app/src/main/kotlin/com/example/localfirstassistant/domain/parse/TimeResolver.kt:36-43 | the rule chosen is the first keyword rule of the `when` chain with a keyword in the text; none is chosen only when no rule has one |
| TimeResolver.Resolve | app/src/main/kotlin/com/example/localfirstassistant/domain/parse/TimeResolver.kt:33-50 | `resolve` throws exactly when parsing the lower-cased text's time throws, even with no date; otherwise there is a date-time exactly when a date resolves, on that date at the parsed time, 09:00 when none parses |
| TimeResolver.RuleDateWithinMonth | app/src/main/kotlin/com/example/localfirstassistant/domain/parse/TimeResolver.kt:37-43 | every keyword rule's date is the reference date or at most 31 days after it |
| TimeResolver.DateCueUnfold | app/src/main/kotlin/com/example/localfirstassistant/domain/parse/TimeResolver.kt:37-43 | each rule of the table holds exactly when one of the keywords on its line of the `when` occurs |
| TimeResolver.ResolveDateFirstMatch | app/src/main/kotlin/com/example/localfirstassistant/domain/parse/TimeResolver.kt:36-43 | first match wins: when a rule is the first whose keyword occurs, the date is that rule's (reference, +1, +2, reference, +7, reference, first of next month) |
| TimeResolver.ResolveDateNoCue | app/src/main/kotlin/com/example/localfirstassistant/domain/parse/TimeResolver.kt:44 | with no keyword rule matching, the date is the weekday lookup's |
| TimeResolver.KoreanDayIsKey | app/src/main/kotlin/com/example/localfirstassistant/domain/parse/TimeResolver.kt:59-62 | every character of `[월화수목금토일]` is itself a `weekdayMap` key |
| TimeResolver.NextWeekPatternsUnreachable | app/src/main/kotlin/com/example/localfirstassistant/domain/parse/TimeResolver.kt:53-72 | when the loop over `weekdayMap` finds no key, neither next-week pattern matches, so lines 59-72 never give a date |
| TimeResolver.KoreanMatchNamesKey | app/src/main/kotlin/com/example/localfirstassistant/domain/parse/TimeResolver.kt:59-62 | a `다음주` pattern match captures a Korean day key that occurs in the text |
| TimeResolver.EnglishMatchNamesKey | app/src/main/kotlin/com/example/localfirstassistant/domain/parse/TimeResolver.kt:66-69 | a `next week` pattern match captures an English day key that occurs in the text |
| TimeResolver.WeekdayDateIsFirstKey | app/src/main/kotlin/com/example/localfirstassistant/domain/parse/TimeResolver.kt:52-74 | the weekday lookup finds a date exactly when some key occurs; the date falls on the first key's weekday, 0 to 6 days on or after the reference date |
| TimeResolver.SundayFromAnyIl | app/src/main/kotlin/com/example/localfirstassistant/domain/parse/TimeResolver.kt:17-57 | with no keyword rule and no earlier day key, any text containing "일" resolves to the coming Sunday |
| TimeResolver.NextWeekIgnoresDayName | app/src/main/kotlin/com/example/localfirstassistant/domain/parse/TimeResolver.kt:36-65 | once "다음주" is the first rule that matches, the date is exactly seven days on, whatever day name follows |
| TimeResolver.ResolveWithinMonth | app/src/main/kotlin/com/example/localfirstassistant/domain/parse/TimeResolver.kt:34-50 | a resolved date is on the reference date or at most 31 days after it |
| TimeResolver.ResolveTime | app/src/main/kotlin/com/example/localfirstassistant/domain/parse/TimeResolver.kt:44-49 | no date gives null even when a time parses; a date with no time pattern is at 09:00; a date with a parsed time is at that time |
| TimeResolver.TomorrowAfternoon | app/src/main/kotlin/com/example/localfirstassistant/domain/parse/TimeResolver.kt:33-49 | "내일 오후 3시" resolves to the day after the reference at 15:00 |
| TimeResolver.AfternoonThree | app/src/main/kotlin/com/example/localfirstassistant/domain/parse/TimeResolver.kt:90-97 | the time of "내일 오후 3시" is 15:00, from its 오후 3시 |
| TaskRules.ComputeScore | app/src/main/kotlin/com/example/localfirstassistant/domain/parse/TaskRules.kt:49-61 | the score is at most 1.0; it reaches 0.8 exactly for a date and a verb with a time or deadline cue, and 0.5 exactly for a date with any other cue or a verb with a time; it is 0 exactly with no cue and 1.0 exactly with all four |
| TaskRules.ScoreIgnoresCase | app/src/main/kotlin/com/example/localfirstassistant/domain/parse/TaskRules.kt:50 | `computeScore(lowercase(t)) == computeScore(t)` |
| TaskRules.WordCueInPart | app/src/main/kotlin/com/example/localfirstassistant/domain/parse/TaskRules.kt:29-47 | a verb or deadline word occurring in a part of the text occurs in the whole text |
| TaskNormalizer.BucketForDays | app/src/main/kotlin/com/example/localfirstassistant/data/parse/TaskNormalizer.kt:50-54 | TODAY exactly for at most 0 days, WEEK exactly for 1..7, MONTH exactly beyond 7 |
| TaskNormalizer.StatusForScore | app/src/main/kotlin/com/example/localfirstassistant/data/parse/TaskNormalizer.kt:42-46 | PENDING exactly from 0.8 (0.75 in tenths), REVIEW exactly for 0.5..0.7, SNOOZED exactly below 0.5 |
| TaskNormalizer.BucketForSelf | app/src/main/kotlin/com/example/localfirstassistant/data/parse/TaskNormalizer.kt:27 | the no-due fallback `bucketFor(reference, reference)` is TODAY |
| TaskNormalizer.BucketForMonotone | app/src/main/kotlin/com/example/localfirstassistant/data/parse/TaskNormalizer.kt:48-55 | a later due instant never gets an earlier bucket |
| TaskNormalizer.BucketForWithinADay | app/src/main/kotlin/com/example/localfirstassistant/data/parse/TaskNormalizer.kt:49-51 | the bucket is TODAY exactly when the due instant is less than a full day after the reference, or before it |
| TaskNormalizer.Normalize | app/src/main/kotlin/com/example/localfirstassistant/data/parse/TaskNormalizer.kt:15-40 | fails only without a resolved instant when resolving `title\nbody` against the clock throws; id 0, title cut to 80, description cut to 4000; the score override or the computed score; status from the score; the resolved instant override or the resolver's; the bucket override, else by the due instant, else TODAY; createdAt the reference, updatedAt the clock |
| TaskNormalizer.ResolvedDue | app/src/main/kotlin/com/example/localfirstassistant/data/parse/TaskNormalizer.kt:26 | an override is used as given and nothing is resolved; otherwise a date the resolver throws on fails |
| TaskNormalizer.ResolvedDueValue | app/src/main/kotlin/com/example/localfirstassistant/data/parse/TaskNormalizer.kt:26 | without an override there is a due instant exactly when the text names a date, and it is the instant of that date at the parsed time, 09:00 when none, in Seoul |
| TaskNormalizer.ResolvedDueWithinMonth | app/src/main/kotlin/com/example/localfirstassistant/data/parse/TaskNormalizer.kt:26 | a resolved due instant lies between the start of the clock's day and the start of the 32nd day after it |
| TaskNormalizer.StatusOfText | app/src/main/kotlin/com/example/localfirstassistant/data/parse/TaskNormalizer.kt:25-28 | a text's task is PENDING exactly with a date, a verb and a time or deadline cue, and SNOOZED exactly when it reaches no REVIEW combination |
| TaskNormalizer.NextMonthCueGap | app/src/main/kotlin/com/example/localfirstassistant/data/parse/TaskNormalizer.kt:25-26 | "다음달" gives the resolver a date (the first of next month) while the scorer sees no date cue in it |
| TaskNormalizer.NextMonthResolves | app/src/main/kotlin/com/example/localfirstassistant/domain/parse/TimeResolver.kt:43 | "다음달" resolves to the first day of the next month |
| TaskNormalizer.NextMonthNotScored | app/src/main/kotlin/com/example/localfirstassistant/domain/parse/TaskRules.kt:8-19 | "다음달" holds none of the scorer's date words |
| OcrParser.FirstNonBlank | app/src/main/kotlin/com/example/localfirstassistant/data/parse/OcrParser.kt:16-17 | the line chosen is non-blank and every line before it is blank; none is chosen exactly when every line is blank |
| OcrParser.DraftTitleShape | app/src/main/kotlin/com/example/localfirstassistant/data/parse/OcrParser.kt:16-17 | a blank text gives "OCR Task"; otherwise the title is a non-empty piece of at most 60 characters of one of its lines, starting with no whitespace |
| OcrParser.TitleOfLine | app/src/main/kotlin/com/example/localfirstassistant/data/parse/OcrParser.kt:17 | a non-blank line trims and cuts to a non-empty title of at most 60 characters that starts with no whitespace and occurs in the line |
| OcrParser.OcrBucketByDates | app/src/main/kotlin/com/example/localfirstassistant/data/parse/OcrParser.kt:31-39 | the OCR bucket depends only on the difference of the calendar dates in Seoul |
| OcrParser.WholeDays | app/src/main/kotlin/com/example/localfirstassistant/data/parse/OcrParser.kt:33 | a whole number of days between two midnights is that many days |
| OcrParser.Parse | app/src/main/kotlin/com/example/localfirstassistant/data/parse/OcrParser.kt:15-29 | fails exactly when resolving throws; the title as above, the trimmed text cut to 400, the computed score, the resolved date-time; MONTH without one, else by calendar days from today |
| OcrParser.ParseDueNotPast | app/src/main/kotlin/com/example/localfirstassistant/data/parse/OcrParser.kt:19-21 | a resolved OCR date is never before today and at most 31 days on |
| Converters.ToEpochMilli | app/src/main/kotlin/com/example/localfirstassistant/data/db/DatabaseConverters.kt:16 | `toEpochMilli` is the millisecond the instant falls in |
| Converters.FromEpoch | app/src/main/kotlin/com/example/localfirstassistant/data/db/DatabaseConverters.kt:13 | null exactly for null |
| Converters.ToEpoch | app/src/main/kotlin/com/example/localfirstassistant/data/db/DatabaseConverters.kt:16 | null exactly for null |
| Converters.EpochRoundTrip | app/src/main/kotlin/com/example/localfirstassistant/data/db/DatabaseConverters.kt:13-16 | `toEpoch(fromEpoch(m)) == m` |
| Converters.InstantRoundTrip | app/src/main/kotlin/com/example/localfirstassistant/data/db/DatabaseConverters.kt:13-16 | `fromEpoch(toEpoch(i)) == i` exactly for instants of millisecond precision |
| Converters.Stored | app/src/main/kotlin/com/example/localfirstassistant/data/db/DatabaseConverters.kt:13-16 | a stored instant reads back as the start of its millisecond |
| Converters.ToStatus | app/src/main/kotlin/com/example/localfirstassistant/data/db/DatabaseConverters.kt:22 | null exactly for null |
| Converters.FromStatus | app/src/main/kotlin/com/example/localfirstassistant/data/db/DatabaseConverters.kt:19 | null maps to null; a name converts exactly when it names a status, and then to that status; `valueOf` fails otherwise |
| Converters.ToSource | app/src/main/kotlin/com/example/localfirstassistant/data/db/DatabaseConverters.kt:28 | null exactly for null |
| Converters.FromSource | app/src/main/kotlin/com/example/localfirstassistant/data/db/DatabaseConverters.kt:25 | null maps to null; a name converts exactly when it names a source, and then to that source; `valueOf` fails otherwise |
| Converters.StatusRoundTrip | app/src/main/kotlin/com/example/localfirstassistant/data/db/DatabaseConverters.kt:19-22 | `fromStatus(toStatus(s)) == s`, null included |
| Converters.SourceRoundTrip | app/src/main/kotlin/com/example/localfirstassistant/data/db/DatabaseConverters.kt:25-28 | `fromSource(toSource(s)) == s`, null included |
| Converters.NamesDistinct | app/src/main/kotlin/com/example/localfirstassistant/data/db/DatabaseConverters.kt:19-28 | no two statuses, and no two sources, share a stored name |
| Tables.EmptyValid | app/src/main/kotlin/com/example/localfirstassistant/data/db/entities/TaskMessageCrossRef.kt:10-25 | the empty database meets the schema's constraints |
| Tables.AssignedId | app/src/main/kotlin/com/example/localfirstassistant/data/db/entities/TaskEntity.kt:16-17 | id 0 gets the next id of the sequence; any other id is kept |
| Tables.StoredOption | app/src/main/kotlin/com/example/localfirstassistant/data/db/entities/TaskEntity.kt:20-21 | a due instant is absent after storing exactly when it was absent before |
| Tables.InsertMessageValid | app/src/main/kotlin/com/example/localfirstassistant/data/db/dao/MessageDao.kt:12-13 | inserting a message keeps the constraints |
| Tables.InsertMessageFresh | app/src/main/kotlin/com/example/localfirstassistant/data/db/dao/MessageDao.kt:12-13 | a new key adds exactly one row, under an id above every stored one, with nothing else changed |
| Tables.InsertMessageDuplicate | app/src/main/kotlin/com/example/localfirstassistant/data/db/entities/MessageEntity.kt:15 | an existing `(accountType, messageId)` leaves the tables unchanged and returns -1 |
| Tables.InsertMessageIdempotent | app/src/main/kotlin/com/example/localfirstassistant/data/db/entities/MessageEntity.kt:10-15 | inserting the same message twice is inserting it once |
| Tables.InsertAll | app/src/main/kotlin/com/example/localfirstassistant/data/db/dao/MessageDao.kt:15-16 | one returned id per message |
| Tables.InsertAllValid | app/src/main/kotlin/com/example/localfirstassistant/data/db/dao/MessageDao.kt:15-16 | `insertAll` keeps the constraints |
| Tables.InsertAllRepeated | app/src/main/kotlin/com/example/localfirstassistant/data/db/dao/MessageDao.kt:15-16 | like sequential inserts: a message listed twice is stored once, and its second insert returns -1 |
| Tables.PruneOlderThanExact | app/src/main/kotlin/com/example/localfirstassistant/data/db/dao/MessageDao.kt:21-22 | exactly the messages received before the cutoff go, with their links; every other row is unchanged |
| Tables.UpsertValid | app/src/main/kotlin/com/example/localfirstassistant/data/db/dao/TaskDao.kt:16-17 | `upsert` keeps the constraints |
| Tables.UpsertNew | app/src/main/kotlin/com/example/localfirstassistant/data/db/dao/TaskDao.kt:16-17 | id 0 inserts a new row under a fresh id; messages and links unchanged |
| Tables.UpsertReplaces | app/src/main/kotlin/com/example/localfirstassistant/data/db/dao/TaskDao.kt:16-17 | an explicit id replaces that row and drops the old row's links (REPLACE deletes, the delete cascades) |
| Tables.Update | app/src/main/kotlin/com/example/localfirstassistant/data/db/dao/TaskDao.kt:19-20 | an id not stored changes nothing |
| Tables.UpdateOnlyThatRow | app/src/main/kotlin/com/example/localfirstassistant/data/db/dao/TaskDao.kt:19-20 | `update` rewrites only the row with the matching id, and keeps the links |
| Tables.PruneResolvedExact | app/src/main/kotlin/com/example/localfirstassistant/data/db/dao/TaskDao.kt:30-31 | exactly the tasks of that status updated before the cutoff go, with their links |
| Tables.InsertLink | app/src/main/kotlin/com/example/localfirstassistant/data/db/dao/TaskMessageDao.kt:11-12 | the link is refused exactly when its task or message does not exist |
| Tables.InsertLinkEffect | app/src/main/kotlin/com/example/localfirstassistant/data/db/dao/TaskMessageDao.kt:11-12 | an existing pair changes nothing; a new pair with both parents adds exactly that pair; the constraints hold after |
| Tables.DeleteForTaskExact | app/src/main/kotlin/com/example/localfirstassistant/data/db/dao/TaskMessageDao.kt:14-15 | exactly the links of that task go; tasks and messages unchanged |
| Tables.CascadesKeepOtherParent | app/src/main/kotlin/com/example/localfirstassistant/data/db/entities/TaskMessageCrossRef.kt:14-25 | deleting tasks never deletes messages, and deleting messages never deletes tasks |
| Tables.WithMessagesExact | app/src/main/kotlin/com/example/localfirstassistant/data/db/entities/TaskWithMessages.kt:8-20 | a task's messages are exactly the stored messages linked to its id, and the embedded task is the row itself |
| Tables.WithoutLinksNoMessages | app/src/main/kotlin/com/example/localfirstassistant/data/db/entities/TaskWithMessages.kt:8-20 | a task with no links has no messages |
| Tables.InsertAt | app/src/main/kotlin/com/example/localfirstassistant/data/db/dao/TaskDao.kt:22-28 | inserting into a result list keeps the others in place and adds exactly the one element |
| Tables.DuePosition | app/src/main/kotlin/com/example/localfirstassistant/data/db/dao/TaskDao.kt:22-28 | the place for a due time in a list sorted by due time, undated last |
| Tables.RecentPosition | app/src/main/kotlin/com/example/localfirstassistant/data/db/dao/MessageDao.kt:18 | the place for a receive time in a list sorted newest first |
| Tables.InsertRecent | app/src/main/kotlin/com/example/localfirstassistant/data/db/dao/MessageDao.kt:18 | inserting there keeps the list sorted newest first and its ids distinct |
| Tables.InsertByDue | app/src/main/kotlin/com/example/localfirstassistant/data/db/dao/TaskDao.kt:22-28 | inserting there keeps the list sorted by due time, undated last, and its ids distinct |
| Store.AppDatabase.constructor | app/src/main/kotlin/com/example/localfirstassistant/data/db/entities/TaskMessageCrossRef.kt:10-32 | a new database is empty and meets the constraints |
| Store.AppDatabase.InsertMessage | app/src/main/kotlin/com/example/localfirstassistant/data/db/dao/MessageDao.kt:12-13 | the tables and returned id are those of INSERT OR IGNORE |
| Store.AppDatabase.InsertAll | app/src/main/kotlin/com/example/localfirstassistant/data/db/dao/MessageDao.kt:15-16 | the tables and ids are those of the sequential inserts |
| Store.AppDatabase.ObserveRecent | app/src/main/kotlin/com/example/localfirstassistant/data/db/dao/MessageDao.kt:18-19 | only that account's rows, each once, newest first, at most `limit`, and none left out newer than one returned |
| Store.AppDatabase.RecentRows | app/src/main/kotlin/com/example/localfirstassistant/data/db/dao/MessageDao.kt:18 | every stored row of the account, each once, newest first |
| Store.AppDatabase.PruneOlderThan | app/src/main/kotlin/com/example/localfirstassistant/data/db/dao/MessageDao.kt:21-22 | the tables become those of the DELETE and its cascade |
| Store.AppDatabase.Upsert | app/src/main/kotlin/com/example/localfirstassistant/data/db/dao/TaskDao.kt:16-17 | the tables and id become those of INSERT OR REPLACE |
| Store.AppDatabase.Update | app/src/main/kotlin/com/example/localfirstassistant/data/db/dao/TaskDao.kt:19-20 | the tables become those of the UPDATE |
| Store.AppDatabase.ObserveTasksByBucket | app/src/main/kotlin/com/example/localfirstassistant/data/db/dao/TaskDao.kt:22-24 | exactly the tasks of that bucket, each once with its messages, by due time, undated last |
| Store.AppDatabase.ObserveByStatus | app/src/main/kotlin/com/example/localfirstassistant/data/db/dao/TaskDao.kt:26-28 | exactly the tasks of that status, each once with its messages, by due time, undated last |
| Store.AppDatabase.QueryTasks | app/src/main/kotlin/com/example/localfirstassistant/data/db/dao/TaskDao.kt:22-28 | the loop over the tasks builds the filtered, sorted result |
| Store.AppDatabase.PruneResolved | app/src/main/kotlin/com/example/localfirstassistant/data/db/dao/TaskDao.kt:30-31 | the tables become those of the DELETE and its cascade |
| Store.AppDatabase.InsertLink | app/src/main/kotlin/com/example/localfirstassistant/data/db/dao/TaskMessageDao.kt:11-12 | a refused link is an error and changes nothing; otherwise the tables become those of INSERT OR IGNORE |
| Store.AppDatabase.DeleteForTask | app/src/main/kotlin/com/example/localfirstassistant/data/db/dao/TaskMessageDao.kt:14-15 | the links become those of the DELETE |
| Ingestion.IngestValid | app/src/main/kotlin/com/example/localfirstassistant/worker/mail/ImapSyncWorker.kt:97-120 | the write sequence keeps the constraints, whatever happens |
| Ingestion.IngestFresh | app/src/main/kotlin/com/example/localfirstassistant/worker/mail/ImapSyncWorker.kt:97-120 | a new message adds exactly one message row, one task row and the link between them, and the task comes with exactly that message |
| Ingestion.IngestDuplicate | app/src/main/kotlin/com/example/localfirstassistant/worker/mail/ImapSyncWorker.kt:97-120 | a stored key adds no message and no link, the task is upserted anyway, and the link to row -1 fails the foreign key |
| Ingestion.IngestNormalizeFailed | app/src/main/kotlin/com/example/localfirstassistant/worker/mail/ImapSyncWorker.kt:97-113 | when normalising throws, only the message insert has happened |
| Ingestion.Persist | app/src/main/kotlin/com/example/localfirstassistant/worker/mail/ImapSyncWorker.kt:97-120 | the store goes through message insert, task upsert and link insert, ending in the tables and outcome of the write sequence |
| MailSync.InlineParts | app/src/main/kotlin/com/example/localfirstassistant/worker/mail/ImapSyncWorker.kt:128-130 | exactly the top-level parts with no disposition or "inline" in any case |
| MailSync.PartsTextPrefix | app/src/main/kotlin/com/example/localfirstassistant/worker/mail/ImapSyncWorker.kt:146-148 | the text of the first parts does not depend on the parts after them |
| MailSync.InlineTextIsInlineParts | app/src/main/kotlin/com/example/localfirstassistant/worker/mail/ImapSyncWorker.kt:126-134 | the top-level text is the inline parts' text concatenated in order |
| MailSync.NestedIgnoresDisposition | app/src/main/kotlin/com/example/localfirstassistant/worker/mail/ImapSyncWorker.kt:144-150 | a nested multipart's text does not depend on its parts' dispositions |
| MailSync.ExtractPart | app/src/main/kotlin/com/example/localfirstassistant/worker/mail/ImapSyncWorker.kt:140-153 | the loop's text is the part's text: a string as is, a multipart's parts concatenated, anything else "" |
| MailSync.ExtractBody | app/src/main/kotlin/com/example/localfirstassistant/worker/mail/ImapSyncWorker.kt:123-138 | the loop's text is the message body: a string as is, the inline parts of a multipart, anything else "" |
| MailSync.WindowIsLatestTen | app/src/main/kotlin/com/example/localfirstassistant/worker/mail/ImapSyncWorker.kt:64 | the window `max(1, count - 9)..count` holds the latest ten messages, or all of them when fewer exist |
| MailSync.WindowStartInRange | app/src/main/kotlin/com/example/localfirstassistant/worker/mail/ImapSyncWorker.kt:64 | the window never starts past the newest message |
| MailSync.Sender | app/src/main/kotlin/com/example/localfirstassistant/worker/mail/ImapSyncWorker.kt:94 | a sender exactly when the message has a non-empty from list |
| MailSync.PersistNewMessage | app/src/main/kotlin/com/example/localfirstassistant/worker/mail/ImapSyncWorker.kt:90-121 | a new message is stored as "SOURCE-number" for its account; its task is titled by the subject or the body's first 80 characters, is dated from the same received instant, and is linked to exactly that row |
| MailSync.PersistSeenMessage | app/src/main/kotlin/com/example/localfirstassistant/worker/mail/ImapSyncWorker.kt:97-120 | a message already stored is not stored again; one task is added with no link, and the link throws |
| MailSync.MailItemOf | app/src/main/kotlin/com/example/localfirstassistant/worker/mail/ImapSyncWorker.kt:91-113 | the row and task of one message |
| MailSync.PersistMessage | app/src/main/kotlin/com/example/localfirstassistant/worker/mail/ImapSyncWorker.kt:90-121 | the store ends in the tables and outcome of `persistMessage` |
| MailSync.IngestEachStops | app/src/main/kotlin/com/example/localfirstassistant/worker/mail/ImapSyncWorker.kt:65-67 | the first message that throws ends the `forEach` with its error |
| MailSync.SyncStopsAtSeenMessage | app/src/main/kotlin/com/example/localfirstassistant/worker/mail/ImapSyncWorker.kt:64-67 | when the window's first message was stored before, the sync fails there and adds no messages |
| MailSync.WindowItems | app/src/main/kotlin/com/example/localfirstassistant/worker/mail/ImapSyncWorker.kt:64-66 | the rows and tasks of the window's messages, in order |
| MailSync.PrependItem | app/src/main/kotlin/com/example/localfirstassistant/worker/mail/ImapSyncWorker.kt:91-113 | message `lo`'s row and task come ahead of the writes for the messages after it |
| MailSync.IngestItems | app/src/main/kotlin/com/example/localfirstassistant/worker/mail/ImapSyncWorker.kt:65-67 | the loop writes the messages in order and stops at the first that throws |
| MailSync.SyncMailbox | app/src/main/kotlin/com/example/localfirstassistant/worker/mail/ImapSyncWorker.kt:53-88 | an unreachable mailbox fails with nothing written; otherwise the window's messages are persisted in order until one throws |
| MailSync.NoAccountsNoChange | app/src/main/kotlin/com/example/localfirstassistant/worker/mail/ImapSyncWorker.kt:34-51 | with neither account usable a run changes nothing and succeeds |
| MailSync.GmailFailureSkipsNaver | app/src/main/kotlin/com/example/localfirstassistant/worker/mail/ImapSyncWorker.kt:34-51 | a Gmail failure ends the run with a retry, whatever the Naver mailbox holds |
| MailSync.ExpiredTokensSkipGmail | app/src/main/kotlin/com/example/localfirstassistant/worker/mail/ImapSyncWorker.kt:36-42 | with expired tokens, or tokens without an email, the run does not depend on the Gmail mailbox |
| MailSync.DoWork | app/src/main/kotlin/com/example/localfirstassistant/worker/mail/ImapSyncWorker.kt:34-51 | Gmail when its tokens are valid, unexpired and carry an email, then Naver when its credentials read; anything thrown gives a retry |
| Notifications.GetString | app/src/main/kotlin/com/example/localfirstassistant/service/NotiCatcherService.kt:37 | a value exactly when the extra is a `String` |
| Notifications.GetCharSequence | app/src/main/kotlin/com/example/localfirstassistant/service/NotiCatcherService.kt:38-39 | a value exactly when the extra is a `CharSequence`, and for a `String` the same as `getString` |
| Notifications.Classify | app/src/main/kotlin/com/example/localfirstassistant/service/NotiCatcherService.kt:30-35 | SMS exactly when the package contains "sms" in any case; else KAKAO for "kakao"; else OTHER for "mail"; otherwise dropped |
| Notifications.Present | app/src/main/kotlin/com/example/localfirstassistant/service/NotiCatcherService.kt:39-40 | `listOfNotNull` keeps exactly the values present: nothing when none is present, a single value as itself, and only values that were given |
| Notifications.PresentConcat | app/src/main/kotlin/com/example/localfirstassistant/service/NotiCatcherService.kt:39-40 | the values present in two lists joined are those of the first, then those of the second, so the order is kept |
| Notifications.NotificationBody | app/src/main/kotlin/com/example/localfirstassistant/service/NotiCatcherService.kt:39-40 | title, "\n", text, then "\n" and the big text when there is one |
| Notifications.Captured | app/src/main/kotlin/com/example/localfirstassistant/service/NotiCatcherService.kt:28-40 | accepted exactly with a notification, a package name of a known kind, a `String` title and a text; what it carries is that source, that title and that body |
| Notifications.PostTimeStored | app/src/main/kotlin/com/example/localfirstassistant/service/NotiCatcherService.kt:48 | a post time in milliseconds is stored without loss |
| Notifications.DroppedWritesNothing | app/src/main/kotlin/com/example/localfirstassistant/service/NotiCatcherService.kt:28-38 | a dropped notification writes nothing |
| Notifications.PostedNew | app/src/main/kotlin/com/example/localfirstassistant/service/NotiCatcherService.kt:41-64 | a new key is stored under "SOURCE-key" with the title as subject, no sender and received at the post time; the task is created at that instant and linked to exactly that row |
| Notifications.RepostedKey | app/src/main/kotlin/com/example/localfirstassistant/service/NotiCatcherService.kt:42-64 | a key already stored adds no message and no link; the link to row -1 fails |
| Notifications.OnNotificationPosted | app/src/main/kotlin/com/example/localfirstassistant/service/NotiCatcherService.kt:26-66 | the early returns, then message insert, normalise, task upsert and link insert, ending in the tables and outcome of the specification |
| OcrActivity.ConfirmDraft | app/src/main/kotlin/com/example/localfirstassistant/ui/ocr/OcrActivity.kt:178-181 | only the title and description change, to the edited text |
| OcrActivity.DueInstant | app/src/main/kotlin/com/example/localfirstassistant/ui/ocr/OcrActivity.kt:115 | no due time stays none; a due time becomes its instant |
| OcrActivity.DraftTaskKeepsPrediction | app/src/main/kotlin/com/example/localfirstassistant/ui/ocr/OcrActivity.kt:110-118 | the task keeps the draft's score and bucket and the status the score gives; with a due time it cannot fail and keeps that time |
| OcrActivity.EditsKeepPrediction | app/src/main/kotlin/com/example/localfirstassistant/ui/ocr/OcrActivity.kt:110-118 | editing the draft changes neither its score nor its bucket; the task takes the edited title and description |
| OcrActivity.PersistDraftNew | app/src/main/kotlin/com/example/localfirstassistant/ui/ocr/OcrActivity.kt:98-125 | the row is "OCR" / "OCR-millis" with the draft's title as subject, no sender and the description as body; the task keeps the draft's score and bucket and is linked to exactly that row |
| OcrActivity.FreshDraftStored | app/src/main/kotlin/com/example/localfirstassistant/ui/ocr/OcrActivity.kt:100-125 | the same for any new task carrying the draft's score and bucket |
| OcrActivity.SameMillisecondDraft | app/src/main/kotlin/com/example/localfirstassistant/ui/ocr/OcrActivity.kt:100-125 | a second draft in the same millisecond gets the same key: no message, no link, and the link fails |
| OcrActivity.PersistDraft | app/src/main/kotlin/com/example/localfirstassistant/ui/ocr/OcrActivity.kt:98-125 | message insert, normalise with the draft's overrides, task upsert and link insert, ending in the specification's tables and outcome |
| TasksViewModel.FirstWithId | app/src/main/kotlin/com/example/localfirstassistant/ui/tasks/state/TasksViewModel.kt:35 | null exactly when no listed task has the id; otherwise a listed task with that id |
| TasksViewModel.Completed | app/src/main/kotlin/com/example/localfirstassistant/ui/tasks/state/TasksViewModel.kt:37 | status COMPLETED and updatedAt now; every other field as it was |
| TasksViewModel.CompleteEffect | app/src/main/kotlin/com/example/localfirstassistant/ui/tasks/state/TasksViewModel.kt:35-38 | a PENDING task is replaced by its completed copy and loses its links; every other row and link is kept; an unknown id or another status changes nothing |
| TasksViewModel.CompletedKeepsFields | app/src/main/kotlin/com/example/localfirstassistant/ui/tasks/state/TasksViewModel.kt:37 | the completed row keeps title, description, bucket, score, source and id |
| TasksViewModel.CompleteIdempotent | app/src/main/kotlin/com/example/localfirstassistant/ui/tasks/state/TasksViewModel.kt:35-39 | completing twice is completing once, whatever the second clock reads |
| TasksViewModel.CompletedLeavesPending | app/src/main/kotlin/com/example/localfirstassistant/ui/tasks/state/TasksViewModel.kt:35-37 | a completed task is no longer in the PENDING list |
| TasksViewModel.BucketViewsDisjoint | app/src/main/kotlin/com/example/localfirstassistant/ui/tasks/state/TasksViewModel.kt:20-27 | a task is in at most one of the today, week and month lists |
| TasksViewModel.TasksViewModel.constructor | app/src/main/kotlin/com/example/localfirstassistant/ui/tasks/state/TasksViewModel.kt:18 | the view model reads the database it is given |
| TasksViewModel.TasksViewModel.TodayTasks | app/src/main/kotlin/com/example/localfirstassistant/ui/tasks/state/TasksViewModel.kt:20-21 | exactly the TODAY tasks, by due time |
| TasksViewModel.TasksViewModel.WeekTasks | app/src/main/kotlin/com/example/localfirstassistant/ui/tasks/state/TasksViewModel.kt:23-24 | exactly the WEEK tasks, by due time |
| TasksViewModel.TasksViewModel.MonthTasks | app/src/main/kotlin/com/example/localfirstassistant/ui/tasks/state/TasksViewModel.kt:26-27 | exactly the MONTH tasks, by due time |
| TasksViewModel.TasksViewModel.PendingReview | app/src/main/kotlin/com/example/localfirstassistant/ui/tasks/state/TasksViewModel.kt:29-30 | exactly the REVIEW tasks, by due time |
| TasksViewModel.TasksViewModel.MarkTaskCompleted | app/src/main/kotlin/com/example/localfirstassistant/ui/tasks/state/TasksViewModel.kt:32-40 | looks the id up among the PENDING tasks and upserts its completed copy, ending in the tables the specification gives |
| Credentials.ReadGmail | app/src/main/kotlin/com/example/localfirstassistant/data/auth/TokenStore.kt:36-46 | null exactly when the access or refresh token is missing or blank or the expiry is not positive; tokens read are non-blank with a positive expiry |
| Credentials.ReadNaver | app/src/main/kotlin/com/example/localfirstassistant/data/auth/TokenStore.kt:55-61 | null exactly when the username or password is missing or blank |
| Credentials.SavesWellTyped | app/src/main/kotlin/com/example/localfirstassistant/data/auth/TokenStore.kt:27-53 | each key keeps holding the kind of value the store writes under it |
| Credentials.SaveThenReadGmail | app/src/main/kotlin/com/example/localfirstassistant/data/auth/TokenStore.kt:27-46 | valid tokens read back as saved, with a null email keeping the stored one; anything else reads back as null |
| Credentials.SavesIndependent | app/src/main/kotlin/com/example/localfirstassistant/data/auth/TokenStore.kt:27-61 | saving one account's secrets does not change what the other read gives |
| Credentials.SaveThenReadNaver | app/src/main/kotlin/com/example/localfirstassistant/data/auth/TokenStore.kt:48-61 | non-blank credentials read back as saved; a blank one reads back as null |
| Credentials.ClearedReadsNothing | app/src/main/kotlin/com/example/localfirstassistant/data/auth/TokenStore.kt:63-65 | after clearing, both reads are null |
| Credentials.TokenStore.constructor | app/src/main/kotlin/com/example/localfirstassistant/data/auth/TokenStore.kt:17-25 | a new store holds nothing |
| Credentials.TokenStore.SaveGmailTokens | app/src/main/kotlin/com/example/localfirstassistant/data/auth/TokenStore.kt:27-34 | the preferences become those of the four puts, the email only when given |
| Credentials.TokenStore.SaveNaverCredentials | app/src/main/kotlin/com/example/localfirstassistant/data/auth/TokenStore.kt:48-53 | the preferences become those of the two puts |
| Credentials.TokenStore.ClearAll | app/src/main/kotlin/com/example/localfirstassistant/data/auth/TokenStore.kt:63-65 | the preferences are empty and both reads are null |
| Text.Take | app/src/main/kotlin/com/example/localfirstassistant/data/parse/TaskNormalizer.kt:30-31 | `take(n)` is the first `n` characters, or all of a shorter string |
| Text.Lower | app/src/main/kotlin/com/example/localfirstassistant/domain/parse/TimeResolver.kt:35 | the same length, each character lower-cased |
| Text.LowerIdempotent | app/src/main/kotlin/com/example/localfirstassistant/domain/parse/TaskRules.kt:50 | lower-casing twice is lower-casing once |
| Text.SkipWhitespace | app/src/main/kotlin/com/example/localfirstassistant/data/parse/OcrParser.kt:17-18 | trimming starts at the first character that is not whitespace, with only whitespace before it |
| Text.BackWhitespace | app/src/main/kotlin/com/example/localfirstassistant/data/parse/OcrParser.kt:17-18 | trimming ends after the last character that is not whitespace, never before where it starts, with only whitespace after it |
| Text.Trim | app/src/main/kotlin/com/example/localfirstassistant/data/parse/OcrParser.kt:17-18 | exactly the leading and trailing whitespace is cut: the result sits between a whitespace-only prefix and a whitespace-only suffix, and neither starts nor ends with whitespace |
| Text.TrimKeepsNonBlank | app/src/main/kotlin/com/example/localfirstassistant/data/parse/OcrParser.kt:17 | a non-blank string trims to a non-blank one |
| Text.SplitLines | app/src/main/kotlin/com/example/localfirstassistant/data/parse/OcrParser.kt:16 | `lines()` gives at least one line |
| Text.SplitLinesJoin | app/src/main/kotlin/com/example/localfirstassistant/data/parse/OcrParser.kt:16 | the lines joined with line feeds give back the text, with every CRLF and lone CR written as a line feed |
| Text.SplitLinesNoBreaks | app/src/main/kotlin/com/example/localfirstassistant/data/parse/OcrParser.kt:16 | no line holds a line break |
| Text.SplitLinesNonBlank | app/src/main/kotlin/com/example/localfirstassistant/data/parse/OcrParser.kt:16 | a non-blank text has a non-blank line |
| Text.SplitLinesBlank | app/src/main/kotlin/com/example/localfirstassistant/data/parse/OcrParser.kt:16-17 | a blank text has only blank lines |
| Text.NatToString | app/src/main/kotlin/com/example/localfirstassistant/worker/mail/ImapSyncWorker.kt:91 | a non-empty string of decimal digits |
| Text.NatToStringRoundTrip | app/src/main/kotlin/com/example/localfirstassistant/worker/mail/ImapSyncWorker.kt:91 | reading back a number's decimal string gives the number |
| Patterns.Digits12 | app/src/main/kotlin/com/example/localfirstassistant/domain/parse/TimeResolver.kt:77 | greedy `\d{1,2}` takes the one or two digits at the index, or fails there |
| Patterns.SkipSpaces | app/src/main/kotlin/com/example/localfirstassistant/domain/parse/TimeResolver.kt:83 | greedy `\s*` stops at the first non-space |
| Calendar.NextDay | app/src/main/kotlin/com/example/localfirstassistant/domain/parse/TimeResolver.kt:38 | the next calendar day is one epoch day later |
| Calendar.PlusDays | app/src/main/kotlin/com/example/localfirstassistant/domain/parse/TimeResolver.kt:38-41 | `plusDays(n)` is `n` epoch days later |
| Calendar.DayOfWeekOf | app/src/main/kotlin/com/example/localfirstassistant/domain/parse/TimeResolver.kt:55 | the weekday follows the epoch day, 1970-01-01 a Thursday |
| Calendar.NextOrSameIsFirst | app/src/main/kotlin/com/example/localfirstassistant/domain/parse/TimeResolver.kt:55 | `nextOrSame(dow)` lands on `dow`, 0 to 6 days later, and no earlier day on or after the date is a `dow` |
| Calendar.DaysInMonth | app/src/main/kotlin/com/example/localfirstassistant/domain/parse/TimeResolver.kt:43 | every month has 28 to 31 days |
| Calendar.NextOrSameOnDay | app/src/main/kotlin/com/example/localfirstassistant/domain/parse/TimeResolver.kt:55 | `nextOrSame(dow)` falls on `dow` |
| Calendar.FirstOfNextMonth | app/src/main/kotlin/com/example/localfirstassistant/domain/parse/TimeResolver.kt:43 | day 1 of the following month, December rolling into January of the next year |
| Calendar.FirstOfNextMonthIsLater | app/src/main/kotlin/com/example/localfirstassistant/domain/parse/TimeResolver.kt:43 | that day is 1 to 31 days later |
| Calendar.TimeOf | app/src/main/kotlin/com/example/localfirstassistant/domain/parse/TimeResolver.kt:78-104 | `LocalTime.of` succeeds exactly for hour 0..23 and minute 0..59 |
| Calendar.ToInstantLaterDay | app/src/main/kotlin/com/example/localfirstassistant/domain/parse/TimeResolver.kt:15-49 | a Seoul date-time on a later day is a later instant |
| Calendar.DurationDaysPositive | app/src/main/kotlin/com/example/localfirstassistant/data/parse/TaskNormalizer.kt:49 | whole elapsed days are positive exactly when a full day has passed |
| Calendar.DurationDaysMonotone | app/src/main/kotlin/com/example/localfirstassistant/data/parse/TaskNormalizer.kt:49 | whole elapsed days never decrease as the later instant moves later |

## Left out

- IMAP sessions, folders and message fetching (javax.mail) are foreign I/O. A mailbox is given as its messages, or as unreachable.
- `MimeUtility.decodeText` is a foreign library call. The subject is taken as already decoded.
- ML Kit text recognition, the image picker, Toasts, `finish()` and the draft screen's Compose state are UI and a foreign library. The model starts at the recognised text, and at the confirmed draft.
- The encryption inside `EncryptedSharedPreferences` is a foreign library. The preferences are a plain map.
- Coroutines, dispatchers, the `@Volatile`/`synchronized` database singleton and live `Flow` subscriptions are concurrency. Each query is one read of the current tables, and `stateIn` is that one read.
- Uncaught exceptions in coroutines. `NotiCatcherService` builds its scope on a plain `Job()` with no handler, so one failed `launch` cancels `serviceJob`: every later notification's `launch` does nothing, and the exception reaches the thread's default handler, which ends the app. `OcrActivity`'s confirming `lifecycleScope.launch` has no `try` either. The model returns such an exception as an error value, with the writes made before it; it does not model the cancelled scope or the crash.
- The case-insensitive regex engine and locale-dependent `lowercase` fold ASCII letters only. `\b` treats only ASCII letters and digits, `_` and Hangul as word characters.
- Take: strings are sequences of Unicode scalar values, while Kotlin's `take(n)` counts UTF-16 code units. Text with characters outside the Basic Multilingual Plane (emoji) is therefore cut differently by every length limit built on it: the title's 80, the description's 4000, the mail title's 80, the OCR title's 60 and the OCR description's 400. Kotlin may also keep half of a surrogate pair.
- Digits12: `\d` is the ASCII digits only. Android's ICU engine takes `\d` as any decimal digit (`\p{Nd}`), and `toInt()` accepts those too, so a time written in, say, full-width digits matches in the app but not in the model.
- Floating-point scores are integer tenths. Every sum the scorer produces compares with 0.5 and 0.75 as its tenths do.
- `Long` overflow of epoch milliseconds and message numbers: integers are unbounded.
- The zone database: Asia/Seoul is the fixed offset +09:00, which it has had since 1988.
- Every clock read within one operation is the same reading. The source reads the clock several times, so fields such as `createdAt` and `updatedAt` could differ by the time between reads.
- In mail sync, the rows and tasks for the whole window are computed before the first write. They depend only on the messages and the clock reading, so the writes and their order are those of the source.
- Tasks with the same due time: SQL leaves their order open, and so do the queries here. The model does not pick an order.
- `observeRecent` with `limit` 0 or below: SQLite's rules for that are modelled as "no limit" for a negative value and an empty result for 0.
- `TokenStore.getInstance` and the preferences name are platform wiring.
- Refreshing expired Gmail tokens: the source has only a TODO there and skips Gmail, and so does the model.
- Constructor defaults of the entities: message rows rely on the defaults `sourcePayload = null` and `ingestedAt = Instant.now()`, modelled as None and the clock; the default task status PENDING is the constant `Entities.DefaultStatus`.
- `TaskDraft` is the datatype `OcrParser.TaskDraft`. Its score is in tenths.
