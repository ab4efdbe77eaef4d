/**
 * `NotiCatcherService.onNotificationPosted`: a posted notification from an
 * SMS, KakaoTalk or mail app becomes a message row and a task, written in the
 * same three steps as mail sync. Everything else is dropped before anything
 * is written.
 */
module Notifications {
  import opened Wrappers
  import opened Text
  import opened Calendar
  import opened Entities
  import opened Converters
  import opened Tables
  import opened Store
  import opened TaskNormalizer
  import opened Ingestion

  /** A value in the notification's extras bundle: a `String`, another `CharSequence` (its `toString`), or anything else. */
  datatype Extra = StringExtra(text: string) | CharSequenceExtra(chars: string) | OtherExtra

  type Extras = map<string, Extra>

  const ExtraTitle: string := "android.title"
  const ExtraText: string := "android.text"
  const ExtraBigText: string := "android.bigText"

  /** The parts of a `StatusBarNotification` the listener reads; `postTime` is in epoch milliseconds. */
  datatype Notification = Notification(packageName: Option<string>, key: string, postTime: int, extras: Extras)

  /** `Bundle.getString`: only a `String` value is returned. */
  function GetString(extras: Extras, key: string): (r: Option<string>)
    ensures r.Some? <==> key in extras && extras[key].StringExtra?
    ensures r.Some? ==> r.value == extras[key].text
  {
    if key in extras && extras[key].StringExtra? then Some(extras[key].text) else None
  }

  /** `Bundle.getCharSequence(...)?.toString()`: a `String` or any other `CharSequence`, as text. */
  function GetCharSequence(extras: Extras, key: string): (r: Option<string>)
    ensures r.Some? <==> key in extras && !extras[key].OtherExtra?
    ensures r.Some? && extras[key].StringExtra? ==> r == GetString(extras, key)
  {
    if key in extras then
      match extras[key]
      case StringExtra(s) => Some(s)
      case CharSequenceExtra(s) => Some(s)
      case OtherExtra => None
    else None
  }

  /** The source a package name stands for, tried in order "sms", "kakao", "mail", ignoring case; `None` drops it. */
  function Classify(packageName: string): (r: Option<TaskSource>)
    ensures r == Some(SMS) <==> ContainsIgnoreCase(packageName, "sms")
    ensures r == Some(KAKAO) <==> !ContainsIgnoreCase(packageName, "sms") && ContainsIgnoreCase(packageName, "kakao")
    ensures r == Some(OTHER) <==>
      !ContainsIgnoreCase(packageName, "sms") && !ContainsIgnoreCase(packageName, "kakao") && ContainsIgnoreCase(packageName, "mail")
    ensures r.None? <==>
      !ContainsIgnoreCase(packageName, "sms") && !ContainsIgnoreCase(packageName, "kakao") && !ContainsIgnoreCase(packageName, "mail")
  {
    if ContainsIgnoreCase(packageName, "sms") then Some(SMS)
    else if ContainsIgnoreCase(packageName, "kakao") then Some(KAKAO)
    else if ContainsIgnoreCase(packageName, "mail") then Some(OTHER)
    else None
  }

  /**
   * `listOfNotNull`: the present values, in order. A single null gives
   * nothing, a single value gives itself, and `PresentConcat` extends this to
   * any list piece by piece.
   */
  function Present(xs: seq<Option<string>>): (r: seq<string>)
    ensures |r| <= |xs|
    ensures forall k | 0 <= k < |r| :: Some(r[k]) in xs
    ensures |xs| == 1 && xs[0].None? ==> r == []
    ensures |xs| == 1 && xs[0].Some? ==> r == [xs[0].value]
    ensures (forall k | 0 <= k < |xs| :: xs[k].None?) <==> r == []
  {
    if xs == [] then []
    else if xs[0].Some? then [xs[0].value] + Present(xs[1..])
    else Present(xs[1..])
  }

  /** The values present in two lists joined are those of the first, then those of the second. */
  lemma {:induction false} PresentConcat(xs: seq<Option<string>>, ys: seq<Option<string>>)
    ensures Present(xs + ys) == Present(xs) + Present(ys)
  {
    if xs == [] {
      assert xs + ys == ys;
    } else {
      assert (xs + ys)[1..] == xs[1..] + ys;
      PresentConcat(xs[1..], ys);
    }
  }

  /** `listOfNotNull(title, text, bigText).joinToString("\n")`: the title line, the text, then the big text when there is one. */
  function NotificationBody(title: string, text: string, bigText: Option<string>): (r: string)
    ensures bigText.None? ==> r == title + "\n" + text
    ensures bigText.Some? ==> r == title + "\n" + text + "\n" + bigText.value
  {
    var parts := Present([Some(title), Some(text), bigText]);
    assert [Some(title), Some(text), bigText][1..] == [Some(text), bigText];
    assert [Some(text), bigText][1..] == [bigText];
    assert [bigText][1..] == [];
    assert Present([bigText]) == if bigText.Some? then [bigText.value] else [];
    assert Present([Some(text), bigText]) == [text] + Present([bigText]);
    assert parts == [title] + Present([Some(text), bigText]);
    assert parts[1..] == Present([Some(text), bigText]);
    assert bigText.None? ==> parts == [title, text] && parts[1..] == [text];
    assert bigText.Some? ==> parts[1..] == [text, bigText.value] && parts[1..][1..] == [bigText.value];
    assert Join(parts, "\n") == title + "\n" + Join(parts[1..], "\n");
    assert bigText.Some? ==> Join(parts[1..], "\n") == text + "\n" + bigText.value;
    Join(parts, "\n")
  }

  /** What an accepted notification carries into the write. */
  datatype Capture = Capture(source: TaskSource, title: string, body: string)

  /**
   * The early returns of `onNotificationPosted`: no notification, no package
   * name, a package of no known kind, no `String` title, or no text.
   */
  function Captured(sbn: Option<Notification>): (r: Option<Capture>)
    ensures r.Some? <==>
      sbn.Some? && sbn.value.packageName.Some? && Classify(sbn.value.packageName.value).Some?
      && GetString(sbn.value.extras, ExtraTitle).Some? && GetCharSequence(sbn.value.extras, ExtraText).Some?
    ensures r.Some? ==>
      var n := sbn.value;
      var title := GetString(n.extras, ExtraTitle).value;
      && r.value.source == Classify(n.packageName.value).value
      && r.value.title == title
      && r.value.body == NotificationBody(title, GetCharSequence(n.extras, ExtraText).value, GetCharSequence(n.extras, ExtraBigText))
  {
    if sbn.None? || sbn.value.packageName.None? then None
    else
      var n := sbn.value;
      var source := Classify(n.packageName.value);
      var title := GetString(n.extras, ExtraTitle);
      var text := GetCharSequence(n.extras, ExtraText);
      if source.None? || title.None? || text.None? then None
      else Some(Capture(source.value, title.value, NotificationBody(title.value, text.value, GetCharSequence(n.extras, ExtraBigText))))
  }

  /** The `messages` row of an accepted notification, keyed by the notification's key. */
  function NotificationRow(n: Notification, c: Capture, clock: ZonedDateTime): MessageEntity {
    MessageEntity(
      id := UnassignedId,
      accountType := SourceName(c.source),
      messageId := SourceName(c.source) + "-" + n.key,
      subject := Some(c.title),
      sender := None,
      receivedAt := OfEpochMilli(n.postTime),
      body := c.body,
      sourcePayload := None,
      ingestedAt := ToInstant(clock))
  }

  /** The task `normalize` makes of it, dated from the post time. */
  function NotificationTask(n: Notification, c: Capture, clock: ZonedDateTime): Result<TaskEntity, DateTimeError> {
    Normalize(c.title, c.body, c.source, OfEpochMilli(n.postTime), clock, None, None, None)
  }

  /** What became of a posted notification: dropped, or ingested with this outcome. */
  datatype Posted = Dropped | Ingested(outcome: Result<int, IngestError>)

  /** `onNotificationPosted` on the tables. */
  function PostSpec(db: Db, sbn: Option<Notification>, clock: ZonedDateTime): (Db, Posted) {
    match Captured(sbn)
    case None => (db, Dropped)
    case Some(c) =>
      var (after, outcome) := Ingest(db, NotificationRow(sbn.value, c, clock), NotificationTask(sbn.value, c, clock));
      (after, Ingested(outcome))
  }

  /** A post time in milliseconds is stored without loss. */
  lemma PostTimeStored(ms: int)
    ensures Stored(OfEpochMilli(ms)) == OfEpochMilli(ms)
  {
    InstantRoundTrip(OfEpochMilli(ms));
  }

  /** A dropped notification writes nothing. */
  lemma DroppedWritesNothing(db: Db, sbn: Option<Notification>, clock: ZonedDateTime)
    requires Captured(sbn).None?
    ensures PostSpec(db, sbn, clock) == (db, Dropped)
  {
  }

  /**
   * An accepted notification whose key is new (and whose text parses) is
   * stored under "SOURCE-key" and received at its post time, and its new task
   * is created at that same instant and linked to exactly that row.
   */
  lemma PostedNew(db: Db, n: Notification, clock: ZonedDateTime)
    requires Valid(db) && Captured(Some(n)).Some?
    requires var c := Captured(Some(n)).value;
      !HasKey(db, NotificationRow(n, c, clock)) && NotificationTask(n, c, clock).Success?
    ensures var c := Captured(Some(n)).value;
      var (after, posted) := PostSpec(db, Some(n), clock);
      var rowId := db.messageSeq + 1;
      posted.Ingested? && posted.outcome.Success?
      && rowId in after.messages && posted.outcome.value in after.tasks
      && after.messages[rowId].messageId == SourceName(c.source) + "-" + n.key
      && after.messages[rowId].subject == Some(c.title) && after.messages[rowId].sender.None?
      && after.messages[rowId].receivedAt == OfEpochMilli(n.postTime)
      && after.tasks[posted.outcome.value].createdAt == OfEpochMilli(n.postTime)
      && after.tasks[posted.outcome.value].source == c.source
      && WithMessages(after, after.tasks[posted.outcome.value]).messages == {after.messages[rowId]}
  {
    var c := Captured(Some(n)).value;
    IngestFresh(db, NotificationRow(n, c, clock), NotificationTask(n, c, clock).value);
    PostTimeStored(n.postTime);
  }

  /**
   * A notification posted again under a key already stored (Android reposts
   * an updated notification under the same key) adds no message and no link:
   * the insert is ignored and the link to row -1 fails, leaving the new task
   * without messages.
   */
  lemma RepostedKey(db: Db, n: Notification, clock: ZonedDateTime)
    requires Valid(db) && IgnoredRowId !in db.messages && Captured(Some(n)).Some?
    requires var c := Captured(Some(n)).value;
      HasKey(db, NotificationRow(n, c, clock)) && NotificationTask(n, c, clock).Success?
    ensures var (after, posted) := PostSpec(db, Some(n), clock);
      posted == Ingested(Failure(LinkFailed(ForeignKeyConstraintFailed)))
      && after.messages == db.messages && after.links == db.links
  {
    var c := Captured(Some(n)).value;
    IngestDuplicate(db, NotificationRow(n, c, clock), NotificationTask(n, c, clock).value);
  }

  /** `onNotificationPosted`: the early returns, then message insert, normalise, task upsert, link insert. */
  method OnNotificationPosted(db: AppDatabase, sbn: Option<Notification>, clock: ZonedDateTime) returns (posted: Posted)
    requires db.Valid()
    modifies db
    ensures db.Valid()
    ensures (db.State(), posted) == PostSpec(old(db.State()), sbn, clock)
  {
    if sbn.None? {
      return Dropped;
    }
    var n := sbn.value;
    if n.packageName.None? {
      return Dropped;
    }
    var source := Classify(n.packageName.value);
    if source.None? {
      return Dropped;
    }
    var title := GetString(n.extras, ExtraTitle);
    if title.None? {
      return Dropped;
    }
    var text := GetCharSequence(n.extras, ExtraText);
    if text.None? {
      return Dropped;
    }
    var c := Capture(source.value, title.value, NotificationBody(title.value, text.value, GetCharSequence(n.extras, ExtraBigText)));
    var row := NotificationRow(n, c, clock);
    var task := Normalize(c.title, c.body, c.source, OfEpochMilli(n.postTime), clock, None, None, None);
    var outcome := Persist(db, row, task);
    posted := Ingested(outcome);
  }
}
