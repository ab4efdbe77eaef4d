/**
 * `ImapSyncWorker`: which inboxes a run syncs, the window of messages it
 * takes from each, how a message's text is pulled out of its MIME tree, and
 * the rows each message becomes. The IMAP session is not modelled: a mailbox
 * is given as the messages it holds (message number `n` is element `n - 1`),
 * or as unreachable when connecting or opening it throws. One clock reading
 * stands for every `Instant.now()` of a run.
 */
module MailSync {
  import opened Wrappers
  import opened Text
  import opened Calendar
  import opened Entities
  import opened Converters
  import opened Tables
  import opened Store
  import opened TaskNormalizer
  import opened Ingestion
  import opened Credentials

  /** `Part.getContent()`: a `String`, a `Multipart`, or anything else (a stream, an attached message). */
  datatype Content = PlainText(text: string) | Multipart(parts: seq<BodyPart>) | OtherContent

  datatype BodyPart = BodyPart(disposition: Option<string>, content: Content)

  /** What `persistMessage` reads of a `Message`; `subject` is already MIME-decoded and `from` holds the addresses' `toString()`. */
  datatype MailMessage = MailMessage(subject: Option<string>, from: Option<seq<string>>, receivedDate: Option<Instant>, content: Content)

  datatype Mailbox = Unreachable | Inbox(messages: seq<MailMessage>)

  // ------------------------------------------------------------- MIME text

  /** `extractPart` on a part whose content is `c`: every nested part counts, whatever its disposition. */
  function ContentText(c: Content): string
    decreases c, if c.Multipart? then |c.parts| + 2 else 0
  {
    match c
    case PlainText(s) => s
    case Multipart(ps) => PartsText(ps, |ps|)
    case OtherContent => ""
  }

  /** The texts of the first `n` parts, concatenated in order. */
  function PartsText(ps: seq<BodyPart>, n: nat): string
    requires n <= |ps|
    decreases Multipart(ps), n + 1
  {
    if n == 0 then ""
    else
      assert ps[n - 1] in ps;
      PartsText(ps, n - 1) + ContentText(ps[n - 1].content)
  }

  /** The top-level test of `extractBody`: no disposition, or "inline" in any letter case. */
  predicate IsInline(p: BodyPart) {
    p.disposition.None? || EqualsIgnoreCase(p.disposition.value, "inline")
  }

  /** The texts of the inline parts among the first `n` top-level parts; the others are skipped. */
  function InlineText(ps: seq<BodyPart>, n: nat): string
    requires n <= |ps|
  {
    if n == 0 then ""
    else InlineText(ps, n - 1) + (if IsInline(ps[n - 1]) then ContentText(ps[n - 1].content) else "")
  }

  /** `extractBody`. */
  function MessageBody(c: Content): string {
    match c
    case PlainText(s) => s
    case Multipart(ps) => InlineText(ps, |ps|)
    case OtherContent => ""
  }

  /** The inline parts among the first `n`, in order. */
  function InlineParts(ps: seq<BodyPart>, n: nat): (r: seq<BodyPart>)
    requires n <= |ps|
    ensures forall p | p in r :: p in ps[..n] && IsInline(p)
    ensures forall p | p in ps[..n] && IsInline(p) :: p in r
  {
    if n == 0 then []
    else
      assert ps[..n] == ps[..n - 1] + [ps[n - 1]];
      InlineParts(ps, n - 1) + (if IsInline(ps[n - 1]) then [ps[n - 1]] else [])
  }

  /** Parts added after the first `n` do not change the text of those `n`. */
  lemma {:induction false} PartsTextPrefix(ps: seq<BodyPart>, more: seq<BodyPart>, n: nat)
    requires n <= |ps|
    ensures PartsText(ps + more, n) == PartsText(ps, n)
    decreases n
  {
    if n > 0 {
      PartsTextPrefix(ps, more, n - 1);
      assert (ps + more)[n - 1] == ps[n - 1];
    }
  }

  /** A top-level multipart reads as exactly its inline parts, in order, each read in full. */
  lemma {:induction false} InlineTextIsInlineParts(ps: seq<BodyPart>, n: nat)
    requires n <= |ps|
    ensures var inline := InlineParts(ps, n); InlineText(ps, n) == PartsText(inline, |inline|)
    decreases n
  {
    if n > 0 {
      InlineTextIsInlineParts(ps, n - 1);
      var init := InlineParts(ps, n - 1);
      if IsInline(ps[n - 1]) {
        var inline := init + [ps[n - 1]];
        assert InlineParts(ps, n) == inline;
        PartsTextPrefix(init, [ps[n - 1]], |init|);
        assert inline[|init|] == ps[n - 1];
        assert PartsText(inline, |inline|) == PartsText(inline, |init|) + ContentText(ps[n - 1].content);
      } else {
        assert InlineParts(ps, n) == init;
      }
    }
  }

  /** A nested multipart reads the same whatever the dispositions of its parts. */
  lemma {:induction false} NestedIgnoresDisposition(ps: seq<BodyPart>, qs: seq<BodyPart>, n: nat)
    requires n <= |ps| == |qs|
    requires forall i | 0 <= i < |ps| :: ps[i].content == qs[i].content
    ensures PartsText(ps, n) == PartsText(qs, n)
    decreases n
  {
    if n > 0 {
      NestedIgnoresDisposition(ps, qs, n - 1);
    }
  }

  /** `extractPart`, looping over the parts of a multipart and recursing into each. */
  method ExtractPart(part: BodyPart) returns (s: string)
    ensures s == ContentText(part.content)
    decreases part
  {
    match part.content
    case PlainText(t) =>
      s := t;
    case Multipart(ps) =>
      var builder := "";
      var i := 0;
      while i < |ps|
        invariant 0 <= i <= |ps|
        invariant builder == PartsText(ps, i)
      {
        assert ps[i] in ps;
        var piece := ExtractPart(ps[i]);
        builder := builder + piece;
        i := i + 1;
      }
      s := builder;
    case OtherContent =>
      s := "";
  }

  /** `extractBody`, looping over the top-level parts and keeping the inline ones. */
  method ExtractBody(message: MailMessage) returns (s: string)
    ensures s == MessageBody(message.content)
  {
    match message.content
    case PlainText(t) =>
      s := t;
    case Multipart(ps) =>
      var builder := "";
      var i := 0;
      while i < |ps|
        invariant 0 <= i <= |ps|
        invariant builder == InlineText(ps, i)
      {
        if IsInline(ps[i]) {
          var piece := ExtractPart(ps[i]);
          builder := builder + piece;
        }
        i := i + 1;
      }
      s := builder;
    case OtherContent =>
      s := "";
  }

  // ---------------------------------------------------------------- window

  /** The first message number fetched: `max(1, messageCount - 9)`. */
  function WindowStart(count: int): int {
    Max(1, count - 9)
  }

  /** The fetched numbers `WindowStart(count)..count` are the latest ten at most, and all of them when fewer exist. */
  lemma WindowIsLatestTen(count: nat)
    ensures 1 <= WindowStart(count)
    ensures count + 1 - WindowStart(count) == if count < 10 then count else 10
    ensures count - 10 < WindowStart(count)
  {
  }

  // --------------------------------------------------------------- persist

  /** `message.from?.firstOrNull()?.toString()`. */
  function Sender(from: Option<seq<string>>): (r: Option<string>)
    ensures r.Some? <==> from.Some? && |from.value| > 0
  {
    if from.Some? && |from.value| > 0 then Some(from.value[0]) else None
  }

  /** `receivedDate`, or the clock when the message has none. */
  function ReceivedAt(message: MailMessage, clock: ZonedDateTime): Instant {
    message.receivedDate.GetOr(ToInstant(clock))
  }

  /** The `messages` row for message number `number`; the id is left to the table. */
  function MailRow(number: int, message: MailMessage, source: TaskSource, clock: ZonedDateTime): MessageEntity {
    MessageEntity(
      id := UnassignedId,
      accountType := SourceName(source),
      messageId := SourceName(source) + "-" + IntToString(number),
      subject := message.subject,
      sender := Sender(message.from),
      receivedAt := ReceivedAt(message, clock),
      body := MessageBody(message.content),
      sourcePayload := None,
      ingestedAt := ToInstant(clock))
  }

  /** The task `normalize` makes of the message: titled by its subject, or by the body's first 80 characters. */
  function MailTask(message: MailMessage, source: TaskSource, clock: ZonedDateTime): Result<TaskEntity, DateTimeError> {
    var body := MessageBody(message.content);
    Normalize(message.subject.GetOr(Take(body, 80)), body, source, ReceivedAt(message, clock), clock, None, None, None)
  }

  /** `persistMessage` on the tables. */
  function PersistSpec(db: Db, number: int, message: MailMessage, source: TaskSource, clock: ZonedDateTime): (Db, Result<int, IngestError>) {
    Ingest(db, MailRow(number, message, source, clock), MailTask(message, source, clock))
  }

  /**
   * A message not stored before (and whose text parses) is stored under
   * "SOURCE-number" for its account, and its new task is titled by its
   * subject or the body's first 80 characters, is dated from the same
   * received instant as the message row, and is linked to exactly that row.
   */
  lemma PersistNewMessage(db: Db, number: int, message: MailMessage, source: TaskSource, clock: ZonedDateTime)
    requires Valid(db) && !HasKey(db, MailRow(number, message, source, clock))
    requires MailTask(message, source, clock).Success?
    ensures var (after, outcome) := PersistSpec(db, number, message, source, clock);
      var rowId := db.messageSeq + 1;
      var body := MessageBody(message.content);
      outcome.Success? && rowId in after.messages && outcome.value in after.tasks
      && after.messages[rowId].accountType == SourceName(source)
      && after.messages[rowId].messageId == SourceName(source) + "-" + IntToString(number)
      && after.messages[rowId].body == body
      && after.tasks[outcome.value].title == Take(message.subject.GetOr(Take(body, 80)), 80)
      && after.tasks[outcome.value].createdAt == after.messages[rowId].receivedAt == Stored(ReceivedAt(message, clock))
      && WithMessages(after, after.tasks[outcome.value]).messages == {after.messages[rowId]}
  {
    IngestFresh(db, MailRow(number, message, source, clock), MailTask(message, source, clock).value);
  }

  /**
   * A message already stored under its key is not stored again; the second
   * `persistMessage` leaves an unlinked task behind and throws on the link.
   */
  lemma PersistSeenMessage(db: Db, number: int, message: MailMessage, source: TaskSource, clock: ZonedDateTime)
    requires Valid(db) && HasKey(db, MailRow(number, message, source, clock)) && IgnoredRowId !in db.messages
    requires MailTask(message, source, clock).Success?
    ensures var (after, outcome) := PersistSpec(db, number, message, source, clock);
      outcome == Failure(LinkFailed(ForeignKeyConstraintFailed))
      && after.messages == db.messages && after.links == db.links
      && |after.tasks.Keys| == |db.tasks.Keys| + 1
  {
    var t := MailTask(message, source, clock).value;
    IngestDuplicate(db, MailRow(number, message, source, clock), t);
    var after := PersistSpec(db, number, message, source, clock).0;
    assert after.tasks.Keys == db.tasks.Keys + {db.taskSeq + 1};
  }

  /** The pure part of `persistMessage`: the row it inserts and the task `normalize` gives. */
  method MailItemOf(number: int, message: MailMessage, source: TaskSource, clock: ZonedDateTime)
    returns (row: MessageEntity, task: Result<TaskEntity, DateTimeError>)
    ensures row == MailRow(number, message, source, clock) && task == MailTask(message, source, clock)
  {
    var body := ExtractBody(message);
    row := MessageEntity(
      id := UnassignedId,
      accountType := SourceName(source),
      messageId := SourceName(source) + "-" + IntToString(number),
      subject := message.subject,
      sender := Sender(message.from),
      receivedAt := ReceivedAt(message, clock),
      body := body,
      sourcePayload := None,
      ingestedAt := ToInstant(clock));
    task := Normalize(message.subject.GetOr(Take(body, 80)), body, source, ReceivedAt(message, clock), clock, None, None, None);
  }

  /** `persistMessage`: insert the row, normalise, upsert the task, link the two. */
  method PersistMessage(db: AppDatabase, number: int, message: MailMessage, source: TaskSource, clock: ZonedDateTime)
    returns (outcome: Result<int, IngestError>)
    requires db.Valid()
    modifies db
    ensures db.Valid()
    ensures (db.State(), outcome) == PersistSpec(old(db.State()), number, message, source, clock)
  {
    var row, task := MailItemOf(number, message, source, clock);
    outcome := Persist(db, row, task);
  }

  // ------------------------------------------------------------------ sync

  /** Why a mailbox sync throws: the connection, or a message that could not be persisted. */
  datatype SyncError = ConnectionFailed | PersistFailed(cause: IngestError)

  /** What the `forEach` writes, message by message: each message's row and the task its text normalises to. */
  datatype Batch = End | Next(row: MessageEntity, task: Result<TaskEntity, DateTimeError>, rest: Batch)

  /** The writes for messages `lo..hi - 1`, in order. */
  function MailItems(inbox: seq<MailMessage>, lo: int, hi: int, source: TaskSource, clock: ZonedDateTime): Batch
    requires 1 <= lo <= hi <= |inbox| + 1
    decreases hi - lo, 1
  {
    if lo == hi then End else MailItemsFrom(inbox, lo, hi, source, clock)
  }

  /** The writes for message `lo`, then for the messages after it. */
  function MailItemsFrom(inbox: seq<MailMessage>, lo: int, hi: int, source: TaskSource, clock: ZonedDateTime): Batch
    requires 1 <= lo < hi <= |inbox| + 1
    decreases hi - lo, 0
  {
    Next(MailRow(lo, inbox[lo - 1], source, clock), MailTask(inbox[lo - 1], source, clock), MailItems(inbox, lo + 1, hi, source, clock))
  }

  /** The writes of `batch` in order, stopping at the first that throws. */
  function IngestEach(db: Db, batch: Batch): (Db, Result<(), IngestError>)
    decreases batch
  {
    match batch
    case End => (db, Success(()))
    case Next(row, task, rest) =>
      var (after, outcome) := Ingest(db, row, task);
      if outcome.Failure? then (after, Failure(outcome.error))
      else IngestEach(after, rest)
  }

  /** A first write that throws ends `IngestEach` with its error. */
  lemma IngestEachStops(db: Db, batch: Batch)
    requires batch.Next? && Ingest(db, batch.row, batch.task).1.Failure?
    ensures var (after, outcome) := Ingest(db, batch.row, batch.task);
      IngestEach(db, batch) == (after, Failure(outcome.error))
  {
  }

  /** The window never starts past the newest message. */
  lemma WindowStartInRange(count: nat)
    ensures 1 <= WindowStart(count) <= count + 1
  {
  }

  /** `syncGmail` / `syncNaver` on the tables: the messages of the window, in order, until one throws. */
  function SyncSpec(db: Db, mailbox: Mailbox, source: TaskSource, clock: ZonedDateTime): (Db, Result<(), SyncError>) {
    match mailbox
    case Unreachable => (db, Failure(ConnectionFailed))
    case Inbox(messages) =>
      WindowStartInRange(|messages|);
      var (after, outcome) := IngestEach(db, MailItems(messages, WindowStart(|messages|), |messages| + 1, source, clock));
      (after, if outcome.Failure? then Failure(PersistFailed(outcome.error)) else Success(()))
  }

  /** A sync whose first message in the window was stored before ends there: no later message is persisted. */
  lemma SyncStopsAtSeenMessage(db: Db, inbox: seq<MailMessage>, source: TaskSource, clock: ZonedDateTime)
    requires Valid(db) && IgnoredRowId !in db.messages && |inbox| > 0
    requires var first := WindowStart(|inbox|);
      HasKey(db, MailRow(first, inbox[first - 1], source, clock)) && MailTask(inbox[first - 1], source, clock).Success?
    ensures var (after, outcome) := SyncSpec(db, Inbox(inbox), source, clock);
      outcome == Failure(PersistFailed(LinkFailed(ForeignKeyConstraintFailed))) && after.messages == db.messages
  {
    var first := WindowStart(|inbox|);
    var batch := MailItems(inbox, first, |inbox| + 1, source, clock);
    assert batch == MailItemsFrom(inbox, first, |inbox| + 1, source, clock);
    PersistSeenMessage(db, first, inbox[first - 1], source, clock);
    IngestEachStops(db, batch);
  }

  /**
   * The rows and tasks of messages `lo..|inbox|`. Both are pure under the one
   * clock reading, so they are computed before the writes, which then happen
   * in the source's order.
   */
  method WindowItems(inbox: seq<MailMessage>, lo: int, source: TaskSource, clock: ZonedDateTime) returns (batch: Batch)
    requires 1 <= lo <= |inbox| + 1
    ensures batch == MailItems(inbox, lo, |inbox| + 1, source, clock)
    decreases |inbox| + 1 - lo
  {
    if lo > |inbox| {
      return End;
    }
    var rest := WindowItems(inbox, lo + 1, source, clock);
    batch := PrependItem(inbox, lo, rest, source, clock);
  }

  /** Message `lo`'s row and task, ahead of the writes for the messages after it. */
  method PrependItem(inbox: seq<MailMessage>, lo: int, rest: Batch, source: TaskSource, clock: ZonedDateTime) returns (batch: Batch)
    requires 1 <= lo <= |inbox| && rest == MailItems(inbox, lo + 1, |inbox| + 1, source, clock)
    ensures batch == MailItems(inbox, lo, |inbox| + 1, source, clock)
  {
    var row, task := MailItemOf(lo, inbox[lo - 1], source, clock);
    batch := Next(row, task, rest);
    MailItemsStep(inbox, lo, |inbox| + 1, source, clock);
  }

  /** The writes for messages `lo..hi - 1` start with message `lo`'s row and task. */
  lemma MailItemsStep(inbox: seq<MailMessage>, lo: int, hi: int, source: TaskSource, clock: ZonedDateTime)
    requires 1 <= lo < hi <= |inbox| + 1
    ensures MailItems(inbox, lo, hi, source, clock)
      == Next(MailRow(lo, inbox[lo - 1], source, clock), MailTask(inbox[lo - 1], source, clock), MailItems(inbox, lo + 1, hi, source, clock))
  {
  }

  /** The writes of the `forEach`, in order; the first exception ends it. */
  method IngestItems(db: AppDatabase, batch: Batch) returns (result: Result<(), IngestError>)
    requires db.Valid()
    modifies db
    ensures db.Valid()
    ensures (db.State(), result) == IngestEach(old(db.State()), batch)
  {
    var pending := batch;
    while pending.Next?
      invariant db.Valid()
      invariant IngestEach(db.State(), pending) == IngestEach(old(db.State()), batch)
      decreases pending
    {
      var outcome := Persist(db, pending.row, pending.task);
      if outcome.Failure? {
        return Failure(outcome.error);
      }
      pending := pending.rest;
    }
    result := Success(());
  }

  method SyncMailbox(db: AppDatabase, mailbox: Mailbox, source: TaskSource, clock: ZonedDateTime)
    returns (result: Result<(), SyncError>)
    requires db.Valid()
    modifies db
    ensures db.Valid()
    ensures (db.State(), result) == SyncSpec(old(db.State()), mailbox, source, clock)
  {
    if mailbox.Unreachable? {
      return Failure(ConnectionFailed);
    }
    var inbox := mailbox.messages;
    var start := WindowStart(|inbox|);
    WindowStartInRange(|inbox|);
    var batch := WindowItems(inbox, start, source, clock);
    var synced := IngestItems(db, batch);
    result := if synced.Failure? then Failure(PersistFailed(synced.error)) else Success(());
  }

  // ---------------------------------------------------------------- doWork

  /** `Result.success()` or `Result.retry()`. */
  datatype WorkResult = WorkSuccess | WorkRetry

  /** Gmail is synced only for stored tokens that have not expired and carry an email. */
  predicate GmailSyncRuns(prefs: Prefs, nowEpochMillis: int) {
    var tokens := ReadGmail(prefs);
    tokens.Some? && !IsExpired(tokens.value, nowEpochMillis) && tokens.value.email.Some?
  }

  predicate NaverSyncRuns(prefs: Prefs) {
    ReadNaver(prefs).Some?
  }

  /** `doWork`: Gmail then Naver; anything thrown ends the run with a retry. */
  function DoWorkSpec(db: Db, prefs: Prefs, gmail: Mailbox, naver: Mailbox, clock: ZonedDateTime): (Db, WorkResult) {
    var now := ToEpochMilli(ToInstant(clock));
    var (afterGmail, gmailResult) := if GmailSyncRuns(prefs, now) then SyncSpec(db, gmail, GMAIL, clock) else (db, Success(()));
    if gmailResult.Failure? then (afterGmail, WorkRetry)
    else
      var (afterNaver, naverResult) := if NaverSyncRuns(prefs) then SyncSpec(afterGmail, naver, NAVER, clock) else (afterGmail, Success(()));
      if naverResult.Failure? then (afterNaver, WorkRetry) else (afterNaver, WorkSuccess)
  }

  /** With neither account usable a run changes nothing and succeeds. */
  lemma NoAccountsNoChange(db: Db, prefs: Prefs, gmail: Mailbox, naver: Mailbox, clock: ZonedDateTime)
    requires !GmailSyncRuns(prefs, ToEpochMilli(ToInstant(clock))) && !NaverSyncRuns(prefs)
    ensures DoWorkSpec(db, prefs, gmail, naver, clock) == (db, WorkSuccess)
  {
  }

  /** A Gmail failure ends the run before Naver is synced, whatever Naver's mailbox holds. */
  lemma GmailFailureSkipsNaver(db: Db, prefs: Prefs, gmail: Mailbox, naver1: Mailbox, naver2: Mailbox, clock: ZonedDateTime)
    requires GmailSyncRuns(prefs, ToEpochMilli(ToInstant(clock))) && SyncSpec(db, gmail, GMAIL, clock).1.Failure?
    ensures DoWorkSpec(db, prefs, gmail, naver1, clock) == DoWorkSpec(db, prefs, gmail, naver2, clock)
    ensures DoWorkSpec(db, prefs, gmail, naver1, clock).1 == WorkRetry
  {
  }

  /** Expired tokens, or tokens without an email, leave the Gmail mailbox unread. */
  lemma ExpiredTokensSkipGmail(db: Db, prefs: Prefs, gmail1: Mailbox, gmail2: Mailbox, naver: Mailbox, clock: ZonedDateTime)
    requires ReadGmail(prefs).Some?
    requires IsExpired(ReadGmail(prefs).value, ToEpochMilli(ToInstant(clock))) || ReadGmail(prefs).value.email.None?
    ensures DoWorkSpec(db, prefs, gmail1, naver, clock) == DoWorkSpec(db, prefs, gmail2, naver, clock)
  {
  }

  method DoWork(db: AppDatabase, tokenStore: TokenStore, gmail: Mailbox, naver: Mailbox, clock: ZonedDateTime)
    returns (result: WorkResult)
    requires db.Valid()
    modifies db
    ensures db.Valid()
    ensures (db.State(), result) == DoWorkSpec(old(db.State()), tokenStore.prefs, gmail, naver, clock)
  {
    var now := ToEpochMilli(ToInstant(clock));
    var tokens := tokenStore.ReadGmailTokens();
    if tokens.Some? && !IsExpired(tokens.value, now) && tokens.value.email.Some? {
      var synced := SyncMailbox(db, gmail, GMAIL, clock);
      if synced.Failure? {
        return WorkRetry;
      }
    }
    var credentials := tokenStore.ReadNaverCredentials();
    if credentials.Some? {
      var synced := SyncMailbox(db, naver, NAVER, clock);
      if synced.Failure? {
        return WorkRetry;
      }
    }
    result := WorkSuccess;
  }
}
