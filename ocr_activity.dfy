/**
 * `OcrActivity.persistDraft`: a confirmed OCR draft becomes a message row
 * keyed by the current epoch millisecond and a task that keeps the draft's
 * predicted score and bucket, written in the three steps every source uses.
 */
module OcrActivity {
  import opened Wrappers
  import opened Text
  import opened Calendar
  import opened Entities
  import opened Converters
  import opened Tables
  import opened Store
  import opened TaskNormalizer
  import opened OcrParser
  import opened Ingestion

  /** The draft-confirm copy: the edited title and description replace the draft's, and nothing else changes. */
  function ConfirmDraft(draft: TaskDraft, title: string, description: string): (r: TaskDraft)
    ensures r.title == title && r.description == description
    ensures r.dueAt == draft.dueAt && r.bucket == draft.bucket && r.score == draft.score
  {
    draft.(title := title, description := description)
  }

  /** `draft.dueAt?.toInstant()`. */
  function DueInstant(dueAt: Option<ZonedDateTime>): (r: Option<Instant>)
    ensures r.None? <==> dueAt.None?
    ensures r.Some? ==> r.value == ToInstant(dueAt.value)
  {
    match dueAt
    case None => None
    case Some(z) => Some(ToInstant(z))
  }

  /** The `messages` row of a saved draft: "OCR-" and the clock's epoch millisecond. */
  function DraftRow(draft: TaskDraft, clock: ZonedDateTime): MessageEntity {
    var now := ToInstant(clock);
    MessageEntity(
      id := UnassignedId,
      accountType := SourceName(OCR),
      messageId := "OCR-" + IntToString(ToEpochMilli(now)),
      subject := Some(draft.title),
      sender := None,
      receivedAt := now,
      body := draft.description,
      sourcePayload := None,
      ingestedAt := now)
  }

  /** The task `normalize` makes of a draft, with its due instant, score and bucket as overrides. */
  function DraftTask(draft: TaskDraft, clock: ZonedDateTime): Result<TaskEntity, DateTimeError> {
    Normalize(draft.title, draft.description, OCR, ToInstant(clock), clock, DueInstant(draft.dueAt), Some(draft.score), Some(draft.bucket))
  }

  /** `persistDraft` on the tables. */
  function PersistDraftSpec(db: Db, draft: TaskDraft, clock: ZonedDateTime): (Db, Result<int, IngestError>) {
    Ingest(db, DraftRow(draft, clock), DraftTask(draft, clock))
  }

  /**
   * The task keeps the draft's score and bucket and the status that score
   * gives; a draft with a due time cannot fail and keeps that time. A draft
   * without one has its (possibly edited) text resolved again, which may throw
   * or find a due time that the kept bucket does not reflect.
   */
  lemma DraftTaskKeepsPrediction(draft: TaskDraft, clock: ZonedDateTime)
    ensures draft.dueAt.Some? ==> DraftTask(draft, clock).Success?
    ensures var r := DraftTask(draft, clock);
      r.Success? ==>
        && r.value.score == draft.score
        && r.value.dueBucket == draft.bucket
        && r.value.status == StatusForScore(draft.score)
        && r.value.source == OCR
        && (draft.dueAt.Some? ==> r.value.dueAt == Some(ToInstant(draft.dueAt.value)))
  {
  }

  /** Editing a draft before saving changes neither the score nor the bucket the task gets. */
  lemma EditsKeepPrediction(draft: TaskDraft, title: string, description: string, clock: ZonedDateTime)
    requires DraftTask(ConfirmDraft(draft, title, description), clock).Success?
    ensures var t := DraftTask(ConfirmDraft(draft, title, description), clock).value;
      t.score == draft.score && t.dueBucket == draft.bucket
      && t.title == Take(title, 80) && t.description == Some(Take(description, 4000))
  {
    DraftTaskKeepsPrediction(ConfirmDraft(draft, title, description), clock);
  }

  /**
   * A draft saved in a millisecond no saved draft used is stored as an "OCR"
   * row titled by the draft, and its new task is linked to exactly that row.
   */
  lemma PersistDraftNew(db: Db, draft: TaskDraft, clock: ZonedDateTime)
    requires Valid(db) && !HasKey(db, DraftRow(draft, clock)) && DraftTask(draft, clock).Success?
    ensures var (after, outcome) := PersistDraftSpec(db, draft, clock);
      var rowId := db.messageSeq + 1;
      outcome.Success? && rowId in after.messages && outcome.value in after.tasks
      && after.messages[rowId].accountType == "OCR"
      && after.messages[rowId].messageId == "OCR-" + IntToString(ToEpochMilli(ToInstant(clock)))
      && after.messages[rowId].subject == Some(draft.title)
      && after.messages[rowId].sender.None?
      && after.messages[rowId].body == draft.description
      && after.tasks[outcome.value].score == draft.score
      && after.tasks[outcome.value].dueBucket == draft.bucket
      && WithMessages(after, after.tasks[outcome.value]).messages == {after.messages[rowId]}
  {
    DraftTaskKeepsPrediction(draft, clock);
    var t := DraftTask(draft, clock).value;
    FreshDraftStored(db, draft, clock, t);
  }

  /** `PersistDraftNew` for any new task `t` that carries the draft's score and bucket. */
  lemma FreshDraftStored(db: Db, draft: TaskDraft, clock: ZonedDateTime, t: TaskEntity)
    requires Valid(db) && !HasKey(db, DraftRow(draft, clock))
    requires t.id == UnassignedId && t.score == draft.score && t.dueBucket == draft.bucket
    ensures var (after, outcome) := Ingest(db, DraftRow(draft, clock), Success(t));
      var rowId := db.messageSeq + 1;
      outcome.Success? && rowId in after.messages && outcome.value in after.tasks
      && after.messages[rowId].accountType == "OCR"
      && after.messages[rowId].messageId == "OCR-" + IntToString(ToEpochMilli(ToInstant(clock)))
      && after.messages[rowId].subject == Some(draft.title)
      && after.messages[rowId].sender.None?
      && after.messages[rowId].body == draft.description
      && after.tasks[outcome.value].score == draft.score
      && after.tasks[outcome.value].dueBucket == draft.bucket
      && WithMessages(after, after.tasks[outcome.value]).messages == {after.messages[rowId]}
  {
    IngestFresh(db, DraftRow(draft, clock), t);
  }

  /**
   * A second draft saved in the same millisecond gets the same key: its
   * message is ignored and the link fails, leaving its task without messages.
   */
  lemma SameMillisecondDraft(db: Db, draft: TaskDraft, clock: ZonedDateTime)
    requires Valid(db) && IgnoredRowId !in db.messages
    requires exists id | id in db.messages ::
      db.messages[id].accountType == "OCR" && db.messages[id].messageId == "OCR-" + IntToString(ToEpochMilli(ToInstant(clock)))
    requires DraftTask(draft, clock).Success?
    ensures var (after, outcome) := PersistDraftSpec(db, draft, clock);
      outcome == Failure(LinkFailed(ForeignKeyConstraintFailed))
      && after.messages == db.messages && after.links == db.links
  {
    assert HasKey(db, DraftRow(draft, clock));
    IngestDuplicate(db, DraftRow(draft, clock), DraftTask(draft, clock).value);
  }

  /** `persistDraft`: message insert, normalise with the draft's overrides, task upsert, link insert. */
  method PersistDraft(db: AppDatabase, draft: TaskDraft, clock: ZonedDateTime) returns (outcome: Result<int, IngestError>)
    requires db.Valid()
    modifies db
    ensures db.Valid()
    ensures (db.State(), outcome) == PersistDraftSpec(old(db.State()), draft, clock)
  {
    var row := DraftRow(draft, clock);
    var task := Normalize(draft.title, draft.description, OCR, ToInstant(clock), clock, DueInstant(draft.dueAt), Some(draft.score), Some(draft.bucket));
    outcome := Persist(db, row, task);
  }
}
