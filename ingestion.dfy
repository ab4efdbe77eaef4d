/**
 * The write sequence that mail sync, the notification listener and the OCR
 * screen each perform: insert the raw message, normalise it into a task,
 * upsert the task, and link the returned task id to the returned message row
 * id. The message row id is used as returned, without checking for the -1 of
 * an ignored duplicate.
 */
module Ingestion {
  import opened Wrappers
  import opened Calendar
  import opened Entities
  import opened Tables
  import opened Store

  /** What can end an ingestion early: `normalize` throwing, or the link insert failing. */
  datatype IngestError = NormalizeFailed(thrown: DateTimeError) | LinkFailed(refused: DbError)

  /**
   * The tables after ingesting `message` whose normalised task is `task`, and
   * the new task's id. A failed normalisation leaves the message stored; a
   * failed link leaves the task stored.
   */
  function Ingest(db: Db, message: MessageEntity, task: Result<TaskEntity, DateTimeError>): (Db, Result<int, IngestError>) {
    var (withMessage, messageRowId) := InsertMessage(db, message);
    match task
    case Failure(e) => (withMessage, Failure(NormalizeFailed(e)))
    case Success(t) =>
      var (withTask, taskId) := Upsert(withMessage, t);
      match InsertLink(withTask, CrossRef(taskId, messageRowId))
      case Success(linked) => (linked, Success(taskId))
      case Failure(e) => (withTask, Failure(LinkFailed(e)))
  }

  lemma IngestValid(db: Db, message: MessageEntity, task: Result<TaskEntity, DateTimeError>)
    requires Valid(db)
    ensures Valid(Ingest(db, message, task).0)
  {
    InsertMessageValid(db, message);
    if task.Success? {
      var withMessage := InsertMessage(db, message).0;
      UpsertValid(withMessage, task.value);
      InsertLinkEffect(Upsert(withMessage, task.value).0, CrossRef(Upsert(withMessage, task.value).1, InsertMessage(db, message).1));
    }
  }

  /**
   * A message seen for the first time becomes exactly one new message row,
   * one new task row and one link between them, and the new task comes with
   * exactly that message.
   */
  lemma IngestFresh(db: Db, message: MessageEntity, t: TaskEntity)
    requires Valid(db) && !HasKey(db, message) && message.id == UnassignedId && t.id == UnassignedId
    ensures var (after, outcome) := Ingest(db, message, Success(t));
      var messageRowId := db.messageSeq + 1;
      var taskId := db.taskSeq + 1;
      outcome == Success(taskId)
      && messageRowId !in db.messages && taskId !in db.tasks
      && after.messages == db.messages[messageRowId := StoredMessage(message, messageRowId)]
      && after.tasks == db.tasks[taskId := StoredTask(t, taskId)]
      && after.links == db.links + {CrossRef(taskId, messageRowId)}
      && WithMessages(after, after.tasks[taskId]).messages == {StoredMessage(message, messageRowId)}
  {
    InsertMessageFresh(db, message);
    var (withMessage, messageRowId) := InsertMessage(db, message);
    UpsertNew(withMessage, t);
    var (withTask, taskId) := Upsert(withMessage, t);
    var after := Ingest(db, message, Success(t)).0;
    IngestValid(db, message, Success(t));
    var linked := WithMessages(after, after.tasks[taskId]).messages;
    forall m | m in linked
      ensures m == StoredMessage(message, messageRowId)
    {
      WithMessagesExact(after, after.tasks[taskId], m);
      assert CrossRef(taskId, m.id) in after.links;
    }
    WithMessagesExact(after, after.tasks[taskId], StoredMessage(message, messageRowId));
  }

  /**
   * Ingesting a message whose key is already stored does not add a message or
   * a link: the message insert reports -1, the new task row is upserted
   * anyway, and linking it to row -1 fails the foreign key. The task is left
   * behind with no messages.
   */
  lemma IngestDuplicate(db: Db, message: MessageEntity, t: TaskEntity)
    requires Valid(db) && HasKey(db, message) && t.id == UnassignedId
    requires IgnoredRowId !in db.messages
    ensures var (after, outcome) := Ingest(db, message, Success(t));
      var taskId := db.taskSeq + 1;
      outcome == Failure(LinkFailed(ForeignKeyConstraintFailed))
      && taskId !in db.tasks
      && after.messages == db.messages
      && after.tasks == db.tasks[taskId := StoredTask(t, taskId)]
      && after.links == db.links
      && WithMessages(after, after.tasks[taskId]).messages == {}
  {
    InsertMessageDuplicate(db, message);
    UpsertNew(db, t);
    var after := Ingest(db, message, Success(t)).0;
    var taskId := db.taskSeq + 1;
    WithoutLinksNoMessages(after, after.tasks[taskId]);
  }

  /** When normalisation throws, the message row has already been written and nothing else is. */
  lemma IngestNormalizeFailed(db: Db, message: MessageEntity, e: DateTimeError)
    ensures Ingest(db, message, Failure(e)) == (InsertMessage(db, message).0, Failure(NormalizeFailed(e)))
  {
  }

  /** The same write sequence on the store object: message insert, task upsert, link insert. */
  method Persist(db: AppDatabase, message: MessageEntity, task: Result<TaskEntity, DateTimeError>)
    returns (outcome: Result<int, IngestError>)
    requires db.Valid()
    modifies db
    ensures db.Valid()
    ensures (db.State(), outcome) == Ingest(old(db.State()), message, task)
  {
    var messageRowId := db.InsertMessage(message);
    if task.Failure? {
      return Failure(NormalizeFailed(task.error));
    }
    var taskId := db.Upsert(task.value);
    var linked := db.InsertLink(CrossRef(taskId, messageRowId));
    if linked.Failure? {
      return Failure(LinkFailed(linked.error));
    }
    outcome := Success(taskId);
  }
}
