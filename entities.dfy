/**
 * The three Room tables' row types and the task-with-messages join view.
 * Instants are nanoseconds since the epoch; scores are tenths.
 */
module Entities {
  import opened Wrappers
  import opened Calendar

  /** `TaskStatus`. */
  datatype TaskStatus = PENDING | REVIEW | COMPLETED | SNOOZED

  /** `TaskSource`. */
  datatype TaskSource = GMAIL | NAVER | SMS | KAKAO | OCR | OTHER

  /** The `status` a `TaskEntity` gets when none is supplied. */
  const DefaultStatus: TaskStatus := PENDING

  /** The `id` that asks the table for a generated one (`autoGenerate = true`). */
  const UnassignedId: int := 0

  /** A row of `tasks`. `score` is in tenths (0.4 is 4). */
  datatype TaskEntity = TaskEntity(
    id: int,
    title: string,
    description: Option<string>,
    dueAt: Option<Instant>,
    dueBucket: string,
    score: int,
    status: TaskStatus,
    source: TaskSource,
    createdAt: Instant,
    updatedAt: Instant)

  /** A row of `messages`; `(accountType, messageId)` is unique in the table. */
  datatype MessageEntity = MessageEntity(
    id: int,
    accountType: string,
    messageId: string,
    subject: Option<string>,
    sender: Option<string>,
    receivedAt: Instant,
    body: string,
    sourcePayload: Option<string>,
    ingestedAt: Instant)

  /** The unique key of a message row. */
  function MessageKey(m: MessageEntity): (string, string) {
    (m.accountType, m.messageId)
  }

  /** A row of `task_message_cross_ref`: primary key `(task_id, message_id)`. */
  datatype CrossRef = CrossRef(taskId: int, messageId: int)

  /** `TaskWithMessages`: a task row and the message rows linked to it (as a set: the list's order is not part of the model). */
  datatype TaskWithMessages = TaskWithMessages(task: TaskEntity, messages: set<MessageEntity>)
}
