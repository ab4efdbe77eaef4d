/**
 * The three tables of the Room database (`messages`, `tasks`,
 * `task_message_cross_ref`) as one value, and what each DAO statement does to
 * it under SQLite's rules:
 *  - `autoGenerate` ids come from an AUTOINCREMENT sequence: a row inserted
 *    with id 0 gets one more than the largest id the table ever held, a row
 *    with another id keeps it;
 *  - `INSERT OR IGNORE` leaves the table alone and returns -1 when the row
 *    clashes with a primary or unique key;
 *  - `INSERT OR REPLACE` first deletes the clashing row, and that delete
 *    cascades to its links;
 *  - foreign keys are enforced, so a link whose task or message does not exist
 *    is refused with an error (conflict resolution does not apply to them);
 *  - instant columns hold epoch milliseconds, so a stored instant reads back
 *    truncated to the millisecond.
 */
module Tables {
  import opened Wrappers
  import opened Calendar
  import opened Entities
  import opened Converters

  datatype Db = Db(
    messages: map<int, MessageEntity>,
    tasks: map<int, TaskEntity>,
    links: set<CrossRef>,
    messageSeq: int,
    taskSeq: int)

  /** A freshly created database. */
  const Empty: Db := Db(map[], map[], {}, 0, 0)

  /** The row id `insert` reports for a row that was ignored. */
  const IgnoredRowId: int := -1

  /** The error SQLite raises for a link whose task or message is missing. */
  datatype DbError = ForeignKeyConstraintFailed

  function Max(a: int, b: int): int {
    if a < b then b else a
  }

  /**
   * The constraints the schema keeps: rows sit under their own ids, no id is 0
   * or above its table's sequence, `(accountType, messageId)` is unique, and
   * every link names an existing task and an existing message.
   */
  predicate Valid(db: Db) {
    db.messageSeq >= 0 && db.taskSeq >= 0
    && (forall id | id in db.messages :: db.messages[id].id == id && id != UnassignedId && id <= db.messageSeq)
    && (forall a, b | a in db.messages && b in db.messages && MessageKey(db.messages[a]) == MessageKey(db.messages[b]) :: a == b)
    && (forall id | id in db.tasks :: db.tasks[id].id == id && id != UnassignedId && id <= db.taskSeq)
    && (forall l | l in db.links :: l.taskId in db.tasks && l.messageId in db.messages)
  }

  lemma EmptyValid()
    ensures Valid(Empty)
  {
  }

  /** The id a row gets: the next sequence value for 0, otherwise its own. */
  function AssignedId(sequence: int, requested: int): (id: int)
    ensures requested == UnassignedId ==> id == sequence + 1
    ensures requested != UnassignedId ==> id == requested
  {
    if requested == UnassignedId then sequence + 1 else requested
  }

  function StoredOption(i: Option<Instant>): (r: Option<Instant>)
    ensures r.None? <==> i.None?
  {
    match i
    case None => None
    case Some(v) => Some(Stored(v))
  }

  /** A message row as it reads back after being stored under `id`. */
  function StoredMessage(m: MessageEntity, id: int): MessageEntity {
    m.(id := id, receivedAt := Stored(m.receivedAt), ingestedAt := Stored(m.ingestedAt))
  }

  /** A task row as it reads back after being stored under `id`. */
  function StoredTask(t: TaskEntity, id: int): TaskEntity {
    t.(id := id, dueAt := StoredOption(t.dueAt), createdAt := Stored(t.createdAt), updatedAt := Stored(t.updatedAt))
  }

  // ---------------------------------------------------------------- messages

  /** A stored message already has `m`'s `(accountType, messageId)`. */
  predicate HasKey(db: Db, m: MessageEntity) {
    exists id | id in db.messages :: MessageKey(db.messages[id]) == MessageKey(m)
  }

  /** The unique index or the primary key rejects `m`. */
  predicate MessageClash(db: Db, m: MessageEntity) {
    HasKey(db, m) || (m.id != UnassignedId && m.id in db.messages)
  }

  /** `MessageDao.insert` (`OnConflictStrategy.IGNORE`): the new state and the returned row id. */
  function InsertMessage(db: Db, m: MessageEntity): (Db, int) {
    if MessageClash(db, m) then (db, IgnoredRowId)
    else
      var id := AssignedId(db.messageSeq, m.id);
      (db.(messages := db.messages[id := StoredMessage(m, id)], messageSeq := Max(db.messageSeq, id)), id)
  }

  lemma InsertMessageValid(db: Db, m: MessageEntity)
    requires Valid(db)
    ensures Valid(InsertMessage(db, m).0)
  {
  }

  /** A message whose key is new and whose id is 0 adds exactly one row, under a fresh id above every other. */
  lemma InsertMessageFresh(db: Db, m: MessageEntity)
    requires Valid(db) && !HasKey(db, m) && m.id == UnassignedId
    ensures var (after, id) := InsertMessage(db, m);
      id == db.messageSeq + 1 && id !in db.messages
      && (forall other | other in db.messages :: other < id)
      && after.messages == db.messages[id := StoredMessage(m, id)]
      && after.tasks == db.tasks && after.links == db.links
  {
  }

  /** Inserting a message whose key is already stored changes nothing and reports -1. */
  lemma InsertMessageDuplicate(db: Db, m: MessageEntity)
    requires HasKey(db, m)
    ensures InsertMessage(db, m) == (db, IgnoredRowId)
  {
  }

  /** Inserting the same message twice is the same as inserting it once: the second insert is ignored. */
  lemma InsertMessageIdempotent(db: Db, m: MessageEntity)
    requires Valid(db)
    ensures var after := InsertMessage(db, m).0;
      InsertMessage(after, m) == (after, IgnoredRowId)
  {
    var (after, id) := InsertMessage(db, m);
    if id != IgnoredRowId || !MessageClash(db, m) {
      assert after.messages[id] == StoredMessage(m, id);
      assert MessageKey(after.messages[id]) == MessageKey(m);
    }
  }

  /** `MessageDao.insertAll`: each message is inserted in turn, so each duplicate (also of an earlier element) is skipped on its own. */
  function InsertAll(db: Db, ms: seq<MessageEntity>): (r: (Db, seq<int>))
    ensures |r.1| == |ms|
    decreases |ms|
  {
    if ms == [] then (db, [])
    else
      var (before, ids) := InsertAll(db, ms[..|ms| - 1]);
      var (after, id) := InsertMessage(before, ms[|ms| - 1]);
      (after, ids + [id])
  }

  lemma {:induction false} InsertAllValid(db: Db, ms: seq<MessageEntity>)
    requires Valid(db)
    ensures Valid(InsertAll(db, ms).0)
    decreases |ms|
  {
    if ms != [] {
      InsertAllValid(db, ms[..|ms| - 1]);
      InsertMessageValid(InsertAll(db, ms[..|ms| - 1]).0, ms[|ms| - 1]);
    }
  }

  /** A list holding the same new message twice stores it once: the second copy reports -1. */
  lemma InsertAllRepeated(db: Db, m: MessageEntity)
    requires Valid(db) && !HasKey(db, m) && m.id == UnassignedId
    ensures var (after, ids) := InsertAll(db, [m, m]);
      ids == [db.messageSeq + 1, IgnoredRowId] && after == InsertMessage(db, m).0
  {
    assert [m, m][..1] == [m];
    assert [m][..0] == [];
    var once := InsertMessage(db, m);
    assert InsertAll(db, []) == (db, []);
    assert [] + [once.1] == [once.1];
    assert InsertAll(db, [m]) == (once.0, [once.1]);
    InsertMessageFresh(db, m);
    InsertMessageIdempotent(db, m);
  }

  /** Whether a message survives `pruneOlderThan(cutoff)`: `received_at < :olderThan` compares epoch milliseconds. */
  predicate OlderThan(receivedAt: Instant, cutoff: Instant) {
    ToEpochMilli(receivedAt) < ToEpochMilli(cutoff)
  }

  /** `MessageDao.pruneOlderThan`: the old messages go, and so (by cascade) do their links. */
  function PruneOlderThan(db: Db, cutoff: Instant): Db {
    var kept := map id | id in db.messages && !OlderThan(db.messages[id].receivedAt, cutoff) :: db.messages[id];
    db.(messages := kept, links := (set l | l in db.links && l.messageId in kept))
  }

  /** Exactly the messages received before the cutoff are removed, with only their links; the tasks stay. */
  lemma PruneOlderThanExact(db: Db, cutoff: Instant)
    requires Valid(db)
    ensures var after := PruneOlderThan(db, cutoff);
      Valid(after)
      && (forall id :: id in after.messages <==> id in db.messages && !OlderThan(db.messages[id].receivedAt, cutoff))
      && (forall id | id in after.messages :: after.messages[id] == db.messages[id])
      && (forall l :: l in after.links <==> l in db.links && l.messageId in after.messages)
      && after.tasks == db.tasks
  {
  }

  // ------------------------------------------------------------------- tasks

  /** `TaskDao.upsert` (`OnConflictStrategy.REPLACE`): any row under the id is deleted (cascading to its links) and the task is inserted. */
  function Upsert(db: Db, t: TaskEntity): (Db, int) {
    var id := AssignedId(db.taskSeq, t.id);
    (db.(tasks := db.tasks[id := StoredTask(t, id)],
         links := (set l | l in db.links && l.taskId != id),
         taskSeq := Max(db.taskSeq, id)),
     id)
  }

  lemma UpsertValid(db: Db, t: TaskEntity)
    requires Valid(db)
    ensures Valid(Upsert(db, t).0)
  {
  }

  /** An unassigned task becomes a new row under a fresh id; messages and links stay. */
  lemma UpsertNew(db: Db, t: TaskEntity)
    requires Valid(db) && t.id == UnassignedId
    ensures var (after, id) := Upsert(db, t);
      id == db.taskSeq + 1 && id !in db.tasks
      && after.tasks == db.tasks[id := StoredTask(t, id)]
      && after.messages == db.messages && after.links == db.links
  {
  }

  /** A task with an id replaces the row under it and drops exactly that task's links. */
  lemma UpsertReplaces(db: Db, t: TaskEntity)
    requires Valid(db) && t.id != UnassignedId
    ensures var (after, id) := Upsert(db, t);
      id == t.id
      && after.tasks == db.tasks[id := StoredTask(t, id)]
      && after.messages == db.messages
      && (forall l :: l in after.links <==> l in db.links && l.taskId != id)
  {
  }

  /** `TaskDao.update`: the row with the task's id, if any, takes the new values; nothing else changes. */
  function Update(db: Db, t: TaskEntity): (r: Db)
    ensures t.id !in db.tasks ==> r == db
  {
    if t.id in db.tasks then db.(tasks := db.tasks[t.id := StoredTask(t, t.id)]) else db
  }

  /** `update` changes only the matching row, and no link (it deletes nothing). */
  lemma UpdateOnlyThatRow(db: Db, t: TaskEntity)
    requires Valid(db)
    ensures var after := Update(db, t);
      Valid(after)
      && after.tasks.Keys == db.tasks.Keys
      && (forall id | id in db.tasks && id != t.id :: after.tasks[id] == db.tasks[id])
      && (t.id in db.tasks ==> after.tasks[t.id] == StoredTask(t, t.id))
      && after.messages == db.messages && after.links == db.links
  {
  }

  /** Whether a task is removed by `pruneResolved(status, cutoff)` (`updated_at` compares in milliseconds). */
  predicate Resolved(t: TaskEntity, status: TaskStatus, cutoff: Instant) {
    ToEpochMilli(t.updatedAt) < ToEpochMilli(cutoff) && t.status == status
  }

  /** `TaskDao.pruneResolved`: the matching tasks go, and so (by cascade) do their links. */
  function PruneResolved(db: Db, status: TaskStatus, cutoff: Instant): Db {
    var kept := map id | id in db.tasks && !Resolved(db.tasks[id], status, cutoff) :: db.tasks[id];
    db.(tasks := kept, links := (set l | l in db.links && l.taskId in kept))
  }

  /** Exactly the tasks with that status updated before the cutoff are removed, with only their links; the messages stay. */
  lemma PruneResolvedExact(db: Db, status: TaskStatus, cutoff: Instant)
    requires Valid(db)
    ensures var after := PruneResolved(db, status, cutoff);
      Valid(after)
      && (forall id :: id in after.tasks <==> id in db.tasks && !Resolved(db.tasks[id], status, cutoff))
      && (forall id | id in after.tasks :: after.tasks[id] == db.tasks[id])
      && (forall l :: l in after.links <==> l in db.links && l.taskId in after.tasks)
      && after.messages == db.messages
  {
  }

  // ------------------------------------------------------------------- links

  /** `TaskMessageDao.insert` (`OnConflictStrategy.IGNORE`): a pair already present is ignored; a missing parent is an error. */
  function InsertLink(db: Db, l: CrossRef): (r: Result<Db, DbError>)
    ensures r.Failure? <==> l.taskId !in db.tasks || l.messageId !in db.messages
  {
    if l.taskId !in db.tasks || l.messageId !in db.messages then Failure(ForeignKeyConstraintFailed)
    else Success(db.(links := db.links + {l}))
  }

  /** A new pair with both parents present adds exactly that pair; a pair already present leaves the database unchanged. */
  lemma InsertLinkEffect(db: Db, l: CrossRef)
    requires Valid(db)
    ensures l in db.links ==> InsertLink(db, l) == Success(db)
    ensures l !in db.links && l.taskId in db.tasks && l.messageId in db.messages ==>
      InsertLink(db, l).Success? && InsertLink(db, l).value.links == db.links + {l}
      && l !in db.links
    ensures InsertLink(db, l).Success? ==> Valid(InsertLink(db, l).value)
  {
    if l in db.links {
      assert db.links + {l} == db.links;
    }
  }

  /** `TaskMessageDao.deleteForTask`. */
  function DeleteForTask(db: Db, taskId: int): Db {
    db.(links := (set l | l in db.links && l.taskId != taskId))
  }

  /** `deleteForTask(t)` removes exactly the links of `t`, and no task or message. */
  lemma DeleteForTaskExact(db: Db, taskId: int)
    requires Valid(db)
    ensures var after := DeleteForTask(db, taskId);
      Valid(after)
      && (forall l :: l in after.links <==> l in db.links && l.taskId != taskId)
      && after.tasks == db.tasks && after.messages == db.messages
  {
  }

  /** Removing a task through the cascade never removes a message, and removing a message never removes a task. */
  lemma CascadesKeepOtherParent(db: Db, status: TaskStatus, cutoff: Instant, t: TaskEntity)
    ensures PruneResolved(db, status, cutoff).messages == db.messages
    ensures PruneOlderThan(db, cutoff).tasks == db.tasks
    ensures Upsert(db, t).0.messages == db.messages
  {
  }

  // ----------------------------------------------------------------- queries

  /** The `@Relation` through the junction: the task row with every message row linked to it. */
  function WithMessages(db: Db, t: TaskEntity): TaskWithMessages {
    TaskWithMessages(t, set id | id in db.messages && CrossRef(t.id, id) in db.links :: db.messages[id])
  }

  /** `messages` is exactly the stored messages linked to the task; one message can sit under several tasks. */
  lemma WithMessagesExact(db: Db, t: TaskEntity, m: MessageEntity)
    requires Valid(db)
    ensures m in WithMessages(db, t).messages <==>
      m.id in db.messages && db.messages[m.id] == m && CrossRef(t.id, m.id) in db.links
    ensures WithMessages(db, t).task == t
  {
    if m in WithMessages(db, t).messages {
      var id :| id in db.messages && CrossRef(t.id, id) in db.links && db.messages[id] == m;
      assert db.messages[id].id == id;
    }
  }

  /** A task without links comes with no messages. */
  lemma WithoutLinksNoMessages(db: Db, t: TaskEntity)
    requires forall l | l in db.links :: l.taskId != t.id
    ensures WithMessages(db, t).messages == {}
  {
  }

  /** The `WHERE` of `observeTasksByBucket` and `observeByStatus`. */
  datatype TaskFilter = ByBucket(bucket: string) | ByStatus(status: TaskStatus)

  predicate Matches(f: TaskFilter, t: TaskEntity) {
    match f
    case ByBucket(b) => t.dueBucket == b
    case ByStatus(s) => t.status == s
  }

  /** `ORDER BY due_at ASC NULLS LAST`: `a` may come before `b`. */
  predicate DueLe(a: Option<Instant>, b: Option<Instant>) {
    b.None? || (a.Some? && a.value <= b.value)
  }

  predicate SortedByDue(r: seq<TaskWithMessages>) {
    forall i, j | 0 <= i < j < |r| :: DueLe(r[i].task.dueAt, r[j].task.dueAt)
  }

  /**
   * What a task query returns: every stored task the filter selects, each
   * once, with its messages, ordered by due time with the undated last. SQL
   * leaves the order of equal due times open, and so does this predicate.
   */
  predicate TaskQuery(db: Db, f: TaskFilter, r: seq<TaskWithMessages>) {
    (forall w | w in r :: w.task.id in db.tasks && w.task == db.tasks[w.task.id] && Matches(f, w.task) && w == WithMessages(db, w.task))
    && (forall id | id in db.tasks && Matches(f, db.tasks[id]) :: WithMessages(db, db.tasks[id]) in r)
    && DistinctTaskIds(r)
    && SortedByDue(r)
  }

  predicate DistinctMessageIds(r: seq<MessageEntity>) {
    forall i, j | 0 <= i < j < |r| :: r[i].id != r[j].id
  }

  predicate DistinctTaskIds(r: seq<TaskWithMessages>) {
    forall i, j | 0 <= i < j < |r| :: r[i].task.id != r[j].task.id
  }

  predicate SortedByReceivedDesc(r: seq<MessageEntity>) {
    forall i, j | 0 <= i < j < |r| :: r[j].receivedAt <= r[i].receivedAt
  }

  /**
   * What `observeRecent(accountType, limit)` returns: stored messages of that
   * account, each once, newest first, at most `limit` of them (a negative
   * LIMIT is no limit); all of them when fewer than `limit` are stored, and
   * otherwise none left out is newer than one returned.
   */
  predicate RecentQuery(db: Db, accountType: string, limit: int, r: seq<MessageEntity>) {
    (forall m | m in r :: m.id in db.messages && db.messages[m.id] == m && m.accountType == accountType)
    && DistinctMessageIds(r)
    && SortedByReceivedDesc(r)
    && (limit >= 0 ==> |r| <= limit)
    && ((limit < 0 || |r| < limit) ==>
          forall id | id in db.messages && db.messages[id].accountType == accountType :: db.messages[id] in r)
    && (forall id | id in db.messages && db.messages[id].accountType == accountType && db.messages[id] !in r ::
          forall m | m in r :: db.messages[id].receivedAt <= m.receivedAt)
  }

  // ------------------------------------------------------- sorted insertion

  /** `s[..k] + [x] + s[k..]`, with its elements indexed. */
  function InsertAt<T(!new)>(s: seq<T>, k: nat, x: T): (r: seq<T>)
    requires k <= |s|
    ensures |r| == |s| + 1 && r[k] == x
    ensures forall i | 0 <= i < k :: r[i] == s[i]
    ensures forall i | k < i < |r| :: r[i] == s[i - 1]
    ensures forall e :: e in r <==> e in s || e == x
  {
    assert s == s[..k] + s[k..];
    s[..k] + [x] + s[k..]
  }

  /** Where a row with due time `x` goes in a list ordered by due time: after every row not later than it. */
  function DuePosition(r: seq<TaskWithMessages>, x: Option<Instant>): (k: nat)
    requires SortedByDue(r)
    ensures k <= |r|
    ensures forall i | 0 <= i < k :: DueLe(r[i].task.dueAt, x)
    ensures forall i | k <= i < |r| :: DueLe(x, r[i].task.dueAt)
  {
    if r == [] then 0
    else if !DueLe(r[|r| - 1].task.dueAt, x) then DuePosition(r[..|r| - 1], x)
    else |r|
  }

  /** Where a message received at `x` goes in a list ordered newest first. */
  function RecentPosition(r: seq<MessageEntity>, x: Instant): (k: nat)
    requires SortedByReceivedDesc(r)
    ensures k <= |r|
    ensures forall i | 0 <= i < k :: x <= r[i].receivedAt
    ensures forall i | k <= i < |r| :: r[i].receivedAt <= x
  {
    if r == [] then 0
    else if r[|r| - 1].receivedAt < x then RecentPosition(r[..|r| - 1], x)
    else |r|
  }

  /** Putting a message with a new id at its place keeps the list newest first, each id once. */
  lemma InsertRecent(r: seq<MessageEntity>, m: MessageEntity)
    requires SortedByReceivedDesc(r) && DistinctMessageIds(r)
    requires forall e | e in r :: e.id != m.id
    ensures var after := InsertAt(r, RecentPosition(r, m.receivedAt), m);
      SortedByReceivedDesc(after) && DistinctMessageIds(after)
  {
    var k := RecentPosition(r, m.receivedAt);
    var after := InsertAt(r, k, m);
    forall i, j | 0 <= i < j < |after|
      ensures after[j].receivedAt <= after[i].receivedAt && after[i].id != after[j].id
    {
      if j == k {
        assert after[i] == r[i];
      } else if i == k {
        assert after[j] == r[j - 1];
      } else {
        assert after[i] in r && after[j] in r;
      }
    }
  }

  /** Putting a task with a new id at its place keeps the list in due-time order, each id once. */
  lemma InsertByDue(r: seq<TaskWithMessages>, w: TaskWithMessages)
    requires SortedByDue(r) && DistinctTaskIds(r)
    requires forall e | e in r :: e.task.id != w.task.id
    ensures var after := InsertAt(r, DuePosition(r, w.task.dueAt), w);
      SortedByDue(after) && DistinctTaskIds(after)
  {
    var k := DuePosition(r, w.task.dueAt);
    var after := InsertAt(r, k, w);
    forall i, j | 0 <= i < j < |after|
      ensures DueLe(after[i].task.dueAt, after[j].task.dueAt) && after[i].task.id != after[j].task.id
    {
      if j == k {
        assert after[i] == r[i];
      } else if i == k {
        assert after[j] == r[j - 1];
      } else {
        assert after[i] in r && after[j] in r;
      }
    }
  }
}
