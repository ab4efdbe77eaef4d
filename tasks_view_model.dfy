/**
 * `TasksViewModel`: the four task lists the screens show (one-shot reads
 * here, where the app keeps live flows) and `markTaskCompleted`, which
 * completes a task only while it is PENDING. The completed copy is written
 * with `upsert`, whose REPLACE deletes the old row first, so the task's
 * links to its messages go with it.
 */
module TasksViewModel {
  import opened Wrappers
  import opened Calendar
  import opened Converters
  import opened Entities
  import opened Tables
  import opened Store
  import opened TaskNormalizer

  /** `firstOrNull { it.task.id == taskId }?.task`. */
  function FirstWithId(ws: seq<TaskWithMessages>, taskId: int): (r: Option<TaskEntity>)
    ensures r.None? <==> forall w | w in ws :: w.task.id != taskId
    ensures r.Some? ==> r.value.id == taskId && exists w | w in ws :: w.task == r.value
  {
    if ws == [] then None
    else if ws[0].task.id == taskId then Some(ws[0].task)
    else FirstWithId(ws[1..], taskId)
  }

  /** The completed copy: status COMPLETED and updated now; every other field as it was. */
  function Completed(t: TaskEntity, clock: ZonedDateTime): (c: TaskEntity)
    ensures c.status == COMPLETED && c.updatedAt == ToInstant(clock)
    ensures c.(status := t.status, updatedAt := t.updatedAt) == t
  {
    t.(status := COMPLETED, updatedAt := ToInstant(clock))
  }

  /** `markTaskCompleted` on the tables: only a stored PENDING task is replaced by its completed copy. */
  function CompleteSpec(db: Db, taskId: int, clock: ZonedDateTime): Db {
    if taskId in db.tasks && db.tasks[taskId].status == PENDING then Upsert(db, Completed(db.tasks[taskId], clock)).0
    else db
  }

  /**
   * Completing a PENDING task replaces exactly that row by its completed
   * copy, drops that task's links and keeps every other row and link; an
   * unknown id or a task in any other status leaves the tables as they are.
   */
  lemma CompleteEffect(db: Db, taskId: int, clock: ZonedDateTime)
    requires Valid(db)
    ensures var after := CompleteSpec(db, taskId, clock);
      Valid(after)
      && after.tasks.Keys == db.tasks.Keys
      && after.messages == db.messages
      && (forall id | id in db.tasks && id != taskId :: after.tasks[id] == db.tasks[id])
      && (taskId in db.tasks && db.tasks[taskId].status == PENDING ==>
            after.tasks[taskId] == StoredTask(Completed(db.tasks[taskId], clock), taskId)
            && (forall l :: l in after.links <==> l in db.links && l.taskId != taskId))
      && (taskId !in db.tasks || db.tasks[taskId].status != PENDING ==> after == db)
  {
    if taskId in db.tasks && db.tasks[taskId].status == PENDING {
      var t := Completed(db.tasks[taskId], clock);
      assert t.id == taskId;
      UpsertReplaces(db, t);
      UpsertValid(db, t);
    }
  }

  /** The completed row keeps the task's title, description, bucket, score and source, and reads as COMPLETED. */
  lemma CompletedKeepsFields(db: Db, taskId: int, clock: ZonedDateTime)
    requires Valid(db) && taskId in db.tasks && db.tasks[taskId].status == PENDING
    ensures var before := db.tasks[taskId];
      var after := CompleteSpec(db, taskId, clock).tasks[taskId];
      after.status == COMPLETED && after.updatedAt == Stored(ToInstant(clock))
      && after.title == before.title && after.description == before.description
      && after.dueBucket == before.dueBucket && after.score == before.score && after.source == before.source
      && after.id == taskId
  {
    CompleteEffect(db, taskId, clock);
  }

  /** Completing twice has the effect of completing once, whatever the second clock reads. */
  lemma CompleteIdempotent(db: Db, taskId: int, clock1: ZonedDateTime, clock2: ZonedDateTime)
    requires Valid(db)
    ensures var once := CompleteSpec(db, taskId, clock1);
      CompleteSpec(once, taskId, clock2) == once
  {
    CompleteEffect(db, taskId, clock1);
  }

  /** A completed task is no longer in the PENDING list. */
  lemma CompletedLeavesPending(db: Db, taskId: int, clock: ZonedDateTime, r: seq<TaskWithMessages>)
    requires Valid(db) && taskId in db.tasks
    requires TaskQuery(CompleteSpec(db, taskId, clock), ByStatus(PENDING), r)
    ensures forall w | w in r :: w.task.id != taskId
  {
    CompleteEffect(db, taskId, clock);
  }

  /** A task is in at most one of the today, week and month lists. */
  lemma BucketViewsDisjoint(db: Db, today: seq<TaskWithMessages>, week: seq<TaskWithMessages>, month: seq<TaskWithMessages>)
    requires TaskQuery(db, ByBucket(Today), today) && TaskQuery(db, ByBucket(Week), week) && TaskQuery(db, ByBucket(Month), month)
    ensures forall w | w in today :: w !in week && w !in month
    ensures forall w | w in week :: w !in month
  {
  }

  class TasksViewModel {
    const database: AppDatabase

    constructor(database: AppDatabase)
      ensures this.database == database
    {
      this.database := database;
    }

    /** `todayTasks`: bucket TODAY. */
    method TodayTasks() returns (r: seq<TaskWithMessages>)
      requires database.Valid()
      ensures TaskQuery(database.State(), ByBucket(Today), r)
    {
      r := database.ObserveTasksByBucket(Today);
    }

    /** `weekTasks`: bucket WEEK. */
    method WeekTasks() returns (r: seq<TaskWithMessages>)
      requires database.Valid()
      ensures TaskQuery(database.State(), ByBucket(Week), r)
    {
      r := database.ObserveTasksByBucket(Week);
    }

    /** `monthTasks`: bucket MONTH. */
    method MonthTasks() returns (r: seq<TaskWithMessages>)
      requires database.Valid()
      ensures TaskQuery(database.State(), ByBucket(Month), r)
    {
      r := database.ObserveTasksByBucket(Month);
    }

    /** `pendingReview`: status REVIEW. */
    method PendingReview() returns (r: seq<TaskWithMessages>)
      requires database.Valid()
      ensures TaskQuery(database.State(), ByStatus(REVIEW), r)
    {
      r := database.ObserveByStatus(REVIEW);
    }

    /** `markTaskCompleted`: look the id up among the PENDING tasks and upsert its completed copy. */
    method MarkTaskCompleted(taskId: int, clock: ZonedDateTime)
      requires database.Valid()
      modifies database
      ensures database.Valid()
      ensures database.State() == CompleteSpec(old(database.State()), taskId, clock)
    {
      var pending := database.ObserveByStatus(PENDING);
      var existing := FirstWithId(pending, taskId);
      if existing.None? {
        if taskId in database.tasks && database.tasks[taskId].status == PENDING {
          assert false;
        }
        return;
      }
      var id := database.Upsert(Completed(existing.value, clock));
    }
  }
}
