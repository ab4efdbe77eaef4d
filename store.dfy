/**
 * `AppDatabase` with its three DAOs: the tables are fields that each DAO
 * method changes in place, and each method is proved to do to them what
 * `Tables` says the SQL statement does. Queries are one-shot reads of the
 * current tables (a `Flow` would re-run them on every change).
 */
module Store {
  import opened Wrappers
  import opened Calendar
  import opened Entities
  import opened Converters
  import opened Tables

  class AppDatabase {
    var messages: map<int, MessageEntity>
    var tasks: map<int, TaskEntity>
    var links: set<CrossRef>
    var messageSeq: int
    var taskSeq: int

    /** The tables as a value. */
    function State(): Db
      reads this
    {
      Db(messages, tasks, links, messageSeq, taskSeq)
    }

    ghost predicate Valid()
      reads this
    {
      Tables.Valid(State())
    }

    constructor()
      ensures State() == Empty && Valid()
    {
      messages := map[];
      tasks := map[];
      links := {};
      messageSeq := 0;
      taskSeq := 0;
    }

    // ------------------------------------------------------------ MessageDao

    /** `MessageDao.insert`: the row id, or -1 when the message's key (or id) is already taken. */
    method InsertMessage(m: MessageEntity) returns (id: int)
      requires Valid()
      modifies this
      ensures Valid()
      ensures (State(), id) == Tables.InsertMessage(old(State()), m)
    {
      InsertMessageValid(State(), m);
      if HasKey(State(), m) || (m.id != UnassignedId && m.id in messages) {
        return IgnoredRowId;
      }
      id := AssignedId(messageSeq, m.id);
      messages := messages[id := StoredMessage(m, id)];
      messageSeq := Max(messageSeq, id);
    }

    /** `MessageDao.insertAll`: one insert per element, in order. */
    method InsertAll(ms: seq<MessageEntity>) returns (ids: seq<int>)
      requires Valid()
      modifies this
      ensures Valid()
      ensures (State(), ids) == Tables.InsertAll(old(State()), ms)
    {
      ids := [];
      var i := 0;
      while i < |ms|
        invariant 0 <= i <= |ms|
        invariant Valid()
        invariant (State(), ids) == Tables.InsertAll(old(State()), ms[..i])
      {
        assert ms[..i + 1][..i] == ms[..i];
        var id := InsertMessage(ms[i]);
        ids := ids + [id];
        i := i + 1;
      }
      assert ms[..i] == ms;
    }

    /** `MessageDao.observeRecent`: the newest `limit` messages of the account. */
    method ObserveRecent(accountType: string, limit: int) returns (r: seq<MessageEntity>)
      requires Valid()
      ensures RecentQuery(State(), accountType, limit, r)
    {
      var all := RecentRows(accountType);
      if limit < 0 || |all| <= limit {
        r := all;
      } else {
        r := all[..limit];
        forall id | id in messages && messages[id].accountType == accountType && messages[id] !in r
          ensures forall m | m in r :: messages[id].receivedAt <= m.receivedAt
        {
          var j :| 0 <= j < |all| && all[j] == messages[id];
        }
      }
    }

    /** Every message of the account, newest first, each once. */
    method RecentRows(accountType: string) returns (r: seq<MessageEntity>)
      requires Valid()
      ensures forall m | m in r :: m.id in messages && messages[m.id] == m && m.accountType == accountType
      ensures forall id | id in messages && messages[id].accountType == accountType :: messages[id] in r
      ensures DistinctMessageIds(r) && SortedByReceivedDesc(r)
    {
      var pending := messages.Keys;
      r := [];
      while exists id :: id in pending
        invariant pending <= messages.Keys
        invariant forall m | m in r :: m.id in messages && m.id !in pending && messages[m.id] == m && m.accountType == accountType
        invariant forall id | id in messages && id !in pending && messages[id].accountType == accountType :: messages[id] in r
        invariant DistinctMessageIds(r) && SortedByReceivedDesc(r)
        decreases |pending|
      {
        var id :| id in pending;
        pending := pending - {id};
        var m := messages[id];
        if m.accountType == accountType {
          InsertRecent(r, m);
          r := InsertAt(r, RecentPosition(r, m.receivedAt), m);
        }
      }
    }

    /** `MessageDao.pruneOlderThan`. */
    method PruneOlderThan(cutoff: Instant)
      requires Valid()
      modifies this
      ensures Valid()
      ensures State() == Tables.PruneOlderThan(old(State()), cutoff)
    {
      PruneOlderThanExact(State(), cutoff);
      var kept := map id | id in messages && !OlderThan(messages[id].receivedAt, cutoff) :: messages[id];
      messages := kept;
      links := set l | l in links && l.messageId in kept;
    }

    // --------------------------------------------------------------- TaskDao

    /** `TaskDao.upsert`: the id the task is stored under. */
    method Upsert(t: TaskEntity) returns (id: int)
      requires Valid()
      modifies this
      ensures Valid()
      ensures (State(), id) == Tables.Upsert(old(State()), t)
    {
      UpsertValid(State(), t);
      id := AssignedId(taskSeq, t.id);
      tasks := tasks[id := StoredTask(t, id)];
      links := set l | l in links && l.taskId != id;
      taskSeq := Max(taskSeq, id);
    }

    /** `TaskDao.update`. */
    method Update(t: TaskEntity)
      requires Valid()
      modifies this
      ensures Valid()
      ensures State() == Tables.Update(old(State()), t)
    {
      UpdateOnlyThatRow(State(), t);
      if t.id in tasks {
        tasks := tasks[t.id := StoredTask(t, t.id)];
      }
    }

    /** `TaskDao.observeTasksByBucket`. */
    method ObserveTasksByBucket(bucket: string) returns (r: seq<TaskWithMessages>)
      requires Valid()
      ensures TaskQuery(State(), ByBucket(bucket), r)
    {
      r := QueryTasks(ByBucket(bucket));
    }

    /** `TaskDao.observeByStatus`. */
    method ObserveByStatus(status: TaskStatus) returns (r: seq<TaskWithMessages>)
      requires Valid()
      ensures TaskQuery(State(), ByStatus(status), r)
    {
      r := QueryTasks(ByStatus(status));
    }

    /** The rows a filter selects with their messages, in due-time order. */
    method QueryTasks(f: TaskFilter) returns (r: seq<TaskWithMessages>)
      requires Valid()
      ensures TaskQuery(State(), f, r)
    {
      var pending := tasks.Keys;
      r := [];
      while exists id :: id in pending
        invariant pending <= tasks.Keys
        invariant forall w | w in r ::
          w.task.id in tasks && w.task.id !in pending && w.task == tasks[w.task.id] && Matches(f, w.task) && w == WithMessages(State(), w.task)
        invariant forall id | id in tasks && id !in pending && Matches(f, tasks[id]) :: WithMessages(State(), tasks[id]) in r
        invariant DistinctTaskIds(r) && SortedByDue(r)
        decreases |pending|
      {
        var id :| id in pending;
        pending := pending - {id};
        var t := tasks[id];
        if Matches(f, t) {
          var w := WithMessages(State(), t);
          InsertByDue(r, w);
          r := InsertAt(r, DuePosition(r, t.dueAt), w);
        }
      }
    }

    /** `TaskDao.pruneResolved`. */
    method PruneResolved(status: TaskStatus, cutoff: Instant)
      requires Valid()
      modifies this
      ensures Valid()
      ensures State() == Tables.PruneResolved(old(State()), status, cutoff)
    {
      PruneResolvedExact(State(), status, cutoff);
      var kept := map id | id in tasks && !Resolved(tasks[id], status, cutoff) :: tasks[id];
      tasks := kept;
      links := set l | l in links && l.taskId in kept;
    }

    // -------------------------------------------------------- TaskMessageDao

    /** `TaskMessageDao.insert`: a foreign-key failure leaves the tables as they were. */
    method InsertLink(l: CrossRef) returns (r: Result<(), DbError>)
      requires Valid()
      modifies this
      ensures Valid()
      ensures r.Failure? <==> Tables.InsertLink(old(State()), l).Failure?
      ensures r.Failure? ==> Tables.InsertLink(old(State()), l) == Failure(r.error) && State() == old(State())
      ensures r.Success? ==> State() == Tables.InsertLink(old(State()), l).value
    {
      InsertLinkEffect(State(), l);
      if l.taskId !in tasks || l.messageId !in messages {
        return Failure(ForeignKeyConstraintFailed);
      }
      links := links + {l};
      r := Success(());
    }

    /** `TaskMessageDao.deleteForTask`. */
    method DeleteForTask(taskId: int)
      requires Valid()
      modifies this
      ensures Valid()
      ensures State() == Tables.DeleteForTask(old(State()), taskId)
    {
      DeleteForTaskExact(State(), taskId);
      links := set l | l in links && l.taskId != taskId;
    }
  }
}
