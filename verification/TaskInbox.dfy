/** Tasks created from commitments, at most one for each user and key. */
module TaskInbox {
  import opened Prelude
  import TaskRanking

  datatype Commitment = Commitment(
    id: string,
    user: string,
    session: Option<string>,
    title: string,
    detail: Option<string>,
    owner: Option<string>,
    dueAt: Option<int>,
    confidence: real,
    sensitivity: TaskRanking.Sensitivity,
    dedupeKey: Option<string>)

  datatype Task = Task(
    user: string,
    session: Option<string>,
    commitmentId: Option<string>,
    title: string,
    detail: Option<string>,
    priority: TaskRanking.Priority,
    status: TaskRanking.TaskStatus,
    dueAt: Option<int>,
    blockedBy: Option<string>,
    dedupeKey: Option<string>)

  /** The key of a commitment's task: its own key, or its id when it has none. */
  function TaskKey(c: Commitment): string {
    "task|" + if TaskRanking.Truthy(c.dedupeKey) then c.dedupeKey.value else c.id
  }

  function ProposedTask(c: Commitment, now: int): Task {
    Task(c.user, c.session, Some(c.id), c.title, c.detail,
         TaskRanking.PriorityForCommitment(c.dueAt, c.confidence, c.sensitivity, now),
         TaskRanking.Proposed, c.dueAt,
         if TaskRanking.Truthy(c.owner) && c.owner.value !in {"me", "we"} then c.owner else None,
         Some(TaskKey(c)))
  }

  predicate Matches(t: Task, user: string, key: string) {
    t.user == user && t.dedupeKey == Some(key)
  }

  predicate Known(tasks: seq<Task>, user: string, key: string) {
    exists k | 0 <= k < |tasks| :: Matches(tasks[k], user, key)
  }

  /** No two tasks of one user carry the same key; tasks without a key do not take part. */
  ghost predicate KeysUnique(tasks: seq<Task>) {
    forall a, b | 0 <= a < b < |tasks| && tasks[a].dedupeKey.Some? ::
      tasks[a].user != tasks[b].user || tasks[a].dedupeKey != tasks[b].dedupeKey
  }

  /** The table after one commitment: a row is added unless its key is known. */
  function WithTask(tasks: seq<Task>, c: Commitment, now: int): seq<Task> {
    if Known(tasks, c.user, TaskKey(c)) then tasks else tasks + [ProposedTask(c, now)]
  }

  /** The table after a list of commitments has been turned into tasks. */
  function WithTasks(tasks: seq<Task>, values: seq<Commitment>, now: int): seq<Task>
    decreases |values|
  {
    if |values| == 0 then tasks
    else WithTasks(WithTask(tasks, values[0], now), values[1..], now)
  }

  /** One stored row for each commitment, of its user and with its key. */
  ghost predicate Served(rows: seq<Task>, values: seq<Commitment>, tasks: seq<Task>) {
    && |rows| == |values|
    && forall i | 0 <= i < |values| :: rows[i] in tasks && Matches(rows[i], values[i].user, TaskKey(values[i]))
  }

  lemma ServedSnoc(rows: seq<Task>, row: Task, values: seq<Commitment>, c: Commitment, mid: seq<Task>, tasks: seq<Task>)
    requires Served(rows, values, mid) && mid <= tasks
    requires row in tasks && Matches(row, c.user, TaskKey(c))
    ensures Served(rows + [row], values + [c], tasks)
  {
    forall i | 0 <= i < |rows| ensures rows[i] in tasks {
      var k :| 0 <= k < |mid| && mid[k] == rows[i];
      assert tasks[k] == rows[i];
    }
  }

  class Inbox {
    var tasks: seq<Task>

    constructor ()
      ensures tasks == [] && KeysUnique(tasks)
    {
      tasks := [];
    }

    method CreateTaskFromCommitment(c: Commitment, now: int) returns (row: Task)
      modifies this
      ensures tasks == WithTask(old(tasks), c, now)
      ensures row in tasks && Matches(row, c.user, TaskKey(c))
      ensures row in old(tasks) || (row == ProposedTask(c, now) && IsTaskOf(row, c, now))
    {
      var proposal := ProposedTask(c, now);
      if proposal.dedupeKey.Some? {
        for k := 0 to |tasks|
          invariant forall j | 0 <= j < k :: !Matches(tasks[j], c.user, TaskKey(c))
        {
          if tasks[k].user == c.user && tasks[k].dedupeKey == proposal.dedupeKey {
            return tasks[k];
          }
        }
      }
      tasks := tasks + [proposal];
      assert tasks[|tasks| - 1] == proposal;
      row := proposal;
    }

    method ProposeTasksForCommitments(values: seq<Commitment>, now: int) returns (rows: seq<Task>)
      modifies this
      ensures tasks == WithTasks(old(tasks), values, now)
      ensures Served(rows, values, tasks)
    {
      rows := [];
      ghost var before := tasks;
      for i := 0 to |values|
        invariant tasks == WithTasks(before, values[..i], now)
        invariant Served(rows, values[..i], tasks)
      {
        ghost var mid := tasks;
        var row := CreateTaskFromCommitment(values[i], now);
        WithTasksSnoc(before, values[..i], values[i], now);
        ServedSnoc(rows, row, values[..i], values[i], mid, tasks);
        assert values[..i + 1] == values[..i] + [values[i]];
        rows := rows + [row];
      }
      assert values[..|values|] == values;
    }

    method UpdateTaskStatus(user: string, index: nat, status: TaskRanking.TaskStatus) returns (ok: bool)
      modifies this
      ensures ok == (index < |old(tasks)| && old(tasks)[index].user == user)
      ensures tasks == if ok then old(tasks)[index := old(tasks)[index].(status := status)] else old(tasks)
      ensures old(KeysUnique(tasks)) ==> KeysUnique(tasks)
    {
      ok := index < |tasks| && tasks[index].user == user;
      if ok {
        tasks := tasks[index := tasks[index].(status := status)];
      }
    }
  }

  lemma {:induction false} WithTasksSnoc(tasks: seq<Task>, values: seq<Commitment>, c: Commitment, now: int)
    ensures WithTasks(tasks, values + [c], now) == WithTask(WithTasks(tasks, values, now), c, now)
    decreases |values|
  {
    if |values| > 0 {
      assert (values + [c])[1..] == values[1..] + [c];
      WithTasksSnoc(WithTask(tasks, values[0], now), values[1..], c, now);
    }
  }

  lemma KnownExtends(tasks: seq<Task>, more: seq<Task>, user: string, key: string)
    requires tasks <= more && Known(tasks, user, key)
    ensures Known(more, user, key)
  {
    var k :| 0 <= k < |tasks| && Matches(tasks[k], user, key);
    assert more[k] == tasks[k];
  }

  /** Creating tasks for any list of commitments keeps every user's keys unique. */
  lemma {:induction false} TasksStayUnique(tasks: seq<Task>, values: seq<Commitment>, now: int)
    requires KeysUnique(tasks)
    ensures KeysUnique(WithTasks(tasks, values, now))
    decreases |values|
  {
    if |values| > 0 {
      var c := values[0];
      var next := WithTask(tasks, c, now);
      assert KeysUnique(next) by {
        forall a, b | 0 <= a < b < |next| && next[a].dedupeKey.Some?
          ensures next[a].user != next[b].user || next[a].dedupeKey != next[b].dedupeKey
        {
          if b == |tasks| {
            assert !Matches(tasks[a], c.user, TaskKey(c));
          }
        }
      }
      TasksStayUnique(next, values[1..], now);
    }
  }

  /** After the call exactly the keys that were known, or asked for, are known. */
  lemma {:induction false} KnownAfter(tasks: seq<Task>, values: seq<Commitment>, now: int, user: string, key: string)
    ensures Known(WithTasks(tasks, values, now), user, key)
       <==> Known(tasks, user, key) || exists i ::
              0 <= i < |values| && values[i].user == user && TaskKey(values[i]) == key
    decreases |values|
  {
    if |values| > 0 {
      var c := values[0];
      var next := WithTask(tasks, c, now);
      KnownAfter(next, values[1..], now, user, key);
      assert Known(next, user, key) <==> Known(tasks, user, key) || (c.user == user && TaskKey(c) == key) by {
        KnownSnoc(tasks, ProposedTask(c, now), user, key);
      }
      assert forall i | 1 <= i < |values| :: values[i] == values[1..][i - 1];
    }
  }

  lemma KnownSnoc(tasks: seq<Task>, t: Task, user: string, key: string)
    ensures Known(tasks + [t], user, key) <==> Known(tasks, user, key) || Matches(t, user, key)
  {
    var more := tasks + [t];
    assert more[|tasks|] == t;
    if Known(tasks, user, key) {
      KnownExtends(tasks, more, user, key);
    }
    if k :| 0 <= k < |more| && Matches(more[k], user, key) {
      assert k < |tasks| ==> tasks[k] == more[k];
    }
  }

  lemma {:induction false} NothingNew(tasks: seq<Task>, values: seq<Commitment>, now: int)
    requires forall i | 0 <= i < |values| :: Known(tasks, values[i].user, TaskKey(values[i]))
    ensures WithTasks(tasks, values, now) == tasks
    decreases |values|
  {
    if |values| > 0 {
      assert forall i | 0 <= i < |values[1..]| :: values[1..][i] == values[i + 1];
      NothingNew(tasks, values[1..], now);
    }
  }

  /** Repeating the call inserts nothing, at whatever later time and task status. */
  lemma CreatingAgain(tasks: seq<Task>, values: seq<Commitment>, now: int, later: int)
    ensures WithTasks(WithTasks(tasks, values, now), values, later) == WithTasks(tasks, values, now)
  {
    forall i | 0 <= i < |values| ensures Known(WithTasks(tasks, values, now), values[i].user, TaskKey(values[i])) {
      KnownAfter(tasks, values, now, values[i].user, TaskKey(values[i]));
    }
    NothingNew(WithTasks(tasks, values, now), values, later);
  }

  // ---- the row a commitment becomes -------------------------------------------------------------

  /** The columns of a commitment's task: its own, a key, a priority, and whoever else it waits for. */
  ghost predicate IsTaskOf(t: Task, c: Commitment, now: int) {
    && t.user == c.user && t.session == c.session && t.commitmentId == Some(c.id)
    && t.title == c.title && t.detail == c.detail && t.dueAt == c.dueAt
    && t.status == TaskRanking.Proposed
    && t.priority == TaskRanking.PriorityForCommitment(c.dueAt, c.confidence, c.sensitivity, now)
    && (t.blockedBy.Some? <==> c.owner.Some? && c.owner.value != "" && c.owner.value != "me" && c.owner.value != "we")
    && (t.blockedBy.Some? ==> t.blockedBy == c.owner)
    && t.dedupeKey == Some(if c.dedupeKey.Some? && c.dedupeKey.value != "" then "task|" + c.dedupeKey.value
                           else "task|" + c.id)
  }

  /** A commitment adds its task at the end exactly if its user has none with its key. */
  lemma TaskOutcome(tasks: seq<Task>, c: Commitment, now: int)
    ensures var after := WithTask(tasks, c, now);
            if exists k :: 0 <= k < |tasks| && tasks[k].user == c.user && tasks[k].dedupeKey == Some(TaskKey(c))
            then after == tasks
            else |after| == |tasks| + 1 && after[..|tasks|] == tasks && IsTaskOf(after[|tasks|], c, now)
  {
    assert Known(tasks, c.user, TaskKey(c)) <==>
      exists k :: 0 <= k < |tasks| && tasks[k].user == c.user && tasks[k].dedupeKey == Some(TaskKey(c)) by {
      if k :| 0 <= k < |tasks| && tasks[k].user == c.user && tasks[k].dedupeKey == Some(TaskKey(c)) {
        assert Matches(tasks[k], c.user, TaskKey(c));
      }
    }
  }
}
