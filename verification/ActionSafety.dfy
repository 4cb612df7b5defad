/** What every run of proposals, decisions and executions keeps. */
module ActionSafety {
  import opened Prelude
  import opened Text
  import opened ActionModel

  function DecisionsOf(rows: seq<ApprovalRow>, id: nat): seq<Decision> {
    if |rows| == 0 then []
    else
      var last := rows[|rows| - 1];
      DecisionsOf(rows[..|rows| - 1], id) + if last.proposal == id then [last.decision] else []
  }

  function LogsOf(rows: seq<LogRow>, id: nat): seq<LogStatus> {
    if |rows| == 0 then []
    else LogsOf(rows[..|rows| - 1], id) + if rows[|rows| - 1].proposal == id then [rows[|rows| - 1].status] else []
  }

  /** How many tasks a proposal has created. */
  function TasksFrom(tasks: seq<Task>, id: nat): nat {
    if |tasks| == 0 then 0
    else TasksFrom(tasks[..|tasks| - 1], id) + if tasks[|tasks| - 1].source == Some(id) then 1 else 0
  }

  predicate CreatesTask(kind: ActionType) {
    kind in {ProposeReminder, ResearchWatchlistCreate}
  }

  /** Approvals first, then rejections: nothing is approved after it was rejected. */
  predicate NoApprovalAfterRejection(ds: seq<Decision>) {
    forall i, j | 0 <= i < j < |ds| :: ds[i] == Reject ==> ds[j] == Reject
  }

  predicate EndsWith(ds: seq<Decision>, d: Decision) {
    |ds| > 0 && ds[|ds| - 1] == d
  }

  /** A proposal against its decisions, its execution logs and how many tasks it created. */
  predicate Fits(p: Proposal, ds: seq<Decision>, logs: seq<LogStatus>, tasks: nat, policy: Policy) {
    && |logs| <= 1
    && NoApprovalAfterRejection(ds)
    && (!Allowed(p.payload, policy) ==> p.status == Rejected && Approve !in ds && logs == [])
    && (tasks == if p.status == Executed && CreatesTask(p.kind) then 1 else 0)
    && match p.status
       case Proposed => ds == [] && logs == []
       case Approved => EndsWith(ds, Approve) && Reject !in ds && logs == []
       case Rejected => (EndsWith(ds, Reject) || (ds == [] && !Allowed(p.payload, policy))) && Completed !in logs
       case Executed => EndsWith(ds, Approve) && Reject !in ds && logs == [Completed] && IsSafeInternal(p.kind)
       case Failed =>
         && EndsWith(ds, Approve) && Reject !in ds
         && logs == [if IsSafeInternal(p.kind) then LogFailed else LogBlocked]
       case Expired => false
  }

  ghost predicate Consistent(db: Db, policy: Policy) {
    && (forall k | 0 <= k < |db.approvals| :: db.approvals[k].proposal < |db.proposals|)
    && (forall k | 0 <= k < |db.logs| :: db.logs[k].proposal < |db.proposals|)
    && (forall k | 0 <= k < |db.tasks| && db.tasks[k].source.Some? :: db.tasks[k].source.value < |db.proposals|)
    && (forall id | 0 <= id < |db.proposals| :: FitsAt(db, id, policy))
  }

  predicate FitsAt(db: Db, id: nat, policy: Policy)
    requires id < |db.proposals|
  {
    Fits(db.proposals[id], DecisionsOf(db.approvals, id), LogsOf(db.logs, id), TasksFrom(db.tasks, id), policy)
  }

  lemma TasksSnoc(rows: seq<Task>, x: Task, id: nat)
    ensures TasksFrom(rows + [x], id) == TasksFrom(rows, id) + if x.source == Some(id) then 1 else 0
  {
    assert (rows + [x])[..|rows|] == rows;
  }

  lemma {:induction false} TasksUpdated(rows: seq<Task>, k: nat, x: Task, id: nat)
    requires k < |rows| && x.source == rows[k].source
    ensures TasksFrom(rows[k := x], id) == TasksFrom(rows, id)
  {
    var n := |rows| - 1;
    if k == n {
      assert rows[k := x][..n] == rows[..n];
    } else {
      assert rows[k := x][..n] == rows[..n][k := x];
      TasksUpdated(rows[..n], k, x, id);
    }
  }

  lemma {:induction false} NothingYet(db: Db, id: nat)
    requires forall k | 0 <= k < |db.approvals| :: db.approvals[k].proposal < id
    requires forall k | 0 <= k < |db.logs| :: db.logs[k].proposal < id
    requires forall k | 0 <= k < |db.tasks| && db.tasks[k].source.Some? :: db.tasks[k].source.value < id
    ensures DecisionsOf(db.approvals, id) == [] && LogsOf(db.logs, id) == [] && TasksFrom(db.tasks, id) == 0
    decreases |db.approvals| + |db.logs| + |db.tasks|
  {
    if |db.approvals| > 0 {
      NothingYet(db.(approvals := db.approvals[..|db.approvals| - 1]), id);
    } else if |db.logs| > 0 {
      NothingYet(db.(logs := db.logs[..|db.logs| - 1]), id);
    } else if |db.tasks| > 0 {
      NothingYet(db.(tasks := db.tasks[..|db.tasks| - 1]), id);
    }
  }

  lemma CreateConsistent(db: Db, user: User, kind: ActionType, payload: Json, target: Option<nat>, known: bool,
                         policy: Policy)
    requires Consistent(db, policy)
    ensures Consistent(Create(db, user, kind, payload, target, known, policy).0, policy)
  {
    var db' := Create(db, user, kind, payload, target, known, policy).0;
    NothingYet(db, |db.proposals|);
    forall id | 0 <= id < |db'.proposals| ensures FitsAt(db', id, policy) {
      if id < |db.proposals| {
        assert FitsAt(db, id, policy);
      }
    }
  }

  lemma DecideConsistent(db: Db, user: User, id: nat, d: Decision, policy: Policy)
    requires Consistent(db, policy)
    ensures Consistent(Decide(db, user, id, d).0, policy)
  {
    var (db', result) := Decide(db, user, id, d);
    if result.Ok? {
      forall j | 0 <= j < |db'.proposals| ensures FitsAt(db', j, policy) {
        assert FitsAt(db, j, policy);
        if j == id {
          DecidedFits(db.proposals[id], DecisionsOf(db.approvals, id), LogsOf(db.logs, id),
                      TasksFrom(db.tasks, id), d, policy);
        }
      }
    }
  }

  /** One more decision on a proposal that admits it. */
  lemma DecidedFits(p: Proposal, ds: seq<Decision>, logs: seq<LogStatus>, tasks: nat, d: Decision, policy: Policy)
    requires Fits(p, ds, logs, tasks, policy)
    requires d == Approve ==> p.status in {Proposed, Approved}
    requires p.status !in {Executed, Expired}
    ensures Fits(p.(status := DecidedStatus(d)), ds + [d], logs, tasks, policy)
  {
  }

  /** A log entry for an approved proposal that has none, with the status that goes with it. */
  lemma LoggedFits(db: Db, mid: Db, user: User, id: nat, status: LogStatus, end: ProposalStatus, policy: Policy)
    requires Consistent(db, policy) && id < |db.proposals| && db.proposals[id].status == Approved
    requires mid.proposals == db.proposals && mid.approvals == db.approvals && mid.logs == db.logs
    requires forall j | 0 <= j < |db.proposals| ::
               TasksFrom(mid.tasks, j)
               == TasksFrom(db.tasks, j)
                  + if j == id && end == Executed && CreatesTask(db.proposals[id].kind) then 1 else 0
    requires forall k | 0 <= k < |mid.tasks| && mid.tasks[k].source.Some? :: mid.tasks[k].source.value < |db.proposals|
    requires || (end == Executed && status == Completed && IsSafeInternal(db.proposals[id].kind))
             || (end == Failed && status == if IsSafeInternal(db.proposals[id].kind) then LogFailed else LogBlocked)
    ensures Consistent(Logged(mid, user, id, status, end), policy)
  {
    var db' := Logged(mid, user, id, status, end);
    forall j | 0 <= j < |db'.proposals| ensures FitsAt(db', j, policy) {
      assert FitsAt(db, j, policy);
    }
  }

  lemma ExecuteConsistent(db: Db, user: User, id: nat, policy: Policy)
    requires Consistent(db, policy)
    ensures Consistent(Execute(db, user, id, policy).0, policy)
  {
    var (db', result) := Execute(db, user, id, policy);
    if result.Ok? {
      var p := db.proposals[id];
      if !IsSafeInternal(p.kind) {
        LoggedFits(db, db, user, id, LogBlocked, Failed, policy);
      } else {
        var (mid, ok) := ExecuteInternal(db, user, id, policy);
        if ok {
          InternalTasks(db, user, id, policy);
          LoggedFits(db, mid, user, id, Completed, Executed, policy);
        } else {
          LoggedFits(db, db, user, id, LogFailed, Failed, policy);
        }
      }
    }
  }

  lemma InternalTasks(db: Db, user: User, id: nat, policy: Policy)
    requires id < |db.proposals| && ExecuteInternal(db, user, id, policy).1
    ensures var mid := ExecuteInternal(db, user, id, policy).0;
            && mid.proposals == db.proposals && mid.approvals == db.approvals && mid.logs == db.logs
            && (forall j: nat ::
                  TasksFrom(mid.tasks, j)
                  == TasksFrom(db.tasks, j) + if j == id && CreatesTask(db.proposals[id].kind) then 1 else 0)
            && |mid.tasks| >= |db.tasks|
            && (forall k | 0 <= k < |db.tasks| :: mid.tasks[k].source == db.tasks[k].source)
            && (forall k | |db.tasks| <= k < |mid.tasks| :: mid.tasks[k].source == Some(id))
  {
    var p := db.proposals[id];
    var mid := ExecuteInternal(db, user, id, policy).0;
    forall j: nat
      ensures TasksFrom(mid.tasks, j) == TasksFrom(db.tasks, j) + if j == id && CreatesTask(p.kind) then 1 else 0
    {
      if CreatesTask(p.kind) {
        TasksSnoc(db.tasks, Task(user, Some(id), true), j);
      } else if p.kind == CreateTaskFromCommitment {
        TasksUpdated(db.tasks, p.target.value, mid.tasks[p.target.value], j);
      }
    }
  }

  lemma NextConsistent(db: Db, e: Event, policy: Policy)
    requires Consistent(db, policy)
    ensures Consistent(Next(db, e, policy), policy)
  {
    match e
    case Created(user, kind, payload, target, known) =>
      CreateConsistent(db, user, kind, payload, target, known, policy);
    case Decided(user, id, d) => DecideConsistent(db, user, id, d, policy);
    case Ran(user, id) => ExecuteConsistent(db, user, id, policy);
    case TaskAdded(task) =>
      var db' := Next(db, e, policy);
      forall id | 0 <= id < |db'.proposals| ensures FitsAt(db', id, policy) {
        assert FitsAt(db, id, policy);
        TasksSnoc(db.tasks, task, id);
      }
    case FactAdded(_) =>
      assert forall id | 0 <= id < |db.proposals| :: FitsAt(Next(db, e, policy), id, policy) == FitsAt(db, id, policy);
    case SkillAdded(_) =>
      assert forall id | 0 <= id < |db.proposals| :: FitsAt(Next(db, e, policy), id, policy) == FitsAt(db, id, policy);
  }

  /**
   In every reachable state: at most one execution log for each proposal; `executed` means a
   safe internal action, approved last, with exactly one completed log and the one task it
   creates if it creates one; what the policy rejected was never approved or executed.
   */
  lemma {:induction false} RunConsistent(db: Db, es: seq<Event>, policy: Policy)
    requires Consistent(db, policy)
    ensures Consistent(Run(db, es, policy), policy)
    decreases |es|
  {
    if |es| > 0 {
      NextConsistent(db, es[0], policy);
      RunConsistent(Next(db, es[0], policy), es[1..], policy);
    }
  }

  lemma ReachableConsistent(es: seq<Event>, policy: Policy)
    ensures Consistent(Run(EMPTY, es, policy), policy)
  {
    RunConsistent(EMPTY, es, policy);
  }

  /** `executed` and `rejected` are absorbing, and a failed proposal can only be rejected. */
  lemma {:induction false} RunKeeps(db: Db, es: seq<Event>, policy: Policy, id: nat)
    requires id < |db.proposals|
    ensures id < |Run(db, es, policy).proposals|
    ensures var p, q := db.proposals[id], Run(db, es, policy).proposals[id];
            && q.user == p.user && q.kind == p.kind && q.payload == p.payload
            && (p.status == Executed ==> q.status == Executed)
            && (p.status == Rejected ==> q.status == Rejected)
            && (p.status == Failed ==> q.status in {Failed, Rejected})
    decreases |es|
  {
    if |es| > 0 {
      RunKeeps(Next(db, es[0], policy), es[1..], policy, id);
    }
  }

  /** Were two executions to pass the check before either writes, both would be logged. */
  lemma ExecutionNeedsAtomicity(db: Db, user: User, id: nat, policy: Policy)
    requires Consistent(db, policy) && Execute(db, user, id, policy).1.Ok?
    ensures |LogsOf(ExecuteChecked(ExecuteChecked(db, user, id, policy), user, id, policy).logs, id)| == 2
  {
    assert FitsAt(db, id, policy);
    ExecuteCheckedLogs(db, user, id, policy);
    ExecuteCheckedLogs(ExecuteChecked(db, user, id, policy), user, id, policy);
  }

  lemma ExecuteCheckedLogs(db: Db, user: User, id: nat, policy: Policy)
    requires id < |db.proposals|
    ensures id < |ExecuteChecked(db, user, id, policy).proposals|
    ensures |LogsOf(ExecuteChecked(db, user, id, policy).logs, id)| == |LogsOf(db.logs, id)| + 1
  {
    var mid := ExecuteInternal(db, user, id, policy).0;
    assert mid.logs == db.logs && mid.proposals == db.proposals;
  }

  /**
   A completed execution enables the skill it names exactly when that skill was approved or
   enabled before; for any other skill it is logged as completed and changes nothing.
   */
  lemma CompletedSkillIsEnabledIff(db: Db, user: User, id: nat, policy: Policy)
    requires id < |db.proposals| && db.proposals[id].kind == SkillEnable
    requires Execute(db, user, id, policy).1 == Ok(Completed)
    ensures var k := db.proposals[id].target.value;
            && k < |db.skills| && k < |Execute(db, user, id, policy).0.skills|
            && (Execute(db, user, id, policy).0.skills[k].status == SkillEnabled
               <==> db.skills[k].status in {SkillApproved, SkillEnabled})
            && (db.skills[k].status !in {SkillApproved, SkillEnabled}
               ==> Execute(db, user, id, policy).0.skills == db.skills)
  {
  }

  /** A disabled skill: the execution is logged as completed and the skill stays disabled. */
  lemma CompletedWithoutEnabling(policy: Policy)
    ensures exists db: Db ::
              && Execute(db, 0, 0, policy).1 == Ok(Completed)
              && db.skills == Execute(db, 0, 0, policy).0.skills == [Skill(0, SkillDisabled)]
  {
    var proposal := Proposal(0, SkillEnable, Scalar, Some(0), Approved);
    var db := EMPTY.(proposals := [proposal], skills := [Skill(0, SkillDisabled)]);
    assert Execute(db, 0, 0, policy).1 == Ok(Completed);
  }

  // ---- the policy ---------------------------------------------------------------------------

  /** The payload without what stands under a skipped key. */
  function Pruned(v: Json, policy: Policy): Json
    decreases v, 1
  {
    match v
    case Str(_) => v
    case Scalar => v
    case Arr(items) => Arr(PrunedItems(items, policy))
    case Obj(fields) => Obj(PrunedFields(fields, policy))
  }

  function PrunedItems(items: seq<Json>, policy: Policy): seq<Json>
    decreases items, 0
  {
    if |items| == 0 then [] else [Pruned(items[0], policy)] + PrunedItems(items[1..], policy)
  }

  function PrunedFields(fields: seq<Field>, policy: Policy): seq<Field>
    decreases fields, 0
  {
    if |fields| == 0 then []
    else (if policy.skips(fields[0].key) then [] else [Field(fields[0].key, Pruned(fields[0].value, policy))])
         + PrunedFields(fields[1..], policy)
  }

  lemma {:induction false} PrunedText(v: Json, policy: Policy)
    ensures CollectText(Pruned(v, policy), policy) == CollectText(v, policy)
    decreases v, 1
  {
    match v
    case Str(_) =>
    case Scalar =>
    case Arr(items) => PrunedItemsText(items, policy);
    case Obj(fields) => PrunedFieldsText(fields, policy);
  }

  lemma {:induction false} PrunedItemsText(items: seq<Json>, policy: Policy)
    ensures CollectItems(PrunedItems(items, policy), policy) == CollectItems(items, policy)
    decreases items, 0
  {
    if |items| > 0 {
      PrunedText(items[0], policy);
      PrunedItemsText(items[1..], policy);
      var rest := PrunedItems(items[1..], policy);
      assert ([Pruned(items[0], policy)] + rest)[1..] == rest;
    }
  }

  lemma {:induction false} PrunedFieldsText(fields: seq<Field>, policy: Policy)
    ensures CollectFields(PrunedFields(fields, policy), policy) == CollectFields(fields, policy)
    decreases fields, 0
  {
    if |fields| > 0 {
      PrunedText(fields[0].value, policy);
      PrunedFieldsText(fields[1..], policy);
      var rest := PrunedFields(fields[1..], policy);
      assert [] + rest == rest;
      assert [] + CollectFields(rest, policy) == CollectFields(rest, policy);
      assert ([Field(fields[0].key, Pruned(fields[0].value, policy))] + rest)[1..] == rest;
    }
  }

  /** The verdict does not depend on anything under a skipped key. */
  lemma SkippedKeysDoNotMatter(v: Json, w: Json, policy: Policy)
    requires Pruned(v, policy) == Pruned(w, policy)
    ensures Allowed(v, policy) == Allowed(w, policy)
  {
    PrunedText(v, policy);
    PrunedText(w, policy);
  }

  /** Texts that stand in front of or behind another one in a join. */
  predicate Leads(a: string) {
    a == "" || a[|a| - 1] == ' '
  }

  predicate Follows(b: string) {
    b == "" || b[0] == ' '
  }

  lemma {:induction false} JoinHolds(parts: seq<string>, k: nat) returns (before: string, after: string)
    requires k < |parts|
    ensures Join(parts, " ") == before + parts[k] + after
    ensures Leads(before) && Follows(after)
  {
    if |parts| == 1 {
      before, after := "", "";
    } else if k == 0 {
      before, after := "", " " + Join(parts[1..], " ");
      assert Join(parts, " ") == before + parts[0] + after;
    } else {
      var b, a := JoinHolds(parts[1..], k - 1);
      before, after := parts[0] + " " + b, a;
      assert Join(parts, " ") == before + parts[k] + after;
    }
  }

  /**
   Patterns that still match a text once it stands between others, set off by spaces. A word
   boundary at either end of a pattern is no obstacle, as a space is one too.
   */
  ghost predicate MatchesAmongSpaces(dangerous: string -> bool) {
    forall a: string, s: string, b: string :: Leads(a) && Follows(b) && dangerous(s) ==> dangerous(a + s + b)
  }

  /** One dangerous text anywhere in the payload, outside skipped keys, rejects it. */
  lemma DangerousTextIsRejected(v: Json, policy: Policy, k: nat)
    requires k < |CollectText(v, policy)| && policy.dangerous(CollectText(v, policy)[k])
    requires MatchesAmongSpaces(policy.dangerous)
    ensures !Allowed(v, policy)
  {
    var before, after := JoinHolds(CollectText(v, policy), k);
  }
}
