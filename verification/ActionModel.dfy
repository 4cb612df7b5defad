/** Action proposals: the policy that admits them, and the steps that decide and execute them. */
module ActionModel {
  import opened Prelude
  import opened Text

  type User = nat

  datatype ActionType =
    | DraftEmail | OutboundEmailReview | ProposeCalendarEvent | ProposeReminder | DraftFollowupMessage
    | CreateTaskFromCommitment | ResearchWatchlistCreate | ProfileFactConfirm | SkillEnable

  datatype ProposalStatus = Proposed | Approved | Rejected | Executed | Failed | Expired

  datatype Decision = Approve | Reject

  datatype LogStatus = Completed | LogFailed | LogBlocked | DryRun

  // ---- policy --------------------------------------------------------------------------

  /** A payload; numbers, booleans and null carry no text. */
  datatype Json = Str(text: string) | Arr(items: seq<Json>) | Obj(fields: seq<Field>) | Scalar

  datatype Field = Field(key: string, value: Json)

  /**
   The patterns of the policy, which are texts that ask for a disabled capability and keys to
   skip, and the payloads whose due time, where there is one, can be read as a date.
   */
  datatype Policy = Policy(dangerous: string -> bool, skips: string -> bool, dueReadable: Json -> bool)

  function CollectText(v: Json, policy: Policy): seq<string>
    decreases v, 1
  {
    match v
    case Str(text) => [text]
    case Arr(items) => CollectItems(items, policy)
    case Obj(fields) => CollectFields(fields, policy)
    case Scalar => []
  }

  function CollectItems(items: seq<Json>, policy: Policy): seq<string>
    decreases items, 0
  {
    if |items| == 0 then [] else CollectText(items[0], policy) + CollectItems(items[1..], policy)
  }

  function CollectFields(fields: seq<Field>, policy: Policy): seq<string>
    decreases fields, 0
  {
    if |fields| == 0 then []
    else (if policy.skips(fields[0].key) then [] else CollectText(fields[0].value, policy))
         + CollectFields(fields[1..], policy)
  }

  predicate Allowed(payload: Json, policy: Policy) {
    !policy.dangerous(Join(CollectText(payload, policy), " "))
  }

  predicate IsSafeInternal(t: ActionType) {
    t in {ProposeReminder, CreateTaskFromCommitment, ResearchWatchlistCreate, ProfileFactConfirm, SkillEnable}
  }

  // ---- tables ----------------------------------------------------------------------------

  /** `target` is the id that the payload names for a task, a fact or a skill. */
  datatype Proposal = Proposal(user: User, kind: ActionType, payload: Json, target: Option<nat>, status: ProposalStatus)

  datatype ApprovalRow = ApprovalRow(proposal: nat, user: User, decision: Decision)

  datatype LogRow = LogRow(proposal: nat, user: User, status: LogStatus)

  /** A task knows the proposal that created it, if one did. */
  datatype Task = Task(user: User, source: Option<nat>, accepted: bool)

  datatype Fact = Fact(user: User, confirmed: bool)

  datatype SkillStatus = SkillProposed | SkillApproved | SkillEnabled | SkillDisabled | SkillRejected

  datatype Skill = Skill(user: User, status: SkillStatus)

  datatype Db = Db(
    proposals: seq<Proposal>,
    approvals: seq<ApprovalRow>,
    logs: seq<LogRow>,
    tasks: seq<Task>,
    facts: seq<Fact>,
    skills: seq<Skill>)

  const EMPTY := Db([], [], [], [], [], [])

  datatype Error = NotFound | CannotApprove | CannotReject | ApprovalRequired | SessionNotFound

  datatype Result<+T> = Ok(value: T) | Err(error: Error)

  predicate Owns(db: Db, user: User, id: nat) {
    id < |db.proposals| && db.proposals[id].user == user
  }

  function Create(db: Db, user: User, kind: ActionType, payload: Json, target: Option<nat>, sessionKnown: bool,
                  policy: Policy): (Db, Result<nat>) {
    if !sessionKnown then (db, Err(SessionNotFound))
    else
      var status := if Allowed(payload, policy) then Proposed else Rejected;
      (db.(proposals := db.proposals + [Proposal(user, kind, payload, target, status)]), Ok(|db.proposals|))
  }

  function DecidedStatus(d: Decision): ProposalStatus {
    if d == Approve then Approved else Rejected
  }

  function Decide(db: Db, user: User, id: nat, d: Decision): (Db, Result<nat>) {
    if !Owns(db, user, id) then (db, Err(NotFound))
    else
      var status := db.proposals[id].status;
      if d == Approve && status !in {Proposed, Approved} then (db, Err(CannotApprove))
      else if status in {Executed, Expired} then (db, Err(CannotReject))
      else (db.(proposals := db.proposals[id := db.proposals[id].(status := DecidedStatus(d))],
                approvals := db.approvals + [ApprovalRow(id, user, d)]), Ok(id))
  }

  /** The internal effect of an action, and whether it raised an error. */
  function ExecuteInternal(db: Db, user: User, id: nat, policy: Policy): (Db, bool)
    requires id < |db.proposals|
  {
    var p := db.proposals[id];
    match p.kind
    case ProposeReminder => InsertTask(db, user, id, policy)
    case ResearchWatchlistCreate => InsertTask(db, user, id, policy)
    case CreateTaskFromCommitment =>
      if p.target.None? || p.target.value >= |db.tasks| || db.tasks[p.target.value].user != user then (db, false)
      else (db.(tasks := db.tasks[p.target.value := db.tasks[p.target.value].(accepted := true)]), true)
    case ProfileFactConfirm =>
      if p.target.None? || p.target.value >= |db.facts| || db.facts[p.target.value].user != user then (db, false)
      else (db.(facts := db.facts[p.target.value := Fact(user, true)]), true)
    case SkillEnable =>
      if p.target.None? || p.target.value >= |db.skills| || db.skills[p.target.value].user != user then (db, false)
      else (EnableSkill(db, p.target.value), true)
    case DraftEmail => (db, false)
    case OutboundEmailReview => (db, false)
    case ProposeCalendarEvent => (db, false)
    case DraftFollowupMessage => (db, false)
  }

  function InsertTask(db: Db, user: User, id: nat, policy: Policy): (Db, bool)
    requires id < |db.proposals|
  {
    if !policy.dueReadable(db.proposals[id].payload) then (db, false)
    else (db.(tasks := db.tasks + [Task(user, Some(id), true)]), true)
  }

  /** Enabling does nothing, and reports nothing, unless the skill was approved before. */
  function EnableSkill(db: Db, skill: nat): Db
    requires skill < |db.skills|
  {
    if db.skills[skill].status in {SkillApproved, SkillEnabled}
    then db.(skills := db.skills[skill := db.skills[skill].(status := SkillEnabled)])
    else db
  }

  function Logged(db: Db, user: User, id: nat, status: LogStatus, end: ProposalStatus): Db
    requires id < |db.proposals|
  {
    db.(logs := db.logs + [LogRow(id, user, status)], proposals := db.proposals[id := db.proposals[id].(status := end)])
  }

  /** Everything an execution does once its check has passed. */
  function ExecuteChecked(db: Db, user: User, id: nat, policy: Policy): Db
    requires id < |db.proposals|
  {
    if !IsSafeInternal(db.proposals[id].kind) then Logged(db, user, id, LogBlocked, Failed)
    else
      var (db', ok) := ExecuteInternal(db, user, id, policy);
      if ok then Logged(db', user, id, Completed, Executed) else Logged(db, user, id, LogFailed, Failed)
  }

  function Execute(db: Db, user: User, id: nat, policy: Policy): (Db, Result<LogStatus>) {
    if !Owns(db, user, id) then (db, Err(NotFound))
    else if db.proposals[id].status != Approved then (db, Err(ApprovalRequired))
    else
      var db' := ExecuteChecked(db, user, id, policy);
      (db', Ok(db'.logs[|db'.logs| - 1].status))
  }

  // ---- runs ---------------------------------------------------------------------------------

  datatype Event =
    | Created(user: User, kind: ActionType, payload: Json, target: Option<nat>, sessionKnown: bool)
    | Decided(user: User, id: nat, decision: Decision)
    | Ran(user: User, id: nat)
    | TaskAdded(task: Task)
    | FactAdded(fact: Fact)
    | SkillAdded(skill: Skill)

  /** One handler call, or a row that some other feature adds. */
  function Next(db: Db, e: Event, policy: Policy): Db {
    match e
    case Created(user, kind, payload, target, known) => Create(db, user, kind, payload, target, known, policy).0
    case Decided(user, id, d) => Decide(db, user, id, d).0
    case Ran(user, id) => Execute(db, user, id, policy).0
    case TaskAdded(task) => if task.source.None? then db.(tasks := db.tasks + [task]) else db
    case FactAdded(fact) => db.(facts := db.facts + [fact])
    case SkillAdded(skill) => db.(skills := db.skills + [skill])
  }

  function Run(db: Db, es: seq<Event>, policy: Policy): Db
    decreases |es|
  {
    if |es| == 0 then db else Run(Next(db, es[0], policy), es[1..], policy)
  }
}
