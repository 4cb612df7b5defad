/** What one call of an action handler answers and leaves behind, said about its arguments and the tables. */
module ActionOutcomes {
  import opened Prelude
  import opened Text
  import opened ActionModel
  import opened ActionSafety

  /** A proposal is stored for a known session only: proposed, or rejected if its text asks for something disabled. */
  lemma CreateOutcome(db: Db, user: User, kind: ActionType, payload: Json, target: Option<nat>, known: bool,
                      policy: Policy)
    ensures var (after, r) := Create(db, user, kind, payload, target, known, policy);
            && (r.Ok? <==> known)
            && (r.Err? ==> r.error == SessionNotFound && after == db)
            && (r.Ok? ==>
                  && r.value == |db.proposals|
                  && after == db.(proposals := db.proposals + [Proposal(user, kind, payload, target,
                       if policy.dangerous(Join(CollectText(payload, policy), " ")) then Rejected else Proposed)]))
  {
  }

  /** The proposal is the user's, and in a status that may be decided so. */
  ghost predicate MayDecide(db: Db, user: User, id: nat, d: Decision) {
    && id < |db.proposals| && db.proposals[id].user == user
    && match db.proposals[id].status
       case Proposed => true
       case Approved => true
       case Rejected => d == Reject
       case Failed => d == Reject
       case Executed => false
       case Expired => false
  }

  /** A decision sets the status and leaves an approval row; a refusal names what could not be done. */
  lemma DecideOutcome(db: Db, user: User, id: nat, d: Decision)
    ensures var (after, r) := Decide(db, user, id, d);
            && (r.Ok? <==> MayDecide(db, user, id, d))
            && (r.Err? ==>
                  && after == db
                  && r.error == if id >= |db.proposals| || db.proposals[id].user != user then NotFound
                                else if d == Approve then CannotApprove else CannotReject)
            && (r.Ok? ==>
                  && r.value == id
                  && after == db.(
                       proposals := db.proposals[id := db.proposals[id].(status := if d == Approve then Approved
                                                                                 else Rejected)],
                       approvals := db.approvals + [ApprovalRow(id, user, d)]))
  {
  }

  // ---- executions ------------------------------------------------------------------------------

  ghost predicate Runnable(db: Db, user: User, id: nat) {
    id < |db.proposals| && db.proposals[id].user == user && db.proposals[id].status == Approved
  }

  /** What stands in the way of an action: nothing it names, nobody's, or a date that cannot be read. */
  ghost predicate CanDo(db: Db, user: User, p: Proposal, policy: Policy) {
    match p.kind
    case ProposeReminder => policy.dueReadable(p.payload)
    case ResearchWatchlistCreate => policy.dueReadable(p.payload)
    case CreateTaskFromCommitment =>
      p.target.Some? && p.target.value < |db.tasks| && db.tasks[p.target.value].user == user
    case ProfileFactConfirm => p.target.Some? && p.target.value < |db.facts| && db.facts[p.target.value].user == user
    case SkillEnable => p.target.Some? && p.target.value < |db.skills| && db.skills[p.target.value].user == user
    case _ => false
  }

  /** What an action does to the tasks, facts and skills. */
  ghost predicate Does(db: Db, after: Db, user: User, id: nat, p: Proposal) {
    match p.kind
    case ProposeReminder =>
      after.tasks == db.tasks + [Task(user, Some(id), true)] && after.facts == db.facts && after.skills == db.skills
    case ResearchWatchlistCreate =>
      after.tasks == db.tasks + [Task(user, Some(id), true)] && after.facts == db.facts && after.skills == db.skills
    case CreateTaskFromCommitment =>
      && p.target.Some? && p.target.value < |db.tasks|
      && after.tasks == db.tasks[p.target.value := db.tasks[p.target.value].(accepted := true)]
      && after.facts == db.facts && after.skills == db.skills
    case ProfileFactConfirm =>
      && p.target.Some? && p.target.value < |db.facts|
      && after.facts == db.facts[p.target.value := db.facts[p.target.value].(confirmed := true)]
      && after.tasks == db.tasks && after.skills == db.skills
    case SkillEnable =>
      && p.target.Some? && p.target.value < |db.skills|
      && after.tasks == db.tasks && after.facts == db.facts
      && |after.skills| == |db.skills|
      && (forall k | 0 <= k < |db.skills| && k != p.target.value :: after.skills[k] == db.skills[k])
      && var skill := db.skills[p.target.value];
         if skill.status == SkillApproved || skill.status == SkillEnabled
         then after.skills[p.target.value] == skill.(status := SkillEnabled)
         else after.skills[p.target.value] == skill
    case _ => false
  }

  /** An action that only ever goes out to other people. */
  ghost predicate GoesOut(kind: ActionType) {
    match kind
    case DraftEmail => true
    case OutboundEmailReview => true
    case ProposeCalendarEvent => true
    case DraftFollowupMessage => true
    case _ => false
  }

  /**
   Only an approved proposal of the user is executed. What would go out is blocked; what cannot be
   done is logged as failed and changes nothing else; the rest is done, logged, and executed.
   */
  lemma ExecuteOutcome(db: Db, user: User, id: nat, policy: Policy)
    ensures var (after, r) := Execute(db, user, id, policy);
            && (r.Ok? <==> Runnable(db, user, id))
            && (r.Err? ==>
                  && after == db
                  && r.error == if id < |db.proposals| && db.proposals[id].user == user then ApprovalRequired
                                else NotFound)
            && (r.Ok? ==>
                  var p := db.proposals[id];
                  && r.value == (if GoesOut(p.kind) then LogBlocked
                                 else if CanDo(db, user, p, policy) then Completed else LogFailed)
                  && after.logs == db.logs + [LogRow(id, user, r.value)]
                  && after.proposals
                     == db.proposals[id := p.(status := if r.value == Completed then Executed else Failed)]
                  && after.approvals == db.approvals
                  && if r.value == Completed then Does(db, after, user, id, p)
                     else after.tasks == db.tasks && after.facts == db.facts && after.skills == db.skills)
  {
  }

  // ---- what the policy reads ---------------------------------------------------------------------

  /** The text stands in the payload, under no key that is skipped. */
  predicate StandsIn(text: string, v: Json, policy: Policy)
    decreases v
  {
    match v
    case Str(t) => t == text
    case Scalar => false
    case Arr(items) => exists k | 0 <= k < |items| :: StandsIn(text, items[k], policy)
    case Obj(fields) =>
      exists k | 0 <= k < |fields| :: !policy.skips(fields[k].key) && StandsIn(text, fields[k].value, policy)
  }

  /** The policy reads exactly the texts of a payload that stand under no skipped key. */
  lemma {:induction false} CollectedIff(v: Json, text: string, policy: Policy)
    ensures text in CollectText(v, policy) <==> StandsIn(text, v, policy)
    decreases v, 1
  {
    match v
    case Str(_) =>
    case Scalar =>
    case Arr(items) => CollectedItemsIff(items, text, policy);
    case Obj(fields) => CollectedFieldsIff(fields, text, policy);
  }

  lemma {:induction false} CollectedItemsIff(items: seq<Json>, text: string, policy: Policy)
    ensures text in CollectItems(items, policy) <==> exists k :: 0 <= k < |items| && StandsIn(text, items[k], policy)
    decreases items, 0
  {
    if |items| > 0 {
      CollectedIff(items[0], text, policy);
      CollectedItemsIff(items[1..], text, policy);
      if k :| 0 <= k < |items| - 1 && StandsIn(text, items[1..][k], policy) {
        assert StandsIn(text, items[k + 1], policy);
      }
      if k :| 0 <= k < |items| && StandsIn(text, items[k], policy) {
        assert k > 0 ==> items[k] == items[1..][k - 1];
      }
    }
  }

  lemma {:induction false} CollectedFieldsIff(fields: seq<Field>, text: string, policy: Policy)
    ensures text in CollectFields(fields, policy) <==>
              exists k :: 0 <= k < |fields| && !policy.skips(fields[k].key) && StandsIn(text, fields[k].value, policy)
    decreases fields, 0
  {
    if |fields| > 0 {
      CollectedIff(fields[0].value, text, policy);
      CollectedFieldsIff(fields[1..], text, policy);
      if k :| 0 <= k < |fields| - 1 && !policy.skips(fields[1..][k].key)
              && StandsIn(text, fields[1..][k].value, policy) {
        assert fields[1..][k] == fields[k + 1];
      }
      if k :| 0 <= k < |fields| && !policy.skips(fields[k].key) && StandsIn(text, fields[k].value, policy) {
        assert k > 0 ==> fields[k] == fields[1..][k - 1];
      }
    }
  }

  /** A dangerous text that stands anywhere in a payload has the proposal rejected. */
  lemma DangerousIsRejected(db: Db, user: User, kind: ActionType, payload: Json, target: Option<nat>, policy: Policy,
                            text: string)
    requires StandsIn(text, payload, policy) && policy.dangerous(text) && MatchesAmongSpaces(policy.dangerous)
    ensures var after := Create(db, user, kind, payload, target, true, policy).0;
            |after.proposals| > 0 && after.proposals[|after.proposals| - 1].status == Rejected
  {
    CollectedIff(payload, text, policy);
    var k :| 0 <= k < |CollectText(payload, policy)| && CollectText(payload, policy)[k] == text;
    DangerousTextIsRejected(payload, policy, k);
  }

  // ---- runs ------------------------------------------------------------------------------------------

  /** What an event comes to: a handler call, or a row that some other feature adds; of tasks, one without a source. */
  ghost predicate ComesTo(db: Db, after: Db, e: Event, policy: Policy) {
    match e
    case Created(user, kind, payload, target, known) =>
      after == Create(db, user, kind, payload, target, known, policy).0
    case Decided(user, id, d) => after == Decide(db, user, id, d).0
    case Ran(user, id) => after == Execute(db, user, id, policy).0
    case TaskAdded(task) => after == if task.source.Some? then db else db.(tasks := db.tasks + [task])
    case FactAdded(fact) => after == db.(facts := db.facts + [fact])
    case SkillAdded(skill) => after == db.(skills := db.skills + [skill])
  }

  /** A run takes its events one after the other, up to the last. */
  lemma {:induction false} RunSnoc(db: Db, es: seq<Event>, e: Event, policy: Policy)
    ensures Run(db, [], policy) == db && ComesTo(Run(db, es, policy), Run(db, es + [e], policy), e, policy)
    decreases |es|
  {
    if |es| == 0 {
      assert es + [e] == [e] && Run(Next(db, e, policy), [], policy) == Next(db, e, policy);
    } else {
      assert (es + [e])[1..] == es[1..] + [e];
      RunSnoc(Next(db, es[0], policy), es[1..], e, policy);
    }
  }
}
