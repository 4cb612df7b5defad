/** The handlers of action proposals over their tables, as they change them row by row. */
module ActionService {
  import opened Prelude
  import opened ActionModel
  import M = ActionModel

  class Actions {
    var proposals: seq<Proposal>
    var approvals: seq<ApprovalRow>
    var logs: seq<LogRow>
    var tasks: seq<Task>
    var facts: seq<Fact>
    var skills: seq<Skill>

    constructor ()
      ensures Tables() == EMPTY
    {
      proposals, approvals, logs, tasks, facts, skills := [], [], [], [], [], [];
    }

    ghost function Tables(): Db
      reads this
    {
      Db(proposals, approvals, logs, tasks, facts, skills)
    }

    method CreateActionProposal(user: User, kind: ActionType, payload: Json, target: Option<nat>,
                                sessionKnown: bool, policy: Policy)
      returns (r: Result<nat>)
      modifies this
      ensures (Tables(), r) == M.Create(old(Tables()), user, kind, payload, target, sessionKnown, policy)
    {
      if !sessionKnown {
        return Err(SessionNotFound);
      }
      var status := Rejected;
      if Allowed(payload, policy) {
        status := Proposed;
      }
      proposals := proposals + [Proposal(user, kind, payload, target, status)];
      r := Ok(|proposals| - 1);
    }

    method DecideActionProposal(user: User, id: nat, decision: Decision) returns (r: Result<nat>)
      modifies this
      ensures (Tables(), r) == M.Decide(old(Tables()), user, id, decision)
    {
      if id >= |proposals| || proposals[id].user != user {
        return Err(NotFound);
      }
      var existing := proposals[id];
      if existing.status != Proposed && existing.status != Approved && decision == Approve {
        return Err(CannotApprove);
      }
      if existing.status == Executed || existing.status == Expired {
        return Err(CannotReject);
      }
      match decision {
        case Approve => proposals := proposals[id := existing.(status := Approved)];
        case Reject => proposals := proposals[id := existing.(status := Rejected)];
      }
      approvals := approvals + [ApprovalRow(id, user, decision)];
      r := Ok(id);
    }

    /** A task, fact or skill is changed only where it exists and is the user's; otherwise nothing changes. */
    method ExecuteInternal(user: User, id: nat, policy: Policy) returns (ok: bool)
      requires id < |proposals|
      modifies this
      ensures (Tables(), ok) == M.ExecuteInternal(old(Tables()), user, id, policy)
    {
      var proposal := proposals[id];
      var target := proposal.target.GetOr(0);
      if proposal.kind == ProposeReminder || proposal.kind == ResearchWatchlistCreate {
        if policy.dueReadable(proposal.payload) {
          tasks := tasks + [Task(user, Some(id), true)];
          return true;
        }
        return false;
      }
      if proposal.target.None? {
        return false;
      }
      if proposal.kind == CreateTaskFromCommitment {
        if target < |tasks| && tasks[target].user == user {
          tasks := tasks[target := tasks[target].(accepted := true)];
          return true;
        }
      } else if proposal.kind == ProfileFactConfirm {
        if target < |facts| && facts[target].user == user {
          facts := facts[target := facts[target].(confirmed := true)];
          return true;
        }
      } else if proposal.kind == SkillEnable {
        if target < |skills| && skills[target].user == user {
          if skills[target].status == SkillApproved || skills[target].status == SkillEnabled {
            skills := skills[target := skills[target].(status := SkillEnabled)];
          }
          return true;
        }
      }
      ok := false;
    }

    method RecordExecution(user: User, id: nat, status: LogStatus)
      modifies this`logs
      ensures logs == old(logs) + [LogRow(id, user, status)]
    {
      logs := logs + [LogRow(id, user, status)];
    }

    method MarkProposal(id: nat, status: ProposalStatus)
      requires id < |proposals|
      modifies this`proposals
      ensures proposals == old(proposals)[id := old(proposals[id]).(status := status)]
    {
      proposals := proposals[id := proposals[id].(status := status)];
    }

    method ExecuteActionProposal(user: User, id: nat, policy: Policy) returns (r: Result<LogStatus>)
      modifies this
      ensures (Tables(), r) == M.Execute(old(Tables()), user, id, policy)
    {
      if id >= |proposals| || proposals[id].user != user {
        return Err(NotFound);
      }
      if proposals[id].status != Approved {
        return Err(ApprovalRequired);
      }
      if !IsSafeInternal(proposals[id].kind) {
        RecordExecution(user, id, LogBlocked);
        MarkProposal(id, Failed);
        return Ok(LogBlocked);
      }
      var ok := ExecuteInternal(user, id, policy);
      if ok {
        RecordExecution(user, id, Completed);
        MarkProposal(id, Executed);
        r := Ok(Completed);
      } else {
        RecordExecution(user, id, LogFailed);
        MarkProposal(id, Failed);
        r := Ok(LogFailed);
      }
    }
  }
}
