/**
 What the steps of an execution come to: the status that each outcome ends in, what must have
 happened for a task to stand in a status, and how long a lease and a retry wait.
 */
module SubagentOutcomes {
  import opened Prelude
  import opened SubagentModel

  // ---- what each outcome ends in ---------------------------------------------------------

  /** An execution at work under the task's lease. */
  predicate AtWork(t: Task, e: nat) {
    Holds(t, e) && e < |t.runs| && t.runs[e] == Execution(Working, false)
  }

  /** The task is over in this status, its lease gone, and this execution has reported once more. */
  predicate EndsWithReport(t: Task, u: Task, e: nat, status: Status) {
    && u.row == Row(status, None, None, t.row.nextRunAt)
    && u.reports == t.reports + [e]
    && !Live(u, e)
  }

  /** The same without a report. */
  predicate EndsSilently(t: Task, u: Task, e: nat, status: Status) {
    && u.row == Row(status, None, None, t.row.nextRunAt)
    && u.reports == t.reports
    && !Live(u, e)
  }

  lemma Run2(t: Task, a: Step, b: Step, rest: seq<Step>, c: Settings)
    ensures Run(t, [a, b] + rest, c) == Run(Next(Next(t, a, c), b, c), rest, c)
  {
    assert ([a, b] + rest)[1..] == [b] + rest;
    assert ([b] + rest)[1..] == rest;
  }

  lemma Run1(t: Task, a: Step, rest: seq<Step>, c: Settings)
    ensures Run(t, [a] + rest, c) == Run(Next(t, a, c), rest, c)
  {
    assert ([a] + rest)[1..] == rest;
  }

  /** From a check that passes, a task ends in the status it was checked for. */
  lemma CheckedEnds(t: Task, e: nat, end: Final, c: Settings)
    requires Holds(t, e) && e < |t.runs| && t.runs[e].phase == Checking(end)
    ensures EndsWithReport(t, Run(t, [Of(e, Go), Of(e, Go), Of(e, Go)], c), e, end)
  {
    var u := Next(Next(t, Of(e, Go), c), Of(e, Go), c);
    Run2(t, Of(e, Go), Of(e, Go), [Of(e, Go)], c);
    assert [Of(e, Go), Of(e, Go)] + [Of(e, Go)] == [Of(e, Go), Of(e, Go), Of(e, Go)];
    Run1(u, Of(e, Go), [], c);
    assert [Of(e, Go)] + [] == [Of(e, Go)];
  }

  /** A worker that returns, with an open session and its lease, completes the task, or fails it. */
  lemma ReturnEnds(t: Task, e: nat, ok: bool, c: Settings)
    requires AtWork(t, e)
    ensures var u := Run(t, [Of(e, Return(ok)), Of(e, Permit(true)), Of(e, Go), Of(e, Go), Of(e, Go)], c);
            EndsWithReport(t, u, e, if ok then Completed else Failed)
  {
    var rest := [Of(e, Go), Of(e, Go), Of(e, Go)];
    Run2(t, Of(e, Return(ok)), Of(e, Permit(true)), rest, c);
    assert [Of(e, Return(ok)), Of(e, Permit(true))] + rest
           == [Of(e, Return(ok)), Of(e, Permit(true)), Of(e, Go), Of(e, Go), Of(e, Go)];
    CheckedEnds(Next(Next(t, Of(e, Return(ok)), c), Of(e, Permit(true)), c), e, if ok then Completed else Failed, c);
  }

  /** A worker that the policy denies suppresses the task, with a report. */
  lemma DenyEnds(t: Task, e: nat, c: Settings)
    requires AtWork(t, e)
    ensures EndsWithReport(t, Run(t, [Of(e, Deny), Of(e, Go), Of(e, Go), Of(e, Go)], c), e, Suppressed)
  {
    var rest := [Of(e, Go), Of(e, Go), Of(e, Go)];
    Run1(t, Of(e, Deny), rest, c);
    assert [Of(e, Deny)] + rest == [Of(e, Deny), Of(e, Go), Of(e, Go), Of(e, Go)];
    CheckedEnds(Next(t, Of(e, Deny), c), e, Suppressed, c);
  }

  /** An error that is not retryable, or of the last attempt, fails the task, with a report. */
  lemma LastThrowEnds(t: Task, e: nat, retryable: bool, c: Settings)
    requires AtWork(t, e) && (!retryable || c.maxAttempts <= e + 1)
    ensures EndsWithReport(t, Run(t, [Of(e, Throw(retryable)), Of(e, Go), Of(e, Go), Of(e, Go)], c), e, Failed)
  {
    var rest := [Of(e, Go), Of(e, Go), Of(e, Go)];
    Run1(t, Of(e, Throw(retryable)), rest, c);
    assert [Of(e, Throw(retryable))] + rest == [Of(e, Throw(retryable)), Of(e, Go), Of(e, Go), Of(e, Go)];
    CheckedEnds(Next(t, Of(e, Throw(retryable)), c), e, Failed, c);
  }

  /** Any other error puts the task back, to be claimed once its delay is over, and not before. */
  lemma RetryWaits(t: Task, e: nat, ms: nat, c: Settings)
    requires AtWork(t, e) && e + 1 < c.maxAttempts
    ensures var u := Run(t, [Of(e, Throw(true)), Of(e, Go)], c);
            && u.row.status == Queued && u.row.lease == None && u.reports == t.reports && !Live(u, e)
            && var v := Run(u, [Tick(ms), Claim], c);
               if ms >= c.retryDelay(e + 1) then AtWork(v, |t.runs|) && |v.runs| == |t.runs| + 1
               else v.row == u.row && v.runs == u.runs
  {
    Run2(t, Of(e, Throw(true)), Of(e, Go), [], c);
    var u := Next(Next(t, Of(e, Throw(true)), c), Of(e, Go), c);
    assert [Of(e, Throw(true)), Of(e, Go)] + [] == [Of(e, Throw(true)), Of(e, Go)];
    Run2(u, Tick(ms), Claim, [], c);
    assert [Tick(ms), Claim] + [] == [Tick(ms), Claim];
  }

  /** Without an open session, and for a task that was stopped, the outcome is suppressed without a report. */
  lemma UnpermittedEnds(t: Task, e: nat, ok: bool, sessionOpen: bool, c: Settings)
    requires e < |t.runs| && t.runs[e] == Execution(Working, false)
    requires sessionOpen ==> t.row.status in {Canceled, Expired, Suppressed}
    ensures EndsSilently(t, Run(t, [Of(e, Return(ok)), Of(e, Permit(sessionOpen)), Of(e, Go)], c), e, Suppressed)
  {
    Run2(t, Of(e, Return(ok)), Of(e, Permit(sessionOpen)), [Of(e, Go)], c);
    assert [Of(e, Return(ok)), Of(e, Permit(sessionOpen))] + [Of(e, Go)]
           == [Of(e, Return(ok)), Of(e, Permit(sessionOpen)), Of(e, Go)];
    Run1(Next(Next(t, Of(e, Return(ok)), c), Of(e, Permit(sessionOpen)), c), Of(e, Go), [], c);
    assert [Of(e, Go)] + [] == [Of(e, Go)];
  }

  /** An aborted worker, whether it returns or throws, leaves a canceled task canceled and any other one expired. */
  lemma AbortEnds(t: Task, e: nat, last: Action, c: Settings)
    requires e < |t.runs| && t.runs[e].phase == Working && (last.Return? || last.Throw?)
    ensures var u := Run(t, [Of(e, Abort), Of(e, last), Of(e, Go), Of(e, Go)], c);
            EndsSilently(t, u, e, if t.row.status == Canceled then Canceled else Expired)
  {
    var rest := [Of(e, Go), Of(e, Go)];
    Run2(t, Of(e, Abort), Of(e, last), rest, c);
    assert [Of(e, Abort), Of(e, last)] + rest == [Of(e, Abort), Of(e, last), Of(e, Go), Of(e, Go)];
    var u := Next(Next(t, Of(e, Abort), c), Of(e, last), c);
    Run2(u, Of(e, Go), Of(e, Go), [], c);
    assert rest + [] == rest;
  }

  /** An execution whose lease is gone writes nothing. */
  lemma StaleCheckEnds(t: Task, e: nat, end: Final, c: Settings)
    requires e < |t.runs| && t.runs[e].phase == Checking(end) && !Holds(t, e)
    ensures var u := Run(t, [Of(e, Go)], c);
            u.row == t.row && u.reports == t.reports && !Live(u, e)
  {
    Run1(t, Of(e, Go), [], c);
    assert [Of(e, Go)] + [] == [Of(e, Go)];
  }

  /** What stops a task: the user and the end of a session take the lease away, a sweep only changes an open status. */
  lemma StopEnds(t: Task, c: Settings)
    ensures Run(t, [Cancel], c) == t.(row := Row(Canceled, None, None, t.row.nextRunAt))
    ensures Run(t, [EndSession], c) == t.(row := Row(Suppressed, None, None, t.row.nextRunAt))
    ensures Run(t, [Discard], c) == t.(row := t.row.(status := Suppressed))
    ensures t.row.status == Queued || t.row.status == Running ==>
              Run(t, [Sweep], c) == t.(row := t.row.(status := Suppressed))
    ensures t.row.status != Queued && t.row.status != Running ==> Run(t, [Sweep], c) == t
  {
    assert [Cancel] + [] == [Cancel] && [EndSession] + [] == [EndSession];
    assert [Discard] + [] == [Discard] && [Sweep] + [] == [Sweep];
    Run1(t, Cancel, [], c);
    Run1(t, EndSession, [], c);
    Run1(t, Discard, [], c);
    Run1(t, Sweep, [], c);
  }

  // ---- how long a lease lasts ------------------------------------------------------------------

  /** A claim is safe from the sweep for exactly the time of the lease, and so is a heartbeat. */
  lemma LeaseLasts(t: Task, ms: nat, c: Settings)
    requires Due(t)
    ensures var u := Run(t, [Claim, Tick(ms), Reclaim], c);
            if ms <= c.leaseMs then AtWork(u, |t.runs|) else u.row.status == Queued && u.row.lease == None && Due(u)
  {
    Run2(t, Claim, Tick(ms), [Reclaim], c);
    assert [Claim, Tick(ms)] + [Reclaim] == [Claim, Tick(ms), Reclaim];
    Run1(Next(Next(t, Claim, c), Tick(ms), c), Reclaim, [], c);
    assert [Reclaim] + [] == [Reclaim];
  }

  lemma BeatRenews(t: Task, e: nat, ms: nat, c: Settings)
    requires Holds(t, e) && Live(t, e)
    ensures var u := Run(t, [Of(e, Beat), Tick(ms), Reclaim], c);
            if ms <= c.leaseMs then Holds(u, e) else u.row.status == Queued && u.row.lease == None && Due(u)
  {
    Run2(t, Of(e, Beat), Tick(ms), [Reclaim], c);
    assert [Of(e, Beat), Tick(ms)] + [Reclaim] == [Of(e, Beat), Tick(ms), Reclaim];
    Run1(Next(Next(t, Of(e, Beat), c), Tick(ms), c), Reclaim, [], c);
    assert [Reclaim] + [] == [Reclaim];
  }

  /** A heartbeat for a lease that is gone renews nothing. */
  lemma StaleBeat(t: Task, e: nat, c: Settings)
    requires t.row.status != Running || t.row.lease != Some(e)
    ensures Run(t, [Of(e, Beat)], c) == t
  {
    Run1(t, Of(e, Beat), [], c);
    assert [Of(e, Beat)] + [] == [Of(e, Beat)];
  }

  // ---- what must have happened ---------------------------------------------------------------------

  predicate Returned(steps: seq<Step>, ok: bool) {
    exists k | 0 <= k < |steps| :: steps[k].Of? && steps[k].action == Return(ok)
  }

  predicate Threw(steps: seq<Step>) {
    exists k | 0 <= k < |steps| :: steps[k].Of? && steps[k].action.Throw?
  }

  predicate Aborted(steps: seq<Step>) {
    exists k | 0 <= k < |steps| :: steps[k].Of? && steps[k].action == Abort
  }

  predicate Denied(steps: seq<Step>) {
    exists k | 0 <= k < |steps| :: steps[k].Of? && steps[k].action == Deny
  }

  predicate Asked(steps: seq<Step>, sessionOpen: bool) {
    exists k | 0 <= k < |steps| :: steps[k].Of? && steps[k].action == Permit(sessionOpen)
  }

  /** What suppresses a task without a look at its row. */
  predicate Ended(steps: seq<Step>) {
    EndSession in steps || Discard in steps || Sweep in steps
  }

  /** A permitted execution suppresses a task that it finds stopped. */
  predicate FoundStopped(steps: seq<Step>) {
    Asked(steps, true) && (Cancel in steps || Aborted(steps))
  }

  /** The steps account for this final status. */
  predicate Accounts(steps: seq<Step>, status: Status) {
    match status
    case Queued => true
    case Running => Claim in steps
    case Completed => Returned(steps, true)
    case Failed => Returned(steps, false) || Threw(steps)
    case Canceled => Cancel in steps
    case Expired => Aborted(steps)
    case Suppressed => Ended(steps) || Denied(steps) || Asked(steps, false) || FoundStopped(steps)
  }

  /** The steps account for where an execution stands. */
  predicate AccountsFor(steps: seq<Step>, x: Execution) {
    && (x.aborted ==> Aborted(steps))
    && match x.phase
       case Permitting(end) => Accounts(steps, end)
       case Checking(end) => Accounts(steps, end)
       case Reporting(end) => Accounts(steps, end)
       case Closing(end) => Accounts(steps, end)
       case Expiring => Aborted(steps)
       case ExpiringTo(end) => Accounts(steps, end)
       case Suppressing => Accounts(steps, Suppressed)
       case _ => true
  }

  ghost predicate Accounted(t: Task, steps: seq<Step>) {
    && Accounts(steps, t.row.status)
    && forall e: nat | e < |t.runs| :: AccountsFor(steps, t.runs[e])
  }

  lemma MoreSteps(steps: seq<Step>, step: Step)
    ensures forall b: bool :: (Returned(steps, b) ==> Returned(steps + [step], b))
                              && (Asked(steps, b) ==> Asked(steps + [step], b))
    ensures Threw(steps) ==> Threw(steps + [step])
    ensures Aborted(steps) ==> Aborted(steps + [step])
    ensures Denied(steps) ==> Denied(steps + [step])
    ensures Ended(steps) ==> Ended(steps + [step])
    ensures Cancel in steps ==> Cancel in steps + [step]
    ensures Claim in steps ==> Claim in steps + [step]
    ensures (steps + [step])[|steps|] == step && step in steps + [step]
  {
    var more := steps + [step];
    assert forall k | 0 <= k < |steps| :: more[k] == steps[k];
  }

  lemma MoreAccounts(steps: seq<Step>, step: Step, status: Status)
    requires Accounts(steps, status)
    ensures Accounts(steps + [step], status)
  {
    MoreSteps(steps, step);
  }

  lemma GoAccounted(t: Task, steps: seq<Step>, e: nat, c: Settings)
    requires Accounted(t, steps) && e < |t.runs|
    ensures var u := Proceed(t, e, c);
            Accounts(steps, u.row.status) && AccountsFor(steps, u.runs[e])
  {
    assert AccountsFor(steps, t.runs[e]);
  }

  lemma ActAccounted(t: Task, steps: seq<Step>, e: nat, action: Action, c: Settings)
    requires Accounted(t, steps) && e < |t.runs|
    ensures var u, more := Act(t, e, action, c), steps + [Of(e, action)];
            && (forall d: nat | d < |t.runs| && d != e :: u.runs[d] == t.runs[d]) && |u.runs| == |t.runs|
            && Accounts(more, u.row.status) && AccountsFor(more, u.runs[e])
  {
    var more := steps + [Of(e, action)];
    assert more[|steps|] == Of(e, action);
    StillAccountsFor(steps, Of(e, action), t.runs[e]);
    MoreAccounts(steps, Of(e, action), t.row.status);
    if action == Go {
      GoAccounted(t, steps, e, c);
      var u := Proceed(t, e, c);
      MoreAccounts(steps, Of(e, Go), u.row.status);
      StillAccountsFor(steps, Of(e, Go), u.runs[e]);
    } else if action.Permit? {
      MoreSteps(steps, Of(e, action));
    }
  }

  lemma StillAccountsFor(steps: seq<Step>, step: Step, x: Execution)
    requires AccountsFor(steps, x)
    ensures AccountsFor(steps + [step], x)
  {
    MoreSteps(steps, step);
  }

  lemma StepAccounted(t: Task, steps: seq<Step>, step: Step, c: Settings)
    requires Accounted(t, steps)
    ensures Accounted(Next(t, step, c), steps + [step])
  {
    var u := Next(t, step, c);
    assert (steps + [step])[|steps|] == step;
    MoreAccounts(steps, step, t.row.status);
    forall d: nat | d < |t.runs| ensures AccountsFor(steps + [step], t.runs[d]) {
      StillAccountsFor(steps, step, t.runs[d]);
    }
    if step.Of? && Live(t, step.run) {
      ActAccounted(t, steps, step.run, step.action, c);
    }
  }

  lemma {:induction false} RunAccounted(t: Task, before: seq<Step>, steps: seq<Step>, c: Settings)
    requires Accounted(t, before)
    ensures Accounted(Run(t, steps, c), before + steps)
    decreases |steps|
  {
    if |steps| == 0 {
      assert before + steps == before;
    } else {
      StepAccounted(t, before, steps[0], c);
      RunAccounted(Next(t, steps[0], c), before + [steps[0]], steps[1..], c);
      assert before + [steps[0]] + steps[1..] == before + steps;
    }
  }

  /**
   A task is completed only if a worker returned a completed report; failed only if one returned
   another report or threw; canceled only by the user; expired only if an execution was aborted;
   and suppressed only if its session ended, the policy denied it, its session was found closed,
   or an execution found it stopped by a cancellation or an abort.
   */
  lemma StatusHasItsCause(now: int, steps: seq<Step>, c: Settings)
    ensures Accounts(steps, Run(Created(now), steps, c).row.status)
  {
    RunAccounted(Created(now), [], steps, c);
    assert [] + steps == steps;
  }

  /** A single execution, from the creation of the task to its end. */
  lemma OneAttempt(now: int, ok: bool, c: Settings)
    ensures var steps := [Claim, Of(0, Return(ok)), Of(0, Permit(true)), Of(0, Go), Of(0, Go), Of(0, Go)];
            var u := Run(Created(now), steps, c);
            u.row.status == (if ok then Completed else Failed) && u.reports == [0]
  {
    var t := Next(Created(now), Claim, c);
    var rest := [Of(0, Return(ok)), Of(0, Permit(true)), Of(0, Go), Of(0, Go), Of(0, Go)];
    Run1(Created(now), Claim, rest, c);
    assert [Claim] + rest == [Claim, Of(0, Return(ok)), Of(0, Permit(true)), Of(0, Go), Of(0, Go), Of(0, Go)];
    ReturnEnds(t, 0, ok, c);
  }
}
