/**
 One subagent task and the executions that claim it, as a state machine. A step is one
 statement on the task's row, one report, or a clock tick; the statements of several workers,
 of the sweep that frees expired leases, and of the user interleave in any way.
 */
module SubagentModel {
  import opened Prelude

  datatype Status = Queued | Running | Completed | Failed | Canceled | Expired | Suppressed

  type Final = s: Status | s != Queued && s != Running witness Completed

  /** The columns that the protocol reads. A lease token is the number of the execution it was made for. */
  datatype Row = Row(status: Status, lease: Option<nat>, lockedUntil: Option<int>, nextRunAt: Option<int>)

  /** Where an execution stands: what its worker is about to do. */
  datatype Phase =
    | Working
    | Permitting(end: Final)
    | Checking(end: Final)
    | Reporting(end: Final)
    | Closing(end: Final)
    | Retrying
    | Expiring
    | ExpiringTo(end: Final)
    | Suppressing
    | Ended

  datatype Execution = Execution(phase: Phase, aborted: bool)

  /** The attempt count of the row is the number of executions; a report is the number of the one that wrote it. */
  datatype Task = Task(now: int, row: Row, runs: seq<Execution>, reports: seq<nat>)

  datatype Settings = Settings(leaseMs: nat, maxAttempts: nat, retryDelay: nat -> nat)

  datatype Action =
    | Beat
    | Abort
    | Crash
    | Deny
    | Return(ok: bool)
    | Permit(sessionOpen: bool)
    | Throw(retryable: bool)
    | Go

  datatype Step =
    | Tick(ms: nat)
    | Claim
    | Reclaim
    | Cancel
    | EndSession
    | Discard
    | Sweep
    | Of(run: nat, action: Action)

  predicate Due(t: Task) {
    && t.row.status == Queued
    && (t.row.nextRunAt.Some? ==> t.row.nextRunAt.value <= t.now)
    && (t.row.lockedUntil.Some? ==> t.row.lockedUntil.value <= t.now)
  }

  predicate LeaseExpired(t: Task) {
    t.row.status == Running && t.row.lockedUntil.Some? && t.row.lockedUntil.value < t.now
  }

  predicate Holds(t: Task, e: nat) {
    t.row.status == Running && t.row.lease == Some(e)
  }

  predicate Live(t: Task, e: nat) {
    e < |t.runs| && t.runs[e].phase != Ended
  }

  function Unlocked(row: Row, status: Status): Row {
    Row(status, None, None, row.nextRunAt)
  }

  function At(t: Task, e: nat, phase: Phase): Task
    requires e < |t.runs|
  {
    t.(runs := t.runs[e := t.runs[e].(phase := phase)])
  }

  /** The next statement of an execution that has nothing left to choose. */
  function Proceed(t: Task, e: nat, c: Settings): Task
    requires e < |t.runs|
  {
    match t.runs[e].phase
    case Checking(end) => At(t, e, if Holds(t, e) then Reporting(end) else Ended)
    case Reporting(end) => At(t, e, Closing(end)).(reports := t.reports + [e])
    case Closing(end) => At(t, e, Ended).(row := Unlocked(t.row, end))
    case Retrying => At(t, e, Ended).(row := Row(Queued, None, None, Some(t.now + c.retryDelay(e + 1))))
    case Expiring => At(t, e, ExpiringTo(if t.row.status == Canceled then Canceled else Expired))
    case ExpiringTo(end) => At(t, e, Ended).(row := Unlocked(t.row, end))
    case Suppressing => At(t, e, Ended).(row := Unlocked(t.row, Suppressed))
    case _ => t
  }

  function Act(t: Task, e: nat, action: Action, c: Settings): Task
    requires e < |t.runs|
  {
    var x := t.runs[e];
    match action
    case Beat => if Holds(t, e) then t.(row := t.row.(lockedUntil := Some(t.now + c.leaseMs))) else t
    case Abort => t.(runs := t.runs[e := x.(aborted := true)])
    case Crash => At(t, e, Ended)
    case Deny => if x.phase == Working then At(t, e, Checking(Suppressed)) else t
    case Return(ok) =>
      if x.phase != Working then t
      else At(t, e, if x.aborted then Expiring else Permitting(if ok then Completed else Failed))
    case Permit(sessionOpen) =>
      if !x.phase.Permitting? then t
      else if t.row.status in {Canceled, Expired, Suppressed} || !sessionOpen then At(t, e, Suppressing)
      else At(t, e, Checking(x.phase.end))
    case Throw(retryable) =>
      if x.phase != Working then t
      else if x.aborted then At(t, e, Expiring)
      else At(t, e, if retryable && e + 1 < c.maxAttempts then Retrying else Checking(Failed))
    case Go => Proceed(t, e, c)
  }

  /** A step that is not possible changes nothing. */
  function Next(t: Task, step: Step, c: Settings): Task {
    match step
    case Tick(ms) => t.(now := t.now + ms)
    case Claim =>
      if !Due(t) then t
      else t.(row := Row(Running, Some(|t.runs|), Some(t.now + c.leaseMs), t.row.nextRunAt),
              runs := t.runs + [Execution(Working, false)])
    case Reclaim => if LeaseExpired(t) then t.(row := Row(Queued, None, None, Some(t.now))) else t
    case Cancel => t.(row := Unlocked(t.row, Canceled))
    case EndSession => t.(row := Unlocked(t.row, Suppressed))
    case Discard => t.(row := t.row.(status := Suppressed))
    case Sweep => if t.row.status in {Queued, Running} then t.(row := t.row.(status := Suppressed)) else t
    case Of(e, action) => if Live(t, e) then Act(t, e, action, c) else t
  }

  function Run(t: Task, steps: seq<Step>, c: Settings): Task
    decreases |steps|
  {
    if |steps| == 0 then t else Run(Next(t, steps[0], c), steps[1..], c)
  }

  /** A task as it is created. */
  function Created(now: int): Task {
    Task(now, Row(Queued, None, None, Some(now)), [], [])
  }
}
