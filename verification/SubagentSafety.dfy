/**
 What the leases of subagent tasks guarantee over all interleavings: when a task can get a
 second report, when a finished one can come back, and how often one is attempted.
 */
module SubagentSafety {
  import opened Prelude
  import opened SubagentModel

  // ---- at most one report, unless one of three things happens ---------------------------

  datatype Hazard = ClaimedDuringReport | RequeuedWithoutLease | CrashedAfterReport

  /** The execution has passed the lease check and not yet written the row. */
  predicate Critical(t: Task, e: nat) {
    e < |t.runs| && (t.runs[e].phase.Reporting? || t.runs[e].phase.Closing?)
  }

  predicate ClaimsDuringReport(t: Task, step: Step) {
    step == Claim && Due(t) && exists e: nat :: e < |t.runs| && Critical(t, e)
  }

  predicate RequeuesWithoutLease(t: Task, step: Step) {
    step.Of? && step.action == Go && step.run < |t.runs| && t.runs[step.run].phase == Retrying
    && t.row.lease != Some(step.run)
  }

  predicate CrashesAfterReport(t: Task, step: Step) {
    step.Of? && step.action == Crash && step.run < |t.runs| && t.runs[step.run].phase.Closing?
  }

  function HazardsAt(t: Task, step: Step): set<Hazard> {
    (if ClaimsDuringReport(t, step) then {ClaimedDuringReport} else {})
    + (if RequeuesWithoutLease(t, step) then {RequeuedWithoutLease} else {})
    + (if CrashesAfterReport(t, step) then {CrashedAfterReport} else {})
  }

  function Hazards(t: Task, steps: seq<Step>, c: Settings): set<Hazard>
    decreases |steps|
  {
    if |steps| == 0 then {} else HazardsAt(t, steps[0]) + Hazards(Next(t, steps[0], c), steps[1..], c)
  }

  /** The lease of an execution that is reporting is its own or gone, so nobody else reports. */
  ghost predicate Exclusive(t: Task) {
    && (t.row.lease.Some? ==> t.row.lease.value < |t.runs|)
    && (forall e: nat | Critical(t, e) :: t.row.lease == None || t.row.lease == Some(e))
    && (forall e: nat, d: nat | Critical(t, e) && Critical(t, d) :: e == d)
  }

  /** One report at most: of an execution that is about to write the row, or of a task that is over. */
  ghost predicate ReportedOnce(t: Task) {
    && (forall e: nat | e < |t.runs| && t.runs[e].phase.Closing? :: t.reports == [e])
    && (t.reports != [] ==>
          && |t.reports| == 1
          && (forall e: nat | Critical(t, e) :: t.runs[e].phase.Closing?)
          && (Critical(t, t.reports[0]) || (t.row.status !in {Queued, Running} && t.row.lease == None)))
  }

  lemma OthersStay(t: Task, e: nat, action: Action, c: Settings)
    requires Live(t, e)
    ensures var u := Act(t, e, action, c);
            && |u.runs| == |t.runs|
            && forall d: nat | d != e :: (d < |t.runs| ==> u.runs[d] == t.runs[d]) && Critical(u, d) == Critical(t, d)
  {
  }

  lemma ProceedKeepsReports(t: Task, e: nat, c: Settings)
    requires Exclusive(t) && ReportedOnce(t) && Live(t, e) && !RequeuesWithoutLease(t, Of(e, Go))
    ensures Exclusive(Proceed(t, e, c)) && ReportedOnce(Proceed(t, e, c))
  {
    var u := Proceed(t, e, c);
    OthersStay(t, e, Go, c);
    assert u == Act(t, e, Go, c);
    if t.runs[e].phase.Checking? {
      assert Holds(t, e) ==> forall d: nat :: !Critical(t, d);
    } else if Critical(t, e) {
      assert u.reports == [e];
    } else {
      assert !Critical(u, e) && u.reports == t.reports;
    }
  }

  lemma ActKeepsReports(t: Task, e: nat, action: Action, c: Settings)
    requires Exclusive(t) && ReportedOnce(t) && Live(t, e) && action != Go
    requires !CrashesAfterReport(t, Of(e, action))
    ensures Exclusive(Act(t, e, action, c)) && ReportedOnce(Act(t, e, action, c))
  {
    OthersStay(t, e, action, c);
    var u := Act(t, e, action, c);
    assert Critical(u, e) ==> Critical(t, e) && u.runs[e].phase == t.runs[e].phase;
  }

  lemma StepKeepsReports(t: Task, step: Step, c: Settings)
    requires Exclusive(t) && ReportedOnce(t) && HazardsAt(t, step) == {}
    ensures Exclusive(Next(t, step, c)) && ReportedOnce(Next(t, step, c))
  {
    var u := Next(t, step, c);
    if step.Of? {
      assert !RequeuesWithoutLease(t, step) && !CrashesAfterReport(t, step);
      if Live(t, step.run) {
        if step.action == Go {
          ProceedKeepsReports(t, step.run, c);
        } else {
          ActKeepsReports(t, step.run, step.action, c);
        }
      }
    } else {
      assert !ClaimsDuringReport(t, step);
      assert forall d: nat | d < |t.runs| :: u.runs[d] == t.runs[d];
      assert forall d: nat :: Critical(u, d) == Critical(t, d);
    }
  }

  lemma {:induction false} RunKeepsReports(t: Task, steps: seq<Step>, c: Settings)
    requires Exclusive(t) && ReportedOnce(t) && Hazards(t, steps, c) == {}
    ensures Exclusive(Run(t, steps, c)) && ReportedOnce(Run(t, steps, c))
    decreases |steps|
  {
    if |steps| > 0 {
      assert HazardsAt(t, steps[0]) <= Hazards(t, steps, c);
      assert Hazards(Next(t, steps[0], c), steps[1..], c) <= Hazards(t, steps, c);
      StepKeepsReports(t, steps[0], c);
      RunKeepsReports(Next(t, steps[0], c), steps[1..], c);
    }
  }

  /**
   A task gets a second report only if it is claimed again between an execution's lease check
   and its last write, or requeued by an execution whose lease is gone, or a worker dies between
   its report and its last write.
   */
  lemma SecondReportNeedsHazard(now: int, steps: seq<Step>, c: Settings)
    ensures Hazards(Created(now), steps, c) == {} ==> |Run(Created(now), steps, c).reports| <= 1
  {
    if Hazards(Created(now), steps, c) == {} {
      RunKeepsReports(Created(now), steps, c);
    }
  }

  // ---- each of the three is enough ------------------------------------------------------------

  /** Some steps, with these hazards among them, lead from one state to the other. */
  ghost predicate Leads(t: Task, u: Task, h: set<Hazard>, c: Settings) {
    exists steps: seq<Step> :: Run(t, steps, c) == u && Hazards(t, steps, c) == h
  }

  lemma {:induction false} RunConcat(t: Task, a: seq<Step>, b: seq<Step>, c: Settings)
    ensures Run(t, a + b, c) == Run(Run(t, a, c), b, c)
    ensures Hazards(t, a + b, c) == Hazards(t, a, c) + Hazards(Run(t, a, c), b, c)
    decreases |a|
  {
    if |a| == 0 {
      assert a + b == b;
    } else {
      assert (a + b)[1..] == a[1..] + b;
      RunConcat(Next(t, a[0], c), a[1..], b, c);
    }
  }

  lemma Then(t: Task, u: Task, v: Task, h: set<Hazard>, k: set<Hazard>, c: Settings)
    requires Leads(t, u, h, c) && Leads(u, v, k, c)
    ensures Leads(t, v, h + k, c)
  {
    var a :| Run(t, a, c) == u && Hazards(t, a, c) == h;
    var b :| Run(u, b, c) == v && Hazards(u, b, c) == k;
    RunConcat(t, a, b, c);
  }

  lemma Take1(t: Task, step: Step, c: Settings) returns (u: Task)
    ensures u == Next(t, step, c) && Leads(t, u, HazardsAt(t, step), c)
  {
    u := Next(t, step, c);
    assert Run(u, [], c) == u && Run(t, [step], c) == u;
    assert Hazards(t, [step], c) == HazardsAt(t, step);
  }

  lemma TakeThen(t: Task, u: Task, h: set<Hazard>, step: Step, c: Settings) returns (v: Task)
    requires Leads(t, u, h, c)
    ensures v == Next(u, step, c) && Leads(t, v, h + HazardsAt(u, step), c)
  {
    v := Take1(u, step, c);
    Then(t, u, v, h, HazardsAt(u, step), c);
  }

  predicate SomeCritical(t: Task) {
    exists e: nat :: e < |t.runs| && Critical(t, e)
  }

  /** Waiting until the row is due, and claiming it. */
  lemma ClaimNow(t: Task, c: Settings) returns (u: Task)
    requires t.row.status == Queued
    ensures Leads(t, u, if SomeCritical(t) then {ClaimedDuringReport} else {}, c)
    ensures u.runs == t.runs + [Execution(Working, false)] && u.reports == t.reports
    ensures Holds(u, |t.runs|) && u.row.lockedUntil.Some?
  {
    var ms := Max(0, Max(t.row.nextRunAt.GetOr(t.now) - t.now, t.row.lockedUntil.GetOr(t.now) - t.now));
    var w := Take1(t, Tick(ms), c);
    assert Due(w) && SomeCritical(w) == SomeCritical(t) by {
      assert forall e: nat :: Critical(w, e) == Critical(t, e);
    }
    u := TakeThen(t, w, {}, Claim, c);
    assert HazardsAt(w, Claim) == if SomeCritical(t) then {ClaimedDuringReport} else {};
  }

  /** Waiting until the lease has run out, and freeing the row. */
  lemma ReclaimNow(t: Task, c: Settings) returns (u: Task)
    requires t.row.status == Running && t.row.lockedUntil.Some?
    ensures Leads(t, u, {}, c)
    ensures u.runs == t.runs && u.reports == t.reports && u.row.status == Queued
  {
    var w := Take1(t, Tick(Max(0, t.row.lockedUntil.value + 1 - t.now)), c);
    u := TakeThen(t, w, {}, Reclaim, c);
  }

  lemma PermitNow(t: Task, e: nat, c: Settings) returns (u: Task)
    requires Holds(t, e) && e < |t.runs| && t.runs[e] == Execution(Working, false)
    ensures Leads(t, u, {}, c)
    ensures u == At(t, e, Checking(Completed))
  {
    var v := Take1(t, Of(e, Return(true)), c);
    assert v == At(t, e, Permitting(Completed)) && HazardsAt(t, Of(e, Return(true))) == {};
    u := TakeThen(t, v, {}, Of(e, Permit(true)), c);
    assert HazardsAt(v, Of(e, Permit(true))) == {};
  }

  /** An execution that holds the lease returns, is permitted and passes the check. */
  lemma PassCheck(t: Task, e: nat, c: Settings) returns (u: Task)
    requires Holds(t, e) && e < |t.runs| && t.runs[e] == Execution(Working, false)
    ensures Leads(t, u, {}, c)
    ensures u == At(t, e, Reporting(Completed))
  {
    var v := PermitNow(t, e, c);
    assert HazardsAt(v, Of(e, Go)) == {} && Holds(v, e);
    u := TakeThen(t, v, {}, Of(e, Go), c);
  }

  lemma WriteReport(t: Task, e: nat, c: Settings) returns (u: Task)
    requires e < |t.runs| && t.runs[e].phase == Reporting(Completed)
    ensures Leads(t, u, {}, c)
    ensures u == At(t, e, Closing(Completed)).(reports := t.reports + [e])
  {
    u := Take1(t, Of(e, Go), c);
  }

  /** Claimed, carried out and reported. */
  lemma ReportNow(t: Task, c: Settings) returns (u: Task)
    requires t.row.status == Queued
    ensures Leads(t, u, if SomeCritical(t) then {ClaimedDuringReport} else {}, c)
    ensures u.runs == t.runs + [Execution(Closing(Completed), false)] && u.reports == t.reports + [|t.runs|]
    ensures Holds(u, |t.runs|) && u.row.lockedUntil.Some?
  {
    var h := if SomeCritical(t) then {ClaimedDuringReport} else {};
    var v := ClaimNow(t, c);
    var w := PassCheck(v, |t.runs|, c);
    Then(t, v, w, h, {}, c);
    u := WriteReport(w, |t.runs|, c);
    Then(t, w, u, h, {}, c);
  }

  ghost predicate ReportsTwice(now: int, h: set<Hazard>, c: Settings) {
    exists u: Task :: Leads(Created(now), u, h, c) && |u.reports| == 2
  }

  lemma CrashReportsTwice(now: int, c: Settings)
    ensures ReportsTwice(now, {CrashedAfterReport}, c)
  {
    var t := Created(now);
    var a := ReportNow(t, c);
    var b := TakeThen(t, a, {}, Of(0, Crash), c);
    var d := ReclaimNow(b, c);
    Then(t, b, d, {CrashedAfterReport}, {}, c);
    var u := ReportNow(d, c);
    Then(t, d, u, {CrashedAfterReport}, {}, c);
  }

  lemma OvertakingReportsTwice(now: int, c: Settings)
    ensures ReportsTwice(now, {ClaimedDuringReport}, c)
  {
    var t := Created(now);
    var a := ClaimNow(t, c);
    var b := PassCheck(a, 0, c);
    Then(t, a, b, {}, {}, c);
    assert b.runs == [Execution(Reporting(Completed), false)] && b.row.status == Running;
    var d := ReclaimNow(b, c);
    Then(t, b, d, {}, {}, c);
    assert Critical(d, 0) && SomeCritical(d);
    var e := ReportNow(d, c);
    Then(t, d, e, {}, {ClaimedDuringReport}, c);
    var u := WriteReport(e, 0, c);
    Then(t, e, u, {ClaimedDuringReport}, {}, c);
  }

  lemma RetryingNow(now: int, c: Settings) returns (u: Task)
    requires c.maxAttempts > 1
    ensures Leads(Created(now), u, {}, c) && u.row.status == Running && u.row.lockedUntil.Some? && u.reports == []
    ensures u.runs == [Execution(Retrying, false)]
  {
    var a := ClaimNow(Created(now), c);
    assert HazardsAt(a, Of(0, Throw(true))) == {};
    u := TakeThen(Created(now), a, {}, Of(0, Throw(true)), c);
  }

  /** The task is completed by a second execution while the first is about to requeue it. */
  lemma CompletedWhileRetrying(now: int, c: Settings) returns (u: Task)
    requires c.maxAttempts > 1
    ensures Leads(Created(now), u, {}, c) && u.row.status == Completed && u.row.lease == None && u.reports == [1]
    ensures u.runs == [Execution(Retrying, false), Execution(Ended, false)]
  {
    var t := Created(now);
    var b := RetryingNow(now, c);
    var d := ReclaimNow(b, c);
    Then(t, b, d, {}, {}, c);
    assert !SomeCritical(d);
    var e := ReportNow(d, c);
    Then(t, d, e, {}, {}, c);
    assert e.runs == [Execution(Retrying, false), Execution(Closing(Completed), false)];
    assert HazardsAt(e, Of(1, Go)) == {};
    u := TakeThen(t, e, {}, Of(1, Go), c);
  }

  lemma RequeueReportsTwice(now: int, c: Settings)
    requires c.maxAttempts > 1
    ensures ReportsTwice(now, {RequeuedWithoutLease}, c)
  {
    var t := Created(now);
    var a := CompletedWhileRetrying(now, c);
    var b := TakeThen(t, a, {}, Of(0, Go), c);
    assert HazardsAt(a, Of(0, Go)) == {RequeuedWithoutLease};
    var u := ReportNow(b, c);
    Then(t, b, u, {RequeuedWithoutLease}, {}, c);
  }

  /** Each of the three alone is enough for a second report; requeuing needs a second attempt to be allowed. */
  lemma EachHazardSuffices(now: int, h: Hazard, c: Settings)
    requires h == RequeuedWithoutLease ==> c.maxAttempts > 1
    ensures ReportsTwice(now, {h}, c)
  {
    match h
    case ClaimedDuringReport => OvertakingReportsTwice(now, c);
    case RequeuedWithoutLease => RequeueReportsTwice(now, c);
    case CrashedAfterReport => CrashReportsTwice(now, c);
  }

  // ---- heartbeats in time ------------------------------------------------------------------------

  /** A lease that ran out while its execution is at work. */
  predicate Late(t: Task) {
    LeaseExpired(t) && t.row.lease.Some? && Live(t, t.row.lease.value)
  }

  predicate NeverLate(t: Task, steps: seq<Step>, c: Settings)
    decreases |steps|
  {
    !Late(t) && (|steps| > 0 ==> NeverLate(Next(t, steps[0], c), steps[1..], c))
  }

  /** One execution at work at most, under a lease that is its own unless the task was stopped. */
  ghost predicate Serial(t: Task) {
    && (forall e: nat, d: nat | Live(t, e) && Live(t, d) :: e == d)
    && (forall e: nat | Live(t, e) :: t.row.status != Queued && (t.row.status == Running ==> t.row.lease == Some(e)))
  }

  lemma StepKeepsSerial(t: Task, step: Step, c: Settings)
    requires Serial(t) && !Late(t)
    ensures Serial(Next(t, step, c))
  {
    var u := Next(t, step, c);
    if step.Of? && Live(t, step.run) {
      OthersStay(t, step.run, step.action, c);
      assert forall d: nat | d != step.run :: Live(u, d) == Live(t, d);
    } else if step == Reclaim && LeaseExpired(t) {
      assert forall d: nat :: Live(u, d) == Live(t, d);
    } else {
      assert forall d: nat | d < |t.runs| :: Live(u, d) == Live(t, d);
    }
  }

  /** If no lease runs out while its execution is at work, at most one execution is at work at any time. */
  lemma {:induction false} PunctualIsSerial(t: Task, steps: seq<Step>, c: Settings)
    requires Serial(t) && NeverLate(t, steps, c)
    ensures Serial(Run(t, steps, c))
    decreases |steps|
  {
    if |steps| > 0 {
      StepKeepsSerial(t, steps[0], c);
      PunctualIsSerial(Next(t, steps[0], c), steps[1..], c);
    }
  }

  /** One report at most, of an execution that is about to write the row, or of a task that is over. */
  ghost predicate SerialReports(t: Task) {
    && (forall e: nat | e < |t.runs| && t.runs[e].phase.Closing? :: t.reports == [e])
    && (t.reports != [] ==>
          && |t.reports| == 1
          && (forall e: nat | Live(t, e) :: t.runs[e].phase.Closing?)
          && t.row.status != Queued
          && (t.row.status == Running ==> Live(t, t.reports[0])))
  }

  lemma StepKeepsSerialReports(t: Task, step: Step, c: Settings)
    requires Serial(t) && SerialReports(t) && !Late(t) && !CrashesAfterReport(t, step)
    ensures SerialReports(Next(t, step, c))
  {
    var u := Next(t, step, c);
    if step.Of? && Live(t, step.run) {
      OthersStay(t, step.run, step.action, c);
      assert forall d: nat | d != step.run :: Live(u, d) == Live(t, d) == false;
    } else if step != Claim {
      assert u.runs == t.runs;
    }
  }

  predicate NoCrashAfterReport(t: Task, steps: seq<Step>, c: Settings)
    decreases |steps|
  {
    |steps| > 0 ==> !CrashesAfterReport(t, steps[0]) && NoCrashAfterReport(Next(t, steps[0], c), steps[1..], c)
  }

  lemma {:induction false} RunKeepsSerialReports(t: Task, steps: seq<Step>, c: Settings)
    requires Serial(t) && SerialReports(t) && NeverLate(t, steps, c) && NoCrashAfterReport(t, steps, c)
    ensures SerialReports(Run(t, steps, c))
    decreases |steps|
  {
    if |steps| > 0 {
      StepKeepsSerial(t, steps[0], c);
      StepKeepsSerialReports(t, steps[0], c);
      RunKeepsSerialReports(Next(t, steps[0], c), steps[1..], c);
    }
  }

  /**
   Heartbeats in time, and no worker that dies between its report and its last write, are
   enough for one report at most, whatever is canceled, discarded or requeued meanwhile.
   */
  lemma PunctualReportsOnce(now: int, steps: seq<Step>, c: Settings)
    requires NeverLate(Created(now), steps, c) && NoCrashAfterReport(Created(now), steps, c)
    ensures |Run(Created(now), steps, c).reports| <= 1
  {
    RunKeepsSerialReports(Created(now), steps, c);
  }

  // ---- who can still report, and what can come back -------------------------------------------------

  /** The execution can still put the task back into the queue, whatever has become of it. */
  predicate CanRequeue(t: Task, e: nat, c: Settings) {
    && e < |t.runs|
    && ( || t.runs[e].phase == Retrying
         || (t.runs[e].phase == Working && !t.runs[e].aborted && e + 1 < c.maxAttempts))
  }

  predicate SomeRequeue(t: Task, c: Settings) {
    exists e: nat :: e < |t.runs| && CanRequeue(t, e, c)
  }

  predicate SomeReporting(t: Task) {
    exists e: nat :: e < |t.runs| && t.runs[e].phase.Reporting?
  }

  predicate Open(t: Task) {
    t.row.status in {Queued, Running}
  }

  predicate CanReport(t: Task, c: Settings) {
    Open(t) || SomeRequeue(t, c) || SomeReporting(t)
  }

  ghost predicate ReportsAgain(t: Task, c: Settings) {
    exists steps: seq<Step> :: |Run(t, steps, c).reports| > |t.reports|
  }

  ghost predicate ComesBack(t: Task, c: Settings) {
    exists steps: seq<Step> :: Run(t, steps, c).row.status == Queued
  }

  /** A running task has a lease with an end; so it is from the start. */
  predicate Locked(t: Task) {
    t.row.status == Running ==> t.row.lockedUntil.Some?
  }

  lemma {:induction false} RunKeepsLocked(t: Task, steps: seq<Step>, c: Settings)
    requires Locked(t)
    ensures Locked(Run(t, steps, c))
    decreases |steps|
  {
    if |steps| > 0 {
      RunKeepsLocked(Next(t, steps[0], c), steps[1..], c);
    }
  }

  lemma OverStays(t: Task, step: Step, c: Settings)
    requires !Open(t) && !SomeRequeue(t, c)
    ensures !Open(Next(t, step, c)) && !SomeRequeue(Next(t, step, c), c)
    ensures !SomeReporting(t) ==> !SomeReporting(Next(t, step, c)) && Next(t, step, c).reports == t.reports
  {
    var u := Next(t, step, c);
    if step.Of? && Live(t, step.run) {
      OthersStay(t, step.run, step.action, c);
      assert !CanRequeue(t, step.run, c);
      assert forall d: nat | d != step.run :: CanRequeue(u, d, c) == CanRequeue(t, d, c);
      assert !CanRequeue(u, step.run, c);
    } else {
      assert u.runs == t.runs;
      assert forall d: nat :: CanRequeue(u, d, c) == CanRequeue(t, d, c);
    }
  }

  lemma {:induction false} OverForGood(t: Task, steps: seq<Step>, c: Settings)
    requires !Open(t) && !SomeRequeue(t, c)
    ensures !Open(Run(t, steps, c))
    ensures !SomeReporting(t) ==> Run(t, steps, c).reports == t.reports
    decreases |steps|
  {
    if |steps| > 0 {
      OverStays(t, steps[0], c);
      OverForGood(Next(t, steps[0], c), steps[1..], c);
    }
  }

  lemma RequeueNow(t: Task, e: nat, c: Settings) returns (steps: seq<Step>)
    requires CanRequeue(t, e, c)
    ensures var u := Run(t, steps, c); u.row.status == Queued && u.reports == t.reports
  {
    if t.runs[e].phase == Retrying {
      steps := [Of(e, Go)];
      var u := Next(t, Of(e, Go), c);
      assert Run(u, [], c) == u;
    } else {
      steps := [Of(e, Throw(true)), Of(e, Go)];
      var u := Next(t, Of(e, Throw(true)), c);
      var v := Next(u, Of(e, Go), c);
      assert steps[1..] == [Of(e, Go)] && Run(v, [], c) == v && Run(u, [Of(e, Go)], c) == v;
    }
  }

  /** A task that is over comes back into the queue exactly if an execution can still requeue it. */
  lemma ComesBackIff(t: Task, c: Settings)
    requires !Open(t)
    ensures ComesBack(t, c) <==> SomeRequeue(t, c)
  {
    if e: nat :| e < |t.runs| && CanRequeue(t, e, c) {
      var steps := RequeueNow(t, e, c);
    } else if steps :| Run(t, steps, c).row.status == Queued {
      OverForGood(t, steps, c);
    }
  }

  lemma QueuedReportsAgain(t: Task, steps: seq<Step>, c: Settings)
    requires Run(t, steps, c).row.status == Queued && Run(t, steps, c).reports == t.reports
    ensures ReportsAgain(t, c)
  {
    var v := Run(t, steps, c);
    var u := ReportNow(v, c);
    var more :| Run(v, more, c) == u;
    RunConcat(t, steps, more, c);
    assert |Run(t, steps + more, c).reports| > |t.reports|;
  }

  /**
   A task can still get a report exactly if it is queued or running, or an execution can still
   requeue it or has passed its check and not yet reported.
   */
  lemma MayReportAgainIff(t: Task, c: Settings)
    requires Locked(t)
    ensures ReportsAgain(t, c) <==> CanReport(t, c)
  {
    if t.row.status == Queued {
      QueuedReportsAgain(t, [], c);
    } else if t.row.status == Running {
      var u := ReclaimNow(t, c);
      var steps :| Run(t, steps, c) == u;
      QueuedReportsAgain(t, steps, c);
    } else if e: nat :| e < |t.runs| && CanRequeue(t, e, c) {
      var steps := RequeueNow(t, e, c);
      QueuedReportsAgain(t, steps, c);
    } else if e: nat :| e < |t.runs| && t.runs[e].phase.Reporting? {
      var u := Take1(t, Of(e, Go), c);
      assert |u.reports| > |t.reports|;
    } else if steps :| |Run(t, steps, c).reports| > |t.reports| {
      OverForGood(t, steps, c);
    }
  }

  // ---- who can still overwrite the status of a task that is over --------------------------------------

  /** A write of this execution may still change the status; only the check before a report looks at the lease. */
  predicate CanOverwrite(t: Task, e: nat) {
    && e < |t.runs|
    && match t.runs[e].phase
       case Working => !(t.runs[e].aborted && t.row.status in {Canceled, Expired})
       case Permitting(_) => t.row.status != Suppressed
       case Checking(_) => false
       case Reporting(end) => end != t.row.status
       case Closing(end) => end != t.row.status
       case Retrying => true
       case Expiring => t.row.status !in {Canceled, Expired}
       case ExpiringTo(end) => end != t.row.status
       case Suppressing => t.row.status != Suppressed
       case Ended => false
  }

  predicate OfExecutions(steps: seq<Step>) {
    forall k | 0 <= k < |steps| :: steps[k].Of?
  }

  /** Some statements of the executions, without any by the user or the sweeps, change the status. */
  ghost predicate Overwritten(t: Task, c: Settings) {
    exists steps: seq<Step> :: OfExecutions(steps) && Run(t, steps, c).row.status != t.row.status
  }

  lemma ActLeavesStatus(t: Task, e: nat, action: Action, c: Settings)
    requires !Open(t) && Live(t, e) && forall d: nat :: !CanOverwrite(t, d)
    ensures var u := Act(t, e, action, c);
            u.row.status == t.row.status && forall d: nat :: !CanOverwrite(u, d)
  {
    var u := Act(t, e, action, c);
    OthersStay(t, e, action, c);
    assert !CanOverwrite(t, e);
    assert u.row.status == t.row.status;
    assert forall d: nat | d != e :: CanOverwrite(u, d) == CanOverwrite(t, d);
    assert !CanOverwrite(u, e);
  }

  lemma {:induction false} StatusStays(t: Task, steps: seq<Step>, c: Settings)
    requires !Open(t) && OfExecutions(steps) && forall d: nat :: !CanOverwrite(t, d)
    ensures Run(t, steps, c).row.status == t.row.status
    decreases |steps|
  {
    if |steps| > 0 {
      assert steps[0].Of? && OfExecutions(steps[1..]);
      if Live(t, steps[0].run) {
        ActLeavesStatus(t, steps[0].run, steps[0].action, c);
      }
      StatusStays(Next(t, steps[0], c), steps[1..], c);
    }
  }

  /** What brings an execution nearer to its write. */
  function Nearer(t: Task, e: nat): Action
    requires e < |t.runs|
  {
    match t.runs[e].phase
    case Working => if t.row.status in {Canceled, Expired} || t.runs[e].aborted then Return(true) else Abort
    case Permitting(_) => Permit(false)
    case _ => Go
  }

  function Distance(x: Execution): nat {
    match x.phase
    case Working => if x.aborted then 4 else 5
    case Permitting(_) => 3
    case Reporting(_) => 2
    case Expiring => 2
    case _ => 1
  }

  lemma {:induction false} OverwriteNow(t: Task, e: nat, c: Settings) returns (steps: seq<Step>)
    requires !Open(t) && CanOverwrite(t, e)
    ensures OfExecutions(steps) && Run(t, steps, c).row.status != t.row.status
    decreases Distance(t.runs[e])
  {
    var u := Act(t, e, Nearer(t, e), c);
    assert u == Next(t, Of(e, Nearer(t, e)), c);
    var rest := [];
    if u.row.status == t.row.status {
      rest := OverwriteNow(u, e, c);
    }
    steps := [Of(e, Nearer(t, e))] + rest;
    assert steps[1..] == rest;
  }

  /**
   The status of a task that is over changes once more, without the user or a sweep, exactly if
   some execution has yet to make a write that differs, whoever holds the lease.
   */
  lemma OverwrittenIff(t: Task, c: Settings)
    requires !Open(t)
    ensures Overwritten(t, c) <==> exists e: nat :: CanOverwrite(t, e)
  {
    if e: nat :| CanOverwrite(t, e) {
      var steps := OverwriteNow(t, e, c);
    } else if steps :| OfExecutions(steps) && Run(t, steps, c).row.status != t.row.status {
      StatusStays(t, steps, c);
    }
  }

  // ---- how often ----------------------------------------------------------------------------------------

  /** How many leases were taken away from the task. */
  function Reclaims(t: Task, steps: seq<Step>, c: Settings): nat
    decreases |steps|
  {
    if |steps| == 0 then 0
    else (if steps[0] == Reclaim && LeaseExpired(t) then 1 else 0) + Reclaims(Next(t, steps[0], c), steps[1..], c)
  }

  /** How many of the executions that were allowed to requeue are over. */
  function Spent(runs: seq<Execution>, max: nat): nat {
    if |runs| == 0 then 0
    else
      var n := |runs| - 1;
      Spent(runs[..n], max) + if runs[n].phase == Ended && n + 1 < max then 1 else 0
  }

  lemma {:induction false} SpentBounds(runs: seq<Execution>, max: nat)
    ensures Spent(runs, max) <= |runs| && Spent(runs, max) <= Max(0, max - 1)
  {
    if |runs| > 0 {
      SpentBounds(runs[..|runs| - 1], max);
      SpentWithin(runs[..|runs| - 1], max);
    }
  }

  lemma SpentWithin(runs: seq<Execution>, max: nat)
    ensures Spent(runs, max) <= |runs|
  {
  }

  lemma {:induction false} SpentUpdate(runs: seq<Execution>, max: nat, e: nat, x: Execution)
    requires e < |runs|
    ensures Spent(runs[e := x], max) == Spent(runs, max)
              + (if x.phase == Ended && e + 1 < max then 1 else 0)
              - (if runs[e].phase == Ended && e + 1 < max then 1 else 0)
  {
    var n := |runs| - 1;
    if e < n {
      SpentUpdate(runs[..n], max, e, x);
      assert runs[e := x][..n] == runs[..n][e := x];
    } else {
      assert runs[e := x][..n] == runs[..n];
    }
  }

  /** What bounds the attempts, with `k` leases taken away so far. */
  ghost predicate Counted(t: Task, k: nat, c: Settings) {
    && |t.runs| + (if t.row.status == Queued then 1 else 0) <= 1 + Spent(t.runs, c.maxAttempts) + k
    && forall e: nat | e < |t.runs| && t.runs[e].phase == Retrying :: e + 1 < c.maxAttempts
  }

  lemma ActCounted(t: Task, e: nat, action: Action, k: nat, c: Settings)
    requires Counted(t, k, c) && Live(t, e)
    ensures Counted(Act(t, e, action, c), k, c)
  {
    var u := Act(t, e, action, c);
    OthersStay(t, e, action, c);
    assert u.runs == t.runs[e := u.runs[e]];
    SpentUpdate(t.runs, c.maxAttempts, e, u.runs[e]);
  }

  lemma StepCounted(t: Task, step: Step, k: nat, c: Settings)
    requires Counted(t, k, c)
    ensures Counted(Next(t, step, c), k + (if step == Reclaim && LeaseExpired(t) then 1 else 0), c)
  {
    var u := Next(t, step, c);
    if step.Of? {
      if Live(t, step.run) {
        ActCounted(t, step.run, step.action, k, c);
      }
    } else if step == Claim && Due(t) {
      assert u.runs[..|t.runs|] == t.runs;
    }
  }

  lemma {:induction false} RunCounted(t: Task, steps: seq<Step>, k: nat, c: Settings)
    requires Counted(t, k, c)
    ensures Counted(Run(t, steps, c), k + Reclaims(t, steps, c), c)
    decreases |steps|
  {
    if |steps| > 0 {
      StepCounted(t, steps[0], k, c);
      var taken := if steps[0] == Reclaim && LeaseExpired(t) then 1 else 0;
      RunCounted(Next(t, steps[0], c), steps[1..], k + taken, c);
    }
  }

  /** A task is attempted as often as it is allowed to be, and once more for each lease taken away. */
  lemma AttemptsBounded(now: int, steps: seq<Step>, c: Settings)
    ensures |Run(Created(now), steps, c).runs| <= Max(1, c.maxAttempts) + Reclaims(Created(now), steps, c)
  {
    var u := Run(Created(now), steps, c);
    RunCounted(Created(now), steps, 0, c);
    SpentBounds(u.runs, c.maxAttempts);
  }

  /** Attempts that end with their worker are not counted against the maximum: there may be any number. */
  lemma {:induction false} CrashesGoOn(now: int, n: nat, c: Settings) returns (u: Task)
    ensures Leads(Created(now), u, {}, c) && u.row.status == Queued && |u.runs| == n && !SomeCritical(u)
  {
    var t := Created(now);
    if n == 0 {
      u := t;
      assert Run(t, [], c) == t && Hazards(t, [], c) == {};
    } else {
      var v := CrashesGoOn(now, n - 1, c);
      var w := ClaimNow(v, c);
      Then(t, v, w, {}, {}, c);
      assert HazardsAt(w, Of(n - 1, Crash)) == {};
      var x := TakeThen(t, w, {}, Of(n - 1, Crash), c);
      assert x.runs == v.runs + [Execution(Ended, false)];
      assert forall e: nat | e < n - 1 :: Critical(x, e) == Critical(v, e);
      u := ReclaimNow(x, c);
      Then(t, x, u, {}, {}, c);
      assert forall e: nat :: Critical(u, e) == Critical(x, e);
    }
  }
}
