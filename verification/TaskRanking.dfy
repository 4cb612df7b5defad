/** Scores of tasks and the order in which the inbox shows them. */
module TaskRanking {
  import opened Prelude
  import opened StableSorting

  datatype Priority = LowPriority | NormalPriority | HighPriority | UrgentPriority | OtherPriority

  datatype TaskStatus = Proposed | Accepted | Scheduled | Blocked | Waiting | Done | Dismissed | Expired

  datatype Sensitivity = LowSensitivity | MediumSensitivity | HighSensitivity | Sensitive

  /** The columns the ranking reads. Instants are milliseconds. */
  datatype Ranked = Ranked(
    dueAt: Option<int>,
    priority: Priority,
    suggestedAt: int,
    status: TaskStatus,
    detail: Option<string>,
    nextStep: Option<string>,
    blockedBy: Option<string>)

  datatype Explanation = Explanation(
    urgency: real,
    confidence: real,
    risk: real,
    actionability: real,
    freshness: real,
    dependency: real,
    dismissal: real,
    total: real)

  const DAY := 86_400_000

  predicate Truthy(s: Option<string>) {
    s.Some? && s.value != ""
  }

  /** Quotient rounded up, for a positive divisor. */
  function CeilDiv(a: int, b: int): int
    requires b > 0
  {
    -((-a) / b)
  }

  function DaysUntil(due: Option<int>, now: int): Option<int> {
    if due.None? then None else Some(CeilDiv(due.value - now, DAY))
  }

  function PriorityScore(p: Priority): real {
    match p
    case UrgentPriority => 100.0
    case HighPriority => 75.0
    case NormalPriority => 45.0
    case LowPriority => 20.0
    case OtherPriority => 40.0
  }

  function UrgencyScore(days: Option<int>): real {
    if days.None? then 0.0
    else if days.value < 0 then 120.0
    else RealMax(0.0, 80.0 - days.value as real * 12.0)
  }

  function Explain(task: Ranked, now: int): Explanation {
    var risk := PriorityScore(task.priority);
    var urgency := UrgencyScore(DaysUntil(task.dueAt, now));
    var ageDays := RealMax(0.0, (now - task.suggestedAt) as real / DAY as real);
    var confidence := if task.status in {Accepted, Scheduled} then 12.0 else 0.0;
    var actionability := if Truthy(task.nextStep) || Truthy(task.detail) then 18.0 else 5.0;
    var dependency := if Truthy(task.blockedBy) || task.status in {Waiting, Blocked} then -24.0 else 0.0;
    var dismissal := if task.status == Dismissed then -60.0 else 0.0;
    var freshness := RealMax(0.0, 20.0 - ageDays * 2.0);
    Explanation(urgency, confidence, risk, actionability, freshness, dependency, dismissal,
                urgency + confidence + risk + actionability + freshness + dependency + dismissal)
  }

  function Total(task: Ranked, now: int): real {
    Explain(task, now).total
  }

  /** The comparison `scoreTask(b) - scoreTask(a)`. */
  function Descending(now: int): Ranked -> real {
    (t: Ranked) => -Total(t, now)
  }

  function RankTasks(tasks: seq<Ranked>, now: int): seq<Ranked> {
    StableSort(tasks, Descending(now))
  }

  /** Every total lies between -59 and 270, and a task the inbox shows has at least 1. */
  lemma TotalBounds(task: Ranked, now: int)
    ensures -59.0 <= Total(task, now) <= 270.0
    ensures task.status in {Proposed, Accepted, Scheduled, Blocked, Waiting} ==> 1.0 <= Total(task, now)
  {
    var e := Explain(task, now);
    assert 0.0 <= e.freshness <= 20.0;
    assert 0.0 <= e.urgency <= 120.0;
  }

  /** Both ends are reached. */
  lemma TotalBoundsAttained(now: int)
    ensures Total(Ranked(Some(now - DAY), UrgentPriority, now, Accepted, Some("x"), None, None), now) == 270.0
    ensures Total(Ranked(None, LowPriority, now - 10 * DAY, Dismissed, None, None, Some("x")), now) == -59.0
    ensures Total(Ranked(None, LowPriority, now - 10 * DAY, Waiting, None, None, None), now) == 1.0
  {
    assert CeilDiv(-DAY, DAY) == -1;
    assert (10 * DAY) as real / DAY as real == 10.0;
  }

  lemma CeilMonotone(a: int, b: int)
    requires a <= b
    ensures CeilDiv(a, DAY) <= CeilDiv(b, DAY)
  {
    var p, q := (-a) / DAY, (-b) / DAY;
    assert -a == p * DAY + (-a) % DAY && -b == q * DAY + (-b) % DAY;
  }

  /** Moving a due date earlier never lowers the total. */
  lemma EarlierIsNoLower(task: Ranked, earlier: int, now: int)
    requires task.dueAt.Some? && earlier <= task.dueAt.value
    ensures Total(task.(dueAt := Some(earlier)), now) >= Total(task, now)
  {
    CeilMonotone(earlier - now, task.dueAt.value - now);
  }

  /**
   The ranking keeps every task, puts higher totals first, and leaves tasks with equal
   totals in the order in which they came.
   */
  lemma RankingIsStable(tasks: seq<Ranked>, now: int)
    ensures IsStableSort(tasks, Descending(now), RankTasks(tasks, now))
    ensures multiset(RankTasks(tasks, now)) == multiset(tasks)
    ensures forall i, j | 0 <= i < j < |RankTasks(tasks, now)| ::
              Total(RankTasks(tasks, now)[i], now) >= Total(RankTasks(tasks, now)[j], now)
  {
    StableSortIsStable(tasks, Descending(now));
    var r := RankTasks(tasks, now);
    forall i, j | 0 <= i < j < |r| ensures Total(r[i], now) >= Total(r[j], now) {
      assert Descending(now)(r[i]) <= Descending(now)(r[j]);
    }
  }

  // ---- the priority a commitment gives its task -------------------------------------------

  function PriorityForCommitment(dueAt: Option<int>, confidence: real, sensitivity: Sensitivity, now: int): Priority {
    var days := DaysUntil(dueAt, now);
    if days.Some? && days.value <= 1 then UrgentPriority
    else if days.Some? && days.value <= 3 then HighPriority
    else if sensitivity == HighSensitivity || confidence >= 0.85 then HighPriority
    else NormalPriority
  }

  /** An earlier date, a higher confidence, or having a date at all never lowers the priority. */
  lemma PriorityMonotone(due: Option<int>, earlier: int, c: real, d: real, sensitivity: Sensitivity, now: int)
    requires due.Some? ==> earlier <= due.value
    requires c <= d
    ensures PriorityScore(PriorityForCommitment(due, c, sensitivity, now))
         <= PriorityScore(PriorityForCommitment(Some(earlier), d, sensitivity, now))
  {
    if due.Some? {
      CeilMonotone(earlier - now, due.value - now);
    }
  }

  // ---- what each part of a score is worth -----------------------------------------------------

  /** A date `days` whole days ahead, a begun day counting as one. */
  ghost predicate IsAhead(due: int, now: int, days: int) {
    (days - 1) * 86_400_000 < due - now <= days * 86_400_000
  }

  lemma DaysAre(due: int, now: int, days: int)
    requires IsAhead(due, now, days)
    ensures DaysUntil(Some(due), now) == Some(days)
  {
    var x := due - now;
    assert -x == ((-x) / DAY) * DAY + (-x) % DAY;
  }

  /** Without a date nothing is urgent, and past one most; in between urgency falls by twelve a day, for a week. */
  lemma UrgencyIs(task: Ranked, now: int, days: int)
    requires task.dueAt.Some? ==> IsAhead(task.dueAt.value, now, days)
    ensures Explain(task, now).urgency
            == if task.dueAt.None? then 0.0
               else if days < 0 then 120.0
               else if days < 7 then 80.0 - 12.0 * days as real
               else 0.0
  {
    if task.dueAt.Some? {
      DaysAre(task.dueAt.value, now, days);
    }
  }

  /** What a status is worth, against a task that is only proposed. */
  lemma StatusEffect(task: Ranked, status: TaskStatus, now: int)
    ensures Total(task.(status := status), now) - Total(task.(status := Proposed), now)
            == match status
               case Accepted => 12.0
               case Scheduled => 12.0
               case Waiting => if Truthy(task.blockedBy) then 0.0 else -24.0
               case Blocked => if Truthy(task.blockedBy) then 0.0 else -24.0
               case Dismissed => -60.0
               case Proposed => 0.0
               case Done => 0.0
               case Expired => 0.0
  {
  }

  /** What a priority is worth, against one that the table does not name. */
  lemma PriorityEffect(task: Ranked, priority: Priority, now: int)
    ensures Total(task.(priority := priority), now) - Total(task.(priority := OtherPriority), now)
            == match priority
               case UrgentPriority => 60.0
               case HighPriority => 35.0
               case NormalPriority => 5.0
               case LowPriority => -20.0
               case OtherPriority => 0.0
  {
  }

  /** A detail or a next step is worth thirteen, once; a named blocker costs as much as waiting does. */
  lemma TextEffects(task: Ranked, now: int)
    ensures var bare := task.(detail := None, nextStep := None);
            Total(task, now) - Total(bare, now)
            == if (task.detail.Some? && task.detail.value != "") || (task.nextStep.Some? && task.nextStep.value != "")
               then 13.0 else 0.0
    ensures Total(task, now) - Total(task.(blockedBy := None), now)
            == if task.blockedBy.Some? && task.blockedBy.value != "" && task.status != Waiting && task.status != Blocked
               then -24.0 else 0.0
  {
  }

  /** Each day since a task was suggested costs two, for ten days. */
  lemma AgeEffect(task: Ranked, now: int, days: nat)
    ensures Total(task.(suggestedAt := now - days * DAY), now) - Total(task.(suggestedAt := now), now)
            == if days <= 10 then -2.0 * days as real else -20.0
  {
    assert (days * DAY) as real / DAY as real == days as real;
  }

  /** A date within a day is urgent, one within three high; else sensitivity or certainty makes it high. */
  lemma PriorityIs(dueAt: Option<int>, confidence: real, sensitivity: Sensitivity, now: int)
    ensures var p := PriorityForCommitment(dueAt, confidence, sensitivity, now);
            && (p == UrgentPriority <==> dueAt.Some? && dueAt.value - now <= 86_400_000)
            && (p == HighPriority <==>
                  p != UrgentPriority
                  && ((dueAt.Some? && dueAt.value - now <= 3 * 86_400_000) || sensitivity == HighSensitivity
                      || confidence >= 0.85))
            && p in {UrgentPriority, HighPriority, NormalPriority}
  {
    if dueAt.Some? {
      var x := dueAt.value - now;
      assert -x == ((-x) / DAY) * DAY + (-x) % DAY;
    }
  }
}
