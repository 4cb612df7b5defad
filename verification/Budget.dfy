/** The daily research budget: a check before a search, a usage row after it. */
module Budget {
  import opened Prelude

  type User = nat

  /** A usage row. Rows of background work carry no user. */
  datatype Usage = Usage(user: Option<User>, operation: string, at: int)

  const DAY := 86_400_000
  const SEARCH := "research.search"

  function DayOf(t: int): int {
    t / DAY
  }

  /** `utcDayWindow`: midnight before or at the instant, and the midnight after. */
  function UtcDayWindow(now: int): (int, int) {
    var start := now - now % DAY;
    (start, start + DAY)
  }

  function LowerChar(c: char): char {
    if 'A' <= c <= 'Z' then ((c as int) + 32) as char else c
  }

  /** The text at `i` reads `word` in any letter case. */
  predicate ReadsAt(s: string, word: string, i: nat) {
    i + |word| <= |s| && forall j | 0 <= j < |word| :: LowerChar(s[i + j]) == word[j]
  }

  /** `ILIKE '%research%'`. */
  predicate CountsAsResearch(operation: string) {
    exists i: nat | i <= |operation| :: ReadsAt(operation, "research", i)
  }

  predicate Counted(e: Usage, user: User, start: int, end: int) {
    e.user == Some(user) && start <= e.at < end && CountsAsResearch(e.operation)
  }

  function CountUsage(events: seq<Usage>, user: User, start: int, end: int): nat {
    if |events| == 0 then 0
    else
      CountUsage(events[..|events| - 1], user, start, end)
      + if Counted(events[|events| - 1], user, start, end) then 1 else 0
  }

  function UsedToday(events: seq<Usage>, user: User, now: int): nat {
    CountUsage(events, user, UtcDayWindow(now).0, UtcDayWindow(now).1)
  }

  /** Searches of one user recorded on one day. */
  function SearchesOn(events: seq<Usage>, user: User, day: int): nat {
    if |events| == 0 then 0
    else
      var e := events[|events| - 1];
      SearchesOn(events[..|events| - 1], user, day)
      + if e.user == Some(user) && e.operation == SEARCH && DayOf(e.at) == day then 1 else 0
  }

  class Governor {
    const enabled: bool
    const limit: nat
    var events: seq<Usage>

    constructor (enabled: bool, limit: nat)
      ensures this.enabled == enabled && this.limit == limit && events == []
    {
      this.enabled, this.limit, events := enabled, limit, [];
    }

    method RecordProviderUsage(user: Option<User>, operation: string, now: int)
      modifies this
      ensures events == old(events) + [Usage(user, operation, now)]
    {
      events := events + [Usage(user, operation, now)];
    }

    /** Whether the call may go on; a refusal is the budget error. */
    method AssertBudgetAvailable(user: Option<User>, now: int) returns (ok: bool)
      ensures ok <==> Available(enabled, limit, events, user, now)
    {
      if !enabled || user.None? {
        return true;
      }
      var start, end := UtcDayWindow(now).0, UtcDayWindow(now).1;
      var used := 0;
      for i := 0 to |events|
        invariant used == CountUsage(events[..i], user.value, start, end)
      {
        assert events[..i + 1][..i] == events[..i];
        if Counted(events[i], user.value, start, end) {
          used := used + 1;
        }
      }
      assert events[..|events|] == events;
      return used < limit;
    }
  }

  predicate Available(enabled: bool, limit: nat, events: seq<Usage>, user: Option<User>, now: int) {
    enabled && user.Some? ==> UsedToday(events, user.value, now) < limit
  }

  // ---- the day window -----------------------------------------------------------------

  /** The window holds its instant, and exactly the instants of the same day. */
  lemma WindowIsDay(now: int, t: int)
    ensures UtcDayWindow(now).0 <= now < UtcDayWindow(now).1
    ensures UtcDayWindow(now).0 <= t < UtcDayWindow(now).1 <==> DayOf(t) == DayOf(now)
  {
    assert now == DayOf(now) * DAY + now % DAY && t == DayOf(t) * DAY + t % DAY;
    if DayOf(t) < DayOf(now) {
      assert DayOf(t) + 1 <= DayOf(now);
    } else if DayOf(t) > DayOf(now) {
      assert DayOf(t) >= DayOf(now) + 1;
    }
  }

  lemma SearchCounts()
    ensures CountsAsResearch(SEARCH)
  {
    assert ReadsAt(SEARCH, "research", 0);
  }

  /** Every recorded search of the day is among the rows that the check counts. */
  lemma {:induction false} SearchesAreCounted(events: seq<Usage>, user: User, now: int)
    ensures SearchesOn(events, user, DayOf(now)) <= UsedToday(events, user, now)
  {
    if |events| > 0 {
      SearchesAreCounted(events[..|events| - 1], user, now);
      WindowIsDay(now, events[|events| - 1].at);
      SearchCounts();
    }
  }

  // ---- interleaved calls ----------------------------------------------------------------

  /**
   The tables and the calls under way: each has passed its check and not yet recorded its
   search.
   */
  datatype State = State(events: seq<Usage>, clock: int, calls: seq<User>)

  datatype Step =
    | Tick(elapsed: nat)
    | Check(user: User)
    | Record(call: nat)
    | Fail(call: nat)
    | OtherUsage(row: Option<User>, operation: string)

  function Without<T>(s: seq<T>, i: nat): seq<T> {
    if i < |s| then s[..i] + s[i + 1..] else s
  }

  function Next(s: State, limit: nat, step: Step): State {
    match step
    case Tick(elapsed) => s.(clock := s.clock + elapsed)
    case Check(user) =>
      if Available(true, limit, s.events, Some(user), s.clock) then s.(calls := s.calls + [user]) else s
    case Record(i) =>
      if i < |s.calls|
      then State(s.events + [Usage(Some(s.calls[i]), SEARCH, s.clock)], s.clock, Without(s.calls, i))
      else s
    case Fail(i) => s.(calls := Without(s.calls, i))
    case OtherUsage(row, operation) =>
      if operation == SEARCH then s else s.(events := s.events + [Usage(row, operation, s.clock)])
  }

  function Run(s: State, limit: nat, steps: seq<Step>): State
    decreases |steps|
  {
    if |steps| == 0 then s else Run(Next(s, limit, steps[0]), limit, steps[1..])
  }

  function CallsOf(calls: seq<User>, user: User): nat {
    if |calls| == 0 then 0 else (if calls[0] == user then 1 else 0) + CallsOf(calls[1..], user)
  }

  /** Throughout the run the user has at most `k` calls under way. */
  ghost predicate AtMostInFlight(s: State, limit: nat, steps: seq<Step>, user: User, k: nat)
    decreases |steps|
  {
    && CallsOf(s.calls, user) <= k
    && (|steps| > 0 ==> AtMostInFlight(Next(s, limit, steps[0]), limit, steps[1..], user, k))
  }

  ghost predicate Bounded(s: State, limit: nat, user: User, k: nat) {
    && (forall i | 0 <= i < |s.events| :: s.events[i].at <= s.clock)
    && (forall day: int :: SearchesOn(s.events, user, day) <= limit + k - 1)
    && SearchesOn(s.events, user, DayOf(s.clock)) + CallsOf(s.calls, user) <= limit + k - 1
  }

  lemma {:induction false} CallsConcat(a: seq<User>, b: seq<User>, user: User)
    ensures CallsOf(a + b, user) == CallsOf(a, user) + CallsOf(b, user)
  {
    if |a| == 0 {
      assert a + b == b;
    } else {
      assert (a + b)[1..] == a[1..] + b;
      CallsConcat(a[1..], b, user);
    }
  }

  lemma CallsWithout(calls: seq<User>, i: nat, user: User)
    requires i < |calls|
    ensures CallsOf(calls, user) == CallsOf(Without(calls, i), user) + if calls[i] == user then 1 else 0
  {
    assert calls == calls[..i] + ([calls[i]] + calls[i + 1..]);
    CallsConcat(calls[..i], [calls[i]] + calls[i + 1..], user);
    CallsConcat([calls[i]], calls[i + 1..], user);
    CallsConcat(calls[..i], calls[i + 1..], user);
  }

  lemma {:induction false} NoSearchesYet(events: seq<Usage>, user: User, day: int)
    requires forall i | 0 <= i < |events| :: DayOf(events[i].at) < day
    ensures SearchesOn(events, user, day) == 0
  {
    if |events| > 0 {
      NoSearchesYet(events[..|events| - 1], user, day);
    }
  }

  lemma DayMonotone(t: int, u: int)
    requires t <= u
    ensures DayOf(t) <= DayOf(u)
  {
  }

  lemma TickBounded(s: State, limit: nat, elapsed: nat, user: User, k: nat)
    requires limit > 0 && Bounded(s, limit, user, k) && CallsOf(s.calls, user) <= k
    ensures Bounded(Next(s, limit, Tick(elapsed)), limit, user, k)
  {
    var t := s.clock + elapsed;
    DayMonotone(s.clock, t);
    if DayOf(t) != DayOf(s.clock) {
      forall i | 0 <= i < |s.events| ensures DayOf(s.events[i].at) < DayOf(t) {
        DayMonotone(s.events[i].at, s.clock);
      }
      NoSearchesYet(s.events, user, DayOf(t));
    }
  }

  lemma RecordBounded(s: State, limit: nat, i: nat, user: User, k: nat)
    requires Bounded(s, limit, user, k) && i < |s.calls|
    ensures Bounded(Next(s, limit, Record(i)), limit, user, k)
  {
    CallsWithout(s.calls, i, user);
    var e := Usage(Some(s.calls[i]), SEARCH, s.clock);
    assert (s.events + [e])[..|s.events|] == s.events;
    forall day: int ensures SearchesOn(s.events + [e], user, day) <= limit + k - 1 {
      assert SearchesOn(s.events, user, day) <= limit + k - 1;
    }
  }

  lemma NextBounded(s: State, limit: nat, step: Step, user: User, k: nat)
    requires limit > 0 && Bounded(s, limit, user, k)
    requires CallsOf(s.calls, user) <= k && CallsOf(Next(s, limit, step).calls, user) <= k
    ensures Bounded(Next(s, limit, step), limit, user, k)
  {
    match step
    case Tick(elapsed) => TickBounded(s, limit, elapsed, user, k);
    case Check(u) =>
      SearchesAreCounted(s.events, user, s.clock);
      CallsConcat(s.calls, [u], user);
    case Record(i) =>
      if i < |s.calls| {
        RecordBounded(s, limit, i, user, k);
      }
    case Fail(i) =>
      if i < |s.calls| {
        CallsWithout(s.calls, i, user);
      }
    case OtherUsage(row, operation) =>
      var e := Usage(row, operation, s.clock);
      assert (s.events + [e])[..|s.events|] == s.events;
  }

  /**
   With the budget enabled and at most `k` calls of a user under way, that user's searches
   recorded on any one day never exceed `limit + k - 1`, however checks, searches, failures
   and midnights interleave, and whatever other usage is recorded beside them.
   */
  lemma {:induction false} DailySearchesBounded(s: State, limit: nat, steps: seq<Step>, user: User, k: nat, day: int)
    requires limit > 0 && Bounded(s, limit, user, k) && AtMostInFlight(s, limit, steps, user, k)
    ensures SearchesOn(Run(s, limit, steps).events, user, day) <= limit + k - 1
    decreases |steps|
  {
    if |steps| > 0 {
      NextBounded(s, limit, steps[0], user, k);
      DailySearchesBounded(Next(s, limit, steps[0]), limit, steps[1..], user, k, day);
    }
  }

  /** From an empty table, one call at a time: never more than the limit. */
  lemma OneAtATimeKeepsLimit(limit: nat, steps: seq<Step>, user: User, day: int, clock: int)
    requires limit > 0 && AtMostInFlight(State([], clock, []), limit, steps, user, 1)
    ensures SearchesOn(Run(State([], clock, []), limit, steps).events, user, day) <= limit
  {
    DailySearchesBounded(State([], clock, []), limit, steps, user, 1, day);
  }

  // ---- the bound is reached ----------------------------------------------------------------

  function Repeat<T>(x: T, n: nat): seq<T> {
    if n == 0 then [] else [x] + Repeat(x, n - 1)
  }

  lemma {:induction false} RunConcat(s: State, limit: nat, a: seq<Step>, b: seq<Step>)
    ensures Run(s, limit, a + b) == Run(Run(s, limit, a), limit, b)
    decreases |a|
  {
    if |a| == 0 {
      assert a + b == b;
    } else {
      assert (a + b)[1..] == a[1..] + b;
      RunConcat(Next(s, limit, a[0]), limit, a[1..], b);
    }
  }

  lemma {:induction false} InFlightConcat(s: State, limit: nat, a: seq<Step>, b: seq<Step>, user: User, k: nat)
    requires AtMostInFlight(s, limit, a, user, k) && AtMostInFlight(Run(s, limit, a), limit, b, user, k)
    ensures AtMostInFlight(s, limit, a + b, user, k)
    decreases |a|
  {
    if |a| == 0 {
      assert a + b == b;
    } else {
      assert (a + b)[1..] == a[1..] + b;
      InFlightConcat(Next(s, limit, a[0]), limit, a[1..], b, user, k);
    }
  }

  /** While the budget is not spent, checks pass one after the other. */
  lemma {:induction false} ChecksPass(s: State, limit: nat, user: User, n: nat, k: nat)
    requires UsedToday(s.events, user, s.clock) < limit && CallsOf(s.calls, user) + n <= k
    ensures var end := Run(s, limit, Repeat(Check(user), n));
            end.events == s.events && end.clock == s.clock && CallsOf(end.calls, user) == CallsOf(s.calls, user) + n
            && |end.calls| == |s.calls| + n
    ensures AtMostInFlight(s, limit, Repeat(Check(user), n), user, k)
    decreases n
  {
    if n > 0 {
      CallsConcat(s.calls, [user], user);
      assert Repeat(Check(user), n)[1..] == Repeat(Check(user), n - 1);
      ChecksPass(Next(s, limit, Check(user)), limit, user, n - 1, k);
    }
  }

  /** Calls under way are recorded without another check. */
  lemma {:induction false} RecordsLand(s: State, limit: nat, user: User, n: nat, k: nat)
    requires |s.calls| == n == CallsOf(s.calls, user) <= k
    ensures var end := Run(s, limit, Repeat(Record(0), n));
            SearchesOn(end.events, user, DayOf(s.clock)) == SearchesOn(s.events, user, DayOf(s.clock)) + n
    ensures AtMostInFlight(s, limit, Repeat(Record(0), n), user, k)
    decreases n
  {
    if n > 0 {
      var next := Next(s, limit, Record(0));
      CallsWithout(s.calls, 0, user);
      CallsAtMostLength(Without(s.calls, 0), user);
      assert (s.events + [Usage(Some(s.calls[0]), SEARCH, s.clock)])[..|s.events|] == s.events;
      assert Repeat(Record(0), n)[1..] == Repeat(Record(0), n - 1);
      RecordsLand(next, limit, user, n - 1, k);
    }
  }

  lemma {:induction false} CallsAtMostLength(calls: seq<User>, user: User)
    ensures CallsOf(calls, user) <= |calls|
  {
    if |calls| > 0 {
      CallsAtMostLength(calls[1..], user);
    }
  }

  /** One search short of the limit, `k` simultaneous calls reach `limit + k - 1`. */
  lemma BoundReached(s: State, limit: nat, user: User, k: nat)
    requires limit > 0 && s.calls == []
    requires SearchesOn(s.events, user, DayOf(s.clock)) == UsedToday(s.events, user, s.clock) == limit - 1
    ensures exists steps: seq<Step> ::
              && AtMostInFlight(s, limit, steps, user, k)
              && SearchesOn(Run(s, limit, steps).events, user, DayOf(s.clock)) == limit + k - 1
  {
    var checks, records := Repeat(Check(user), k), Repeat(Record(0), k);
    ChecksPass(s, limit, user, k, k);
    var mid := Run(s, limit, checks);
    RecordsLand(mid, limit, user, k, k);
    RunConcat(s, limit, checks, records);
    InFlightConcat(s, limit, checks, records, user, k);
  }

  // ---- what is counted ---------------------------------------------------------------------------

  /** The word stands there, each letter in either case. */
  ghost predicate SpellsResearch(operation: string, i: nat) {
    i + 8 <= |operation| &&
    forall j | 0 <= j < 8 :: operation[i + j] == "research"[j] || operation[i + j] == "RESEARCH"[j]
  }

  ghost predicate NamesResearch(operation: string) {
    exists i: nat :: SpellsResearch(operation, i)
  }

  lemma LettersRead(c: char, k: nat)
    requires k < 8
    ensures LowerChar(c) == "research"[k] <==> c == "research"[k] || c == "RESEARCH"[k]
  {
  }

  lemma SpellsIff(operation: string, i: nat)
    ensures ReadsAt(operation, "research", i) <==> SpellsResearch(operation, i)
  {
    if i + 8 <= |operation| {
      forall j | 0 <= j < 8
        ensures LowerChar(operation[i + j]) == "research"[j]
                <==> operation[i + j] == "research"[j] || operation[i + j] == "RESEARCH"[j]
      {
        LettersRead(operation[i + j], j);
      }
    }
  }

  lemma CountsIff(operation: string)
    ensures CountsAsResearch(operation) <==> NamesResearch(operation)
  {
    forall i: nat ensures ReadsAt(operation, "research", i) <==> SpellsResearch(operation, i) {
      SpellsIff(operation, i);
    }
  }

  /** A usage row of the user, on this day of 86,400,000 milliseconds, whose name holds the word. */
  ghost predicate Spent(e: Usage, user: User, now: int) {
    e.user == Some(user) && e.at / 86_400_000 == now / 86_400_000 && NamesResearch(e.operation)
  }

  /** The check counts exactly those rows. */
  lemma {:induction false} UsedTodayIs(events: seq<Usage>, user: User, now: int)
    ensures UsedToday(events, user, now) == |set i: nat | i < |events| && Spent(events[i], user, now)|
  {
    if |events| > 0 {
      var n := |events| - 1;
      var init, e := events[..n], events[n];
      UsedTodayIs(init, user, now);
      WindowIsDay(now, e.at);
      CountsIff(e.operation);
      var before := set i: nat | i < |init| && Spent(init[i], user, now);
      assert (set i: nat | i < |events| && Spent(events[i], user, now))
             == before + if Spent(e, user, now) then {n} else {};
    }
  }

  // ---- one step ------------------------------------------------------------------------------------

  /** A call is under way from a check that finds less than the limit until it is recorded or fails. */
  lemma StepOutcome(s: State, limit: nat, step: Step)
    ensures var u := Next(s, limit, step);
            match step
            case Tick(elapsed) => u == State(s.events, s.clock + elapsed, s.calls)
            case Check(user) =>
              var passes := |set i: nat | i < |s.events| && Spent(s.events[i], user, s.clock)| < limit;
              u == State(s.events, s.clock, if passes then s.calls + [user] else s.calls)
            case Record(k) =>
              if k >= |s.calls| then u == s
              else u == State(s.events + [Usage(Some(s.calls[k]), SEARCH, s.clock)], s.clock,
                              s.calls[..k] + s.calls[k + 1..])
            case Fail(k) =>
              if k >= |s.calls| then u == s else u == State(s.events, s.clock, s.calls[..k] + s.calls[k + 1..])
            case OtherUsage(row, name) =>
              u == State(if name == "research.search" then s.events else s.events + [Usage(row, name, s.clock)],
                         s.clock, s.calls)
  {
    if step.Check? {
      UsedTodayIs(s.events, step.user, s.clock);
    }
  }
}
