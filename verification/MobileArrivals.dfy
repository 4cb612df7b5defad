/**
 Polling while rows arrive, possibly late: a row may become visible after rows with later
 stamps. Exactly when nothing is received twice or lost, and exactly when nothing is lost, for
 rows stamped in microseconds and polls of any sizes.
 */
module MobileArrivals {
  import opened Prelude
  import opened StableSorting
  import opened MobileFeed

  /** What the query orders, what one client has received, and its cursor. */
  datatype Feed<T> = Feed(rows: seq<T>, seen: seq<T>, since: Option<int>)

  datatype Event<T> = Arrive(row: T) | Poll(limit: Option<int>)

  function StampKey<T>(at: T -> int): T -> real {
    (x: T) => at(x) as real
  }

  /** A row that becomes visible takes its place in the order of the stamps, wherever that is. */
  function Next<T>(f: Feed<T>, e: Event<T>, at: T -> int): Feed<T> {
    match e
    case Arrive(row) => f.(rows := StableSort(f.rows + [row], StampKey(at)))
    case Poll(limit) =>
      var page := PageItems(f.rows, at, f.since, ClampLimit(limit));
      f.(seen := f.seen + page, since := NextSince(page, at, f.since))
  }

  function Run<T>(f: Feed<T>, es: seq<Event<T>>, at: T -> int): Feed<T>
    decreases |es|
  {
    if |es| == 0 then f else Run(Next(f, es[0], at), es[1..], at)
  }

  // ---- arrivals keep the order ---------------------------------------------------------

  lemma ArriveFacts<T(!new)>(f: Feed<T>, row: T, at: T -> int)
    ensures var rows := Next(f, Arrive(row), at).rows;
            && AscendingAt(rows, at)
            && |rows| == |f.rows| + 1
            && multiset(rows) == multiset(f.rows) + multiset{row}
            && forall x :: x in rows <==> x in f.rows || x == row
  {
    var both := f.rows + [row];
    var rows := Next(f, Arrive(row), at).rows;
    StableSortIsStable(both, StampKey(at));
    assert forall i, j | 0 <= i < j < |rows| :: StampKey(at)(rows[i]) <= StampKey(at)(rows[j]);
    forall x ensures x in rows <==> x in f.rows || x == row {
      assert x in rows <==> x in multiset(rows);
      assert x in multiset(both) <==> x in f.rows || x == row;
    }
  }

  /** Rows that stand strictly before all others stay in front when those are sorted. */
  lemma {:induction false} SortBehind<T>(a: seq<T>, b: seq<T>, key: T -> real)
    requires Ascending(a, key)
    requires forall i, j | 0 <= i < |a| && 0 <= j < |b| :: key(a[i]) < key(b[j])
    ensures StableSort(a + b, key) == a + StableSort(b, key)
  {
    if |a| == 0 {
      assert a + b == b && a + StableSort(b, key) == StableSort(b, key);
    } else {
      SortBehind(a[1..], b, key);
      assert (a + b)[1..] == a[1..] + b;
      InsertAhead(a, StableSort(b, key), key, b);
    }
  }

  lemma InsertAhead<T>(a: seq<T>, sorted: seq<T>, key: T -> real, b: seq<T>)
    requires |a| > 0 && Ascending(a, key) && sorted == StableSort(b, key)
    requires forall j | 0 <= j < |b| :: key(a[0]) < key(b[j])
    ensures Insert(a[0], a[1..] + sorted, key) == a + sorted
  {
    SortKeepsMultiset(b, key);
    if |a| == 1 && |sorted| > 0 {
      assert sorted[0] in multiset(sorted);
      assert sorted[0] in multiset(b);
    }
    Regroup3([a[0]], a[1..], sorted);
    assert [a[0]] + a[1..] == a;
  }

  // ---- exactly once, for any instants and any order of arrival -------------------------

  /** What was received, followed by what is after the cursor, is the table. */
  predicate Exact<T(==)>(f: Feed<T>, at: T -> int) {
    f.rows == f.seen + After(f.rows, at, f.since)
  }

  /**
   A step that leaves it so: a poll whose cursor separates what was received from the rest, or
   a row that arrives after the cursor.
   */
  ghost predicate CleanStep<T>(f: Feed<T>, e: Event<T>, at: T -> int) {
    match e
    case Arrive(row) => Later(at(row), f.since)
    case Poll(limit) =>
      var page := PageItems(f.rows, at, f.since, ClampLimit(limit));
      var k := |f.seen| + |page|;
      |page| > 0 ==> k <= |f.rows| && CleanCut(f.rows, at, k)
  }

  ghost predicate CleanSteps<T>(f: Feed<T>, es: seq<Event<T>>, at: T -> int)
    decreases |es|
  {
    |es| > 0 ==> CleanStep(f, es[0], at) && CleanSteps(Next(f, es[0], at), es[1..], at)
  }

  ghost predicate AlwaysExact<T>(f: Feed<T>, es: seq<Event<T>>, at: T -> int)
    decreases |es|
  {
    Exact(f, at) && (|es| > 0 ==> AlwaysExact(Next(f, es[0], at), es[1..], at))
  }

  /** The rows after a cursor are the rows from `k` on exactly when the cursor separates there. */
  lemma AfterIsRestIff<T>(s: seq<T>, at: T -> int, since: Option<int>, k: nat)
    requires k <= |s|
    ensures After(s, at, since) == s[k..]
       <==> (forall i | 0 <= i < k :: !Later(at(s[i]), since)) && (forall i | k <= i < |s| :: Later(at(s[i]), since))
  {
    var lo, hi := s[..k], s[k..];
    assert s == lo + hi;
    AfterConcat(lo, hi, at, since);
    if After(s, at, since) == hi {
      AfterMembers(s, at, since);
      forall i | k <= i < |s| ensures Later(at(s[i]), since) {
        assert hi[i - k] == s[i];
      }
      AfterAll(hi, at, since);
      assert |After(lo, at, since)| == 0;
      NoneAfter(lo, at, since);
      forall i | 0 <= i < k ensures !Later(at(s[i]), since) {
        assert lo[i] == s[i];
      }
    }
    if (forall i | 0 <= i < k :: !Later(at(s[i]), since)) && (forall i | k <= i < |s| :: Later(at(s[i]), since)) {
      AfterSplit(s, at, since, k);
    }
  }

  lemma {:induction false} NoneAfter<T>(s: seq<T>, at: T -> int, since: Option<int>)
    requires |After(s, at, since)| == 0
    ensures forall i | 0 <= i < |s| :: !Later(at(s[i]), since)
  {
    if |s| > 0 {
      NoneAfter(s[1..], at, since);
      assert forall i | 1 <= i < |s| :: s[i] == s[1..][i - 1];
    }
  }

  lemma PollExactIff<T>(f: Feed<T>, limit: Option<int>, at: T -> int)
    requires Exact(f, at)
    ensures Exact(Next(f, Poll(limit), at), at) <==> CleanStep(f, Poll(limit), at)
  {
    var page := PageItems(f.rows, at, f.since, ClampLimit(limit));
    var g := Next(f, Poll(limit), at);
    if |page| > 0 {
      var k := |f.seen| + |page|;
      assert g.seen == f.rows[..k];
      assert page[|page| - 1] == f.rows[k - 1];
      AfterIsRestIff(f.rows, at, g.since, k);
    } else {
      assert g.seen == f.seen;
    }
  }

  /** What was received lies at or before the cursor, and what is left in order behind it. */
  lemma ExactSplits<T>(f: Feed<T>, at: T -> int)
    requires Exact(f, at) && AscendingAt(f.rows, at)
    ensures forall i | 0 <= i < |f.seen| :: !Later(at(f.seen[i]), f.since)
    ensures AscendingAt(f.seen, at) && AscendingAt(After(f.rows, at, f.since), at)
  {
    AfterIsRestIff(f.rows, at, f.since, |f.seen|);
    assert forall i | 0 <= i < |f.seen| :: f.seen[i] == f.rows[i];
    AfterOrdered(f.rows, at, f.since);
  }

  lemma ArriveExactIff<T(!new)>(f: Feed<T>, row: T, at: T -> int)
    requires Exact(f, at) && AscendingAt(f.rows, at)
    ensures Exact(Next(f, Arrive(row), at), at) <==> CleanStep(f, Arrive(row), at)
  {
    var g, key, a := Next(f, Arrive(row), at), StampKey(at), After(f.rows, at, f.since);
    ExactSplits(f, at);
    ArriveFacts(f, row, at);
    SortAfter(f.rows + [row], at, f.since, key);
    AfterConcat(f.rows, [row], at, f.since);
    AfterCons(row, [], at, f.since);
    assert [row] == [row] + [];
    if Later(at(row), f.since) {
      Regroup3(f.seen, a, [row]);
      ArriveBehind(f, row, at);
    } else {
      SortKeepsMultiset(a, key);
      assert a + [] == a;
      assert |After(g.rows, at, f.since)| == |a|;
      assert |g.seen + After(g.rows, at, g.since)| < |g.rows|;
    }
  }

  lemma ArriveBehind<T>(f: Feed<T>, row: T, at: T -> int)
    requires Exact(f, at) && AscendingAt(f.rows, at) && Later(at(row), f.since)
    ensures StableSort(f.seen + (After(f.rows, at, f.since) + [row]), StampKey(at))
            == f.seen + StableSort(After(f.rows, at, f.since) + [row], StampKey(at))
  {
    var b := After(f.rows, at, f.since) + [row];
    ExactSplits(f, at);
    AfterMembers(f.rows, at, f.since);
    forall i, j | 0 <= i < |f.seen| && 0 <= j < |b| ensures at(f.seen[i]) < at(b[j]) {
      assert Later(at(b[j]), f.since) && !Later(at(f.seen[i]), f.since);
    }
    SortBehind(f.seen, b, StampKey(at));
  }

  lemma {:induction false} RunExactIff<T(!new)>(f: Feed<T>, es: seq<Event<T>>, at: T -> int)
    requires Exact(f, at) && AscendingAt(f.rows, at)
    ensures AlwaysExact(f, es, at) <==> CleanSteps(f, es, at)
    decreases |es|
  {
    if |es| > 0 {
      match es[0] {
        case Poll(limit) => PollExactIff(f, limit, at);
        case Arrive(row) =>
          ArriveExactIff(f, row, at);
          ArriveFacts(f, row, at);
      }
      if Exact(Next(f, es[0], at), at) {
        RunExactIff(Next(f, es[0], at), es[1..], at);
      }
    }
  }

  /**
   However polls of any sizes and arrivals of any stamps interleave: at every moment what was
   received and what is after the cursor make up the table, with nothing lost or repeated,
   exactly when each page ends at a clean cut and each row arrives after the cursor.
   */
  lemma RunDeliversOnceIff<T(!new)>(es: seq<Event<T>>, at: T -> int)
    ensures AlwaysExact(Feed([], [], None), es, at) <==> CleanSteps(Feed([], [], None), es, at)
  {
    RunExactIff(Feed([], [], None), es, at);
  }

  /** As long as that is so, `hasMore` holds exactly when the poll leaves something undelivered. */
  lemma PollReports<T>(f: Feed<T>, at: T -> int, limit: Option<int>)
    requires Exact(f, at)
    ensures HasMore(f.rows, at, f.since, ClampLimit(limit)) <==> Next(f, Poll(limit), at).seen != f.rows
  {
    var rest := After(f.rows, at, f.since);
    if |rest| > ClampLimit(limit) {
      assert |f.seen + rest[..ClampLimit(limit)]| < |f.rows|;
    }
  }

  // ---- nothing lost, for any instants and any order of arrival --------------------------

  /** Every row was received or is still after the cursor. */
  ghost predicate KeepsAll<T(!new)>(f: Feed<T>, at: T -> int) {
    forall x | x in f.rows :: x in f.seen || Later(at(x), f.since)
  }

  /** Rows are different and in the order of their stamps; what was received lies within the cursor's millisecond. */
  ghost predicate Ordered<T(!new)>(f: Feed<T>, at: T -> int) {
    && AscendingAt(f.rows, at) && Distinct(f.rows) && WholeMillis(f.since)
    && (f.since.None? ==> f.seen == [])
    && (f.since.Some? ==> forall x | x in f.seen :: x in f.rows && Milli(at(x)) <= Milli(f.since.value))
  }

  /** No row arrives twice. */
  ghost predicate NewRows<T(!new)>(f: Feed<T>, es: seq<Event<T>>, at: T -> int)
    decreases |es|
  {
    |es| > 0 ==> (es[0].Arrive? ==> es[0].row !in f.rows) && NewRows(Next(f, es[0], at), es[1..], at)
  }

  /**
   A step that passes over a row: a page that is cut between two rows at one whole millisecond,
   or a row that arrives at or before the cursor.
   */
  predicate Tied<T>(f: Feed<T>, e: Event<T>, at: T -> int) {
    match e
    case Arrive(row) => !Later(at(row), f.since)
    case Poll(limit) =>
      var a, n := After(f.rows, at, f.since), ClampLimit(limit);
      |a| > n && at(a[n - 1]) % 1000 == 0 && at(a[n]) == at(a[n - 1])
  }

  predicate NoTies<T>(f: Feed<T>, es: seq<Event<T>>, at: T -> int)
    decreases |es|
  {
    |es| > 0 ==> !Tied(f, es[0], at) && NoTies(Next(f, es[0], at), es[1..], at)
  }

  /** What a poll's page and cursor are. */
  lemma PollFacts<T(!new)>(f: Feed<T>, limit: Option<int>, at: T -> int)
    requires Ordered(f, at) && |After(f.rows, at, f.since)| > 0
    ensures var a, n := After(f.rows, at, f.since), ClampLimit(limit);
            var g, m := Next(f, Poll(limit), at), Min(n, |a|);
            && AscendingAt(a, at) && Distinct(a)
            && g.seen == f.seen + a[..m] && g.since == Some(CursorInstant(at(a[m - 1])))
            && NotBefore(f.since, g.since) && WholeMillis(g.since)
  {
    AfterOrdered(f.rows, at, f.since);
    NextSinceNotBefore(f.rows, at, f.since, ClampLimit(limit));
  }

  lemma PollStaysOrdered<T(!new)>(f: Feed<T>, limit: Option<int>, at: T -> int)
    requires Ordered(f, at)
    ensures Ordered(Next(f, Poll(limit), at), at)
  {
    var a := After(f.rows, at, f.since);
    var g := Next(f, Poll(limit), at);
    if |a| == 0 {
      assert g.seen == f.seen;
    } else {
      PollFacts(f, limit, at);
      var m := Min(ClampLimit(limit), |a|);
      forall x | x in g.seen ensures x in f.rows && Milli(at(x)) <= Milli(g.since.value) {
        if x in f.seen {
          assert f.since.value <= g.since.value;
        } else {
          var i :| 0 <= i < m && a[..m][i] == x;
          AfterIff(f.rows, at, f.since, x);
          assert at(a[i]) <= at(a[m - 1]);
        }
      }
    }
  }

  /** A row that a tie cuts off is lost. */
  lemma TieLoses<T(!new)>(f: Feed<T>, limit: Option<int>, at: T -> int)
    requires Ordered(f, at) && Tied(f, Poll(limit), at)
    ensures !KeepsAll(Next(f, Poll(limit), at), at)
  {
    var a, n := After(f.rows, at, f.since), ClampLimit(limit);
    var g := Next(f, Poll(limit), at);
    PollFacts(f, limit, at);
    var x := a[n];
    AfterIff(f.rows, at, f.since, x);
    assert !Later(at(x), g.since);
    assert x !in a[..n];
    assert x !in f.seen;
  }

  /** A row after the cursor is on the next page or still after the next cursor, unless that ties. */
  lemma RestKept<T(!new)>(f: Feed<T>, limit: Option<int>, at: T -> int, i: nat)
    requires Ordered(f, at) && !Tied(f, Poll(limit), at)
    requires i < |After(f.rows, at, f.since)|
    ensures var x, g := After(f.rows, at, f.since)[i], Next(f, Poll(limit), at);
            x in g.seen || Later(at(x), g.since)
  {
    var a, n := After(f.rows, at, f.since), ClampLimit(limit);
    PollFacts(f, limit, at);
    if i < n {
      assert a[i] == a[..Min(n, |a|)][i];
    } else {
      assert at(a[n - 1]) <= at(a[n]) <= at(a[i]);
    }
  }

  lemma NoTieKeeps<T(!new)>(f: Feed<T>, limit: Option<int>, at: T -> int)
    requires Ordered(f, at) && KeepsAll(f, at) && !Tied(f, Poll(limit), at)
    ensures KeepsAll(Next(f, Poll(limit), at), at)
  {
    var g := Next(f, Poll(limit), at);
    forall x | x in f.rows ensures x in g.seen || Later(at(x), g.since) {
      AfterIff(f.rows, at, f.since, x);
      if x !in f.seen {
        var i :| 0 <= i < |After(f.rows, at, f.since)| && After(f.rows, at, f.since)[i] == x;
        RestKept(f, limit, at, i);
      }
    }
  }

  /** What is lost stays lost. */
  lemma LostStays<T(!new)>(f: Feed<T>, e: Event<T>, at: T -> int)
    requires Ordered(f, at) && !KeepsAll(f, at)
    ensures !KeepsAll(Next(f, e, at), at)
  {
    var x :| x in f.rows && x !in f.seen && !Later(at(x), f.since);
    var g := Next(f, e, at);
    match e {
      case Poll(limit) =>
        AfterIff(f.rows, at, f.since, x);
        NextSinceNotBefore(f.rows, at, f.since, ClampLimit(limit));
      case Arrive(row) => ArriveFacts(f, row, at);
    }
    assert x in g.rows && x !in g.seen && !Later(at(x), g.since);
  }

  lemma ArriveStaysOrdered<T(!new)>(f: Feed<T>, row: T, at: T -> int)
    requires Ordered(f, at) && row !in f.rows
    ensures Ordered(Next(f, Arrive(row), at), at)
    ensures KeepsAll(f, at) ==> (KeepsAll(Next(f, Arrive(row), at), at) <==> !Tied(f, Arrive(row), at))
  {
    var g := Next(f, Arrive(row), at);
    ArriveFacts(f, row, at);
    StaysDistinct(f.rows, row, g.rows);
    assert row !in f.seen;
  }

  lemma StaysDistinct<T(!new)>(s: seq<T>, x: T, r: seq<T>)
    requires Distinct(s) && x !in s && multiset(r) == multiset(s) + multiset{x}
    ensures Distinct(r)
  {
    forall i, j | 0 <= i < j < |r| ensures r[i] != r[j] {
      if r[i] == r[j] {
        TwiceCounted(r, i, j);
        OnceCounted(s, r[i]);
        assert false;
      }
    }
  }

  lemma TwiceCounted<T>(r: seq<T>, i: nat, j: nat)
    requires i < j < |r| && r[i] == r[j]
    ensures multiset(r)[r[i]] >= 2
  {
    assert r == r[..j] + r[j..];
    assert r[i] in r[..j] && r[j] in r[j..];
  }

  lemma {:induction false} OnceCounted<T(!new)>(s: seq<T>, x: T)
    requires Distinct(s)
    ensures multiset(s)[x] == if x in s then 1 else 0
  {
    if |s| > 0 {
      OnceCounted(s[1..], x);
      assert s == [s[0]] + s[1..];
      assert s[0] !in s[1..];
    }
  }

  /**
   For rows that become visible in any order, at instants of any precision and with ties, and
   polls of any sizes: nothing is lost by the end of a run exactly when no page was cut inside
   a tie at a whole millisecond and no row arrived at or before the cursor. Rows may be
   received twice.
   */
  lemma {:induction false} RunLosesNothingIff<T(!new)>(f: Feed<T>, es: seq<Event<T>>, at: T -> int)
    requires Ordered(f, at) && NewRows(f, es, at)
    ensures KeepsAll(Run(f, es, at), at) <==> KeepsAll(f, at) && NoTies(f, es, at)
    decreases |es|
  {
    if |es| > 0 {
      var e := es[0];
      match e {
        case Poll(limit) => PollStaysOrdered(f, limit, at);
        case Arrive(row) => ArriveStaysOrdered(f, row, at);
      }
      RunLosesNothingIff(Next(f, e, at), es[1..], at);
      StepLosesIff(f, e, at);
    }
  }

  lemma StepLosesIff<T(!new)>(f: Feed<T>, e: Event<T>, at: T -> int)
    requires Ordered(f, at) && (e.Arrive? ==> e.row !in f.rows)
    ensures KeepsAll(Next(f, e, at), at) <==> KeepsAll(f, at) && !Tied(f, e, at)
  {
    if !KeepsAll(f, at) {
      LostStays(f, e, at);
    } else {
      match e {
        case Arrive(row) => ArriveStaysOrdered(f, row, at);
        case Poll(limit) =>
          if Tied(f, e, at) {
            TieLoses(f, limit, at);
          } else {
            NoTieKeeps(f, limit, at);
          }
      }
    }
  }

  /** Where nothing is lost, a poll that reports no more completes what was received. */
  lemma LastPollCompletes<T(!new)>(f: Feed<T>, limit: Option<int>, at: T -> int)
    requires KeepsAll(f, at) && !HasMore(f.rows, at, f.since, ClampLimit(limit))
    ensures forall x | x in f.rows :: x in Next(f, Poll(limit), at).seen
  {
    forall x | x in f.rows ensures x in Next(f, Poll(limit), at).seen {
      AfterIff(f.rows, at, f.since, x);
    }
  }

  // ---- rows that become visible in the order of their stamps -------------------------------

  /** Every row arrives with a later stamp than the rows before it. */
  ghost predicate StrictlyTimed<T>(f: Feed<T>, es: seq<Event<T>>, at: T -> int)
    decreases |es|
  {
    |es| > 0 ==>
      && (es[0].Arrive? ==> forall i | 0 <= i < |f.rows| :: at(f.rows[i]) < at(es[0].row))
      && StrictlyTimed(Next(f, es[0], at), es[1..], at)
  }

  /** Stamps differ, and the cursor is not ahead of them. */
  ghost predicate Timed<T>(f: Feed<T>, at: T -> int) {
    && (forall i, j | 0 <= i < j < |f.rows| :: at(f.rows[i]) < at(f.rows[j]))
    && (f.since.Some? ==> |f.rows| > 0 && f.since.value <= at(f.rows[|f.rows| - 1]))
  }

  /** A row with the latest stamp goes to the end. */
  lemma ArriveLast<T>(f: Feed<T>, row: T, at: T -> int)
    requires Timed(f, at) && forall i | 0 <= i < |f.rows| :: at(f.rows[i]) < at(row)
    ensures Next(f, Arrive(row), at).rows == f.rows + [row] && Timed(Next(f, Arrive(row), at), at)
    ensures Later(at(row), f.since)
  {
    SortBehind(f.rows, [row], StampKey(at));
  }

  lemma PollTimed<T>(f: Feed<T>, limit: Option<int>, at: T -> int)
    requires Timed(f, at)
    ensures Timed(Next(f, Poll(limit), at), at)
  {
    var page := PageItems(f.rows, at, f.since, ClampLimit(limit));
    if |page| > 0 {
      var last := page[|page| - 1];
      assert last in After(f.rows, at, f.since);
      AfterIff(f.rows, at, f.since, last);
    }
  }

  lemma {:induction false} TimedHasNoTies<T(!new)>(f: Feed<T>, es: seq<Event<T>>, at: T -> int)
    requires Timed(f, at) && StrictlyTimed(f, es, at)
    ensures NewRows(f, es, at) && NoTies(f, es, at)
    decreases |es|
  {
    if |es| > 0 {
      match es[0] {
        case Poll(limit) =>
          PollTimed(f, limit, at);
          AfterOrdered(f.rows, at, f.since);
        case Arrive(row) => ArriveLast(f, row, at);
      }
      TimedHasNoTies(Next(f, es[0], at), es[1..], at);
    }
  }

  /** Rows that become visible in the order of their stamps, all different, are never lost. */
  lemma RowsInOrderAreNotLost<T(!new)>(es: seq<Event<T>>, at: T -> int)
    requires StrictlyTimed(Feed([], [], None), es, at)
    ensures KeepsAll(Run(Feed([], [], None), es, at), at)
  {
    TimedHasNoTies(Feed([], [], None), es, at);
    RunLosesNothingIff(Feed([], [], None), es, at);
  }

  /** And each is received once if the stamps are whole milliseconds. */
  lemma {:induction false} WholeMillisecondsRunClean<T(!new)>(f: Feed<T>, es: seq<Event<T>>, at: T -> int)
    requires Timed(f, at) && Exact(f, at) && StrictlyTimed(f, es, at)
    requires forall i | 0 <= i < |f.rows| :: at(f.rows[i]) % 1000 == 0
    requires forall k | 0 <= k < |es| && es[k].Arrive? :: at(es[k].row) % 1000 == 0
    ensures CleanSteps(f, es, at)
    decreases |es|
  {
    if |es| > 0 {
      match es[0] {
        case Poll(limit) =>
          PollTimed(f, limit, at);
          WholePageIsClean(f, limit, at);
          PollExactIff(f, limit, at);
        case Arrive(row) =>
          ArriveLast(f, row, at);
          ArriveExactIff(f, row, at);
      }
      assert forall k | 0 <= k < |es[1..]| :: es[1..][k] == es[k + 1];
      WholeMillisecondsRunClean(Next(f, es[0], at), es[1..], at);
    }
  }

  lemma WholePageIsClean<T>(f: Feed<T>, limit: Option<int>, at: T -> int)
    requires Timed(f, at) && Exact(f, at)
    requires forall i | 0 <= i < |f.rows| :: at(f.rows[i]) % 1000 == 0
    ensures CleanStep(f, Poll(limit), at)
  {
    var page := PageItems(f.rows, at, f.since, ClampLimit(limit));
    if |page| > 0 {
      WholeCut(f.rows, at, |f.seen| + |page|);
    }
  }

  lemma WholeCut<T>(s: seq<T>, at: T -> int, k: nat)
    requires 0 < k <= |s| && forall i | 0 <= i < |s| :: at(s[i]) % 1000 == 0
    requires forall i, j | 0 <= i < j < |s| :: at(s[i]) < at(s[j])
    ensures CleanCut(s, at, k)
  {
  }
}
