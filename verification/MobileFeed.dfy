/**
 Cursor paging over an ordered feed of timestamped rows.

 Instants are counted in microseconds, which is what the database keeps. A cursor
 carries whole milliseconds only, because it is the printed form of a host date. The
 comparison in the query is strict. Both facts shape what a client that follows the
 cursor receives, and `DrainDeliversIff` says exactly when it receives every row once.
 */
module MobileFeed {
  import opened Prelude
  import opened StableSorting

  /** The millisecond in which an instant falls, as a host date sees it. */
  function Milli(t: int): int {
    t / 1000
  }

  /** The instant a cursor stands for when the last row of its page is at `t`. */
  function CursorInstant(t: int): int {
    Milli(t) * 1000
  }

  /** The key of the host's sort: dates compare by their milliseconds. */
  function MilliKey<T>(at: T -> int): T -> real {
    (x: T) => Milli(at(x)) as real
  }

  ghost predicate AscendingAt<T>(s: seq<T>, at: T -> int) {
    forall i, j | 0 <= i < j < |s| :: at(s[i]) <= at(s[j])
  }

  ghost predicate Distinct<T(!new)>(s: seq<T>) {
    forall i, j | 0 <= i < j < |s| :: s[i] != s[j]
  }

  predicate Later(t: int, since: Option<int>) {
    since.None? || since.value < t
  }

  /** The rows a query returns for a cursor, before its LIMIT. */
  function After<T>(s: seq<T>, at: T -> int, since: Option<int>): seq<T> {
    if |s| == 0 then []
    else if Later(at(s[0]), since) then [s[0]] + After(s[1..], at, since)
    else After(s[1..], at, since)
  }

  function Gap(a: int, b: int): nat {
    if a <= b then b - a else a - b
  }

  /** `Math.min(Math.max(limit ?? 50, 1), 100)`. */
  function ClampLimit(limit: Option<int>): (n: nat)
    ensures 1 <= n <= 100
  {
    Min(Max(limit.GetOr(50), 1), 100)
  }

  /** Fifty rows unless asked for, else as many as asked for, or the nearest number that is allowed. */
  lemma PageSizeIs(limit: Option<int>)
    ensures limit.None? ==> ClampLimit(limit) == 50
    ensures limit.Some? && 1 <= limit.value <= 100 ==> ClampLimit(limit) == limit.value
    ensures limit.Some? ==> forall m: int | 1 <= m <= 100 :: Gap(limit.value, ClampLimit(limit)) <= Gap(limit.value, m)
  {
  }

  function PageItems<T>(s: seq<T>, at: T -> int, since: Option<int>, limit: nat): seq<T> {
    Take(After(s, at, since), limit)
  }

  /** Whether the query for `limit + 1` rows came back with more than `limit`. */
  predicate HasMore<T>(s: seq<T>, at: T -> int, since: Option<int>, limit: nat) {
    |After(s, at, since)| > limit
  }

  function NextSince<T>(page: seq<T>, at: T -> int, since: Option<int>): Option<int> {
    if |page| == 0 then since else Some(CursorInstant(at(page[|page| - 1])))
  }

  /** Everything a client has received after at most `n` polls that follow the cursor. */
  function Polled<T>(s: seq<T>, at: T -> int, since: Option<int>, limit: nat, n: nat): seq<T>
    decreases n
  {
    if n == 0 then []
    else
      var page := PageItems(s, at, since, limit);
      page + if HasMore(s, at, since, limit) then Polled(s, at, NextSince(page, at, since), limit, n - 1) else []
  }

  /** One of the first `n` polls reported that nothing is left. */
  predicate Finished<T>(s: seq<T>, at: T -> int, since: Option<int>, limit: nat, n: nat)
    decreases n
  {
    n > 0 &&
    (HasMore(s, at, since, limit) ==>
       Finished(s, at, NextSince(PageItems(s, at, since, limit), at, since), limit, n - 1))
  }

  /** The cursor written after `k` rows separates those rows from all the others. */
  ghost predicate CleanCut<T>(s: seq<T>, at: T -> int, k: int)
    requires 0 < k <= |s|
  {
    var c := CursorInstant(at(s[k - 1]));
    && (forall i | 0 <= i < k :: at(s[i]) <= c)
    && (forall i | k <= i < |s| :: c < at(s[i]))
  }

  /** Every page boundary after row `start` of a drain with this limit is clean. */
  ghost predicate CleanPages<T>(s: seq<T>, at: T -> int, limit: nat, start: nat)
    requires limit > 0
    decreases |s| - start
  {
    start + limit < |s| ==> CleanCut(s, at, start + limit) && CleanPages(s, at, limit, start + limit)
  }

  predicate WholeMillis(since: Option<int>) {
    since.Some? ==> since.value % 1000 == 0
  }

  lemma {:induction false} AfterConcat<T>(a: seq<T>, b: seq<T>, at: T -> int, since: Option<int>)
    ensures After(a + b, at, since) == After(a, at, since) + After(b, at, since)
  {
    if |a| == 0 {
      assert a + b == b;
    } else {
      AfterConcat(a[1..], b, at, since);
      Regroup3([a[0]], a[1..], b);
      AfterCons(a[0], a[1..] + b, at, since);
      Regroup3([a[0]], After(a[1..], at, since), After(b, at, since));
      assert [a[0]] + a[1..] == a;
    }
  }

  lemma {:induction false} AfterAll<T>(s: seq<T>, at: T -> int, since: Option<int>)
    requires forall i | 0 <= i < |s| :: Later(at(s[i]), since)
    ensures After(s, at, since) == s
  {
    if |s| > 0 {
      AfterAll(s[1..], at, since);
    }
  }

  lemma {:induction false} AfterNone<T>(s: seq<T>, at: T -> int, since: Option<int>)
    requires forall i | 0 <= i < |s| :: !Later(at(s[i]), since)
    ensures After(s, at, since) == []
  {
    if |s| > 0 {
      AfterNone(s[1..], at, since);
    }
  }

  lemma AfterSplit<T>(s: seq<T>, at: T -> int, since: Option<int>, k: nat)
    requires k <= |s|
    requires forall i | 0 <= i < k :: !Later(at(s[i]), since)
    requires forall i | k <= i < |s| :: Later(at(s[i]), since)
    ensures After(s, at, since) == s[k..]
  {
    assert s == s[..k] + s[k..];
    AfterConcat(s[..k], s[k..], at, since);
    AfterNone(s[..k], at, since);
    AfterAll(s[k..], at, since);
  }

  lemma {:induction false} AfterMembers<T>(s: seq<T>, at: T -> int, since: Option<int>)
    ensures forall i | 0 <= i < |After(s, at, since)| :: Later(at(After(s, at, since)[i]), since)
    ensures |After(s, at, since)| <= |s|
  {
    if |s| > 0 {
      AfterMembers(s[1..], at, since);
    }
  }

  lemma {:induction false} AfterIff<T>(s: seq<T>, at: T -> int, since: Option<int>, x: T)
    ensures x in After(s, at, since) <==> x in s && Later(at(x), since)
  {
    if |s| > 0 {
      AfterIff(s[1..], at, since, x);
      assert x in s <==> x == s[0] || x in s[1..];
    }
  }

  lemma {:induction false} AfterBound<T>(s: seq<T>, at: T -> int, since: Option<int>, key: T -> real, k: real)
    requires forall i | 0 <= i < |s| :: k <= key(s[i])
    ensures forall i | 0 <= i < |After(s, at, since)| :: k <= key(After(s, at, since)[i])
  {
    if |s| > 0 {
      AfterBound(s[1..], at, since, key, k);
    }
  }

  lemma {:induction false} AfterInsert<T>(x: T, s: seq<T>, at: T -> int, since: Option<int>, key: T -> real)
    requires Ascending(s, key)
    ensures After(Insert(x, s, key), at, since)
         == if Later(at(x), since) then Insert(x, After(s, at, since), key) else After(s, at, since)
  {
    if |s| == 0 || key(x) <= key(s[0]) {
      assert ([x] + s)[1..] == s;
      AfterBound(s, at, since, key, key(x));
    } else {
      AfterInsert(x, s[1..], at, since, key);
      AfterCons(s[0], Insert(x, s[1..], key), at, since);
      var rest := After(s[1..], at, since);
      assert ([s[0]] + rest)[1..] == rest;
      assert s == [s[0]] + s[1..];
      AfterCons(s[0], s[1..], at, since);
    }
  }

  lemma AfterCons<T>(x: T, t: seq<T>, at: T -> int, since: Option<int>)
    ensures After([x] + t, at, since) == if Later(at(x), since) then [x] + After(t, at, since) else After(t, at, since)
  {
    assert ([x] + t)[1..] == t;
  }

  /** A query finds as many rows as there are later ones. */
  lemma {:induction false} AfterCount<T>(s: seq<T>, at: T -> int, since: Option<int>, later: T -> bool)
    requires forall i | 0 <= i < |s| :: later(s[i]) <==> Later(at(s[i]), since)
    ensures |After(s, at, since)| == |Places(s, later)|
  {
    CountIsSize(s, later);
    if |s| > 0 {
      AfterCount(s[1..], at, since, later);
      CountIsSize(s[1..], later);
      CountConcat([s[0]], s[1..], later);
      assert [s[0]] + s[1..] == s && [s[0]][..0] == [];
    }
  }

  /** Querying and sorting commute. */
  lemma {:induction false} SortAfter<T>(s: seq<T>, at: T -> int, since: Option<int>, key: T -> real)
    ensures StableSort(After(s, at, since), key) == After(StableSort(s, key), at, since)
  {
    if |s| > 0 {
      SortAfter(s[1..], at, since, key);
      StableSortIsStable(s[1..], key);
      AfterInsert(s[0], StableSort(s[1..], key), at, since, key);
      AfterCons(s[0], s[1..], at, since);
      assert s == [s[0]] + s[1..];
    }
  }

  /** The cursor never moves back, and lies at or before the last row delivered. */
  lemma NextSinceMonotone<T>(s: seq<T>, at: T -> int, since: Option<int>, limit: nat)
    requires limit > 0 && WholeMillis(since)
    ensures var next := NextSince(PageItems(s, at, since, limit), at, since);
            WholeMillis(next) && forall t: int :: Later(t, next) ==> Later(t, since)
  {
    AfterMembers(s, at, since);
    var page := PageItems(s, at, since, limit);
    if |page| > 0 {
      assert Later(at(page[|page| - 1]), since);
    }
  }

  lemma {:induction false} PolledLater<T>(s: seq<T>, at: T -> int, since: Option<int>, limit: nat, n: nat)
    requires limit > 0 && WholeMillis(since)
    ensures forall i | 0 <= i < |Polled(s, at, since, limit, n)| :: Later(at(Polled(s, at, since, limit, n)[i]), since)
    decreases n
  {
    if n > 0 {
      AfterMembers(s, at, since);
      NextSinceMonotone(s, at, since, limit);
      var page := PageItems(s, at, since, limit);
      PolledLater(s, at, NextSince(page, at, since), limit, n - 1);
    }
  }

  /** A full page with more behind it, and the cursor it hands out. */
  lemma FullPage<T>(s: seq<T>, at: T -> int, since: Option<int>, limit: nat, start: nat)
    requires limit > 0 && start + limit < |s|
    requires After(s, at, since) == s[start..]
    ensures HasMore(s, at, since, limit)
    ensures PageItems(s, at, since, limit) == s[start..start + limit]
    ensures NextSince(PageItems(s, at, since, limit), at, since) == Some(CursorInstant(at(s[start + limit - 1])))
    ensures PageItems(s, at, since, limit) + s[start + limit..] == s[start..]
  {
    var rest := s[start..];
    assert rest[..limit] == s[start..start + limit];
    assert rest[limit - 1] == s[start + limit - 1];
  }

  lemma CleanPageSplits<T>(s: seq<T>, at: T -> int, limit: nat, start: nat)
    requires limit > 0 && start + limit < |s| && CleanPages(s, at, limit, start)
    ensures After(s, at, Some(CursorInstant(at(s[start + limit - 1])))) == s[start + limit..]
    ensures CleanPages(s, at, limit, start + limit)
  {
    assert CleanCut(s, at, start + limit);
    AfterSplit(s, at, Some(CursorInstant(at(s[start + limit - 1]))), start + limit);
  }

  lemma PolledStep<T>(s: seq<T>, at: T -> int, since: Option<int>, next: Option<int>, limit: nat, n: nat)
    requires HasMore(s, at, since, limit)
    requires next == NextSince(PageItems(s, at, since, limit), at, since)
    ensures Polled(s, at, since, limit, n + 1) == PageItems(s, at, since, limit) + Polled(s, at, next, limit, n)
    ensures Finished(s, at, since, limit, n + 1) == Finished(s, at, next, limit, n)
  {
  }

  lemma PolledLast<T>(s: seq<T>, at: T -> int, since: Option<int>, limit: nat)
    requires !HasMore(s, at, since, limit)
    ensures Polled(s, at, since, limit, 1) == After(s, at, since) && Finished(s, at, since, limit, 1)
  {
  }

  lemma {:induction false} DrainFrom<T>(s: seq<T>, at: T -> int, since: Option<int>, limit: nat, start: nat)
      returns (n: nat)
    requires limit > 0 && start <= |s|
    requires CleanPages(s, at, limit, start)
    requires After(s, at, since) == s[start..]
    ensures Finished(s, at, since, limit, n) && Polled(s, at, since, limit, n) == s[start..]
    decreases |s| - start
  {
    if start + limit < |s| {
      FullPage(s, at, since, limit, start);
      CleanPageSplits(s, at, limit, start);
      var next := Some(CursorInstant(at(s[start + limit - 1])));
      var m := DrainFrom(s, at, next, limit, start + limit);
      n := m + 1;
      PolledStep(s, at, since, next, limit, m);
    } else {
      n := 1;
      PolledLast(s, at, since, limit);
    }
  }

  /** From this cursor, which stands after `start` rows, `n` polls deliver exactly the rest. */
  ghost predicate Drains<T(!new)>(s: seq<T>, at: T -> int, since: Option<int>, limit: nat, start: nat, n: nat) {
    && start <= |s| && WholeMillis(since)
    && After(s, at, since) == s[start..]
    && Polled(s, at, since, limit, n) == s[start..]
    && Finished(s, at, since, limit, n)
  }

  /** What is polled after a full page is what stands after it. */
  lemma ForcedTail<T(!new)>(s: seq<T>, at: T -> int, since: Option<int>, limit: nat, start: nat, n: nat)
      returns (next: Option<int>)
    requires limit > 0 && start + limit < |s|
    requires Drains(s, at, since, limit, start, n + 1)
    ensures next == Some(CursorInstant(at(s[start + limit - 1])))
    ensures Polled(s, at, next, limit, n) == s[start + limit..]
    ensures Finished(s, at, next, limit, n)
  {
    next := Some(CursorInstant(at(s[start + limit - 1])));
    FullPage(s, at, since, limit, start);
    PolledStep(s, at, since, next, limit, n);
    SamePrefix(PageItems(s, at, since, limit), Polled(s, at, next, limit, n), s[start + limit..]);
  }

  /** A drain that delivers the rest of the feed has a clean boundary after a full page. */
  lemma ForcedPage<T(!new)>(s: seq<T>, at: T -> int, since: Option<int>, limit: nat, start: nat, n: nat)
      returns (next: Option<int>)
    requires limit > 0 && start + limit < |s| && Distinct(s)
    requires Drains(s, at, since, limit, start, n + 1)
    ensures Drains(s, at, next, limit, start + limit, n)
    ensures CleanCut(s, at, start + limit)
  {
    next := ForcedTail(s, at, since, limit, start, n);
    CutIsClean(s, at, next, limit, start + limit, n);
  }

  lemma {:induction false} DrainForces<T(!new)>(s: seq<T>, at: T -> int, since: Option<int>, limit: nat,
                                         start: nat, n: nat)
    requires limit > 0 && Distinct(s)
    requires Drains(s, at, since, limit, start, n)
    ensures CleanPages(s, at, limit, start)
    decreases n
  {
    if start + limit < |s| {
      var next := ForcedPage(s, at, since, limit, start, n - 1);
      DrainForces(s, at, next, limit, start + limit, n - 1);
    }
  }

  lemma SamePrefix<T>(p: seq<T>, a: seq<T>, b: seq<T>)
    requires p + a == p + b
    ensures a == b
  {
    assert a == (p + a)[|p|..] == (p + b)[|p|..] == b;
  }

  /** When what follows a cursor starts with the rest of the feed, the cursor separates. */
  lemma CutIsClean<T(!new)>(s: seq<T>, at: T -> int, next: Option<int>, limit: nat, k: nat, n: nat)
    requires limit > 0 && 0 < k < |s| && Distinct(s)
    requires next == Some(CursorInstant(at(s[k - 1])))
    requires s[k..] <= Polled(s, at, next, limit, n)
    ensures CleanCut(s, at, k) && After(s, at, next) == s[k..]
  {
    var polled := Polled(s, at, next, limit, n);
    forall i | k <= i < |s| ensures Later(at(s[i]), next) {
      PolledLater(s, at, next, limit, n);
      assert s[i] == s[k..][i - k] == polled[i - k];
    }
    assert polled[0] == s[k..][0] == s[k];
    forall i | 0 <= i < k ensures !Later(at(s[i]), next) {
      if Later(at(s[i]), next) {
        var j := PolledHead(s, at, next, limit, n, i);
        assert false;
      }
    }
    AfterSplit(s, at, next, k);
  }

  /** The first row polled is the first row after the cursor. */
  lemma PolledHead<T>(s: seq<T>, at: T -> int, since: Option<int>, limit: nat, n: nat, i: nat) returns (j: nat)
    requires i < |s| && Later(at(s[i]), since) && limit > 0
    requires |Polled(s, at, since, limit, n)| > 0
    ensures j <= i && Polled(s, at, since, limit, n)[0] == s[j]
  {
    j := FirstLater(s, at, since, i);
  }

  lemma {:induction false} FirstLater<T>(s: seq<T>, at: T -> int, since: Option<int>, i: nat) returns (j: nat)
    requires i < |s| && Later(at(s[i]), since)
    ensures j <= i && |After(s, at, since)| > 0 && After(s, at, since)[0] == s[j]
  {
    if Later(at(s[0]), since) {
      j := 0;
    } else {
      j := FirstLater(s[1..], at, since, i - 1);
      j := j + 1;
    }
  }

  /**
   A client that follows the cursor until told that nothing is left receives the whole
   feed, each row once and in order, exactly when every page boundary is clean.
   */
  lemma DrainDeliversIff<T(!new)>(s: seq<T>, at: T -> int, limit: nat)
    requires limit > 0 && Distinct(s)
    ensures (exists n: nat :: Finished(s, at, None, limit, n) && Polled(s, at, None, limit, n) == s)
       <==> CleanPages(s, at, limit, 0)
  {
    AfterAll(s, at, None);
    assert s[0..] == s;
    if CleanPages(s, at, limit, 0) {
      var n := DrainFrom(s, at, None, limit, 0);
    }
    if n: nat :| Finished(s, at, None, limit, n) && Polled(s, at, None, limit, n) == s {
      DrainForces(s, at, None, limit, 0, n);
    }
  }

  /** Distinct instants at whole milliseconds are enough, for every limit. */
  lemma {:induction false} WholeMillisecondsAreClean<T>(s: seq<T>, at: T -> int, limit: nat, start: nat)
    requires limit > 0
    requires forall i, j | 0 <= i < j < |s| :: at(s[i]) < at(s[j])
    requires forall i | 0 <= i < |s| :: at(s[i]) % 1000 == 0
    ensures CleanPages(s, at, limit, start)
    decreases |s| - start
  {
    if start + limit < |s| {
      assert CursorInstant(at(s[start + limit - 1])) == at(s[start + limit - 1]);
      WholeMillisecondsAreClean(s, at, limit, start + limit);
    }
  }

  /**
   A full first page that lies inside one millisecond, and not on it, is delivered for
   ever: the cursor steps back in front of it, so the drain never ends.
   */
  lemma {:induction false} DrainStuck<T>(s: seq<T>, at: T -> int, since: Option<int>, limit: nat, n: nat)
    requires 0 < limit < |s|
    requires AscendingAt(s, at) && CursorInstant(at(s[limit - 1])) < at(s[0])
    requires since == None || since == Some(CursorInstant(at(s[limit - 1])))
    ensures PageItems(s, at, since, limit) == s[..limit]
    ensures !Finished(s, at, since, limit, n)
    ensures |Polled(s, at, since, limit, n)| == n * limit
    decreases n
  {
    AfterAll(s, at, since);
    if n > 0 {
      var next := NextSince(PageItems(s, at, since, limit), at, since);
      DrainStuck(s, at, next, limit, n - 1);
      assert n * limit == limit + (n - 1) * limit;
    }
  }

  // ---- when a drain ends, for instants of any precision -----------------------------

  /** A later, or the same, threshold. */
  predicate NotBefore(since: Option<int>, next: Option<int>) {
    since.Some? ==> next.Some? && since.value <= next.value
  }

  lemma {:induction false} AfterTwice<T>(s: seq<T>, at: T -> int, since: Option<int>, next: Option<int>)
    requires NotBefore(since, next)
    ensures After(After(s, at, since), at, next) == After(s, at, next)
  {
    if |s| > 0 {
      AfterTwice(s[1..], at, since, next);
      if Later(at(s[0]), since) {
        AfterCons(s[0], After(s[1..], at, since), at, next);
      }
    }
  }

  lemma NextSinceNotBefore<T>(s: seq<T>, at: T -> int, since: Option<int>, limit: nat)
    requires limit > 0 && WholeMillis(since)
    ensures var next := NextSince(PageItems(s, at, since, limit), at, since);
            WholeMillis(next) && NotBefore(since, next)
  {
    NextSinceMonotone(s, at, since, limit);
    var next := NextSince(PageItems(s, at, since, limit), at, since);
    if next.Some? {
      assert Later(next.value + 1, next);
    }
  }

  lemma {:induction false} AfterOrdered<T>(s: seq<T>, at: T -> int, since: Option<int>)
    requires AscendingAt(s, at)
    ensures AscendingAt(After(s, at, since), at)
    ensures |After(s, at, since)| <= |s| && After(s, at, since) == s[|s| - |After(s, at, since)|..]
  {
    if |s| > 0 {
      if Later(at(s[0]), since) {
        AfterAll(s, at, since);
      } else {
        AfterOrdered(s[1..], at, since);
      }
    }
  }

  /** The cursor written after a page has passed the first row of the page. */
  predicate PassesItsHead<T>(page: seq<T>, at: T -> int)
    requires |page| > 0
  {
    at(page[0]) <= CursorInstant(at(page[|page| - 1]))
  }

  lemma PollShrinks<T>(s: seq<T>, at: T -> int, since: Option<int>, limit: nat)
    requires limit > 0 && WholeMillis(since) && HasMore(s, at, since, limit)
    requires PassesItsHead(PageItems(s, at, since, limit), at)
    ensures var next := NextSince(PageItems(s, at, since, limit), at, since);
            WholeMillis(next) && |After(s, at, next)| < |After(s, at, since)|
  {
    var a := After(s, at, since);
    var next := NextSince(PageItems(s, at, since, limit), at, since);
    NextSinceNotBefore(s, at, since, limit);
    AfterTwice(s, at, since, next);
    AfterMembers(a[1..], at, next);
  }

  /** Every full page on the way has a cursor that passes its first row. */
  ghost predicate Advances<T>(s: seq<T>, at: T -> int, since: Option<int>, limit: nat)
    requires limit > 0 && WholeMillis(since)
    decreases |After(s, at, since)|
  {
    HasMore(s, at, since, limit) ==>
      && PassesItsHead(PageItems(s, at, since, limit), at)
      && (PollShrinks(s, at, since, limit);
          Advances(s, at, NextSince(PageItems(s, at, since, limit), at, since), limit))
  }

  /** A cursor that does not pass the first row of its page stays where it is. */
  lemma StuckThere<T>(s: seq<T>, at: T -> int, since: Option<int>, limit: nat)
    requires limit > 0 && WholeMillis(since) && AscendingAt(s, at) && HasMore(s, at, since, limit)
    requires !PassesItsHead(PageItems(s, at, since, limit), at)
    ensures var next := NextSince(PageItems(s, at, since, limit), at, since);
            WholeMillis(next) && After(s, at, next) == After(s, at, since)
  {
    var next := NextSince(PageItems(s, at, since, limit), at, since);
    NextSinceNotBefore(s, at, since, limit);
    AfterTwice(s, at, since, next);
    AfterOrdered(s, at, since);
    AfterAll(After(s, at, since), at, next);
  }

  lemma {:induction false} StuckNeverEnds<T>(s: seq<T>, at: T -> int, since: Option<int>, limit: nat, n: nat)
    requires limit > 0 && WholeMillis(since) && AscendingAt(s, at) && HasMore(s, at, since, limit)
    requires !PassesItsHead(PageItems(s, at, since, limit), at)
    ensures !Finished(s, at, since, limit, n)
    decreases n
  {
    if n > 0 {
      StuckThere(s, at, since, limit);
      StuckNeverEnds(s, at, NextSince(PageItems(s, at, since, limit), at, since), limit, n - 1);
    }
  }

  ghost predicate DrainEnds<T>(s: seq<T>, at: T -> int, since: Option<int>, limit: nat) {
    exists n: nat :: Finished(s, at, since, limit, n)
  }

  /** A drain ends exactly when no full page on its way lies inside one millisecond, past its start. */
  lemma {:induction false} DrainEndsIff<T>(s: seq<T>, at: T -> int, since: Option<int>, limit: nat)
    requires limit > 0 && WholeMillis(since) && AscendingAt(s, at)
    ensures DrainEnds(s, at, since, limit) <==> Advances(s, at, since, limit)
    decreases |After(s, at, since)|
  {
    var next := NextSince(PageItems(s, at, since, limit), at, since);
    if !HasMore(s, at, since, limit) {
      assert Finished(s, at, since, limit, 1);
    } else if PassesItsHead(PageItems(s, at, since, limit), at) {
      PollShrinks(s, at, since, limit);
      DrainEndsIff(s, at, next, limit);
      FinishedStep(s, at, since, limit);
    } else {
      forall n: nat ensures !Finished(s, at, since, limit, n) {
        StuckNeverEnds(s, at, since, limit, n);
      }
    }
  }

  lemma FinishedStep<T>(s: seq<T>, at: T -> int, since: Option<int>, limit: nat)
    requires HasMore(s, at, since, limit)
    ensures DrainEnds(s, at, since, limit)
       <==> DrainEnds(s, at, NextSince(PageItems(s, at, since, limit), at, since), limit)
  {
    var next := NextSince(PageItems(s, at, since, limit), at, since);
    if n: nat :| Finished(s, at, since, limit, n) {
      assert Finished(s, at, next, limit, n - 1);
    }
    if n: nat :| Finished(s, at, next, limit, n) {
      assert Finished(s, at, since, limit, n + 1);
    }
  }

  /** It is enough that no `limit` rows in a row fall into one millisecond. */
  lemma {:induction false} SparseAdvances<T>(s: seq<T>, at: T -> int, since: Option<int>, limit: nat)
    requires limit > 0 && WholeMillis(since) && AscendingAt(s, at)
    requires forall i: nat | i + limit <= |s| :: Milli(at(s[i])) < Milli(at(s[i + (limit - 1)]))
    ensures Advances(s, at, since, limit)
    decreases |After(s, at, since)|
  {
    if HasMore(s, at, since, limit) {
      AfterOrdered(s, at, since);
      var i := |s| - |After(s, at, since)|;
      var page := PageItems(s, at, since, limit);
      assert page[0] == s[i] && page[limit - 1] == s[i + (limit - 1)];
      assert at(page[0]) <= CursorInstant(at(page[limit - 1]));
      PollShrinks(s, at, since, limit);
      SparseAdvances(s, at, NextSince(page, at, since), limit);
    }
  }
}
