/**
 The sync page for stamps of any precision. Its rows are sorted by whole milliseconds and
 queried by microseconds, so a row may be behind its page and not after its cursor: exactly
 when a client that follows the pages comes to an end, and exactly when it has then received
 everything at least once.
 */
module SyncLosses {
  import opened Prelude
  import opened StableSorting
  import opened MobileFeed
  import opened MobileSync
  import opened SyncDrain

  /** The merged feed behind a cursor. */
  function Behind(sources: seq<seq<Item>>, cursor: Option<Cursor>): seq<Item> {
    FeedFrom(sources, Since(cursor))
  }

  ghost predicate Begun(sources: seq<seq<Item>>, cursor: Option<Cursor>) {
    AllAscending(sources) && WholeMillis(SinceOf(cursor))
  }

  /** More rows than a page are behind the cursor, and the page says so. */
  ghost predicate GoesOn(sources: seq<seq<Item>>, cursor: Option<Cursor>, limit: Option<int>) {
    |Behind(sources, cursor)| > ClampLimit(limit) && !LongTail(sources, Since(cursor), ClampLimit(limit))
  }

  /** The new cursor has passed some row. */
  predicate MovesOn(a: seq<Item>, n: nat)
    requires 0 < n <= |a|
  {
    exists i :: 0 <= i < |a| && a[i].at <= CursorInstant(a[n - 1].at)
  }

  /** A row behind the page stands exactly on the whole millisecond of the new cursor. */
  predicate CutsOff(a: seq<Item>, n: nat)
    requires 0 < n <= |a|
  {
    exists i :: n <= i < |a| && a[i].at == CursorInstant(a[n - 1].at)
  }

  // ---- one page ------------------------------------------------------------------------

  lemma BehindInOrder(sources: seq<seq<Item>>, cursor: Option<Cursor>)
    ensures var a := Behind(sources, cursor);
            forall i, j | 0 <= i < j < |a| :: Milli(a[i].at) <= Milli(a[j].at)
  {
    var a, key, rest := Behind(sources, cursor), MilliKey(ItemAt), After(Concat(sources), ItemAt, Some(Since(cursor)));
    SortAfter(Concat(sources), ItemAt, Some(Since(cursor)), key);
    StableSortIsStable(rest, key);
    forall i, j | 0 <= i < j < |a| ensures Milli(a[i].at) <= Milli(a[j].at) {
      assert key(a[i]) <= key(a[j]) && ItemAt(a[i]) == a[i].at && ItemAt(a[j]) == a[j].at;
    }
  }

  lemma SyncPageFacts(sources: seq<seq<Item>>, cursor: Option<Cursor>, limit: Option<int>)
    requires Begun(sources, cursor)
    ensures var a, n, page := Behind(sources, cursor), ClampLimit(limit), Sync(sources, cursor, limit);
            && page.items == Take(a, n)
            && (page.hasMore <==> GoesOn(sources, cursor, limit))
            && (|a| > n ==>
                  && Since(page.cursor) == CursorInstant(a[n - 1].at) && Begun(sources, page.cursor)
                  && Behind(sources, page.cursor) == After(a, ItemAt, Some(CursorInstant(a[n - 1].at))))
  {
    var a, n, since := Behind(sources, cursor), ClampLimit(limit), Some(Since(cursor));
    var merged := Merged(sources, ItemAt);
    SyncStep(sources, cursor, limit, Since(cursor));
    AfterTwice(merged, ItemAt, since, since);
    NextSinceNotBefore(a, ItemAt, since, n);
    var next := NextSince(PageItems(a, ItemAt, since, n), ItemAt, since);
    AfterTwice(merged, ItemAt, since, next);
    if |a| > n {
      assert PageItems(a, ItemAt, since, n) == a[..n];
    }
  }

  lemma AfterDrops<T>(s: seq<T>, at: T -> int, since: Option<int>, i: nat)
    requires i < |s| && !Later(at(s[i]), since)
    ensures |After(s, at, since)| < |s|
  {
    AfterMembers(s[..i], at, since);
    AfterMembers(s[i + 1..], at, since);
    assert s == s[..i] + ([s[i]] + s[i + 1..]);
    AfterConcat(s[..i], [s[i]] + s[i + 1..], at, since);
    AfterCons(s[i], s[i + 1..], at, since);
  }

  lemma SyncShrinks(sources: seq<seq<Item>>, cursor: Option<Cursor>, limit: Option<int>)
    requires Begun(sources, cursor) && GoesOn(sources, cursor, limit)
    requires MovesOn(Behind(sources, cursor), ClampLimit(limit))
    ensures var next := Sync(sources, cursor, limit).cursor;
            Begun(sources, next) && |Behind(sources, next)| < |Behind(sources, cursor)|
  {
    var a, n := Behind(sources, cursor), ClampLimit(limit);
    SyncPageFacts(sources, cursor, limit);
    var i :| 0 <= i < |a| && a[i].at <= CursorInstant(a[n - 1].at);
    AfterDrops(a, ItemAt, Some(CursorInstant(a[n - 1].at)), i);
  }

  // ---- when it ends -----------------------------------------------------------------------

  /** Every page that says there is more has a cursor that passes some row. */
  ghost predicate SyncAdvances(sources: seq<seq<Item>>, cursor: Option<Cursor>, limit: Option<int>)
    requires Begun(sources, cursor)
    decreases |Behind(sources, cursor)|
  {
    GoesOn(sources, cursor, limit) ==>
      && MovesOn(Behind(sources, cursor), ClampLimit(limit))
      && (SyncShrinks(sources, cursor, limit);
          SyncAdvances(sources, Sync(sources, cursor, limit).cursor, limit))
  }

  ghost predicate SyncEnds(sources: seq<seq<Item>>, cursor: Option<Cursor>, limit: Option<int>) {
    exists n: nat :: SyncFinished(sources, cursor, limit, n)
  }

  lemma {:induction false} TotalsApart(a: seq<nat>, b: seq<nat>)
    requires |a| == |b| && forall i | 0 <= i < |a| :: a[i] <= b[i]
    ensures Total(a) <= Total(b) && (Total(a) == Total(b) ==> a == b)
  {
    if |a| > 0 {
      TotalsApart(a[1..], b[1..]);
      assert a == [a[0]] + a[1..] && b == [b[0]] + b[1..];
    }
  }

  /** With equally many rows behind both, two cursors leave equally many in each source. */
  lemma SameSizesBehind(sources: seq<seq<Item>>, since: int, next: int)
    requires since <= next && |FeedFrom(sources, since)| == |FeedFrom(sources, next)|
    ensures Sizes(AfterEach(sources, ItemAt, next)) == Sizes(AfterEach(sources, ItemAt, since))
  {
    var late, early := AfterEach(sources, ItemAt, next), AfterEach(sources, ItemAt, since);
    EachTotal(sources, since);
    EachTotal(sources, next);
    QueriedIsCapped(sources, ItemAt, since, 0);
    QueriedIsCapped(sources, ItemAt, next, 0);
    forall i | 0 <= i < |sources| ensures |late[i]| <= |early[i]| {
      AfterTwice(sources[i], ItemAt, Some(since), Some(next));
      AfterMembers(early[i], ItemAt, Some(next));
    }
    TotalsApart(Sizes(late), Sizes(early));
  }

  lemma EachTotal(sources: seq<seq<Item>>, since: int)
    ensures Total(Sizes(AfterEach(sources, ItemAt, since))) == |FeedFrom(sources, since)|
  {
    QueriedIsCapped(sources, ItemAt, since, 0);
    SizesOf(AfterEach(sources, ItemAt, since), 0);
    SortAfter(Concat(sources), ItemAt, Some(since), MilliKey(ItemAt));
    SortKeepsMultiset(After(Concat(sources), ItemAt, Some(since)), MilliKey(ItemAt));
  }

  /** A cursor that passes nothing leaves the next request where this one was. */
  lemma SyncStaysThere(sources: seq<seq<Item>>, cursor: Option<Cursor>, limit: Option<int>)
    requires Begun(sources, cursor) && GoesOn(sources, cursor, limit)
    requires !MovesOn(Behind(sources, cursor), ClampLimit(limit))
    ensures var next := Sync(sources, cursor, limit).cursor;
            && Begun(sources, next) && GoesOn(sources, next, limit)
            && Behind(sources, next) == Behind(sources, cursor)
  {
    var a, n := Behind(sources, cursor), ClampLimit(limit);
    SyncPageFacts(sources, cursor, limit);
    var next := Sync(sources, cursor, limit).cursor;
    AfterAll(a, ItemAt, Some(Since(next)));
    AfterMembers(Merged(sources, ItemAt), ItemAt, Some(Since(cursor)));
    SyncNotBack(sources, cursor, limit);
    SameSizesBehind(sources, Since(cursor), Since(next));
  }

  lemma SyncNotBack(sources: seq<seq<Item>>, cursor: Option<Cursor>, limit: Option<int>)
    requires Begun(sources, cursor)
    ensures Since(cursor) <= Since(Sync(sources, cursor, limit).cursor)
  {
    SyncStep(sources, cursor, limit, Since(cursor));
    NextSinceNotBefore(Behind(sources, cursor), ItemAt, Some(Since(cursor)), ClampLimit(limit));
  }

  lemma {:induction false} SyncStuck(sources: seq<seq<Item>>, cursor: Option<Cursor>, limit: Option<int>, n: nat)
    requires Begun(sources, cursor) && GoesOn(sources, cursor, limit)
    requires !MovesOn(Behind(sources, cursor), ClampLimit(limit))
    ensures !SyncFinished(sources, cursor, limit, n)
    decreases n
  {
    if n > 0 {
      SyncPageFacts(sources, cursor, limit);
      SyncStaysThere(sources, cursor, limit);
      SyncStuck(sources, Sync(sources, cursor, limit).cursor, limit, n - 1);
    }
  }

  /** A page that is the last one, and a page that is not. */
  lemma SyncEndsStep(sources: seq<seq<Item>>, cursor: Option<Cursor>, limit: Option<int>)
    requires Begun(sources, cursor)
    ensures !GoesOn(sources, cursor, limit) ==> SyncEnds(sources, cursor, limit)
    ensures GoesOn(sources, cursor, limit) ==>
              (SyncEnds(sources, cursor, limit) <==> SyncEnds(sources, Sync(sources, cursor, limit).cursor, limit))
  {
    SyncPageFacts(sources, cursor, limit);
    var next := Sync(sources, cursor, limit).cursor;
    if !GoesOn(sources, cursor, limit) {
      assert SyncFinished(sources, cursor, limit, 1);
    } else {
      if n: nat :| SyncFinished(sources, cursor, limit, n) {
        assert SyncFinished(sources, next, limit, n - 1);
      }
      if n: nat :| SyncFinished(sources, next, limit, n) {
        assert SyncFinished(sources, cursor, limit, n + 1);
      }
    }
  }

  /** The client comes to an end exactly when every page that says there is more passes some row. */
  lemma {:induction false} SyncEndsIff(sources: seq<seq<Item>>, cursor: Option<Cursor>, limit: Option<int>)
    requires Begun(sources, cursor)
    ensures SyncEnds(sources, cursor, limit) <==> SyncAdvances(sources, cursor, limit)
    decreases |Behind(sources, cursor)|
  {
    SyncEndsStep(sources, cursor, limit);
    if GoesOn(sources, cursor, limit) {
      if MovesOn(Behind(sources, cursor), ClampLimit(limit)) {
        SyncShrinks(sources, cursor, limit);
        SyncEndsIff(sources, Sync(sources, cursor, limit).cursor, limit);
      } else if n: nat :| SyncFinished(sources, cursor, limit, n) {
        SyncStuck(sources, cursor, limit, n);
      }
    }
  }

  // ---- when nothing is lost -----------------------------------------------------------------

  ghost predicate Covers(got: seq<Item>, rows: seq<Item>) {
    forall x | x in rows :: x in got
  }

  ghost predicate ReceivesAllIn(sources: seq<seq<Item>>, cursor: Option<Cursor>, limit: Option<int>, n: nat) {
    SyncFinished(sources, cursor, limit, n) && Covers(SyncPolled(sources, cursor, limit, n), Behind(sources, cursor))
  }

  /** The client comes to an end with every row behind the cursor it started with. */
  ghost predicate ReceivesAll(sources: seq<seq<Item>>, cursor: Option<Cursor>, limit: Option<int>) {
    exists n: nat :: ReceivesAllIn(sources, cursor, limit, n)
  }

  /** No page hides what is left, stands still, or is cut off before a row on its cursor's whole millisecond. */
  ghost predicate KeepsEveryRow(sources: seq<seq<Item>>, cursor: Option<Cursor>, limit: Option<int>)
    requires Begun(sources, cursor)
    decreases |Behind(sources, cursor)|
  {
    var a, n := Behind(sources, cursor), ClampLimit(limit);
    |a| > n ==>
      && !LongTail(sources, Since(cursor), n)
      && MovesOn(a, n)
      && !CutsOff(a, n)
      && (SyncShrinks(sources, cursor, limit);
          KeepsEveryRow(sources, Sync(sources, cursor, limit).cursor, limit))
  }

  lemma BeyondPage(a: seq<Item>, n: nat)
    requires n < |a| && Distinct(a)
    ensures a[n] in a && a[n] !in a[..n]
    ensures forall i | n <= i < |a| :: a[i] !in a[..n]
  {
  }

  /** What comes after a page is after its cursor. */
  lemma LaterPolls(sources: seq<seq<Item>>, cursor: Option<Cursor>, limit: Option<int>, n: nat)
    requires Begun(sources, cursor)
    ensures forall x | x in SyncPolled(sources, cursor, limit, n) :: x.at > Since(cursor)
  {
    var feed, since := Behind(sources, cursor), Some(Since(cursor));
    SyncIsPrefix(sources, cursor, limit, Since(cursor), n);
    PolledLater(feed, ItemAt, since, ClampLimit(limit), n);
    var got, all := SyncPolled(sources, cursor, limit, n), Polled(feed, ItemAt, since, ClampLimit(limit), n);
    forall x | x in got ensures x.at > Since(cursor) {
      var i :| 0 <= i < |got| && got[i] == x;
      assert all[i] == x && Later(ItemAt(all[i]), since);
    }
  }

  /** A row of the page that is still after the cursor is on the next page. */
  lemma AgainOnNext(a: seq<Item>, n: nat, since: Option<int>, x: Item)
    requires n <= |a| && x in a[..n] && Later(x.at, since)
    ensures x in Take(After(a, ItemAt, since), n)
  {
    var front := After(a[..n], ItemAt, since);
    assert a == a[..n] + a[n..];
    AfterConcat(a[..n], a[n..], ItemAt, since);
    AfterMembers(a[..n], ItemAt, since);
    AfterIff(a[..n], ItemAt, since, x);
    var i :| 0 <= i < |front| && front[i] == x;
    assert Take(After(a, ItemAt, since), n)[i] == x;
  }

  lemma FirstPolled(sources: seq<seq<Item>>, cursor: Option<Cursor>, limit: Option<int>, n: nat)
    requires n > 0
    ensures forall x | x in Sync(sources, cursor, limit).items :: x in SyncPolled(sources, cursor, limit, n)
  {
  }

  lemma PolledAfterPage(sources: seq<seq<Item>>, cursor: Option<Cursor>, limit: Option<int>, n: nat)
    requires Sync(sources, cursor, limit).hasMore
    ensures var page := Sync(sources, cursor, limit);
            && SyncFinished(sources, cursor, limit, n + 1) == SyncFinished(sources, page.cursor, limit, n)
            && forall x :: x in SyncPolled(sources, cursor, limit, n + 1)
                  <==> x in page.items || x in SyncPolled(sources, page.cursor, limit, n)
  {
  }

  /** If everything arrives, nothing was cut off, and everything behind the new cursor arrives. */
  lemma AllArrivesOnward(sources: seq<seq<Item>>, cursor: Option<Cursor>, limit: Option<int>, n: nat)
    requires Begun(sources, cursor) && Distinct(Behind(sources, cursor)) && GoesOn(sources, cursor, limit)
    requires ReceivesAllIn(sources, cursor, limit, n + 1)
    ensures !CutsOff(Behind(sources, cursor), ClampLimit(limit))
    ensures ReceivesAllIn(sources, Sync(sources, cursor, limit).cursor, limit, n)
  {
    var a, size, page := Behind(sources, cursor), ClampLimit(limit), Sync(sources, cursor, limit);
    SyncPageFacts(sources, cursor, limit);
    PolledAfterPage(sources, cursor, limit, n);
    LaterPolls(sources, page.cursor, limit, n);
    BeyondPage(a, size);
    forall i | size <= i < |a| ensures a[i].at != CursorInstant(a[size - 1].at) {
      assert a[i] in a && a[i] in SyncPolled(sources, page.cursor, limit, n);
    }
    SyncPageFacts(sources, page.cursor, limit);
    FirstPolled(sources, page.cursor, limit, n);
    forall x | x in Behind(sources, page.cursor) ensures x in SyncPolled(sources, page.cursor, limit, n) {
      AfterIff(a, ItemAt, Some(Since(page.cursor)), x);
      if x in page.items {
        AgainOnNext(a, size, Some(Since(page.cursor)), x);
      }
    }
  }

  lemma AllArrivesBefore(sources: seq<seq<Item>>, cursor: Option<Cursor>, limit: Option<int>, n: nat)
    requires Begun(sources, cursor) && GoesOn(sources, cursor, limit)
    requires !CutsOff(Behind(sources, cursor), ClampLimit(limit))
    requires ReceivesAllIn(sources, Sync(sources, cursor, limit).cursor, limit, n)
    ensures ReceivesAllIn(sources, cursor, limit, n + 1)
  {
    var a, size, page := Behind(sources, cursor), ClampLimit(limit), Sync(sources, cursor, limit);
    SyncPageFacts(sources, cursor, limit);
    PolledAfterPage(sources, cursor, limit, n);
    BehindInOrder(sources, cursor);
    forall x | x in a ensures x in SyncPolled(sources, cursor, limit, n + 1) {
      var i :| 0 <= i < |a| && a[i] == x;
      if i < size {
        assert page.items[i] == x;
      } else {
        assert Milli(a[size - 1].at) <= Milli(a[i].at);
        AfterIff(a, ItemAt, Some(Since(page.cursor)), x);
      }
    }
  }

  /** The last page holds all there is exactly when there is no more than a page. */
  lemma LastPageCovers(sources: seq<seq<Item>>, cursor: Option<Cursor>, limit: Option<int>)
    requires Begun(sources, cursor) && Distinct(Behind(sources, cursor)) && !GoesOn(sources, cursor, limit)
    ensures ReceivesAll(sources, cursor, limit) <==> |Behind(sources, cursor)| <= ClampLimit(limit)
  {
    var a, size := Behind(sources, cursor), ClampLimit(limit);
    SyncPageFacts(sources, cursor, limit);
    if |a| <= size {
      assert SyncPolled(sources, cursor, limit, 1) == a + [];
      assert ReceivesAllIn(sources, cursor, limit, 1);
    } else {
      BeyondPage(a, size);
      forall n: nat | SyncFinished(sources, cursor, limit, n) ensures !ReceivesAllIn(sources, cursor, limit, n) {
        assert SyncPolled(sources, cursor, limit, n) == a[..size] + [];
      }
    }
  }

  lemma DistinctOnward(sources: seq<seq<Item>>, cursor: Option<Cursor>, limit: Option<int>)
    requires Begun(sources, cursor) && Distinct(Behind(sources, cursor)) && GoesOn(sources, cursor, limit)
    ensures Distinct(Behind(sources, Sync(sources, cursor, limit).cursor))
  {
    SyncPageFacts(sources, cursor, limit);
    AfterDistinct(Behind(sources, cursor), ItemAt, Some(Since(Sync(sources, cursor, limit).cursor)));
  }

  lemma {:induction false} AfterDistinct<T(!new)>(s: seq<T>, at: T -> int, since: Option<int>)
    requires Distinct(s)
    ensures Distinct(After(s, at, since))
  {
    if |s| > 0 {
      AfterDistinct(s[1..], at, since);
      AfterIff(s[1..], at, since, s[0]);
    }
  }

  /**
   The client comes to an end with every row received, some perhaps twice, exactly when no page
   on the way is cut off before a row that stands on its cursor's whole millisecond, and none
   stands still or hides what is left.
   */
  lemma {:induction false} SyncLosesNothingIff(sources: seq<seq<Item>>, cursor: Option<Cursor>, limit: Option<int>)
    requires Begun(sources, cursor) && Distinct(Behind(sources, cursor))
    ensures ReceivesAll(sources, cursor, limit) <==> KeepsEveryRow(sources, cursor, limit)
    decreases |Behind(sources, cursor)|
  {
    var a, size, next := Behind(sources, cursor), ClampLimit(limit), Sync(sources, cursor, limit).cursor;
    if !GoesOn(sources, cursor, limit) {
      LastPageCovers(sources, cursor, limit);
    } else {
      if n: nat :| ReceivesAllIn(sources, cursor, limit, n) {
        if !MovesOn(a, size) {
          SyncStuck(sources, cursor, limit, n);
          assert false;
        }
        AllArrivesOnward(sources, cursor, limit, n - 1);
      }
      if MovesOn(a, size) && !CutsOff(a, size) {
        SyncShrinks(sources, cursor, limit);
        DistinctOnward(sources, cursor, limit);
        SyncLosesNothingIff(sources, next, limit);
        if n: nat :| ReceivesAllIn(sources, next, limit, n) {
          AllArrivesBefore(sources, cursor, limit, n);
        }
      }
    }
  }

  /** Two sources with a row each, in one millisecond. */
  lemma TwoRows(x: Item, y: Item, since: int)
    requires Milli(x.at) == Milli(y.at)
    ensures Merged([[x], [y]], ItemAt) == [x, y]
    ensures AfterEach([[x], [y]], ItemAt, since) == [After([x], ItemAt, Some(since)), After([y], ItemAt, Some(since))]
    ensures After([x, y], ItemAt, Some(since)) == After([x], ItemAt, Some(since)) + After([y], ItemAt, Some(since))
  {
    var sources, key := [[x], [y]], MilliKey(ItemAt);
    QueriedIsCapped(sources, ItemAt, since, 0);
    assert sources[1..] == [[y]] && [[y]][1..] == [];
    assert Concat([[y]]) == [y] + [] == [y] && Concat(sources) == [x] + [y] == [x, y];
    assert [x, y][1..] == [y] && [y][1..] == [];
    assert ItemAt(x) == x.at && ItemAt(y) == y.at && key(x) == key(y);
    assert StableSort([y], key) == Insert(y, [], key) == [y] + [] == [y];
    assert StableSort([x, y], key) == Insert(x, [y], key) == [x] + [y];
    var each := AfterEach(sources, ItemAt, since);
    assert each == [each[0], each[1]];
    assert [x] + [y] == [x, y];
    AfterConcat([x], [y], ItemAt, Some(since));
  }

  /**
   Two sources with a row each, half a millisecond apart, and pages of one row: the later row
   comes first, and the earlier one, on the whole millisecond, never.
   */
  lemma SyncLosesAnEarlierRow()
    ensures var sources := [[Item("task", "a", 1500)], [Item("draft", "b", 1000)]];
            Begun(sources, None) && SyncEnds(sources, None, Some(1)) && !ReceivesAll(sources, None, Some(1))
  {
    var x, y := Item("task", "a", 1500), Item("draft", "b", 1000);
    var sources := [[x], [y]];
    TwoRows(x, y, 0);
    TwoRows(x, y, 1000);
    var each := AfterEach(sources, ItemAt, 0);
    assert |each[0]| == 1 && |each[1]| == 1;
    assert Behind(sources, None) == [x, y] && CutsOff([x, y], 1) by {
      assert [x, y][1] == y;
    }
    SyncLosesNothingIff(sources, None, Some(1));
    SyncPageFacts(sources, None, Some(1));
    var next := Sync(sources, None, Some(1)).cursor;
    assert Since(next) == 1000 && |Behind(sources, next)| == 1;
    SyncEndsStep(sources, None, Some(1));
    SyncEndsStep(sources, next, Some(1));
  }
}
