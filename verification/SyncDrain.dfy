/** Following the sync page's own cursor and `hasMore` until it says that nothing is left. */
module SyncDrain {
  import opened Prelude
  import opened StableSorting
  import opened MobileFeed
  import opened MobileSync

  function SyncPolled(sources: seq<seq<Item>>, cursor: Option<Cursor>, limit: Option<int>, n: nat): seq<Item>
    decreases n
  {
    if n == 0 then []
    else
      var page := Sync(sources, cursor, limit);
      page.items + if page.hasMore then SyncPolled(sources, page.cursor, limit, n - 1) else []
  }

  /** One of the first `n` sync pages reported that nothing is left. */
  predicate SyncFinished(sources: seq<seq<Item>>, cursor: Option<Cursor>, limit: Option<int>, n: nat)
    decreases n
  {
    && n > 0
    && var page := Sync(sources, cursor, limit);
       (page.hasMore ==> SyncFinished(sources, page.cursor, limit, n - 1))
  }

  /** The threshold of a cursor; without one it is the epoch. */
  function Since(cursor: Option<Cursor>): int {
    SinceOf(cursor).GetOr(0)
  }

  /** What a client that starts at `base` is to receive. */
  function FeedFrom(sources: seq<seq<Item>>, base: int): seq<Item> {
    After(Merged(sources, ItemAt), ItemAt, Some(base))
  }

  /** Behind the threshold one source alone holds rows, and more of them than a page. */
  ghost predicate LongTail(sources: seq<seq<Item>>, since: int, n: nat) {
    OneLongSource(Sizes(AfterEach(sources, ItemAt, since)), n)
  }

  ghost predicate AllAscending(sources: seq<seq<Item>>) {
    forall i | 0 <= i < |sources| :: AscendingAt(sources[i], ItemAt)
  }

  /** A sync page against the feed from `base`. */
  lemma SyncStep(sources: seq<seq<Item>>, cursor: Option<Cursor>, limit: Option<int>, base: int)
    requires AllAscending(sources) && base <= Since(cursor)
    ensures var page, n, since := Sync(sources, cursor, limit), ClampLimit(limit), Some(Since(cursor));
            var feed := FeedFrom(sources, base);
            && page.items == PageItems(feed, ItemAt, since, n)
            && (page.hasMore <==> HasMore(feed, ItemAt, since, n) && !LongTail(sources, Since(cursor), n))
            && Some(Since(page.cursor)) == NextSince(page.items, ItemAt, since)
  {
    SyncIsFeedPage(sources, cursor, limit);
    SyncHasMore(sources, cursor, limit);
    AfterTwice(Merged(sources, ItemAt), ItemAt, Some(base), Some(Since(cursor)));
    RemainingIsRest(sources, cursor);
  }

  lemma RemainingIsRest(sources: seq<seq<Item>>, cursor: Option<Cursor>)
    ensures Remaining(sources, cursor) == |After(Merged(sources, ItemAt), ItemAt, Some(Since(cursor)))|
  {
    SortAfter(Concat(sources), ItemAt, Some(Since(cursor)), MilliKey(ItemAt));
    SortKeepsMultiset(After(Concat(sources), ItemAt, Some(Since(cursor))), MilliKey(ItemAt));
  }

  lemma LongerPrefix<T>(p: seq<T>, a: seq<T>, b: seq<T>)
    ensures p + [] <= p + b
    ensures a <= b ==> p + a <= p + b
  {
  }

  /** The sync pages have delivered what the feed's pages have, or the first part of it. */
  ghost predicate DeliversPrefix(sources: seq<seq<Item>>, cursor: Option<Cursor>, limit: Option<int>, base: int,
                                 n: nat) {
    SyncPolled(sources, cursor, limit, n)
    <= Polled(FeedFrom(sources, base), ItemAt, Some(Since(cursor)), ClampLimit(limit), n)
  }

  /** What the sync pages deliver is what the feed's pages deliver, or less. */
  lemma {:induction false} SyncIsPrefix(sources: seq<seq<Item>>, cursor: Option<Cursor>, limit: Option<int>,
                                        base: int, n: nat)
    requires AllAscending(sources) && base <= Since(cursor) && WholeMillis(Some(Since(cursor)))
    ensures DeliversPrefix(sources, cursor, limit, base, n)
    decreases n
  {
    if n > 0 {
      var page := Sync(sources, cursor, limit);
      SyncMovesForward(sources, cursor, limit, base);
      if page.hasMore {
        SyncIsPrefix(sources, page.cursor, limit, base, n - 1);
        SyncPrefixStep(sources, cursor, limit, base, n - 1);
      } else {
        LastPageIsPrefix(sources, cursor, limit, base, n);
      }
    }
  }

  lemma LastPageIsPrefix(sources: seq<seq<Item>>, cursor: Option<Cursor>, limit: Option<int>, base: int, n: nat)
    requires AllAscending(sources) && base <= Since(cursor) && n > 0 && !Sync(sources, cursor, limit).hasMore
    ensures DeliversPrefix(sources, cursor, limit, base, n)
  {
    SyncStep(sources, cursor, limit, base);
    PageComesFirst(FeedFrom(sources, base), Some(Since(cursor)), ClampLimit(limit), n);
  }

  lemma SyncMovesForward(sources: seq<seq<Item>>, cursor: Option<Cursor>, limit: Option<int>, base: int)
    requires AllAscending(sources) && base <= Since(cursor) && WholeMillis(Some(Since(cursor)))
    ensures var next := Since(Sync(sources, cursor, limit).cursor);
            base <= next && WholeMillis(Some(next))
  {
    SyncStep(sources, cursor, limit, base);
    NextSinceNotBefore(FeedFrom(sources, base), ItemAt, Some(Since(cursor)), ClampLimit(limit));
  }

  lemma SyncPrefixStep(sources: seq<seq<Item>>, cursor: Option<Cursor>, limit: Option<int>, base: int, n: nat)
    requires AllAscending(sources) && base <= Since(cursor) && Sync(sources, cursor, limit).hasMore
    requires DeliversPrefix(sources, Sync(sources, cursor, limit).cursor, limit, base, n)
    ensures DeliversPrefix(sources, cursor, limit, base, n + 1)
  {
    var page, feed, size := Sync(sources, cursor, limit), FeedFrom(sources, base), ClampLimit(limit);
    SyncStep(sources, cursor, limit, base);
    PolledStep(feed, ItemAt, Some(Since(cursor)), Some(Since(page.cursor)), size, n);
    LongerPrefix(page.items, SyncPolled(sources, page.cursor, limit, n),
                 Polled(feed, ItemAt, Some(Since(page.cursor)), size, n));
  }

  lemma PageComesFirst(feed: seq<Item>, since: Option<int>, size: nat, n: nat)
    requires n > 0
    ensures PageItems(feed, ItemAt, since, size) + [] <= Polled(feed, ItemAt, since, size, n)
  {
  }

  /**
   Every page boundary from row `start` on is clean, and none leaves a long tail in one source,
   of which the page would say that it is not there.
   */
  ghost predicate SyncCleanPages(sources: seq<seq<Item>>, feed: seq<Item>, since: int, n: nat, start: nat)
    requires n > 0
    decreases |feed| - start
  {
    start + n < |feed| ==>
      && !LongTail(sources, since, n)
      && CleanCut(feed, ItemAt, start + n)
      && SyncCleanPages(sources, feed, CursorInstant(feed[start + n - 1].at), n, start + n)
  }

  /** From this cursor, which stands after `start` rows of the feed, `n` polls deliver exactly the rest. */
  ghost predicate SyncDrains(sources: seq<seq<Item>>, cursor: Option<Cursor>, limit: Option<int>, base: int,
                             start: nat, n: nat) {
    var feed := FeedFrom(sources, base);
    && StandsAt(sources, cursor, base, start)
    && SyncPolled(sources, cursor, limit, n) == feed[start..]
    && SyncFinished(sources, cursor, limit, n)
  }

  ghost predicate StandsAt(sources: seq<seq<Item>>, cursor: Option<Cursor>, base: int, start: nat) {
    var feed := FeedFrom(sources, base);
    && base <= Since(cursor) && WholeMillis(Some(Since(cursor)))
    && start <= |feed| && After(feed, ItemAt, Some(Since(cursor))) == feed[start..]
  }

  /** The cursor of a full page with more behind it. */
  lemma FullSyncPage(sources: seq<seq<Item>>, cursor: Option<Cursor>, limit: Option<int>, base: int, start: nat)
    requires AllAscending(sources) && StandsAt(sources, cursor, base, start)
    requires start + ClampLimit(limit) < |FeedFrom(sources, base)|
    ensures var feed, n, page := FeedFrom(sources, base), ClampLimit(limit), Sync(sources, cursor, limit);
            && page.items == feed[start..start + n]
            && page.items + feed[start + n..] == feed[start..]
            && (page.hasMore <==> !LongTail(sources, Since(cursor), n))
            && Since(page.cursor) == CursorInstant(feed[start + n - 1].at)
            && base <= Since(page.cursor) && WholeMillis(Some(Since(page.cursor)))
  {
    var feed := FeedFrom(sources, base);
    SyncStep(sources, cursor, limit, base);
    FullPage(feed, ItemAt, Some(Since(cursor)), ClampLimit(limit), start);
    NextSinceNotBefore(feed, ItemAt, Some(Since(cursor)), ClampLimit(limit));
  }

  lemma LastSyncPage(sources: seq<seq<Item>>, cursor: Option<Cursor>, limit: Option<int>, base: int, start: nat)
    requires AllAscending(sources) && StandsAt(sources, cursor, base, start)
    requires start + ClampLimit(limit) >= |FeedFrom(sources, base)|
    ensures SyncDrains(sources, cursor, limit, base, start, 1)
  {
    SyncStep(sources, cursor, limit, base);
    var page := Sync(sources, cursor, limit);
    assert !page.hasMore && page.items == FeedFrom(sources, base)[start..];
    assert SyncPolled(sources, cursor, limit, 1) == page.items + [];
  }

  lemma SyncDrainStep(sources: seq<seq<Item>>, cursor: Option<Cursor>, limit: Option<int>, base: int,
                      start: nat, m: nat)
    requires AllAscending(sources) && StandsAt(sources, cursor, base, start)
    requires start + ClampLimit(limit) < |FeedFrom(sources, base)|
    requires !LongTail(sources, Since(cursor), ClampLimit(limit))
    requires SyncDrains(sources, Sync(sources, cursor, limit).cursor, limit, base, start + ClampLimit(limit), m)
    ensures SyncDrains(sources, cursor, limit, base, start, m + 1)
  {
    FullSyncPage(sources, cursor, limit, base, start);
  }

  lemma {:induction false} SyncDrainFrom(sources: seq<seq<Item>>, cursor: Option<Cursor>, limit: Option<int>,
                                         base: int, start: nat)
      returns (n: nat)
    requires AllAscending(sources) && StandsAt(sources, cursor, base, start)
    requires SyncCleanPages(sources, FeedFrom(sources, base), Since(cursor), ClampLimit(limit), start)
    ensures SyncDrains(sources, cursor, limit, base, start, n)
    decreases |FeedFrom(sources, base)| - start
  {
    var feed, size := FeedFrom(sources, base), ClampLimit(limit);
    if start + size < |feed| {
      var page := Sync(sources, cursor, limit);
      FullSyncPage(sources, cursor, limit, base, start);
      AfterSplit(feed, ItemAt, Some(Since(page.cursor)), start + size);
      var m := SyncDrainFrom(sources, page.cursor, limit, base, start + size);
      SyncDrainStep(sources, cursor, limit, base, start, m);
      n := m + 1;
    } else {
      LastSyncPage(sources, cursor, limit, base, start);
      n := 1;
    }
  }

  /** A sync drain that delivers the rest has a true flag and a clean boundary after a full page. */
  lemma ForcedSyncPage(sources: seq<seq<Item>>, cursor: Option<Cursor>, limit: Option<int>, base: int,
                       start: nat, n: nat)
    requires AllAscending(sources) && Distinct(FeedFrom(sources, base))
    requires SyncDrains(sources, cursor, limit, base, start, n + 1)
    requires start + ClampLimit(limit) < |FeedFrom(sources, base)|
    ensures !LongTail(sources, Since(cursor), ClampLimit(limit))
    ensures CleanCut(FeedFrom(sources, base), ItemAt, start + ClampLimit(limit))
    ensures SyncDrains(sources, Sync(sources, cursor, limit).cursor, limit, base, start + ClampLimit(limit), n)
    ensures Since(Sync(sources, cursor, limit).cursor)
            == CursorInstant(FeedFrom(sources, base)[start + ClampLimit(limit) - 1].at)
  {
    var feed, k, page := FeedFrom(sources, base), start + ClampLimit(limit), Sync(sources, cursor, limit);
    FullSyncPage(sources, cursor, limit, base, start);
    FlagIsTrue(sources, cursor, limit, base, start, n);
    SamePrefix(page.items, SyncPolled(sources, page.cursor, limit, n), feed[k..]);
    SyncIsPrefix(sources, page.cursor, limit, base, n);
    CutIsClean(feed, ItemAt, Some(Since(page.cursor)), ClampLimit(limit), k, n);
  }

  lemma FlagIsTrue(sources: seq<seq<Item>>, cursor: Option<Cursor>, limit: Option<int>, base: int, start: nat, n: nat)
    requires AllAscending(sources) && SyncDrains(sources, cursor, limit, base, start, n + 1)
    requires start + ClampLimit(limit) < |FeedFrom(sources, base)|
    ensures Sync(sources, cursor, limit).hasMore
  {
    var page := Sync(sources, cursor, limit);
    FullSyncPage(sources, cursor, limit, base, start);
    assert |page.items| < |FeedFrom(sources, base)[start..]|;
  }

  lemma {:induction false} SyncDrainForces(sources: seq<seq<Item>>, cursor: Option<Cursor>, limit: Option<int>,
                                           base: int, start: nat, n: nat)
    requires AllAscending(sources) && Distinct(FeedFrom(sources, base))
    requires SyncDrains(sources, cursor, limit, base, start, n)
    ensures SyncCleanPages(sources, FeedFrom(sources, base), Since(cursor), ClampLimit(limit), start)
    decreases n
  {
    if start + ClampLimit(limit) < |FeedFrom(sources, base)| {
      ForcedSyncPage(sources, cursor, limit, base, start, n - 1);
      SyncDrainForces(sources, Sync(sources, cursor, limit).cursor, limit, base, start + ClampLimit(limit), n - 1);
    }
  }

  /** Some number of polls ends the drain, and delivers exactly the feed. */
  ghost predicate SyncDelivers(sources: seq<seq<Item>>, cursor: Option<Cursor>, limit: Option<int>, feed: seq<Item>) {
    exists n: nat :: SyncFinished(sources, cursor, limit, n) && SyncPolled(sources, cursor, limit, n) == feed
  }

  /**
   A client that follows the sync page's cursor while its `hasMore` is true receives everything
   after the cursor it started with, each row once and in the order of the merged feed, exactly
   when every page boundary is clean and none leaves one source with more than `limit` rows and
   the others with nothing.
   */
  lemma SyncDeliversIff(sources: seq<seq<Item>>, cursor: Option<Cursor>, limit: Option<int>)
    requires AllAscending(sources) && WholeMillis(SinceOf(cursor)) && Distinct(FeedFrom(sources, Since(cursor)))
    ensures SyncDelivers(sources, cursor, limit, FeedFrom(sources, Since(cursor)))
       <==> SyncCleanPages(sources, FeedFrom(sources, Since(cursor)), Since(cursor), ClampLimit(limit), 0)
  {
    var base := Since(cursor);
    var feed := FeedFrom(sources, base);
    AfterTwice(Merged(sources, ItemAt), ItemAt, Some(base), Some(base));
    assert feed[0..] == feed;
    if SyncCleanPages(sources, feed, base, ClampLimit(limit), 0) {
      var n := SyncDrainFrom(sources, cursor, limit, base, 0);
    }
    if n: nat :| SyncFinished(sources, cursor, limit, n) && SyncPolled(sources, cursor, limit, n) == feed {
      SyncDrainForces(sources, cursor, limit, base, 0, n);
    }
  }
}
