/**
 The merged sync page: several timestamped sources, each asked for at most `limit` rows
 after the cursor, concatenated, sorted and cut to `limit`.
 */
module MobileSync {
  import opened Prelude
  import opened StableSorting
  import opened MobileFeed

  /** A cursor as the client presents it: one that decodes, or text that does not. */
  datatype Cursor = Cursor(createdAt: int, id: string) | Undecodable(text: string)

  function SinceOf(cursor: Option<Cursor>): Option<int> {
    if cursor.Some? && cursor.value.Cursor? then Some(cursor.value.createdAt) else None
  }

  datatype Item = Item(kind: string, id: string, at: int)

  function ItemAt(x: Item): int {
    x.at
  }

  /** One page of a sync or of a notification listing. */
  datatype Page<T> = Page(items: seq<T>, cursor: Option<Cursor>, hasMore: bool)

  function Concat<T>(sources: seq<seq<T>>): seq<T> {
    if |sources| == 0 then [] else sources[0] + Concat(sources[1..])
  }

  /** Each source asked for its first `limit` rows after the threshold. */
  function Queried<T>(sources: seq<seq<T>>, at: T -> int, since: int, limit: nat): seq<seq<T>> {
    if |sources| == 0 then []
    else [Take(After(sources[0], at, Some(since)), limit)] + Queried(sources[1..], at, since, limit)
  }

  /** The sources in the order of the feed they stand for, without caps or cursor. */
  function Merged<T>(sources: seq<seq<T>>, at: T -> int): seq<T> {
    StableSort(Concat(sources), MilliKey(at))
  }

  function Sync(sources: seq<seq<Item>>, cursor: Option<Cursor>, limitOption: Option<int>): Page<Item> {
    var limit := ClampLimit(limitOption);
    var since := SinceOf(cursor).GetOr(0);
    var rows := Concat(Queried(sources, ItemAt, since, limit));
    var items := Take(StableSort(rows, MilliKey(ItemAt)), limit);
    Page(items,
         if |items| == 0 then cursor
         else Some(Cursor(CursorInstant(items[|items| - 1].at), items[|items| - 1].id)),
         |rows| > limit)
  }

  // ---- capping each source loses nothing of the first `limit` ---------------

  lemma {:induction false} CountAll<T>(s: seq<T>, key: T -> real, k: real)
    requires forall i | 0 <= i < |s| :: key(s[i]) <= k
    ensures CountAtMost(s, key, k) == |s|
  {
    if |s| > 0 {
      CountAll(s[1..], key, k);
    }
  }

  lemma {:induction false} CountAtMostConcat<T>(a: seq<T>, b: seq<T>, key: T -> real, k: real)
    ensures CountAtMost(a + b, key, k) == CountAtMost(a, key, k) + CountAtMost(b, key, k)
  {
    if |a| == 0 {
      assert a + b == b;
    } else {
      assert (a + b)[1..] == a[1..] + b;
      CountAtMostConcat(a[1..], b, key, k);
    }
  }

  /** One ascending source in the middle may be cut to its first `n` rows. */
  lemma {:induction false} CapOne<T>(pre: seq<T>, src: seq<T>, post: seq<T>, key: T -> real, n: nat)
    requires Ascending(src, key)
    ensures Take(StableSort(pre + src + post, key), n) == Take(StableSort(pre + Take(src, n) + post, key), n)
    decreases |src|
  {
    if |src| > n {
      var x, front := src[|src| - 1], src[..|src| - 1];
      CountAll(front, key, key(x));
      CountAtMostConcat(pre, front, key, key(x));
      TakeWithout(pre + front, x, post, key, n);
      assert pre + src + post == (pre + front) + [x] + post;
      assert (pre + front) + post == pre + front + post;
      CapOne(pre, front, post, key, n);
      assert Take(front, n) == Take(src, n);
    }
  }

  function CapAll<T>(sources: seq<seq<T>>, n: nat): seq<seq<T>> {
    if |sources| == 0 then [] else [Take(sources[0], n)] + CapAll(sources[1..], n)
  }

  lemma {:induction false} CapEach<T>(pre: seq<T>, sources: seq<seq<T>>, key: T -> real, n: nat)
    requires forall i | 0 <= i < |sources| :: Ascending(sources[i], key)
    ensures Take(StableSort(pre + Concat(CapAll(sources, n)), key), n)
            == Take(StableSort(pre + Concat(sources), key), n)
    decreases |sources|
  {
    if |sources| > 0 {
      var first, capped := Take(sources[0], n), CapAll(sources[1..], n);
      CapEach(pre + first, sources[1..], key, n);
      Regroup3(pre, first, Concat(capped));
      CapOne(pre, sources[0], Concat(sources[1..]), key, n);
      Regroup3(pre, sources[0], Concat(sources[1..]));
    }
  }

  /**
   The top-`n` theorem for any number of ascending sources: capping each one at `n` before
   the merge does not change the first `n` rows, also among rows with equal keys.
   */
  lemma TopOfCapped<T>(sources: seq<seq<T>>, key: T -> real, n: nat)
    requires forall i | 0 <= i < |sources| :: Ascending(sources[i], key)
    ensures Take(StableSort(Concat(CapAll(sources, n)), key), n) == Take(StableSort(Concat(sources), key), n)
  {
    CapEach([], sources, key, n);
    assert [] + Concat(sources) == Concat(sources);
    assert [] + Concat(CapAll(sources, n)) == Concat(CapAll(sources, n));
  }

  // ---- a sync page is a page of the merged feed ------------------------------

  function AfterEach<T>(sources: seq<seq<T>>, at: T -> int, since: int): seq<seq<T>> {
    if |sources| == 0 then [] else [After(sources[0], at, Some(since))] + AfterEach(sources[1..], at, since)
  }

  lemma {:induction false} QueriedIsCapped<T>(sources: seq<seq<T>>, at: T -> int, since: int, limit: nat)
    ensures Queried(sources, at, since, limit) == CapAll(AfterEach(sources, at, since), limit)
    ensures Concat(AfterEach(sources, at, since)) == After(Concat(sources), at, Some(since))
    ensures |AfterEach(sources, at, since)| == |sources|
    ensures forall i | 0 <= i < |sources| :: AfterEach(sources, at, since)[i] == After(sources[i], at, Some(since))
  {
    if |sources| > 0 {
      QueriedIsCapped(sources[1..], at, since, limit);
      var tail := AfterEach(sources[1..], at, since);
      assert ([After(sources[0], at, Some(since))] + tail)[1..] == tail;
      AfterConcat(sources[0], Concat(sources[1..]), at, Some(since));
    }
  }

  lemma {:induction false} AfterAscending<T>(s: seq<T>, at: T -> int, since: Option<int>)
    requires AscendingAt(s, at)
    ensures Ascending(After(s, at, since), MilliKey(at))
  {
    if |s| > 0 {
      AfterAscending(s[1..], at, since);
      var key := MilliKey(at);
      assert forall i | 0 <= i < |s| :: at(s[0]) <= at(s[i]) && key(s[0]) <= key(s[i]);
      AfterBound(s[1..], at, since, key, key(s[0]));
      AfterCons(s[0], s[1..], at, since);
      assert s == [s[0]] + s[1..];
    }
  }

  /**
   A sync page holds the first `limit` rows after the cursor of the one merged feed, and hands
   out the cursor of that page. Its `hasMore` is another one than the feed's.
   */
  lemma SyncIsFeedPage(sources: seq<seq<Item>>, cursor: Option<Cursor>, limit: Option<int>)
    requires forall i | 0 <= i < |sources| :: AscendingAt(sources[i], ItemAt)
    ensures var page := Sync(sources, cursor, limit);
            var since := Some(SinceOf(cursor).GetOr(0));
            && page.items == PageItems(Merged(sources, ItemAt), ItemAt, since, ClampLimit(limit))
            && (page.items != [] ==> SinceOf(page.cursor) == NextSince(page.items, ItemAt, since))
            && (page.items == [] ==> page.cursor == cursor)
  {
    var since, n, key := SinceOf(cursor).GetOr(0), ClampLimit(limit), MilliKey(ItemAt);
    QueriedIsCapped(sources, ItemAt, since, n);
    forall i | 0 <= i < |sources| ensures Ascending(AfterEach(sources, ItemAt, since)[i], key) {
      AfterAscending(sources[i], ItemAt, Some(since));
    }
    TopOfCapped(AfterEach(sources, ItemAt, since), key, n);
    SortAfter(Concat(sources), ItemAt, Some(since), key);
  }

  // ---- what `hasMore` says ---------------------------------------------------

  /** How many rows after the cursor exist in all sources together. */
  function Remaining(sources: seq<seq<Item>>, cursor: Option<Cursor>): nat {
    |After(Concat(sources), ItemAt, Some(SinceOf(cursor).GetOr(0)))|
  }

  function CappedTotal(sizes: seq<nat>, n: nat): nat {
    if |sizes| == 0 then 0 else Min(sizes[0], n) + CappedTotal(sizes[1..], n)
  }

  function Total(sizes: seq<nat>): nat {
    if |sizes| == 0 then 0 else sizes[0] + Total(sizes[1..])
  }

  function Sizes<T>(sources: seq<seq<T>>): (r: seq<nat>)
    ensures |r| == |sources| && forall i | 0 <= i < |r| :: r[i] == |sources[i]|
  {
    if |sources| == 0 then [] else [|sources[0]|] + Sizes(sources[1..])
  }

  lemma {:induction false} SizesOf<T>(sources: seq<seq<T>>, n: nat)
    ensures |Concat(CapAll(sources, n))| == CappedTotal(Sizes(sources), n)
    ensures |Concat(sources)| == Total(Sizes(sources))
  {
    if |sources| > 0 {
      SizesOf(sources[1..], n);
      assert Sizes(sources)[1..] == Sizes(sources[1..]);
    }
  }

  /** One source alone holds rows, and more of them than the cap. */
  ghost predicate OneLongSource(sizes: seq<nat>, n: nat) {
    exists i :: 0 <= i < |sizes| && sizes[i] > n && forall j | 0 <= j < |sizes| && j != i :: sizes[j] == 0
  }

  lemma {:induction false} TotalZero(sizes: seq<nat>, n: nat)
    requires n > 0
    ensures CappedTotal(sizes, n) <= Total(sizes)
    ensures CappedTotal(sizes, n) == 0 <==> forall j | 0 <= j < |sizes| :: sizes[j] == 0
    ensures Total(sizes) == 0 <==> CappedTotal(sizes, n) == 0
  {
    if |sizes| > 0 {
      TotalZero(sizes[1..], n);
      assert (forall j | 0 <= j < |sizes| :: sizes[j] == 0) <==>
             (sizes[0] == 0 && forall j | 0 <= j < |sizes[1..]| :: sizes[1..][j] == 0) by {
        assert forall j | 1 <= j < |sizes| :: sizes[j] == sizes[1..][j - 1];
      }
    }
  }

  lemma {:induction false} CapHides(sizes: seq<nat>, n: nat)
    requires n > 0
    ensures Total(sizes) > n && CappedTotal(sizes, n) <= n <==> OneLongSource(sizes, n)
  {
    if |sizes| > 0 {
      var tail := sizes[1..];
      assert forall j | 1 <= j < |sizes| :: sizes[j] == tail[j - 1];
      CapHides(tail, n);
      TotalZero(tail, n);
      if sizes[0] > n {
        assert CappedTotal(tail, n) == 0 ==> OneLongSource(sizes, n);
        if OneLongSource(sizes, n) {
          var i :| 0 <= i < |sizes| && sizes[i] > n && forall j | 0 <= j < |sizes| && j != i :: sizes[j] == 0;
          assert i == 0;
          assert forall j | 0 <= j < |tail| :: tail[j] == sizes[j + 1];
        }
      } else if sizes[0] == 0 {
        if i :| 0 <= i < |tail| && tail[i] > n && forall j | 0 <= j < |tail| && j != i :: tail[j] == 0 {
          assert sizes[i + 1] > n;
        }
        if i :| 0 <= i < |sizes| && sizes[i] > n && forall j | 0 <= j < |sizes| && j != i :: sizes[j] == 0 {
          assert tail[i - 1] > n && forall j | 0 <= j < |tail| && j != i - 1 :: tail[j] == sizes[j + 1];
        }
      } else {
        CapReaches(tail, n);
      }
    }
  }

  /** Short capped total, long true total: the capped total is already the cap. */
  lemma {:induction false} CapReaches(sizes: seq<nat>, n: nat)
    ensures CappedTotal(sizes, n) < n ==> Total(sizes) == CappedTotal(sizes, n)
    ensures CappedTotal(sizes, n) <= Total(sizes)
  {
    if |sizes| > 0 {
      CapReaches(sizes[1..], n);
    }
  }

  /**
   What a sync page says about the rest. A short page leaves nothing; `hasMore` is never
   wrongly true; and it is wrongly false exactly when one source alone holds rows after the
   cursor, and more than `limit` of them.
   */
  lemma SyncHasMore(sources: seq<seq<Item>>, cursor: Option<Cursor>, limitOption: Option<int>)
    requires forall i | 0 <= i < |sources| :: AscendingAt(sources[i], ItemAt)
    ensures var page := Sync(sources, cursor, limitOption);
            var limit := ClampLimit(limitOption);
            && |page.items| == Min(Remaining(sources, cursor), limit)
            && (page.hasMore ==> Remaining(sources, cursor) > |page.items|)
            && (!page.hasMore && Remaining(sources, cursor) > |page.items|
                <==> OneLongSource(Sizes(AfterEach(sources, ItemAt, SinceOf(cursor).GetOr(0))), limit))
  {
    var since, n := SinceOf(cursor).GetOr(0), ClampLimit(limitOption);
    SyncIsFeedPage(sources, cursor, limitOption);
    QueriedIsCapped(sources, ItemAt, since, n);
    SortAfter(Concat(sources), ItemAt, Some(since), MilliKey(ItemAt));
    StableSortIsStable(After(Concat(sources), ItemAt, Some(since)), MilliKey(ItemAt));
    SizesOf(AfterEach(sources, ItemAt, since), n);
    CapHides(Sizes(AfterEach(sources, ItemAt, since)), n);
    CapReaches(Sizes(AfterEach(sources, ItemAt, since)), n);
  }

  function ItemLater(since: int): Item -> bool {
    (x: Item) => x.at > since
  }

  /** A page is as long as asked for, or holds all there is in the sources after the cursor; without one, after 0. */
  lemma SyncPageSize(sources: seq<seq<Item>>, cursor: Option<Cursor>, limit: Option<int>)
    requires forall i | 0 <= i < |sources| :: AscendingAt(sources[i], ItemAt)
    ensures var since := if SinceOf(cursor).Some? then SinceOf(cursor).value else 0;
            |Sync(sources, cursor, limit).items| == Min(ClampLimit(limit), |Places(Concat(sources), ItemLater(since))|)
  {
    var since := SinceOf(cursor).GetOr(0);
    SyncHasMore(sources, cursor, limit);
    AfterCount(Concat(sources), ItemAt, Some(since), ItemLater(since));
    assert Remaining(sources, cursor) == |Places(Concat(sources), ItemLater(since))|;
  }

  /** Two rows in one source and a page of one: the page does not admit the second row. */
  lemma SyncHidesASecondRow()
    ensures exists sources: seq<seq<Item>>, limit: Option<int> ::
              && (forall i | 0 <= i < |sources| :: AscendingAt(sources[i], ItemAt))
              && Remaining(sources, None) > |Sync(sources, None, limit).items|
              && !Sync(sources, None, limit).hasMore
  {
    var first, second := Item("task", "a", 1000), Item("task", "b", 2000);
    var sources := [[first, second]];
    SyncHasMore(sources, None, Some(1));
    var after := AfterEach(sources, ItemAt, 0);
    QueriedIsCapped(sources, ItemAt, 0, 1);
    assert [first, second] == [first] + [second] && [second] == [second] + [];
    AfterCons(first, [second], ItemAt, Some(0));
    AfterCons(second, [], ItemAt, Some(0));
    assert Sizes(after)[0] == 2 && OneLongSource(Sizes(after), 1);
  }
}
