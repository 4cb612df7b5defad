/** The notification table, its listing and its acknowledgements. */
module MobileNotifications {
  import opened Prelude
  import opened StableSorting
  import opened MobileFeed
  import opened MobileSync
  import MobileArrivals

  datatype Priority = Low | Normal | High | Urgent

  datatype Notification = Notification(
    id: string,
    user: string,
    sessionId: Option<string>,
    kind: string,
    title: string,
    body: Option<string>,
    payload: string,
    priority: Priority,
    createdAt: int,
    readAt: Option<int>,
    acknowledgedAt: Option<int>)

  function CreatedAt(x: Notification): int {
    x.createdAt
  }

  function ExactKey(): Notification -> real {
    MobileArrivals.StampKey(CreatedAt)
  }

  function OwnedBy(rows: seq<Notification>, user: string): seq<Notification> {
    if |rows| == 0 then []
    else if rows[0].user == user then [rows[0]] + OwnedBy(rows[1..], user)
    else OwnedBy(rows[1..], user)
  }

  /** One user's rows in the order of their creation instants. */
  function FeedOf(rows: seq<Notification>, user: string): seq<Notification> {
    StableSort(OwnedBy(rows, user), ExactKey())
  }

  /** The listing: one row more than the page is asked for, to see whether there is more. */
  function Listing(rows: seq<Notification>, user: string, cursor: Option<Cursor>,
                   limitOption: Option<int>): Page<Notification> {
    var limit := ClampLimit(limitOption);
    var found := Take(After(FeedOf(rows, user), CreatedAt, SinceOf(cursor)), limit + 1);
    var page := Take(found, limit);
    Page(page,
         if |page| == 0 then cursor
         else Some(Cursor(CursorInstant(page[|page| - 1].createdAt), page[|page| - 1].id)),
         |found| > limit)
  }

  /** The rows that a reader with this cursor has yet to see. */
  function Waits(user: string, since: Option<int>): Notification -> bool {
    (x: Notification) => x.user == user && Later(x.createdAt, since)
  }

  /**
   A page of the user's feed after the cursor, with an exact flag, and its cursor at its last row;
   it is as long as asked for or holds all rows that wait for the reader.
   */
  ghost predicate IsFeedPage(page: Page<Notification>, rows: seq<Notification>, user: string,
                             cursor: Option<Cursor>, limit: Option<int>) {
    var feed, since := FeedOf(rows, user), SinceOf(cursor);
    && |page.items| == Min(ClampLimit(limit), |Places(rows, Waits(user, since))|)
    && (page.hasMore <==> |Places(rows, Waits(user, since))| > ClampLimit(limit))
    && page.items == PageItems(feed, CreatedAt, since, ClampLimit(limit))
    && (page.hasMore <==> HasMore(feed, CreatedAt, since, ClampLimit(limit)))
    && (page.items != [] ==> SinceOf(page.cursor) == NextSince(page.items, CreatedAt, since))
    && (page.items == [] ==> page.cursor == cursor)
  }

  /** The effect of an acknowledgement on one row. */
  function Acknowledged(x: Notification, user: string, ids: seq<string>, now: int): Notification {
    if x.user == user && x.id in ids then x.(acknowledgedAt := Some(now), readAt := Some(now)) else x
  }

  /** The user's row among the ids gets both marks; every other one stays as it is. */
  ghost predicate IsAcknowledged(x: Notification, y: Notification, user: string, ids: seq<string>, now: int) {
    if x.user == user && x.id in ids
    then y.acknowledgedAt == Some(now) && y.readAt == Some(now)
         && y.(acknowledgedAt := x.acknowledgedAt, readAt := x.readAt) == x
    else y == x
  }

  lemma AckOutcome(rows: seq<Notification>, user: string, ids: seq<string>, now: int)
    ensures var after := AcknowledgedRows(rows, user, ids, now);
            |after| == |rows| && forall i | 0 <= i < |rows| :: IsAcknowledged(rows[i], after[i], user, ids, now)
  {
  }

  function AcknowledgedRows(rows: seq<Notification>, user: string, ids: seq<string>, now: int): seq<Notification> {
    seq(|rows|, i requires 0 <= i < |rows| => Acknowledged(rows[i], user, ids, now))
  }

  /** The rows an acknowledgement returns. */
  function Matching(rows: seq<Notification>, user: string, ids: seq<string>): seq<Notification> {
    if |rows| == 0 then []
    else if rows[0].user == user && rows[0].id in ids then [rows[0]] + Matching(rows[1..], user, ids)
    else Matching(rows[1..], user, ids)
  }

  class NotificationTable {
    var rows: seq<Notification>

    /** Ids are unique. Rows stand as they became visible, whatever their stamps. */
    ghost predicate Valid()
      reads this
    {
      forall i, j | 0 <= i < j < |rows| :: rows[i].id != rows[j].id
    }

    constructor ()
      ensures Valid() && rows == []
    {
      rows := [];
    }

    /** The id and the instant are the database's defaults; the payload is its JSON text. */
    method Create(id: string, now: int, user: string, sessionId: Option<string>, kind: string, title: string,
                  body: Option<string>, payload: Option<string>, priority: Option<Priority>) returns (row: Notification)
      requires Valid()
      requires forall x | x in rows :: x.id != id
      modifies this
      ensures Valid()
      ensures rows == old(rows) + [row]
      ensures row.id == id && row.createdAt == now && row.user == user && row.kind == kind && row.title == title
      ensures row.sessionId == sessionId && row.body == body
      ensures row.payload == payload.GetOr("{}") && row.priority == priority.GetOr(Normal)
      ensures row.readAt.None? && row.acknowledgedAt.None?
    {
      row := Notification(
        id, user, sessionId, kind, title, body, payload.GetOr("{}"), priority.GetOr(Normal), now, None, None);
      rows := rows + [row];
    }

    /**
     One row more than the page holds is asked for. The page holds rows of the user after the
     cursor and is that page of the user's feed; `hasMore` says exactly whether more follow, and
     the new cursor stands at the last row, or where it was when there is none.
     */
    method List(user: string, cursor: Option<Cursor>, limit: Option<int>) returns (page: Page<Notification>)
      ensures forall x | x in page.items :: x in rows && x.user == user && Later(x.createdAt, SinceOf(cursor))
      ensures page == Listing(rows, user, cursor, limit)
      ensures IsFeedPage(page, rows, user, cursor, limit)
    {
      var n := ClampLimit(limit);
      var found := Take(After(FeedOf(rows, user), CreatedAt, SinceOf(cursor)), n + 1);
      var items := Take(found, n);
      var next := cursor;
      if |items| > 0 {
        var last := items[|items| - 1];
        next := Some(Cursor(CursorInstant(last.createdAt), last.id));
      }
      page := Page(items, next, |found| > n);
      FeedMembers(rows, user, SinceOf(cursor), n);
      assert page == Listing(rows, user, cursor, limit);
      ListingIsFeedPage(rows, user, cursor, limit);
    }

    method AckMany(user: string, ids: seq<string>, now: int) returns (acked: seq<Notification>)
      requires Valid()
      modifies this
      ensures Valid()
      ensures rows == AcknowledgedRows(old(rows), user, ids, now)
      ensures |rows| == |old(rows)|
      ensures forall i | 0 <= i < |rows| :: IsAcknowledged(old(rows)[i], rows[i], user, ids, now)
      ensures acked == Matching(rows, user, ids)
      ensures forall x :: x in acked <==> x in rows && x.user == user && x.id in ids
    {
      if ids == [] {
        assert rows == AcknowledgedRows(rows, user, ids, now);
        MatchingNothing(rows, user);
        MatchingMembers(rows, user, ids);
        return [];
      }
      rows := AcknowledgedRows(rows, user, ids, now);
      acked := Matching(rows, user, ids);
      MatchingMembers(rows, user, ids);
    }

    method Ack(user: string, id: string, now: int) returns (row: Option<Notification>)
      requires Valid()
      modifies this
      ensures Valid()
      ensures rows == AcknowledgedRows(old(rows), user, [id], now)
      ensures row.Some? <==> exists x :: x in old(rows) && x.user == user && x.id == id
      ensures row.Some? ==> row.value in rows && row.value.id == id && row.value.acknowledgedAt == Some(now)
    {
      var acked := AckMany(user, [id], now);
      MatchingMembers(rows, user, [id]);
      row := if |acked| > 0 then Some(acked[0]) else None;
      assert forall x | x in old(rows) :: Acknowledged(x, user, [id], now) in rows by {
        forall x | x in old(rows) ensures Acknowledged(x, user, [id], now) in rows {
          var i :| 0 <= i < |old(rows)| && old(rows)[i] == x;
          assert rows[i] == Acknowledged(x, user, [id], now);
        }
      }
      if |acked| > 0 {
        assert acked[0] in acked && acked[0] in rows;
        var i :| 0 <= i < |rows| && rows[i] == acked[0];
        assert rows[i] == Acknowledged(old(rows)[i], user, [id], now);
        assert old(rows)[i] in old(rows);
      }
    }
  }

  lemma {:induction false} MatchingNothing(rows: seq<Notification>, user: string)
    ensures Matching(rows, user, []) == []
  {
    if |rows| > 0 {
      MatchingNothing(rows[1..], user);
    }
  }

  lemma {:induction false} MatchingMembers(rows: seq<Notification>, user: string, ids: seq<string>)
    ensures forall x :: x in Matching(rows, user, ids) <==> x in rows && x.user == user && x.id in ids
  {
    if |rows| > 0 {
      MatchingMembers(rows[1..], user, ids);
      assert forall x :: x in rows <==> x == rows[0] || x in rows[1..];
    }
  }

  lemma {:induction false} AfterMembersIn<T>(s: seq<T>, at: T -> int, since: Option<int>)
    ensures forall x | x in After(s, at, since) :: x in s && Later(at(x), since)
  {
    if |s| > 0 {
      AfterMembersIn(s[1..], at, since);
    }
  }

  lemma {:induction false} OwnedMembers(rows: seq<Notification>, user: string)
    ensures forall x | x in OwnedBy(rows, user) :: x in rows && x.user == user
  {
    if |rows| > 0 {
      OwnedMembers(rows[1..], user);
    }
  }

  lemma FeedMembers(rows: seq<Notification>, user: string, since: Option<int>, n: nat)
    ensures forall x | x in PageItems(FeedOf(rows, user), CreatedAt, since, n) ::
              x in rows && x.user == user && Later(x.createdAt, since)
  {
    var feed := FeedOf(rows, user);
    AfterMembersIn(feed, CreatedAt, since);
    SortKeepsMultiset(OwnedBy(rows, user), ExactKey());
    OwnedMembers(rows, user);
    forall x | x in feed ensures x in OwnedBy(rows, user) {
      assert x in multiset(feed);
    }
  }

  lemma {:induction false} OwnedCount(rows: seq<Notification>, user: string, since: Option<int>)
    ensures |After(OwnedBy(rows, user), CreatedAt, since)| == Count(rows, Waits(user, since))
  {
    if |rows| > 0 {
      OwnedCount(rows[1..], user, since);
      CountConcat([rows[0]], rows[1..], Waits(user, since));
      assert [rows[0]] + rows[1..] == rows && [rows[0]][..0] == [];
      AfterCons(rows[0], OwnedBy(rows[1..], user), CreatedAt, since);
      assert CreatedAt(rows[0]) == rows[0].createdAt;
    }
  }

  lemma FeedCount(rows: seq<Notification>, user: string, since: Option<int>)
    ensures |After(FeedOf(rows, user), CreatedAt, since)| == |Places(rows, Waits(user, since))|
  {
    var owned := OwnedBy(rows, user);
    SortAfter(owned, CreatedAt, since, ExactKey());
    SortKeepsMultiset(After(owned, CreatedAt, since), ExactKey());
    OwnedCount(rows, user, since);
    CountIsSize(rows, Waits(user, since));
  }

  /** A listing is a page of the user's feed, and its `hasMore` is exact. */
  lemma ListingIsFeedPage(rows: seq<Notification>, user: string, cursor: Option<Cursor>, limit: Option<int>)
    ensures IsFeedPage(Listing(rows, user, cursor, limit), rows, user, cursor, limit)
  {
    FeedCount(rows, user, SinceOf(cursor));
  }

  lemma {:induction false} OwnedBySnoc(rows: seq<Notification>, x: Notification, user: string)
    ensures OwnedBy(rows + [x], user) == if x.user == user then OwnedBy(rows, user) + [x] else OwnedBy(rows, user)
  {
    if |rows| == 0 {
      assert rows + [x] == [x] + [];
    } else {
      var rest := rows[1..];
      OwnedBySnoc(rest, x, user);
      Regroup3([rows[0]], rest, [x]);
      assert [rows[0]] + rest == rows;
      Regroup3([rows[0]], OwnedBy(rest, user), [x]);
    }
  }

  /** Creating a row, with whatever stamp, is an arrival in its owner's feed and in nobody else's. */
  lemma CreateIsArrival(rows: seq<Notification>, x: Notification, user: string, seen: seq<Notification>,
                        since: Option<int>)
    ensures var f := MobileArrivals.Feed(FeedOf(rows, user), seen, since);
            MobileArrivals.Feed(FeedOf(rows + [x], user), seen, since)
            == if x.user == user then MobileArrivals.Next(f, MobileArrivals.Arrive(x), CreatedAt) else f
  {
    OwnedBySnoc(rows, x, user);
    if x.user == user {
      SortSnoc(OwnedBy(rows, user), x, ExactKey());
      assert FeedOf(rows + [x], user) == StableSort(FeedOf(rows, user) + [x], ExactKey());
    }
  }

  // ---- acknowledging does not move the cursor --------------------------------

  /** The row without its read marks. */
  function Unread(x: Notification): Notification {
    x.(acknowledgedAt := None, readAt := None)
  }

  function UnreadAll(rows: seq<Notification>): seq<Notification> {
    if |rows| == 0 then [] else [Unread(rows[0])] + UnreadAll(rows[1..])
  }

  lemma {:induction false} UnreadInsert(x: Notification, s: seq<Notification>)
    ensures UnreadAll(Insert(x, s, ExactKey())) == Insert(Unread(x), UnreadAll(s), ExactKey())
  {
    var key := ExactKey();
    UnreadKey(x);
    if |s| == 0 {
      assert [x] + s == [x] && [Unread(x)] + [] == [Unread(x)];
    } else {
      UnreadKey(s[0]);
      var tail := UnreadAll(s[1..]);
      assert UnreadAll(s) == [Unread(s[0])] + tail && UnreadAll(s)[1..] == tail;
      if key(x) <= key(s[0]) {
        assert Insert(Unread(x), UnreadAll(s), key) == [Unread(x)] + UnreadAll(s);
      } else {
        UnreadInsert(x, s[1..]);
        assert Insert(Unread(x), UnreadAll(s), key) == [Unread(s[0])] + Insert(Unread(x), tail, key);
      }
    }
  }

  lemma UnreadKey(x: Notification)
    ensures ExactKey()(Unread(x)) == ExactKey()(x)
  {
    assert CreatedAt(Unread(x)) == CreatedAt(x);
  }

  lemma {:induction false} UnreadIndexed(rows: seq<Notification>)
    ensures |UnreadAll(rows)| == |rows|
    ensures forall i | 0 <= i < |rows| :: UnreadAll(rows)[i] == Unread(rows[i])
  {
    if |rows| > 0 {
      UnreadIndexed(rows[1..]);
    }
  }

  lemma {:induction false} UnreadOwned(rows: seq<Notification>, user: string)
    ensures UnreadAll(OwnedBy(rows, user)) == OwnedBy(UnreadAll(rows), user)
  {
    if |rows| > 0 {
      UnreadOwned(rows[1..], user);
      var rest := OwnedBy(rows[1..], user);
      assert UnreadAll([rows[0]] + rest) == [Unread(rows[0])] + UnreadAll(rest);
      assert UnreadAll(rows)[1..] == UnreadAll(rows[1..]);
      assert OwnedBy(rows, user) == if rows[0].user == user then [rows[0]] + rest else rest;
    }
  }

  lemma {:induction false} UnreadSort(rows: seq<Notification>)
    ensures UnreadAll(StableSort(rows, ExactKey())) == StableSort(UnreadAll(rows), ExactKey())
  {
    if |rows| > 0 {
      UnreadSort(rows[1..]);
      UnreadInsert(rows[0], StableSort(rows[1..], ExactKey()));
      assert UnreadAll(rows)[1..] == UnreadAll(rows[1..]);
    }
  }

  lemma {:induction false} UnreadAfter(rows: seq<Notification>, since: Option<int>)
    ensures UnreadAll(After(rows, CreatedAt, since)) == After(UnreadAll(rows), CreatedAt, since)
  {
    if |rows| > 0 {
      UnreadAfter(rows[1..], since);
      var rest := After(rows[1..], CreatedAt, since);
      assert ([rows[0]] + rest)[1..] == rest;
      assert rows == [rows[0]] + rows[1..];
      AfterCons(rows[0], rows[1..], CreatedAt, since);
      AfterCons(Unread(rows[0]), UnreadAll(rows[1..]), CreatedAt, since);
      assert UnreadAll(rows) == [Unread(rows[0])] + UnreadAll(rows[1..]);
      assert UnreadAll([rows[0]] + rest) == [Unread(rows[0])] + UnreadAll(rest);
    }
  }

  lemma UnreadListing(rows: seq<Notification>, user: string, cursor: Option<Cursor>, limit: Option<int>)
    ensures var a, b := Listing(rows, user, cursor, limit), Listing(UnreadAll(rows), user, cursor, limit);
            UnreadAll(a.items) == b.items && a.cursor == b.cursor && a.hasMore == b.hasMore
  {
    var feed := FeedOf(rows, user);
    UnreadOwned(rows, user);
    UnreadSort(OwnedBy(rows, user));
    UnreadAfter(feed, SinceOf(cursor));
    UnreadIndexed(After(feed, CreatedAt, SinceOf(cursor)));
    var page := Listing(rows, user, cursor, limit).items;
    UnreadIndexed(page);
    assert UnreadAll(page) == Listing(UnreadAll(rows), user, cursor, limit).items;
  }

  /**
   Acknowledging deletes and reorders nothing: every later listing by anyone has the same
   rows up to their read marks, the same cursor and the same `hasMore`.
   */
  lemma AckKeepsListings(rows: seq<Notification>, user: string, ids: seq<string>, now: int,
                         reader: string, cursor: Option<Cursor>, limit: Option<int>)
    ensures var a := Listing(rows, reader, cursor, limit);
            var b := Listing(AcknowledgedRows(rows, user, ids, now), reader, cursor, limit);
            UnreadAll(a.items) == UnreadAll(b.items) && a.cursor == b.cursor && a.hasMore == b.hasMore
  {
    var acked := AcknowledgedRows(rows, user, ids, now);
    UnreadIndexed(rows);
    UnreadIndexed(acked);
    assert UnreadAll(rows) == UnreadAll(acked);
    UnreadListing(rows, reader, cursor, limit);
    UnreadListing(acked, reader, cursor, limit);
  }
}
