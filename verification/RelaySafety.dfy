/** What every run of the Relay handlers keeps, for any number of users and requests. */
module RelaySafety {
  import opened Prelude
  import opened RelayModel

  function ApprovalsOf(approvals: seq<Approval>, id: nat): seq<Approval> {
    if |approvals| == 0 then []
    else (if approvals[0].request == id then [approvals[0]] else []) + ApprovalsOf(approvals[1..], id)
  }

  lemma {:induction false} ApprovalsSnoc(approvals: seq<Approval>, x: Approval, id: nat)
    ensures ApprovalsOf(approvals + [x], id) == ApprovalsOf(approvals, id) + (if x.request == id then [x] else [])
  {
    if |approvals| > 0 {
      assert (approvals + [x])[1..] == approvals[1..] + [x];
      ApprovalsSnoc(approvals[1..], x, id);
    }
  }

  lemma {:induction false} NoApprovalsYet(approvals: seq<Approval>, id: nat)
    requires forall k | 0 <= k < |approvals| :: approvals[k].request < id
    ensures ApprovalsOf(approvals, id) == []
  {
    if |approvals| > 0 {
      NoApprovalsYet(approvals[1..], id);
    }
  }

  predicate IsSend(r: Request, a: Approval) {
    a.user == r.from && a.verdict == ApprovedToSend && a.payload.None?
  }

  predicate IsDecision(r: Request, a: Approval, d: Decision) {
    r.to == Some(a.user) && a.verdict == DecidedVerdict(d) && (a.payload.Some? <==> d == Approve)
  }

  /** A request against the approvals logged for it. */
  predicate LogFits(r: Request, log: seq<Approval>) {
    match r.status
    case Draft => r.kind == TeamUpdateRequest && log == []
    case PendingSenderApproval => r.kind != TeamUpdateRequest && log == []
    case Sent => r.kind != TeamUpdateRequest && |log| == 1 && IsSend(r, log[0])
    case Approved => Decided(r, log, Approve)
    case Rejected => Decided(r, log, Reject)
    case Ignored => Decided(r, log, Ignore)
    case Blocked => Decided(r, log, Block)
    case Canceled =>
      || log == []
      || (r.kind != TeamUpdateRequest && |log| == 1 && IsSend(r, log[0]))
      || Decided(r, log, Approve) || Decided(r, log, Reject) || Decided(r, log, Ignore) || Decided(r, log, Block)
    case Received => false
    case Expired => false
  }

  predicate Decided(r: Request, log: seq<Approval>, d: Decision) {
    r.kind != TeamUpdateRequest && |log| == 2 && IsSend(r, log[0]) && IsDecision(r, log[1], d)
  }

  ghost predicate Consistent(db: Db) {
    && (forall k | 0 <= k < |db.approvals| :: db.approvals[k].request < |db.requests|)
    && (forall id | 0 <= id < |db.requests| :: LogFits(db.requests[id], ApprovalsOf(db.approvals, id)))
  }

  /** How one step may change a request that already exists. */
  predicate MayBecome(r: Request, s: Request) {
    && s.from == r.from && s.kind == r.kind && s.contact == r.contact && s.createdAt == r.createdAt
    && (s.to == r.to || (r.status == PendingSenderApproval && s.status == Sent && r.to.None?))
    && (|| s.status == r.status
        || (r.status == PendingSenderApproval && s.status == Sent)
        || (r.status == Sent && s.status in {Approved, Rejected, Ignored, Blocked})
        || s.status == Canceled)
  }

  lemma AppendApproval(db: Db, id: nat, r: Request, a: Approval, blocks: seq<BlockRow>)
    requires Consistent(db) && id < |db.requests| && a.request == id
    requires LogFits(r, ApprovalsOf(db.approvals, id) + [a])
    ensures Consistent(db.(requests := db.requests[id := r], approvals := db.approvals + [a], blocks := blocks))
  {
    forall j | 0 <= j < |db.requests| ensures LogFits(db.requests[id := r][j], ApprovalsOf(db.approvals + [a], j)) {
      ApprovalsSnoc(db.approvals, a, j);
    }
  }

  lemma SendConsistent(db: Db, user: User, id: nat)
    requires Consistent(db)
    ensures Consistent(ApproveSend(db, user, id).0)
  {
    var check := CheckSend(db, user, id);
    if check.Ok? {
      var r := db.requests[id].(to := check.value, status := Sent);
      assert LogFits(db.requests[id], ApprovalsOf(db.approvals, id));
      AppendApproval(db, id, r, Approval(id, user, ApprovedToSend, None), db.blocks);
    }
  }

  lemma DecideConsistent(db: Db, user: User, id: nat, d: Decision, payload: Option<string>, private: bool)
    requires Consistent(db)
    ensures Consistent(Decide(db, user, id, d, payload, private).0)
  {
    var (db', result) := Decide(db, user, id, d, payload, private);
    if result.Ok? {
      var r := db.requests[id].(status := DecidedStatus(d));
      var a := db'.approvals[|db.approvals|];
      assert LogFits(db.requests[id], ApprovalsOf(db.approvals, id));
      assert Decided(r, ApprovalsOf(db.approvals, id) + [a], d);
      AppendApproval(db, id, r, a, db'.blocks);
    }
  }

  lemma DraftConsistent(db: Db, user: User, input: DraftInput, checkedAt: int, createdAt: int)
    requires Consistent(db)
    ensures Consistent(CreateDraft(db, user, input, checkedAt, createdAt).0)
  {
    var (db', result) := CreateDraft(db, user, input, checkedAt, createdAt);
    if result.Ok? {
      NoApprovalsYet(db.approvals, |db.requests|);
      forall j | 0 <= j < |db'.requests| ensures LogFits(db'.requests[j], ApprovalsOf(db'.approvals, j)) {
        if j < |db.requests| {
          assert LogFits(db.requests[j], ApprovalsOf(db.approvals, j));
        }
      }
    }
  }

  lemma NextConsistent(db: Db, e: Event)
    requires Consistent(db)
    ensures Consistent(Next(db, e))
  {
    match e
    case Registered(_, _) =>
    case ContactAdded(_, _) =>
    case ContactStatusSet(_, _, _) =>
    case Drafted(user, draft, checkedAt, createdAt) => DraftConsistent(db, user, draft, checkedAt, createdAt);
    case SendApproved(user, id) => SendConsistent(db, user, id);
    case RequestCanceled(user, id) =>
    case RequestDecided(user, id, d, payload, private) => DecideConsistent(db, user, id, d, payload, private);
  }

  /** In every reachable state every request's status fits the approvals logged for it. */
  lemma {:induction false} RunConsistent(db: Db, es: seq<Event>)
    requires Consistent(db)
    ensures Consistent(Run(db, es))
    decreases |es|
  {
    if |es| > 0 {
      NextConsistent(db, es[0]);
      RunConsistent(Next(db, es[0]), es[1..]);
    }
  }

  lemma ReachableConsistent(es: seq<Event>)
    ensures Consistent(Run(EMPTY, es))
  {
    RunConsistent(EMPTY, es);
  }

  /** No step removes a request, and each changes the others only along the protocol. */
  lemma NextMayBecome(db: Db, e: Event)
    requires Consistent(db)
    ensures |db.requests| <= |Next(db, e).requests|
    ensures forall id | 0 <= id < |db.requests| :: MayBecome(db.requests[id], Next(db, e).requests[id])
  {
    var db' := Next(db, e);
    forall id | 0 <= id < |db.requests| ensures id < |db'.requests| && MayBecome(db.requests[id], db'.requests[id]) {
      assert LogFits(db.requests[id], ApprovalsOf(db.approvals, id));
    }
  }

  /**
   Over any continuation of a reachable state: a canceled request stays canceled, a decided
   one can only be canceled, a team update is never sent, and sender, kind and creation
   instant never change.
   */
  lemma {:induction false} RunKeepsRequests(db: Db, es: seq<Event>, id: nat)
    requires Consistent(db) && id < |db.requests|
    ensures id < |Run(db, es).requests|
    ensures var r, s := db.requests[id], Run(db, es).requests[id];
            && s.from == r.from && s.kind == r.kind && s.createdAt == r.createdAt
            && (r.status == Canceled ==> s.status == Canceled)
            && (r.status in {Approved, Rejected, Ignored, Blocked} ==> s.status in {r.status, Canceled})
            && (r.status !in {Draft, PendingSenderApproval} ==> s.to == r.to)
            && (r.kind == TeamUpdateRequest ==> s.status in {Draft, Canceled})
    decreases |es|
  {
    assert LogFits(db.requests[id], ApprovalsOf(db.approvals, id));
    if |es| > 0 {
      NextConsistent(db, es[0]);
      NextMayBecome(db, es[0]);
      RunKeepsRequests(Next(db, es[0]), es[1..], id);
    }
  }

  /** Every request names a contact of its sender, and is addressed to that contact's account. */
  ghost predicate Addressed(db: Db) {
    forall id | 0 <= id < |db.requests| :: AddressedAt(db, id)
  }

  predicate AddressedAt(db: Db, id: nat)
    requires id < |db.requests|
  {
    var r := db.requests[id];
    && r.contact.Some? && r.contact.value < |db.contacts|
    && db.contacts[r.contact.value].owner == r.from
    && db.contacts[r.contact.value].linked == r.to
  }

  /** A request after a step is one from before, to the same recipient, or one just drafted to a contact. */
  lemma NextRequest(db: Db, e: Event, id: nat)
    requires id < |Next(db, e).requests|
    ensures var r := Next(db, e).requests[id];
            if id < |db.requests|
            then r.from == db.requests[id].from && r.contact == db.requests[id].contact
                 && ( || r.to == db.requests[id].to
                      || (r.contact.Some? && r.contact.value < |db.contacts|
                         && r.to == db.contacts[r.contact.value].linked))
            else AddressedAt(Next(db, e), id)
  {
  }

  lemma NextAddressed(db: Db, e: Event)
    requires Addressed(db)
    ensures Addressed(Next(db, e))
  {
    forall id | 0 <= id < |Next(db, e).requests| ensures AddressedAt(Next(db, e), id) {
      NextRequest(db, e, id);
      if id < |db.requests| {
        assert AddressedAt(db, id);
      }
    }
  }

  lemma {:induction false} RunAddressed(db: Db, es: seq<Event>)
    requires Addressed(db)
    ensures Addressed(Run(db, es))
    decreases |es|
  {
    if |es| > 0 {
      NextAddressed(db, es[0]);
      RunAddressed(Next(db, es[0]), es[1..]);
    }
  }

  /**
   In every reachable state a request to a contact without an account has no recipient, so
   nobody ever decides it: it is waiting, sent or canceled.
   */
  lemma AddressOnlyRequestsAreNeverDecided(es: seq<Event>, id: nat)
    requires id < |Run(EMPTY, es).requests|
    ensures var db := Run(EMPTY, es);
            var r := db.requests[id];
            && r.contact.Some? && r.contact.value < |db.contacts|
            && (db.contacts[r.contact.value].linked.None? <==> r.to.None?)
            && (r.to.None? ==> r.status in {Draft, PendingSenderApproval, Sent, Canceled})
  {
    RunAddressed(EMPTY, es);
    ReachableConsistent(es);
    var db := Run(EMPTY, es);
    assert AddressedAt(db, id);
    assert LogFits(db.requests[id], ApprovalsOf(db.approvals, id));
  }

  // ---- blocks ----------------------------------------------------------------

  lemma BlockHoldsOneStep(db: Db, e: Event, blocker: User, sender: User, id: nat)
    requires Consistent(db) && HasBlock(db, blocker, sender)
    requires var s := Next(db, e).requests;
             id < |s| && s[id].from == sender && s[id].to == Some(blocker) && s[id].status == Sent
    ensures HasBlock(Next(db, e), blocker, sender)
    ensures id < |db.requests| && db.requests[id] == Next(db, e).requests[id]
  {
    var k :| 0 <= k < |db.blocks| && db.blocks[k].user == blocker && db.blocks[k].blockedUser == Some(sender);
    assert Next(db, e).blocks[k] == db.blocks[k];
  }

  /**
   Once a recipient has a block row on a sender, no later step of any run moves a request
   of that sender to that recipient into `Sent`: whatever is `Sent` between them at the end
   was already `Sent` between them.
   */
  lemma {:induction false} BlockHolds(db: Db, es: seq<Event>, blocker: User, sender: User, id: nat)
    requires Consistent(db) && HasBlock(db, blocker, sender)
    requires var s := Run(db, es).requests;
             id < |s| && s[id].from == sender && s[id].to == Some(blocker) && s[id].status == Sent
    ensures id < |db.requests| && db.requests[id] == Run(db, es).requests[id]
    decreases |es|
  {
    if |es| > 0 {
      var k :| 0 <= k < |db.blocks| && db.blocks[k].user == blocker && db.blocks[k].blockedUser == Some(sender);
      assert Next(db, es[0]).blocks[k] == db.blocks[k];
      NextConsistent(db, es[0]);
      BlockHolds(Next(db, es[0]), es[1..], blocker, sender, id);
      BlockHoldsOneStep(db, es[0], blocker, sender, id);
    }
  }

  /** Deciding `block` records the row that `BlockHolds` needs, whatever else comes with the decision. */
  lemma DecidingBlockRecordsIt(db: Db, user: User, id: nat, payload: Option<string>, private: bool)
    requires Decide(db, user, id, Block, payload, private).1.Ok?
    ensures HasBlock(Decide(db, user, id, Block, payload, private).0, user, db.requests[id].from)
  {
    var db' := Decide(db, user, id, Block, payload, private).0;
    assert db'.blocks[|db.blocks|] == BlockRow(user, Some(db.requests[id].from), None);
  }

  /**
   Blocking a contact stops that person's requests exactly when the contact was linked to
   their account; a contact known by address only leaves no row that the check reads.
   */
  lemma BlockingContactIff(db: Db, user: User, id: nat, sender: User)
    requires SetContactStatus(db, user, id, ContactBlocked).1.Ok?
    ensures HasBlock(SetContactStatus(db, user, id, ContactBlocked).0, user, sender)
       <==> HasBlock(db, user, sender) || db.contacts[id].linked == Some(sender)
  {
    var db' := SetContactStatus(db, user, id, ContactBlocked).0;
    assert db'.blocks[|db.blocks|].blockedUser == db.contacts[id].linked;
    assert forall k | 0 <= k < |db.blocks| :: db'.blocks[k] == db.blocks[k];
    if k :| 0 <= k < |db'.blocks| && db'.blocks[k].user == user && db'.blocks[k].blockedUser == Some(sender) {
      assert k < |db.blocks| ==> db.blocks[k] == db'.blocks[k];
    }
  }

  /** The request goes to a contact with this address. */
  predicate GoesToAddress(db: Db, id: nat, email: string) {
    && id < |db.requests|
    && db.requests[id].contact.Some?
    && db.requests[id].contact.value < |db.contacts|
    && db.contacts[db.requests[id].contact.value].email == Some(email)
  }

  /**
   A block row that names only an address stops a send exactly when the blocker is the sender,
   and the request has no recipient account and goes to that address. It never stops one to
   the blocker's own account.
   */
  lemma AddressBlockStopsIff(db: Db, blocker: User, email: string, user: User, id: nat)
    ensures var db' := db.(blocks := db.blocks + [BlockRow(blocker, None, Some(email))]);
            CheckSend(db', user, id)
            == if CheckSend(db, user, id) == Ok(None) && blocker == user && GoesToAddress(db, id, email)
               then Err(BlockedByPolicy) else CheckSend(db, user, id)
  {
    var row := BlockRow(blocker, None, Some(email));
    forall b: User, s: User ensures HasBlock(db.(blocks := db.blocks + [row]), b, s) <==> HasBlock(db, b, s) {
      AppendedBlock(db, row, b, s);
    }
    forall b: User, e: string
      ensures HasEmailBlock(db.(blocks := db.blocks + [row]), b, e)
              <==> HasEmailBlock(db, b, e) || (b == blocker && e == email)
    {
      AppendedEmailBlock(db, row, b, e);
    }
  }

  lemma AppendedBlock(db: Db, row: BlockRow, b: User, s: User)
    ensures HasBlock(db.(blocks := db.blocks + [row]), b, s)
       <==> HasBlock(db, b, s) || (row.user == b && row.blockedUser == Some(s))
  {
    var after := db.blocks + [row];
    assert after[|db.blocks|] == row;
    assert forall k | 0 <= k < |db.blocks| :: after[k] == db.blocks[k];
  }

  lemma AppendedEmailBlock(db: Db, row: BlockRow, b: User, e: string)
    ensures HasEmailBlock(db.(blocks := db.blocks + [row]), b, e)
       <==> HasEmailBlock(db, b, e) || (row.user == b && row.blockedEmail == Some(e))
  {
    var after := db.blocks + [row];
    assert after[|db.blocks|] == row;
    assert forall k | 0 <= k < |db.blocks| :: after[k] == db.blocks[k];
  }

  /** Bob (2) keeps a contact for Alice's address, Alice (1) joins, Bob blocks the contact. */
  function BobBlocksTheAddress(): seq<Event> {
    [Registered("b", 2)]
    + ([ContactAdded(2, ContactInput("Alice", Some("a")))]
        + ([Registered("a", 1)] + [ContactStatusSet(2, 0, ContactBlocked)]))
  }

  function BobsTables(): Db {
    var contact := Contact(2, None, "Alice", Some("a"), ContactBlocked);
    Db(map["a" := 1, "b" := 2], {}, [contact], [], [], [BlockRow(2, None, Some("a"))])
  }

  lemma BobsTablesAreReachable()
    ensures Run(EMPTY, BobBlocksTheAddress()) == BobsTables()
  {
    var e0, e1 := Registered("b", 2), ContactAdded(2, ContactInput("Alice", Some("a")));
    var e2, e3 := Registered("a", 1), ContactStatusSet(2, 0, ContactBlocked);
    var db0 := Next(EMPTY, e0);
    var db2 := Next(Next(db0, e1), e2);
    assert db2.contacts == [Contact(2, None, "Alice", Some("a"), ContactInvited)];
    assert [e3] + [] == [e3];
    assert Run(Next(db2, e3), []) == Next(db2, e3);
    assert Next(db2, e3).contacts == BobsTables().contacts;
    assert Next(db2, e3).blocks == BobsTables().blocks;
  }

  function AliceWrites(): seq<Event> {
    [Drafted(1, DraftInput(GeneralRequest, Some(Recipient(None, Some("b"), None)), false, false, false), 0, 0)]
        + [SendApproved(1, 0)]
  }

  /**
   A block on an address alone is not enough: after Bob has blocked the contact that carries
   Alice's address, her request to him is still drafted and sent.
   */
  lemma AddressBlockDoesNotHold()
    ensures HasEmailBlock(Run(EMPTY, BobBlocksTheAddress()), 2, "a")
            && Run(EMPTY, BobBlocksTheAddress()).users["a"] == 1
    ensures Run(Run(EMPTY, BobBlocksTheAddress()), AliceWrites()).requests
         == [Request(1, Some(2), Some(1), GeneralRequest, Sent, 0)]
  {
    BobsTablesAreReachable();
    var db := BobsTables();
    assert db.blocks[0].blockedEmail == Some("a");
    var draft, send := AliceWrites()[0], SendApproved(1, 0);
    var drafted := Next(db, draft);
    assert drafted.requests == [Request(1, Some(2), Some(1), GeneralRequest, PendingSenderApproval, 0)];
    assert drafted.contacts[1] == Contact(1, Some(2), "b", Some("b"), ContactProposed);
    assert CheckSend(drafted, 1, 0) == Ok(Some(2));
    assert [send] + [] == [send];
    assert Run(Next(drafted, send), []) == Next(drafted, send);
  }

  // ---- rate limit ------------------------------------------------------------

  /** How many requests of one sender were created inside a closed window. */
  function CountWithin(requests: seq<Request>, user: User, lo: int, hi: int): nat {
    if |requests| == 0 then 0
    else (if requests[0].from == user && lo <= requests[0].createdAt <= hi then 1 else 0)
         + CountWithin(requests[1..], user, lo, hi)
  }

  lemma {:induction false} CountWithinSnoc(requests: seq<Request>, x: Request, user: User, lo: int, hi: int)
    ensures CountWithin(requests + [x], user, lo, hi)
         == CountWithin(requests, user, lo, hi) + (if x.from == user && lo <= x.createdAt <= hi then 1 else 0)
  {
    if |requests| > 0 {
      assert (requests + [x])[1..] == requests[1..] + [x];
      CountWithinSnoc(requests[1..], x, user, lo, hi);
    }
  }

  lemma {:induction false} CountWithinUpdated(requests: seq<Request>, id: nat, x: Request, user: User, lo: int, hi: int)
    requires id < |requests| && x.from == requests[id].from && x.createdAt == requests[id].createdAt
    ensures CountWithin(requests[id := x], user, lo, hi) == CountWithin(requests, user, lo, hi)
  {
    if id > 0 {
      assert requests[id := x][1..] == requests[1..][id - 1 := x];
      CountWithinUpdated(requests[1..], id - 1, x, user, lo, hi);
    } else {
      assert requests[id := x][1..] == requests[1..];
    }
  }

  lemma {:induction false} WindowBelowSince(requests: seq<Request>, user: User, lo: int, hi: int, since: int)
    requires since <= lo
    ensures CountWithin(requests, user, lo, hi) <= CountSince(requests, user, since)
  {
    if |requests| > 0 {
      WindowBelowSince(requests[1..], user, lo, hi, since);
    }
  }

  /** The closed window of one hour that starts at `lo`. */
  function CountHour(requests: seq<Request>, user: User, lo: int): nat {
    CountWithin(requests, user, lo, lo + HOUR)
  }

  ghost predicate RateKept(db: Db) {
    forall user: User, lo: int :: CountHour(db.requests, user, lo) <= RATE_LIMIT
  }

  /** Rows are stamped no earlier than the clock reading that admitted them. */
  predicate StampedAfterCheck(es: seq<Event>) {
    forall k | 0 <= k < |es| :: es[k].Drafted? ==> es[k].checkedAt <= es[k].createdAt
  }

  lemma NextRateKept(db: Db, e: Event)
    requires RateKept(db) && StampedAfterCheck([e])
    ensures RateKept(Next(db, e))
  {
    assert [e][0] == e;
    var db' := Next(db, e);
    forall user: User, lo: int ensures CountHour(db'.requests, user, lo) <= RATE_LIMIT {
      assert CountHour(db.requests, user, lo) <= RATE_LIMIT;
      if e.Drafted? && |db'.requests| > |db.requests| {
        var x := db'.requests[|db.requests|];
        assert db'.requests == db.requests + [x];
        CountWithinSnoc(db.requests, x, user, lo, lo + HOUR);
        if x.from == user && lo <= x.createdAt <= lo + HOUR {
          WindowBelowSince(db.requests, user, lo, lo + HOUR, e.checkedAt - HOUR);
        }
      } else if db'.requests != db.requests {
        CountWithinUpdated(db.requests, e.id, db'.requests[e.id], user, lo, lo + HOUR);
      }
    }
  }

  /**
   Over every run, any closed one-hour window, wherever it starts, holds at most twenty
   requests created by one sender, also if the clock moves back between calls.
   */
  lemma {:induction false} RateLimitHolds(db: Db, es: seq<Event>)
    requires RateKept(db) && StampedAfterCheck(es)
    ensures RateKept(Run(db, es))
    decreases |es|
  {
    if |es| > 0 {
      assert StampedAfterCheck([es[0]]);
      NextRateKept(db, es[0]);
      assert forall k | 0 <= k < |es[1..]| :: es[1..][k] == es[k + 1];
      RateLimitHolds(Next(db, es[0]), es[1..]);
    }
  }

  lemma ReachableRateKept(es: seq<Event>)
    requires StampedAfterCheck(es)
    ensures RateKept(Run(EMPTY, es))
  {
    RateLimitHolds(EMPTY, es);
  }

  // ---- the atomic-step assumption --------------------------------------------

  /**
   The writes do not repeat the status check. Were a cancellation to fall between the check
   and the writes of a send, a canceled request would end up sent.
   */
  lemma SendNeedsAtomicity(db: Db, user: User, id: nat)
    requires CheckSend(db, user, id).Ok?
    ensures var canceled := CancelRequest(db, user, id).0;
            && canceled.requests[id].status == Canceled
            && WriteSend(canceled, user, id, CheckSend(db, user, id).value).requests[id].status == Sent
  {
  }
}
