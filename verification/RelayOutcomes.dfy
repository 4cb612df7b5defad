/**
 What one call of a Relay handler answers and leaves behind, said about its arguments and the
 tables before and after, and shown of every handler.
 */
module RelayOutcomes {
  import opened Prelude
  import opened RelayModel

  // ---- contacts ----------------------------------------------------------------------------

  /** The account behind an address: the registered one, if there is an address and one is registered. */
  ghost predicate LinkedBy(db: Db, email: Option<string>, linked: Option<User>) {
    linked == if email.Some? && email.value != "" && email.value in db.users then Some(db.users[email.value]) else None
  }

  /** A contact as it is first stored. */
  ghost predicate IsNewContact(db: Db, contact: Contact, user: User, name: string, email: Option<string>) {
    && contact.owner == user && contact.displayName == name && contact.email == email
    && LinkedBy(db, email, contact.linked)
    && contact.status == if contact.linked.Some? then ContactProposed else ContactInvited
  }

  lemma ContactAddedOutcome(db: Db, user: User, input: ContactInput)
    ensures var after := AddContact(db, user, input);
            && |after.contacts| == |db.contacts| + 1
            && IsNewContact(db, after.contacts[|db.contacts|], user, input.displayName, input.email)
            && after == db.(contacts := db.contacts + [after.contacts[|db.contacts|]])
  {
  }

  /** A contact that its owner may address. */
  ghost predicate Usable(db: Db, user: User, id: nat) {
    && id < |db.contacts| && db.contacts[id].owner == user
    && db.contacts[id].status != ContactBlocked && db.contacts[id].status != ContactRemoved
  }

  /** Only the owner sets a status; blocking alone adds a row, on whoever the contact is known to be. */
  lemma ContactStatusOutcome(db: Db, user: User, id: nat, status: ContactStatus)
    ensures var (after, r) := SetContactStatus(db, user, id, status);
            && (r.Ok? <==> id < |db.contacts| && db.contacts[id].owner == user)
            && (r.Err? ==> after == db && r.error == NotFound)
            && (r.Ok? ==>
                  && r.value == db.contacts[id].(status := status)
                  && after.contacts == db.contacts[id := r.value]
                  && after == db.(contacts := after.contacts, blocks := after.blocks)
                  && after.blocks == if status != ContactBlocked then db.blocks
                                     else db.blocks + [BlockRow(user, r.value.linked, r.value.email)])
  {
  }

  // ---- drafts --------------------------------------------------------------------------------

  /** How many requests the user has made in the hour before. */
  ghost function Recent(db: Db, user: User, checkedAt: int): nat {
    |set k: nat | k < |db.requests| && db.requests[k].from == user && checkedAt - 3_600_000 <= db.requests[k].createdAt|
  }

  lemma {:induction false} RecentCounts(requests: seq<Request>, user: User, since: int)
    ensures CountSince(requests, user, since)
            == |Places(requests, (x: Request) => x.from == user && since <= x.createdAt)|
  {
    var p := (x: Request) => x.from == user && since <= x.createdAt;
    CountIsSize(requests, p);
    if |requests| > 0 {
      RecentCounts(requests[1..], user, since);
      CountIsSize(requests[1..], p);
      CountConcat([requests[0]], requests[1..], p);
      assert [requests[0]] + requests[1..] == requests && [requests[0]][..0] == [];
    }
  }

  lemma LimitIsRecent(db: Db, user: User, checkedAt: int)
    ensures RateLimitReached(db, user, checkedAt) <==> Recent(db, user, checkedAt) >= 20
  {
    RecentCounts(db.requests, user, checkedAt - HOUR);
    assert Places(db.requests, (x: Request) => x.from == user && checkedAt - HOUR <= x.createdAt)
           == set k: nat | k < |db.requests| && db.requests[k].from == user
                           && checkedAt - 3_600_000 <= db.requests[k].createdAt;
  }

  ghost predicate NamesSomebody(recipient: Recipient) {
    || (recipient.email.Some? && recipient.email.value != "")
    || (recipient.displayName.Some? && recipient.displayName.value != "")
  }

  /** The recipient is a contact that may be addressed, or an address or a name to make one of. */
  ghost predicate Addressable(db: Db, user: User, recipient: Option<Recipient>) {
    && recipient.Some?
    && if recipient.value.contactId.Some? then Usable(db, user, recipient.value.contactId.value)
       else NamesSomebody(recipient.value)
  }

  /** Nothing private in either text, and no broadcast but to a team. */
  ghost predicate Decent(input: DraftInput) {
    && !input.contextIsPrivate && !input.shareIsPrivate
    && (input.kind == TeamUpdateRequest || !input.goalIsBroadcast)
  }

  /** Why a draft is refused: the first of these that applies. */
  ghost function Refusal(db: Db, user: User, input: DraftInput, checkedAt: int): Error {
    if Recent(db, user, checkedAt) >= 20 then RateLimited
    else if input.goalIsBroadcast && input.kind != TeamUpdateRequest then MassBroadcast
    else if !Decent(input) then PrivateData
    else if input.recipient.Some? && input.recipient.value.contactId.Some?
            && input.recipient.value.contactId.value < |db.contacts|
            && db.contacts[input.recipient.value.contactId.value].owner == user then BlockedByPolicy
    else NotFound
  }

  /** The contact a draft goes to: the one that was named, or a new one, the last. */
  ghost predicate GoesTo(db: Db, after: Db, user: User, recipient: Recipient, id: nat) {
    && id < |after.contacts|
    && if recipient.contactId.Some? then id == recipient.contactId.value && after.contacts == db.contacts
       else
         && id == |db.contacts| && after.contacts == db.contacts + [after.contacts[id]]
         && IsNewContact(db, after.contacts[id], user, ShownName(recipient), recipient.email)
  }

  ghost function ShownName(recipient: Recipient): string {
    if recipient.displayName.Some? then recipient.displayName.value
    else if recipient.email.Some? then recipient.email.value
    else "Relay contact"
  }

  /** The one row a draft stores. */
  ghost predicate StoresDraft(db: Db, after: Db, user: User, input: DraftInput, createdAt: int) {
    && input.recipient.Some?
    && |after.requests| == |db.requests| + 1 && after.requests[..|db.requests|] == db.requests
    && var row := after.requests[|db.requests|];
       && row.from == user && row.kind == input.kind && row.createdAt == createdAt
       && row.status == (if input.kind == TeamUpdateRequest then Draft else PendingSenderApproval)
       && row.contact.Some? && GoesTo(db, after, user, input.recipient.value, row.contact.value)
       && row.to == after.contacts[row.contact.value].linked
  }

  /**
   A draft is stored exactly if the sender is below twenty requests in the hour, nothing private
   is in it, only a team update broadcasts, and the recipient can be addressed. Otherwise the first
   reason against it is answered, and of the tables only the sender's identity is new.
   */
  lemma DraftOutcome(db: Db, user: User, input: DraftInput, checkedAt: int, createdAt: int)
    ensures var (after, r) := CreateDraft(db, user, input, checkedAt, createdAt);
            && (r.Ok? <==> Recent(db, user, checkedAt) < 20 && Decent(input) && Addressable(db, user, input.recipient))
            && (r.Err? ==>
                  r.error == Refusal(db, user, input, checkedAt) && after == db.(identities := db.identities + {user}))
            && (r.Ok? ==>
                  && r.value == |db.requests| && StoresDraft(db, after, user, input, createdAt)
                  && after == db.(identities := db.identities + {user}, contacts := after.contacts,
                                  requests := after.requests))
  {
    LimitIsRecent(db, user, checkedAt);
    var db0 := db.(identities := db.identities + {user});
    assert RateLimitReached(db0, user, checkedAt) == RateLimitReached(db, user, checkedAt);
  }

  // ---- sends ---------------------------------------------------------------------------------------

  ghost predicate Pending(db: Db, user: User, id: nat) {
    && id < |db.requests| && db.requests[id].from == user
    && (db.requests[id].status == PendingSenderApproval || db.requests[id].status == Draft)
  }

  /** The account a request would go to: its own, or that of its contact. */
  ghost function Receiver(db: Db, r: Request): Option<User> {
    if r.to.Some? then r.to
    else if r.contact.Some? && r.contact.value < |db.contacts| then db.contacts[r.contact.value].linked
    else None
  }

  ghost function Address(db: Db, r: Request): Option<string> {
    if r.contact.Some? && r.contact.value < |db.contacts| then db.contacts[r.contact.value].email else None
  }

  /** There is an account or an address to send to. */
  ghost predicate Reachable(db: Db, r: Request) {
    Receiver(db, r).Some? || (Address(db, r).Some? && Address(db, r).value != "")
  }

  /** A row of the receiving account on the sender, or else a row of the sender on the address. */
  ghost predicate Stopped(db: Db, r: Request) {
    exists k | 0 <= k < |db.blocks| ::
      if Receiver(db, r).Some?
      then db.blocks[k].user == Receiver(db, r).value && db.blocks[k].blockedUser == Some(r.from)
      else db.blocks[k].user == r.from && db.blocks[k].blockedEmail == Address(db, r)
  }

  ghost predicate Sendable(db: Db, user: User, id: nat) {
    && Pending(db, user, id)
    && var r := db.requests[id];
       && r.kind != TeamUpdateRequest
       && (r.contact.Some? ==> Usable(db, user, r.contact.value))
       && Reachable(db, r) && !Stopped(db, r)
  }

  /**
   A request is sent exactly if it is the user's and pending, is no team update, its contact may
   be addressed, and there is somebody to send it to that no row stops. A refusal changes nothing.
   */
  lemma SendOutcome(db: Db, user: User, id: nat)
    ensures var (after, r) := ApproveSend(db, user, id);
            && (r.Ok? <==> Sendable(db, user, id))
            && (r.Err? ==> after == db)
            && (r.Ok? ==>
                  && r.value == Receiver(db, db.requests[id])
                  && after == db.(requests := db.requests[id := db.requests[id].(to := r.value, status := Sent)],
                                  approvals := db.approvals + [Approval(id, user, ApprovedToSend, None)]))
  {
  }

  /** Which refusal a send meets. */
  lemma SendRefusals(db: Db, user: User, id: nat)
    requires !Sendable(db, user, id)
    ensures var r := ApproveSend(db, user, id).1;
            r == Err(
              if id >= |db.requests| || db.requests[id].from != user then NotFound
              else if !Pending(db, user, id) then NotAllowed
              else if db.requests[id].kind == TeamUpdateRequest then TeamRelayFuture
              else if db.requests[id].contact.Some? && !Usable(db, user, db.requests[id].contact.value) then
                if db.requests[id].contact.value < |db.contacts|
                   && db.contacts[db.requests[id].contact.value].owner == user then BlockedByPolicy
                else NotFound
              else if !Reachable(db, db.requests[id]) then NotFound
              else BlockedByPolicy)
  {
  }

  // ---- cancellations and decisions -----------------------------------------------------------------

  lemma CancelOutcome(db: Db, user: User, id: nat)
    ensures var (after, r) := CancelRequest(db, user, id);
            && (r.Ok? <==> id < |db.requests| && db.requests[id].from == user)
            && (r.Err? ==> r.error == NotFound && after == db)
            && (r.Ok? ==> after == db.(requests := db.requests[id := db.requests[id].(status := Canceled)]))
  {
  }

  ghost predicate Decidable(db: Db, user: User, id: nat) {
    && id < |db.requests| && db.requests[id].to == Some(user)
    && (db.requests[id].status == Sent || db.requests[id].status == Received)
  }

  /** What each decision makes of the request, and what its approval row says. */
  ghost predicate Becomes(decision: Decision, status: Status, verdict: Verdict) {
    || (decision == Approve && status == Approved && verdict == ApprovedToShare)
    || (decision == Reject && status == Rejected && verdict == RejectedToShare)
    || (decision == Ignore && status == Ignored && verdict == VerdictIgnored)
    || (decision == Block && status == Blocked && verdict == VerdictBlocked)
  }

  /**
   A decision is taken exactly by the recipient of a request that was sent, unless it shares a
   private payload; only an approval shares one, and only a block adds a row on the sender.
   */
  lemma DecideOutcome(db: Db, user: User, id: nat, decision: Decision, payload: Option<string>, isPrivate: bool)
    ensures var (after, r) := Decide(db, user, id, decision, payload, isPrivate);
            && (r.Ok? <==> Decidable(db, user, id) && !(decision == Approve && isPrivate))
            && (r.Err? ==>
                  && after == db
                  && r.error == if Decidable(db, user, id) then PrivateData
                                else if id < |db.requests| && db.requests[id].to == Some(user) then NotAllowed
                                else NotFound)
            && (r.Ok? ==>
                  && |after.approvals| == |db.approvals| + 1
                  && var row := after.approvals[|db.approvals|];
                     && after == db.(requests := after.requests, approvals := db.approvals + [row],
                                     blocks := after.blocks)
                     && row.request == id && row.user == user
                     && row.payload == (if decision != Approve then None
                                        else if payload.Some? then payload else Some("{}"))
                     && after.requests == db.requests[id := db.requests[id].(status := after.requests[id].status)]
                     && Becomes(decision, after.requests[id].status, row.verdict)
                     && after.blocks == (if decision != Block then db.blocks
                                         else db.blocks + [BlockRow(user, Some(db.requests[id].from), None)]))
  {
  }
}
