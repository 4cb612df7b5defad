/**
 The Relay tables as one value, and each handler as a function from that value to the
 next one and an outcome. A handler is one atomic step.
 */
module RelayModel {
  import opened Prelude

  type User = nat

  datatype Kind =
    | IntroRequest | MeetingRequest | AvailabilityRequest | InvestorInterestCheck | JobOpportunity
    | CollaborationRequest | TeamUpdateRequest | RoomInvite | DocumentReviewRequest | FollowUpRequest | GeneralRequest

  datatype Status =
    | Draft | PendingSenderApproval | Sent | Received | Approved | Rejected | Ignored | Blocked | Expired | Canceled

  datatype ContactStatus = ContactProposed | ContactInvited | ContactTrusted | ContactBlocked | ContactRemoved

  datatype Decision = Approve | Reject | Ignore | Block

  datatype Verdict = ApprovedToSend | RejectedToSend | ApprovedToShare | RejectedToShare | VerdictIgnored
      | VerdictBlocked

  datatype Error = NotFound | NotAllowed | BlockedByPolicy | RateLimited | MassBroadcast | PrivateData | TeamRelayFuture

  datatype Result<+T> = Ok(value: T) | Err(error: Error)

  /** E-mail addresses are stored in lower case. */
  datatype Contact = Contact(owner: User, linked: Option<User>, displayName: string, email: Option<string>,
                             status: ContactStatus)

  datatype Request = Request(from: User, to: Option<User>, contact: Option<nat>, kind: Kind, status: Status,
                             createdAt: int)

  datatype Approval = Approval(request: nat, user: User, verdict: Verdict, payload: Option<string>)

  datatype BlockRow = BlockRow(user: User, blockedUser: Option<User>, blockedEmail: Option<string>)

  /** The tables. A contact's or a request's id is its position. */
  datatype Db = Db(
    users: map<string, User>,
    identities: set<User>,
    contacts: seq<Contact>,
    requests: seq<Request>,
    approvals: seq<Approval>,
    blocks: seq<BlockRow>)

  const EMPTY := Db(map[], {}, [], [], [], [])

  const HOUR := 60 * 60 * 1000
  const RATE_LIMIT := 20

  /** JavaScript truth of an optional string. */
  predicate Truthy(s: Option<string>) {
    s.Some? && s.value != ""
  }

  datatype Recipient = Recipient(contactId: Option<nat>, email: Option<string>, displayName: Option<string>)

  /** A draft as posted; the three text policies are their verdicts on the posted text. */
  datatype DraftInput = DraftInput(
    kind: Kind,
    recipient: Option<Recipient>,
    goalIsBroadcast: bool,
    contextIsPrivate: bool,
    shareIsPrivate: bool)

  datatype ContactInput = ContactInput(displayName: string, email: Option<string>)

  // ---- policy ----------------------------------------------------------------

  /** How many requests of one sender carry a creation instant of at least `since`. */
  function CountSince(requests: seq<Request>, user: User, since: int): nat {
    if |requests| == 0 then 0
    else (if requests[0].from == user && since <= requests[0].createdAt then 1 else 0)
         + CountSince(requests[1..], user, since)
  }

  predicate RateLimitReached(db: Db, user: User, now: int) {
    CountSince(db.requests, user, now - HOUR) >= RATE_LIMIT
  }

  function ContactOwned(db: Db, user: User, id: nat): Result<Contact> {
    if id >= |db.contacts| || db.contacts[id].owner != user then Err(NotFound)
    else if db.contacts[id].status in {ContactBlocked, ContactRemoved} then Err(BlockedByPolicy)
    else Ok(db.contacts[id])
  }

  predicate HasBlock(db: Db, blocker: User, blocked: User) {
    exists k | 0 <= k < |db.blocks| :: db.blocks[k].user == blocker && db.blocks[k].blockedUser == Some(blocked)
  }

  predicate HasEmailBlock(db: Db, blocker: User, email: string) {
    exists k | 0 <= k < |db.blocks| :: db.blocks[k].user == blocker && db.blocks[k].blockedEmail == Some(email)
  }

  /** With no recipient account the query looks at the sender's own rows. */
  predicate BlockedByRecipient(db: Db, sender: User, recipient: Option<User>, email: Option<string>) {
    if recipient.None? && !Truthy(email) then false
    else if recipient.Some? then HasBlock(db, recipient.value, sender)
    else HasEmailBlock(db, sender, email.GetOr(""))
  }

  // ---- handlers --------------------------------------------------------------

  function LinkedUser(db: Db, email: Option<string>): Option<User> {
    if Truthy(email) && email.value in db.users then Some(db.users[email.value]) else None
  }

  function NewContact(db: Db, user: User, displayName: string, email: Option<string>): Contact {
    var linked := LinkedUser(db, email);
    Contact(user, linked, displayName, email, if linked.Some? then ContactProposed else ContactInvited)
  }

  function AddContact(db: Db, user: User, input: ContactInput): Db {
    db.(contacts := db.contacts + [NewContact(db, user, input.displayName, input.email)])
  }

  function SetContactStatus(db: Db, user: User, id: nat, status: ContactStatus): (Db, Result<Contact>) {
    if id >= |db.contacts| || db.contacts[id].owner != user then (db, Err(NotFound))
    else
      var contact := db.contacts[id].(status := status);
      (db.(contacts := db.contacts[id := contact],
           blocks :=
             if status == ContactBlocked then db.blocks + [BlockRow(user, contact.linked, contact.email)]
             else db.blocks),
       Ok(contact))
  }

  datatype Resolved = Resolved(toUser: Option<User>, toContact: nat)

  function ResolveRecipient(db: Db, user: User, recipient: Option<Recipient>): (Db, Result<Resolved>) {
    if recipient.Some? && recipient.value.contactId.Some? then
      match ContactOwned(db, user, recipient.value.contactId.value)
      case Err(e) => (db, Err(e))
      case Ok(contact) => (db, Ok(Resolved(contact.linked, recipient.value.contactId.value)))
    else if recipient.Some? && (Truthy(recipient.value.email) || Truthy(recipient.value.displayName)) then
      var name := recipient.value.displayName.OrElse(recipient.value.email).GetOr("Relay contact");
      var contact := NewContact(db, user, name, recipient.value.email);
      (db.(contacts := db.contacts + [contact]), Ok(Resolved(contact.linked, |db.contacts|)))
    else (db, Err(NotFound))
  }

  function InitialStatus(kind: Kind): Status {
    if kind == TeamUpdateRequest then Draft else PendingSenderApproval
  }

  /**
   Drafting. `checkedAt` is the clock the rate limit reads, `createdAt` the instant the
   database stamps on the new row.
   */
  function CreateDraft(db: Db, user: User, input: DraftInput, checkedAt: int, createdAt: int): (Db, Result<nat>) {
    var db0 := db.(identities := db.identities + {user});
    if RateLimitReached(db0, user, checkedAt) then (db0, Err(RateLimited))
    else if input.kind != TeamUpdateRequest && input.goalIsBroadcast then (db0, Err(MassBroadcast))
    else if input.contextIsPrivate || input.shareIsPrivate then (db0, Err(PrivateData))
    else
      var (db1, resolved) := ResolveRecipient(db0, user, input.recipient);
      match resolved
      case Err(e) => (db1, Err(e))
      case Ok(to) =>
        var request := Request(user, to.toUser, Some(to.toContact), input.kind, InitialStatus(input.kind), createdAt);
        (db1.(requests := db1.requests + [request]), Ok(|db1.requests|))
  }

  predicate OwnsRequest(db: Db, user: User, id: nat) {
    id < |db.requests| && db.requests[id].from == user
  }

  predicate ReceivesRequest(db: Db, user: User, id: nat) {
    id < |db.requests| && db.requests[id].to == Some(user)
  }

  /** The two writes of a send: the request row and its approval. */
  function WriteSend(db: Db, user: User, id: nat, to: Option<User>): Db
    requires id < |db.requests|
  {
    db.(requests := db.requests[id := db.requests[id].(to := to, status := Sent)],
        approvals := db.approvals + [Approval(id, user, ApprovedToSend, None)])
  }

  /** What the checks of a send come to: an error, or the recipient account to write. */
  function CheckSend(db: Db, user: User, id: nat): Result<Option<User>> {
    if !OwnsRequest(db, user, id) then Err(NotFound)
    else
      var request := db.requests[id];
      if request.status !in {PendingSenderApproval, Draft} then Err(NotAllowed)
      else if request.kind == TeamUpdateRequest then Err(TeamRelayFuture)
      else
        var contact := if request.contact.Some? then ContactOwned(db, user, request.contact.value) else Err(NotFound);
        if request.contact.Some? && contact.Err? then Err(contact.error)
        else
          var linked := if contact.Ok? then contact.value.linked else None;
          var email := if contact.Ok? then contact.value.email else None;
          var to := request.to.OrElse(linked);
          if to.None? && !Truthy(email) then Err(NotFound)
          else if BlockedByRecipient(db, user, to, email) then Err(BlockedByPolicy)
          else Ok(to)
  }

  function ApproveSend(db: Db, user: User, id: nat): (Db, Result<Option<User>>) {
    var check := CheckSend(db, user, id);
    if check.Ok? then (WriteSend(db, user, id, check.value), check) else (db, check)
  }

  function CancelRequest(db: Db, user: User, id: nat): (Db, Result<nat>) {
    if !OwnsRequest(db, user, id) then (db, Err(NotFound))
    else (db.(requests := db.requests[id := db.requests[id].(status := Canceled)]), Ok(id))
  }

  function DecidedStatus(d: Decision): Status {
    match d
    case Approve => Approved
    case Reject => Rejected
    case Ignore => Ignored
    case Block => Blocked
  }

  function DecidedVerdict(d: Decision): Verdict {
    match d
    case Approve => ApprovedToShare
    case Reject => RejectedToShare
    case Ignore => VerdictIgnored
    case Block => VerdictBlocked
  }

  /** A recipient's decision. The payload is looked at, and stored, for an approval only. */
  function Decide(db: Db, user: User, id: nat, decision: Decision, payload: Option<string>,
                  payloadIsPrivate: bool): (Db, Result<nat>) {
    if !ReceivesRequest(db, user, id) then (db, Err(NotFound))
    else if db.requests[id].status !in {Sent, Received} then (db, Err(NotAllowed))
    else if decision == Approve && payloadIsPrivate then (db, Err(PrivateData))
    else
      var shared := if decision == Approve then Some(payload.GetOr("{}")) else None;
      (db.(requests := db.requests[id := db.requests[id].(status := DecidedStatus(decision))],
           approvals := db.approvals + [Approval(id, user, DecidedVerdict(decision), shared)],
           blocks :=
             if decision == Block then db.blocks + [BlockRow(user, Some(db.requests[id].from), None)]
             else db.blocks),
       Ok(id))
  }

  // ---- runs ------------------------------------------------------------------

  datatype Event =
    | Registered(email: string, account: User)
    | ContactAdded(user: User, contactInput: ContactInput)
    | ContactStatusSet(user: User, id: nat, contactStatus: ContactStatus)
    | Drafted(user: User, draft: DraftInput, checkedAt: int, createdAt: int)
    | SendApproved(user: User, id: nat)
    | RequestCanceled(user: User, id: nat)
    | RequestDecided(user: User, id: nat, decision: Decision, payload: Option<string>, payloadIsPrivate: bool)

  /** One handler call, or one account appearing; refused calls leave what they leave. */
  function Next(db: Db, e: Event): Db {
    match e
    case Registered(email, account) => db.(users := db.users[email := account])
    case ContactAdded(user, input) => AddContact(db, user, input)
    case ContactStatusSet(user, id, status) => SetContactStatus(db, user, id, status).0
    case Drafted(user, draft, checkedAt, createdAt) => CreateDraft(db, user, draft, checkedAt, createdAt).0
    case SendApproved(user, id) => ApproveSend(db, user, id).0
    case RequestCanceled(user, id) => CancelRequest(db, user, id).0
    case RequestDecided(user, id, decision, payload, private) => Decide(db, user, id, decision, payload, private).0
  }

  function Run(db: Db, es: seq<Event>): Db
    decreases |es|
  {
    if |es| == 0 then db else Run(Next(db, es[0]), es[1..])
  }
}
