/** The Relay handlers over their tables, in place. */
module RelayService {
  import opened Prelude
  import opened RelayModel
  import opened RelayOutcomes

  class Relay {
    var users: map<string, User>
    var identities: set<User>
    var contacts: seq<Contact>
    var requests: seq<Request>
    var approvals: seq<Approval>
    var blocks: seq<BlockRow>

    ghost function Tables(): Db
      reads this
    {
      Db(users, identities, contacts, requests, approvals, blocks)
    }

    constructor ()
      ensures Tables() == EMPTY
    {
      users, identities, contacts, requests, approvals, blocks := map[], {}, [], [], [], [];
    }

    method GetOrCreateIdentity(user: User)
      modifies this`identities
      ensures identities == old(identities) + {user}
    {
      if user in identities {
        assert identities == identities + {user};
        return;
      }
      identities := identities + {user};
    }

    method CreateContact(user: User, input: ContactInput) returns (contact: Contact)
      modifies this
      ensures Tables() == AddContact(old(Tables()), user, input)
      ensures contacts == old(contacts) + [contact]
    {
      var linked: Option<User> := None;
      if Truthy(input.email) && input.email.value in users {
        linked := Some(users[input.email.value]);
      }
      contact := Contact(user, linked, input.displayName, input.email,
                         if linked.Some? then ContactProposed else ContactInvited);
      contacts := contacts + [contact];
    }

    method UpdateContactStatus(user: User, id: nat, status: ContactStatus) returns (result: Result<Contact>)
      modifies this
      ensures (Tables(), result) == SetContactStatus(old(Tables()), user, id, status)
    {
      if id >= |contacts| || contacts[id].owner != user {
        return Err(NotFound);
      }
      var contact := contacts[id].(status := status);
      contacts := contacts[id := contact];
      if status == ContactBlocked {
        blocks := blocks + [BlockRow(user, contact.linked, contact.email)];
      }
      return Ok(contact);
    }

    method CountRecent(user: User, since: int) returns (count: nat)
      ensures count == CountSince(requests, user, since)
    {
      count := CountSince(requests, user, since);
    }

    method AssertContactOwned(user: User, id: nat) returns (result: Result<Contact>)
      ensures result == ContactOwned(Tables(), user, id)
      ensures result.Ok? <==>
                && id < |contacts| && contacts[id].owner == user
                && contacts[id].status !in {ContactBlocked, ContactRemoved}
      ensures result.Ok? ==> result.value == contacts[id]
      ensures result == Err(NotFound) <==> id >= |contacts| || contacts[id].owner != user
    {
      if id >= |contacts| || contacts[id].owner != user {
        return Err(NotFound);
      }
      if contacts[id].status == ContactBlocked || contacts[id].status == ContactRemoved {
        return Err(BlockedByPolicy);
      }
      return Ok(contacts[id]);
    }

    method Resolve(user: User, recipient: Option<Recipient>) returns (result: Result<Resolved>)
      modifies this`contacts
      ensures (Tables(), result) == ResolveRecipient(old(Tables()), user, recipient)
    {
      if recipient.Some? && recipient.value.contactId.Some? {
        var owned := AssertContactOwned(user, recipient.value.contactId.value);
        if owned.Err? {
          return Err(owned.error);
        }
        return Ok(Resolved(owned.value.linked, recipient.value.contactId.value));
      }
      if recipient.Some? {
        var email, name := recipient.value.email, recipient.value.displayName;
        if Truthy(email) || Truthy(name) {
          var linked: Option<User> := None;
          if Truthy(email) && email.value in users {
            linked := Some(users[email.value]);
          }
          var shown := if name.Some? then name.value else if email.Some? then email.value else "Relay contact";
          var status := if linked.Some? then ContactProposed else ContactInvited;
          contacts := contacts + [Contact(user, linked, shown, email, status)];
          return Ok(Resolved(linked, |contacts| - 1));
        }
      }
      return Err(NotFound);
    }

    method CreateRelayDraft(user: User, input: DraftInput, checkedAt: int, createdAt: int) returns (result: Result<nat>)
      modifies this
      ensures (Tables(), result) == CreateDraft(old(Tables()), user, input, checkedAt, createdAt)
      ensures result.Ok? <==>
                && Recent(old(Tables()), user, checkedAt) < 20 && Decent(input)
                && Addressable(old(Tables()), user, input.recipient)
      ensures result.Err? ==> requests == old(requests) && contacts == old(contacts)
      ensures result.Ok? ==> StoresDraft(old(Tables()), Tables(), user, input, createdAt)
    {
      DraftOutcome(Tables(), user, input, checkedAt, createdAt);
      GetOrCreateIdentity(user);
      var recent := CountRecent(user, checkedAt - HOUR);
      if recent >= RATE_LIMIT {
        return Err(RateLimited);
      }
      if input.kind != TeamUpdateRequest && input.goalIsBroadcast {
        return Err(MassBroadcast);
      }
      if input.contextIsPrivate || input.shareIsPrivate {
        return Err(PrivateData);
      }
      var recipient := Resolve(user, input.recipient);
      if recipient.Err? {
        return Err(recipient.error);
      }
      var status := if input.kind == TeamUpdateRequest then Draft else PendingSenderApproval;
      var to := recipient.value;
      requests := requests + [Request(user, to.toUser, Some(to.toContact), input.kind, status, createdAt)];
      return Ok(|requests| - 1);
    }

    method IsBlockedByRecipient(sender: User, recipient: Option<User>, email: Option<string>) returns (blocked: bool)
      ensures blocked == BlockedByRecipient(Tables(), sender, recipient, email)
      ensures recipient.Some? ==> (blocked <==> HasBlock(Tables(), recipient.value, sender))
      ensures blocked && recipient.None? ==> Truthy(email) && HasEmailBlock(Tables(), sender, email.value)
    {
      if recipient.None? && !Truthy(email) {
        return false;
      }
      if recipient.Some? {
        return exists k | 0 <= k < |blocks| ::
                 blocks[k].user == recipient.value && blocks[k].blockedUser == Some(sender);
      }
      return exists k | 0 <= k < |blocks| :: blocks[k].user == sender && blocks[k].blockedEmail == email;
    }

    method ApproveRelaySend(user: User, id: nat) returns (result: Result<Option<User>>)
      modifies this
      ensures (Tables(), result) == ApproveSend(old(Tables()), user, id)
      ensures result.Ok? <==> Sendable(old(Tables()), user, id)
      ensures result.Err? ==> Tables() == old(Tables())
    {
      SendOutcome(Tables(), user, id);
      if id >= |requests| || requests[id].from != user {
        return Err(NotFound);
      }
      var request := requests[id];
      if request.status != PendingSenderApproval && request.status != Draft {
        return Err(NotAllowed);
      }
      if request.kind == TeamUpdateRequest {
        return Err(TeamRelayFuture);
      }
      var to, email := request.to, None;
      if request.contact.Some? {
        var contact := AssertContactOwned(user, request.contact.value);
        if contact.Err? {
          return Err(contact.error);
        }
        to := if request.to.Some? then request.to else contact.value.linked;
        email := contact.value.email;
      }
      if to.None? && !Truthy(email) {
        return Err(NotFound);
      }
      var blocked := IsBlockedByRecipient(user, to, email);
      if blocked {
        return Err(BlockedByPolicy);
      }
      requests := requests[id := request.(to := to, status := Sent)];
      approvals := approvals + [Approval(id, user, ApprovedToSend, None)];
      return Ok(to);
    }

    method CancelRelayRequest(user: User, id: nat) returns (result: Result<nat>)
      modifies this`requests
      ensures (Tables(), result) == CancelRequest(old(Tables()), user, id)
    {
      if id >= |requests| || requests[id].from != user {
        return Err(NotFound);
      }
      requests := requests[id := requests[id].(status := Canceled)];
      return Ok(id);
    }

    method DecideIncoming(user: User, id: nat, decision: Decision, payload: Option<string>, payloadIsPrivate: bool)
        returns (result: Result<nat>)
      modifies this
      ensures (Tables(), result) == Decide(old(Tables()), user, id, decision, payload, payloadIsPrivate)
      ensures result.Ok? <==> Decidable(old(Tables()), user, id) && !(decision == Approve && payloadIsPrivate)
      ensures result.Err? ==> Tables() == old(Tables())
    {
      DecideOutcome(Tables(), user, id, decision, payload, payloadIsPrivate);
      if id >= |requests| || requests[id].to != Some(user) {
        return Err(NotFound);
      }
      var request := requests[id];
      if request.status != Sent && request.status != Received {
        return Err(NotAllowed);
      }
      var status := match decision
        case Approve => Approved
        case Reject => Rejected
        case Ignore => Ignored
        case Block => Blocked;
      var verdict := match decision
        case Approve => ApprovedToShare
        case Reject => RejectedToShare
        case Ignore => VerdictIgnored
        case Block => VerdictBlocked;
      var shared: Option<string> := None;
      if decision == Approve {
        if payloadIsPrivate {
          return Err(PrivateData);
        }
        shared := Some(if payload.Some? then payload.value else "{}");
      }
      requests := requests[id := request.(status := status)];
      approvals := approvals + [Approval(id, user, verdict, shared)];
      if decision == Block {
        blocks := blocks + [BlockRow(user, Some(request.from), None)];
      }
      return Ok(id);
    }
  }
}
