/** The lead tables and the code that changes them in place. */
module InvestorService {
  import opened Prelude
  import opened InvestorModel
  import opened InvestorSafety
  import opened InvestorOutcomes

  /** Risk flags are pushed along a chain of early returns. */
  method AssessContactConfidence(website: Option<string>, sources: seq<(nat, Source)>,
                                 candidateEmail: Option<string>, readers: Readers)
      returns (c: Contact)
    ensures c == Assess(website, sources, candidateEmail, readers)
    ensures Sourced(c, sources, candidateEmail, readers)
  {
    AssessIsSourceBacked(website, sources, candidateEmail, readers);
    var riskFlags: seq<string> := [];
    var backed := FirstWithEmail(sources, readers);
    if backed.Some? {
      var email := readers.emailIn(backed.value.1.title + " " + backed.value.1.snippet.GetOr(""));
      FirstWithEmailFound(sources, readers);
      var domainMatches := readers.sameSite(email.GetOr(""), website);
      return Contact(email, SourceBacked, Some(if domainMatches then 0.9 else 0.65), Some(backed.value.0), None,
                     if domainMatches then 0.9 else 0.65, riskFlags);
    }
    if Truthy(candidateEmail) {
      riskFlags := riskFlags + ["email_inference_not_allowed"];
    }
    var page := FirstContactPage(sources, readers);
    if page.Some? {
      return Contact(None, GenericContact, None, None, Some(page.value.1.url), 0.55, riskFlags);
    }
    return Contact(None, Unknown, None, None, None, 0.25,
                   if |riskFlags| > 0 then riskFlags else ["no_source_backed_contact_found"]);
  }

  /**
   The columns a merge writes on the target row. The address, its source and its confidence come
   from one lead, the target if it has an address; no confidence in a source is lost; each list
   of tags gathers both leads' tags; and the target stays the lead it is.
   */
  method CombineLeads(t: Lead, d: Lead) returns (row: Lead)
    ensures row == MergedTarget(t, d)
    ensures AddressWhole(t) && AddressWhole(d) ==>
              && AddressWhole(row)
              && (row.email, row.emailSource, row.emailConfidence)
                 == if t.email.Some? then (t.email, t.emailSource, t.emailConfidence)
                    else (d.email, d.emailSource, d.emailConfidence)
    ensures row.sourceConfidence in {t.sourceConfidence, d.sourceConfidence}
    ensures row.sourceConfidence >= t.sourceConfidence && row.sourceConfidence >= d.sourceConfidence
    ensures Gathers(row.tags.sectors, t.tags.sectors + d.tags.sectors)
    ensures Gathers(row.tags.stages, t.tags.stages + d.tags.stages)
    ensures Gathers(row.tags.geographies, t.tags.geographies + d.tags.geographies)
    ensures Gathers(row.tags.fitReasons, t.tags.fitReasons + d.tags.fitReasons)
    ensures Gathers(row.tags.riskFlags, t.tags.riskFlags + d.tags.riskFlags)
    ensures (row.user, row.campaign, row.firm, row.domain, row.duplicate, row.mergedInto)
            == (t.user, t.campaign, t.firm, t.domain, t.duplicate, t.mergedInto)
  {
    MergedTagsPreservedIff(t.tags.sectors + d.tags.sectors);
    MergedTagsPreservedIff(t.tags.stages + d.tags.stages);
    MergedTagsPreservedIff(t.tags.geographies + d.tags.geographies);
    MergedTagsPreservedIff(t.tags.fitReasons + d.tags.fitReasons);
    MergedTagsPreservedIff(t.tags.riskFlags + d.tags.riskFlags);
    var best := RealMax(t.contactConfidence.GetOr(0.0), d.contactConfidence.GetOr(0.0));
    row := t.(
      tags := Tags(UniqueTags(t.tags.sectors + d.tags.sectors), UniqueTags(t.tags.stages + d.tags.stages),
                   UniqueTags(t.tags.geographies + d.tags.geographies),
                   UniqueTags(t.tags.fitReasons + d.tags.fitReasons),
                   UniqueTags(t.tags.riskFlags + d.tags.riskFlags)),
      sourceConfidence := RealMax(t.sourceConfidence, d.sourceConfidence),
      contactConfidence := if best != 0.0 then Some(best) else t.contactConfidence,
      email := if t.email.Some? then t.email else d.email,
      emailStatus := if t.emailStatus == SourceBacked then t.emailStatus else d.emailStatus,
      emailConfidence := if t.emailConfidence.Some? then t.emailConfidence else d.emailConfidence,
      emailSource := if t.emailSource.Some? then t.emailSource else d.emailSource,
      contactUrl := if t.contactUrl.Some? then t.contactUrl else d.contactUrl);
  }

  class LeadTable {
    var leads: seq<Lead>
    var sources: seq<Source>

    ghost function Tables(): Db
      reads this
    {
      Db(leads, sources)
    }

    constructor ()
      ensures Tables() == EMPTY
    {
      leads, sources := [], [];
    }

    method DetectDuplicateStatus(user: User, campaign: nat, firm: string, domain: Option<string>)
        returns (status: DuplicateStatus)
      ensures status == DetectDuplicate(Tables(), user, campaign, firm, domain)
      ensures status == CandidateDuplicate <==>
                && (firm != "" || (domain.Some? && domain.value != ""))
                && exists k :: 0 <= k < |leads| && Rivals(leads[k], user, campaign, firm, domain)
      ensures status != Merged
    {
      DetectDuplicateIff(Tables(), user, campaign, firm, domain);
      if firm == "" && !Truthy(domain) {
        return Unique;
      }
      for k := 0 to |leads|
        invariant forall j | 0 <= j < k ::
            !(leads[j].user == user && leads[j].campaign == campaign && leads[j].duplicate == Unique
                && SharesKey(leads[j], firm, domain))
      {
        if leads[k].user == user && leads[k].campaign == campaign && leads[k].duplicate == Unique {
          if (Truthy(domain) && leads[k].domain == domain) || leads[k].firm == firm {
            assert SharesKey(leads[k], firm, domain);
            return CandidateDuplicate;
          }
        }
      }
      return Unique;
    }

    method PersistOne(user: User, campaign: nat, r: Result, readers: Readers)
      requires Usable(r)
      modifies this
      ensures Tables() == Persist(old(Tables()), user, campaign, r, readers)
      ensures |leads| == |old(leads)| + 1
    {
      var firm := readers.firmOf(r);
      var domain := readers.domainOf(r.url);
      var duplicate := DetectDuplicateStatus(user, campaign, firm, domain);
      var flags := r.tags.riskFlags;
      if duplicate == CandidateDuplicate {
        flags := flags + ["candidate_duplicate_lead"];
      }
      var id := |leads|;
      leads := leads + [Lead(user, campaign, firm, domain, None, duplicate, None, None, None, Unknown, None, None, None,
                             r.sourceConfidence, r.tags.(riskFlags := flags))];
      var sourceId := |sources|;
      sources := sources + [Source(id, user, r.title, r.url, r.snippet)];
      var contact := AssessContactConfidence(domain, [(sourceId, sources[sourceId])], None, readers);
      leads := leads[id := leads[id].(
        email := contact.email,
        emailSource := contact.source,
        emailConfidence := contact.emailConfidence,
        emailStatus := contact.status,
        contactUrl := contact.url,
        contactConfidence := Some(contact.confidence),
        tags := leads[id].tags.(riskFlags := leads[id].tags.riskFlags + contact.riskFlags))];
      assert old(leads) == leads[..id];
      assert r.tags.riskFlags + [] == r.tags.riskFlags;
    }

    /** The created leads are the new rows, in order. */
    method PersistSourceBackedInvestors(user: User, campaign: nat, results: seq<Result>, readers: Readers)
        returns (created: seq<Lead>)
      modifies this
      ensures Tables() == Research(old(Tables()), user, campaign, results, readers)
      ensures leads == old(leads) + created
    {
      created := [];
      var taken := Take(results, RESULT_LIMIT);
      ghost var before := Tables();
      for i := 0 to |taken|
        invariant PersistAll(Tables(), user, campaign, taken[i..], readers)
                  == PersistAll(before, user, campaign, taken, readers)
        invariant leads == before.leads + created
      {
        assert taken[i..][0] == taken[i] && taken[i..][1..] == taken[i + 1..];
        if taken[i].url == "" || taken[i].title == "" {
          continue;
        }
        ghost var prior := leads;
        PersistOne(user, campaign, taken[i], readers);
        assert leads == prior + [leads[|leads| - 1]];
        created := created + [leads[|leads| - 1]];
      }
    }

    method MergeInvestorLeads(user: User, duplicate: nat, target: nat, readers: Readers)
        returns (merged: Option<(Lead, Lead)>)
      modifies this
      ensures merged.Some? <==> MayMerge(old(Tables()), user, duplicate, target, readers)
      ensures Tables() == Merge(old(Tables()), user, duplicate, target, readers)
      ensures merged.Some? ==> merged.value == (leads[target], leads[duplicate])
    {
      if duplicate == target {
        return None;
      }
      if target >= |leads| || leads[target].user != user || duplicate >= |leads| || leads[duplicate].user != user {
        return None;
      }
      var t, d := leads[target], leads[duplicate];
      if t.campaign != d.campaign {
        return None;
      }
      if d.duplicate != CandidateDuplicate && !IsDuplicateCandidate(t, d, readers) {
        return None;
      }
      sources := MoveSources(sources, user, duplicate, target);
      var combined := CombineLeads(t, d);
      leads := leads[target := combined];
      leads := leads[duplicate := d.(duplicate := Merged, mergedInto := Some(target))];
      return Some((leads[target], leads[duplicate]));
    }

    method DismissDuplicateCandidate(user: User, id: nat) returns (row: Option<Lead>)
      modifies this
      ensures Tables() == Dismiss(old(Tables()), user, id)
      ensures row == if OwnsLead(old(Tables()), user, id) then Some(leads[id]) else None
    {
      if id >= |leads| || leads[id].user != user {
        return None;
      }
      leads := leads[id := leads[id].(duplicate := Unique)];
      return Some(leads[id]);
    }
  }
}
