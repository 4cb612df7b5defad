/**
 What one step of research, one merge and one dismissal leave behind, said about their
 arguments and the tables before and after.
 */
module InvestorOutcomes {
  import opened Prelude
  import opened InvestorModel
  import opened InvestorSafety

  // ---- the contact read from source rows -----------------------------------------------------

  /** The address in a row: the reader is shown the title and, behind a space, the snippet. */
  function Mail(s: Source, readers: Readers): Option<string> {
    readers.emailIn(s.title + " " + if s.snippet.Some? then s.snippet.value else "")
  }

  predicate HoldsAddress(s: Source, readers: Readers) {
    Mail(s, readers).Some? && Mail(s, readers).value != ""
  }

  ghost predicate NoAddress(sources: seq<(nat, Source)>, readers: Readers) {
    forall j | 0 <= j < |sources| :: !HoldsAddress(sources[j].1, readers)
  }

  predicate IsPage(s: Source, readers: Readers) {
    readers.contactPath(s.url) || readers.contactPath(s.title)
  }

  lemma {:induction false} FirstAddress(sources: seq<(nat, Source)>, readers: Readers, k: nat)
    requires k < |sources| && HoldsAddress(sources[k].1, readers)
    requires forall j | 0 <= j < k :: !HoldsAddress(sources[j].1, readers)
    ensures FirstWithEmail(sources, readers) == Some(sources[k])
  {
    assert sources[0].1.snippet.GetOr("") == if sources[0].1.snippet.Some? then sources[0].1.snippet.value else "";
    if k > 0 {
      assert forall j | 0 <= j < |sources| - 1 :: sources[1..][j] == sources[j + 1];
      FirstAddress(sources[1..], readers, k - 1);
    }
  }

  lemma {:induction false} NoFirstAddress(sources: seq<(nat, Source)>, readers: Readers)
    requires NoAddress(sources, readers)
    ensures FirstWithEmail(sources, readers) == None
  {
    if |sources| > 0 {
      assert forall j | 0 <= j < |sources| - 1 :: sources[1..][j] == sources[j + 1];
      assert !HoldsAddress(sources[0].1, readers);
      NoFirstAddress(sources[1..], readers);
    }
  }

  lemma {:induction false} FirstPage(sources: seq<(nat, Source)>, readers: Readers, k: nat)
    requires k < |sources| && IsPage(sources[k].1, readers)
    requires forall j | 0 <= j < k :: !IsPage(sources[j].1, readers)
    ensures FirstContactPage(sources, readers) == Some(sources[k])
  {
    if k > 0 {
      assert forall j | 0 <= j < |sources| - 1 :: sources[1..][j] == sources[j + 1];
      FirstPage(sources[1..], readers, k - 1);
    }
  }

  lemma {:induction false} NoFirstPage(sources: seq<(nat, Source)>, readers: Readers)
    requires forall j | 0 <= j < |sources| :: !IsPage(sources[j].1, readers)
    ensures FirstContactPage(sources, readers) == None
  {
    if |sources| > 0 {
      assert forall j | 0 <= j < |sources| - 1 :: sources[1..][j] == sources[j + 1];
      NoFirstPage(sources[1..], readers);
    }
  }

  /** The first row with an address gives it, with more confidence if it is on the firm's own site. */
  lemma AddressOutcome(website: Option<string>, sources: seq<(nat, Source)>, candidate: Option<string>,
                       readers: Readers, k: nat)
    requires k < |sources| && HoldsAddress(sources[k].1, readers)
    requires forall j | 0 <= j < k :: !HoldsAddress(sources[j].1, readers)
    ensures var c, mail := Assess(website, sources, candidate, readers), Mail(sources[k].1, readers);
            && c.email == mail && c.status == SourceBacked && c.source == Some(sources[k].0)
            && c.confidence == (if readers.sameSite(mail.value, website) then 0.9 else 0.65)
            && c.emailConfidence == Some(c.confidence) && c.url.None? && c.riskFlags == []
  {
    FirstAddress(sources, readers, k);
    assert sources[k].1.snippet.GetOr("") == if sources[k].1.snippet.Some? then sources[k].1.snippet.value else "";
  }

  ghost predicate NamesNoAddress(c: Contact) {
    c.email.None? && c.source.None? && c.emailConfidence.None?
  }

  /** Without an address anywhere the first page about contacts is given, and a supplied address is flagged. */
  lemma PageOutcome(website: Option<string>, sources: seq<(nat, Source)>, candidate: Option<string>,
                    readers: Readers, k: nat)
    requires NoAddress(sources, readers) && k < |sources| && IsPage(sources[k].1, readers)
    requires forall j | 0 <= j < k :: !IsPage(sources[j].1, readers)
    ensures var c := Assess(website, sources, candidate, readers);
            && NamesNoAddress(c) && c.status == GenericContact && c.url == Some(sources[k].1.url)
            && c.confidence == 0.55
            && c.riskFlags == if Truthy(candidate) then ["email_inference_not_allowed"] else []
  {
    NoFirstAddress(sources, readers);
    FirstPage(sources, readers, k);
  }

  lemma NothingOutcome(website: Option<string>, sources: seq<(nat, Source)>, candidate: Option<string>,
                       readers: Readers)
    requires NoAddress(sources, readers) && forall j | 0 <= j < |sources| :: !IsPage(sources[j].1, readers)
    ensures var c := Assess(website, sources, candidate, readers);
            && NamesNoAddress(c) && c.status == Unknown && c.url.None? && c.confidence == 0.25
            && c.riskFlags == if Truthy(candidate) then ["email_inference_not_allowed"]
                              else ["no_source_backed_contact_found"]
  {
    NoFirstAddress(sources, readers);
    NoFirstPage(sources, readers);
  }

  // ---- research -----------------------------------------------------------------------------------

  /** A unique lead of the same user and campaign that has the same domain or the same firm. */
  predicate Rivals(l: Lead, user: User, campaign: nat, firm: string, domain: Option<string>) {
    && l.user == user && l.campaign == campaign && l.duplicate == Unique
    && ((domain.Some? && domain.value != "" && l.domain == domain) || l.firm == firm)
  }

  predicate Matched(leads: seq<Lead>, user: User, campaign: nat, firm: string, domain: Option<string>) {
    && (firm != "" || (domain.Some? && domain.value != ""))
    && exists k | 0 <= k < |leads| :: Rivals(leads[k], user, campaign, firm, domain)
  }

  lemma DetectDuplicateIff(db: Db, user: User, campaign: nat, firm: string, domain: Option<string>)
    ensures DetectDuplicate(db, user, campaign, firm, domain) == CandidateDuplicate
            <==> Matched(db.leads, user, campaign, firm, domain)
    ensures DetectDuplicate(db, user, campaign, firm, domain) != Merged
  {
    assert forall k | 0 <= k < |db.leads| :: Rivals(db.leads[k], user, campaign, firm, domain) <==>
        && db.leads[k].user == user && db.leads[k].campaign == campaign && db.leads[k].duplicate == Unique
        && SharesKey(db.leads[k], firm, domain);
  }

  /** The contact that a lead's columns show. */
  ghost predicate Shows(l: Lead, c: Contact) {
    && l.email == c.email && l.emailSource == c.source && l.emailStatus == c.status
    && l.emailConfidence == c.emailConfidence && l.contactUrl == c.url && l.contactConfidence == Some(c.confidence)
  }

  /**
   A result without a url or a title leaves nothing. Any other one leaves a lead and its source
   row: a candidate duplicate with a flag exactly if a unique lead matches it, else unique.
   */
  lemma PersistOutcome(db: Db, user: User, campaign: nat, r: Result, readers: Readers)
    ensures var after, n := Persist(db, user, campaign, r, readers), |db.leads|;
            if r.url == "" || r.title == "" then after == db
            else
              && |after.leads| == n + 1 && after.leads[..n] == db.leads
              && after.sources == db.sources + [Source(n, user, r.title, r.url, r.snippet)]
              && var l, firm, domain := after.leads[n], readers.firmOf(r), readers.domainOf(r.url);
                 var c := Assess(domain, [(|db.sources|, after.sources[|db.sources|])], None, readers);
                 var matched := Matched(db.leads, user, campaign, firm, domain);
                 && (l.user, l.campaign, l.firm, l.domain) == (user, campaign, firm, domain)
                 && l.partner.None? && l.mergedInto.None? && l.sourceConfidence == r.sourceConfidence && Shows(l, c)
                 && l.duplicate == (if matched then CandidateDuplicate else Unique)
                 && l.tags == r.tags.(riskFlags := l.tags.riskFlags)
                 && l.tags.riskFlags
                    == r.tags.riskFlags + (if matched then ["candidate_duplicate_lead"] else []) + c.riskFlags
  {
    DetectDuplicateIff(db, user, campaign, readers.firmOf(r), readers.domainOf(r.url));
  }

  /** The first lead of a campaign, or one that matches no unique lead, is stored as unique and without the flag. */
  lemma UnmatchedIsUnique(db: Db, user: User, campaign: nat, r: Result, readers: Readers)
    requires r.url != "" && r.title != ""
    requires forall k | 0 <= k < |db.leads| ::
               !Rivals(db.leads[k], user, campaign, readers.firmOf(r), readers.domainOf(r.url))
    ensures var after := Persist(db, user, campaign, r, readers);
            && after.leads != [] && after.sources != []
            && var l := after.leads[|after.leads| - 1];
               var c := Assess(l.domain, [(|db.sources|, after.sources[|after.sources| - 1])], None, readers);
               l.duplicate == Unique && l.tags.riskFlags == r.tags.riskFlags + c.riskFlags
  {
    PersistOutcome(db, user, campaign, r, readers);
    assert r.tags.riskFlags + [] == r.tags.riskFlags;
  }

  function IsUsable(): Result -> bool {
    (r: Result) => r.url != "" && r.title != ""
  }

  lemma {:induction false} PersistAllOutcome(db: Db, user: User, campaign: nat, results: seq<Result>, readers: Readers)
    ensures var after := PersistAll(db, user, campaign, results, readers);
            && |after.leads| == |db.leads| + Count(results, IsUsable())
            && |after.sources| == |db.sources| + Count(results, IsUsable())
            && db.leads <= after.leads && db.sources <= after.sources
            && forall i | |db.leads| <= i < |after.leads| ::
                 after.leads[i].user == user && after.leads[i].campaign == campaign
    decreases |results|
  {
    if |results| > 0 {
      var mid := Persist(db, user, campaign, results[0], readers);
      PersistOutcome(db, user, campaign, results[0], readers);
      PersistAllOutcome(mid, user, campaign, results[1..], readers);
      CountConcat([results[0]], results[1..], IsUsable());
      assert [results[0]] + results[1..] == results && [results[0]][..0] == [];
    }
  }

  /** Research keeps what is there and adds one lead and one source row for each usable result of the first eight. */
  lemma ResearchOutcome(db: Db, user: User, campaign: nat, results: seq<Result>, readers: Readers)
    ensures var after := Research(db, user, campaign, results, readers);
            var first := if |results| <= 8 then results else results[..8];
            && |after.leads| == |db.leads| + |Places(first, IsUsable())|
            && |after.sources| == |db.sources| + |Places(first, IsUsable())|
            && db.leads <= after.leads && db.sources <= after.sources
            && forall i | |db.leads| <= i < |after.leads| ::
                 after.leads[i].user == user && after.leads[i].campaign == campaign
  {
    var first := if |results| <= 8 then results else results[..8];
    PersistAllOutcome(db, user, campaign, first, readers);
    CountIsSize(first, IsUsable());
  }

  // ---- merges and dismissals ------------------------------------------------------------------------

  /** The same site, or the same firm with nothing said about partners that tells them apart. */
  ghost predicate LooksAlike(a: Lead, b: Lead, readers: Readers) {
    || (a.domain.Some? && a.domain.value != "" && a.domain == b.domain)
    || (&& a.firm != "" && a.firm == b.firm
        && var p, q := readers.partnerName(a.partner.GetOr("")), readers.partnerName(b.partner.GetOr(""));
           p == "" || q == "" || p == q)
  }

  /** Two leads of one user and campaign, of which the second is a candidate or looks like the first. */
  ghost predicate Mergeable(db: Db, user: User, duplicate: nat, target: nat, readers: Readers) {
    && duplicate != target && duplicate < |db.leads| && target < |db.leads|
    && var d, t := db.leads[duplicate], db.leads[target];
       && d.user == user && t.user == user && d.campaign == t.campaign
       && (d.duplicate == CandidateDuplicate || LooksAlike(t, d, readers))
  }

  /** What the target takes from the other lead: only what it lacks, and the greater of two scores. */
  ghost predicate TakesOver(row: Lead, t: Lead, d: Lead) {
    && row.email == (if t.email.Some? then t.email else d.email)
    && row.emailSource == (if t.emailSource.Some? then t.emailSource else d.emailSource)
    && row.emailConfidence == (if t.emailConfidence.Some? then t.emailConfidence else d.emailConfidence)
    && row.contactUrl == (if t.contactUrl.Some? then t.contactUrl else d.contactUrl)
    && row.emailStatus == (if t.emailStatus == SourceBacked then SourceBacked else d.emailStatus)
    && row.sourceConfidence == RealMax(t.sourceConfidence, d.sourceConfidence)
    && (row.user, row.campaign, row.firm, row.domain, row.partner, row.duplicate, row.mergedInto)
       == (t.user, t.campaign, t.firm, t.domain, t.partner, t.duplicate, t.mergedInto)
    && var best := RealMax(ConfidenceOf(t), ConfidenceOf(d));
       row.contactConfidence == (if best == 0.0 then t.contactConfidence else Some(best))
  }

  /** The confidence in a contact, none counting as zero. */
  function ConfidenceOf(l: Lead): real {
    if l.contactConfidence.Some? then l.contactConfidence.value else 0.0
  }

  /** Each list of tags gathers both leads' tags, the target's first. */
  ghost predicate GathersTags(row: Tags, t: Tags, d: Tags) {
    && FirstTags(row.sectors, t.sectors + d.sectors) && FirstTags(row.stages, t.stages + d.stages)
    && FirstTags(row.geographies, t.geographies + d.geographies)
    && FirstTags(row.fitReasons, t.fitReasons + d.fitReasons) && FirstTags(row.riskFlags, t.riskFlags + d.riskFlags)
  }

  /** The first twenty different tags that are not empty, in the order of their first places. */
  ghost predicate FirstTags(r: seq<string>, values: seq<string>) {
    && |r| == Min(20, |set x | x in values && x != ""|)
    && (forall x | x in r :: x in values && x != "")
    && (forall i, j | 0 <= i < j < |r| :: FirstPlace(values, r[i]) < FirstPlace(values, r[j]))
    && (forall x, i | x in values && x != "" && x !in r && 0 <= i < |r| ::
          FirstPlace(values, r[i]) < FirstPlace(values, x))
  }

  function FirstPlace(values: seq<string>, x: string): nat {
    if |values| == 0 || values[0] == x then 0 else 1 + FirstPlace(values[1..], x)
  }

  lemma {:induction false} DistinctInOrder(values: seq<string>, seen: set<string>)
    ensures var r := DistinctFrom(values, seen);
            forall i, j | 0 <= i < j < |r| :: FirstPlace(values, r[i]) < FirstPlace(values, r[j])
  {
    if |values| > 0 {
      var v, rest := values[0], values[1..];
      if v == "" || v in seen {
        DistinctInOrder(rest, seen);
        DistinctFromIs(rest, seen);
      } else {
        DistinctInOrder(rest, seen + {v});
        DistinctFromIs(rest, seen + {v});
      }
    }
  }

  lemma {:induction false} DistinctSize(values: seq<string>, seen: set<string>)
    ensures |DistinctFrom(values, seen)| == |set x | x in values && x != "" && x !in seen|
  {
    if |values| > 0 {
      var v, rest := values[0], values[1..];
      var all := set x | x in values && x != "" && x !in seen;
      if v == "" || v in seen {
        DistinctSize(rest, seen);
        assert all == set x | x in rest && x != "" && x !in seen;
      } else {
        DistinctSize(rest, seen + {v});
        assert all == (set x | x in rest && x != "" && x !in seen + {v}) + {v};
      }
    }
  }

  lemma TagsAreFirst(values: seq<string>)
    ensures FirstTags(UniqueTags(values), values)
  {
    var all := DistinctFrom(values, {});
    DistinctInOrder(values, {});
    DistinctSize(values, {});
    DistinctFromIs(values, {});
    var none: set<string> := {};
    assert (set x | x in values && x != "" && x !in none) == set x | x in values && x != "";
    assert |UniqueTags(values)| == Min(20, |all|);
    forall x, i | x in values && x != "" && x !in UniqueTags(values) && 0 <= i < |UniqueTags(values)|
      ensures FirstPlace(values, UniqueTags(values)[i]) < FirstPlace(values, x)
    {
      var j :| 0 <= j < |all| && all[j] == x;
    }
  }

  lemma MergeOutcome(db: Db, user: User, duplicate: nat, target: nat, readers: Readers)
    ensures var after := Merge(db, user, duplicate, target, readers);
            if !Mergeable(db, user, duplicate, target, readers) then after == db
            else
              && |after.leads| == |db.leads| && |after.sources| == |db.sources|
              && TakesOver(after.leads[target], db.leads[target], db.leads[duplicate])
              && GathersTags(after.leads[target].tags, db.leads[target].tags, db.leads[duplicate].tags)
              && after.leads[duplicate] == db.leads[duplicate].(duplicate := Merged, mergedInto := Some(target))
              && (forall i | 0 <= i < |db.leads| && i != target && i != duplicate :: after.leads[i] == db.leads[i])
              && forall k | 0 <= k < |db.sources| :: after.sources[k]
                   == if db.sources[k].lead == duplicate && db.sources[k].user == user
                      then db.sources[k].(lead := target) else db.sources[k]
  {
    assert Mergeable(db, user, duplicate, target, readers) <==> MayMerge(db, user, duplicate, target, readers);
    if MayMerge(db, user, duplicate, target, readers) {
      MergedTags(db.leads[target], db.leads[duplicate]);
    }
  }

  lemma MergedTags(t: Lead, d: Lead)
    ensures GathersTags(MergedTarget(t, d).tags, t.tags, d.tags)
  {
    TagsAreFirst(t.tags.sectors + d.tags.sectors);
    TagsAreFirst(t.tags.stages + d.tags.stages);
    TagsAreFirst(t.tags.geographies + d.tags.geographies);
    TagsAreFirst(t.tags.fitReasons + d.tags.fitReasons);
    TagsAreFirst(t.tags.riskFlags + d.tags.riskFlags);
  }

  lemma DismissOutcome(db: Db, user: User, id: nat)
    ensures Dismiss(db, user, id)
            == if id < |db.leads| && db.leads[id].user == user
               then Db(db.leads[id := db.leads[id].(duplicate := Unique)], db.sources) else db
  {
  }

  /** A run takes its events one after the other, up to the last. */
  lemma {:induction false} RunSnoc(db: Db, es: seq<Event>, e: Event, readers: Readers)
    ensures Run(db, es + [e], readers)
            == match e
               case Researched(user, campaign, results) =>
                 Research(Run(db, es, readers), user, campaign, results, readers)
               case MergedInto(user, duplicate, target) => Merge(Run(db, es, readers), user, duplicate, target, readers)
               case Dismissed(user, lead) => Dismiss(Run(db, es, readers), user, lead)
    ensures Run(db, [], readers) == db
    decreases |es|
  {
    if |es| == 0 {
      assert es + [e] == [e] && Run(Next(db, e, readers), [], readers) == Next(db, e, readers);
    } else {
      assert (es + [e])[1..] == es[1..] + [e];
      RunSnoc(Next(db, es[0], readers), es[1..], e, readers);
    }
  }
}
