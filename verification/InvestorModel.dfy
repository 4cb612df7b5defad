/**
 Investor leads and their source rows as one value, and what research, merge and dismissal
 do to it. URL, name and e-mail reading are parameters: nothing depends on which texts match.
 */
module InvestorModel {
  import opened Prelude

  type User = nat

  datatype DuplicateStatus = Unique | CandidateDuplicate | Merged

  datatype EmailStatus = Unknown | SourceBacked | GenericContact | Unavailable | RejectedEmail

  datatype Lead = Lead(
    user: User,
    campaign: nat,
    firm: string,
    domain: Option<string>,
    partner: Option<string>,
    duplicate: DuplicateStatus,
    mergedInto: Option<nat>,
    email: Option<string>,
    emailSource: Option<nat>,
    emailStatus: EmailStatus,
    emailConfidence: Option<real>,
    contactUrl: Option<string>,
    contactConfidence: Option<real>,
    sourceConfidence: real,
    tags: Tags)

  datatype Tags = Tags(sectors: seq<string>, stages: seq<string>, geographies: seq<string>,
                       fitReasons: seq<string>, riskFlags: seq<string>)

  datatype Source = Source(lead: nat, user: User, title: string, url: string, snippet: Option<string>)

  /** The tables; an id is a position. */
  datatype Db = Db(leads: seq<Lead>, sources: seq<Source>)

  const EMPTY := Db([], [])

  /** A search result with what the scoring functions made of it. */
  datatype Result = Result(title: string, url: string, snippet: Option<string>, sourceConfidence: real, tags: Tags)

  /** The text readers: canonical firm name, web domain, e-mail in a text, contact page, site match, partner name. */
  datatype Readers = Readers(
    firmOf: Result -> string,
    domainOf: string -> Option<string>,
    emailIn: string -> Option<string>,
    contactPath: string -> bool,
    sameSite: (string, Option<string>) -> bool,
    partnerName: string -> string)

  predicate Truthy(s: Option<string>) {
    s.Some? && s.value != ""
  }

  // ---- contact assessment ----------------------------------------------------------------

  datatype Contact = Contact(
    email: Option<string>,
    status: EmailStatus,
    emailConfidence: Option<real>,
    source: Option<nat>,
    url: Option<string>,
    confidence: real,
    riskFlags: seq<string>)

  function TextOf(s: Source): string {
    s.title + " " + s.snippet.GetOr("")
  }

  /** The address the reader finds in a source row, if any. */
  function EmailOf(s: Source, readers: Readers): Option<string> {
    var found := readers.emailIn(TextOf(s));
    if Truthy(found) then found else None
  }

  /** Source rows come with their ids. */
  function FirstWithEmail(sources: seq<(nat, Source)>, readers: Readers): Option<(nat, Source)> {
    if |sources| == 0 then None
    else if EmailOf(sources[0].1, readers).Some? then Some(sources[0])
    else FirstWithEmail(sources[1..], readers)
  }

  predicate IsContactPage(s: Source, readers: Readers) {
    readers.contactPath(s.url) || readers.contactPath(s.title)
  }

  function FirstContactPage(sources: seq<(nat, Source)>, readers: Readers): Option<(nat, Source)> {
    if |sources| == 0 then None
    else if IsContactPage(sources[0].1, readers) then Some(sources[0])
    else FirstContactPage(sources[1..], readers)
  }

  function Assess(website: Option<string>, sources: seq<(nat, Source)>, candidateEmail: Option<string>,
                  readers: Readers): Contact {
    var backed := FirstWithEmail(sources, readers);
    if backed.Some? then
      var email := EmailOf(backed.value.1, readers);
      var confidence := if readers.sameSite(email.GetOr(""), website) then 0.9 else 0.65;
      Contact(email, SourceBacked, Some(confidence), Some(backed.value.0), None, confidence, [])
    else
      var flags := if Truthy(candidateEmail) then ["email_inference_not_allowed"] else [];
      var page := FirstContactPage(sources, readers);
      if page.Some? then Contact(None, GenericContact, None, None, Some(page.value.1.url), 0.55, flags)
      else
        Contact(None, Unknown, None, None, None, 0.25,
                if |flags| > 0 then flags else ["no_source_backed_contact_found"])
  }

  // ---- research ---------------------------------------------------------------------------

  predicate SharesKey(a: Lead, firm: string, domain: Option<string>) {
    || (Truthy(domain) && a.domain == domain)
    || a.firm == firm
  }

  function DetectDuplicate(db: Db, user: User, campaign: nat, firm: string, domain: Option<string>): DuplicateStatus {
    if firm == "" && !Truthy(domain) then Unique
    else if exists k | 0 <= k < |db.leads| ::
        && db.leads[k].user == user && db.leads[k].campaign == campaign && db.leads[k].duplicate == Unique
        && SharesKey(db.leads[k], firm, domain)
    then CandidateDuplicate
    else Unique
  }

  predicate Usable(r: Result) {
    r.url != "" && r.title != ""
  }

  /** One turn of the research loop: a lead, its source row, and the contact read from that row. */
  function Persist(db: Db, user: User, campaign: nat, r: Result, readers: Readers): Db {
    if !Usable(r) then db
    else
      var firm, domain := readers.firmOf(r), readers.domainOf(r.url);
      var duplicate := DetectDuplicate(db, user, campaign, firm, domain);
      var source := Source(|db.leads|, user, r.title, r.url, r.snippet);
      var c := Assess(domain, [(|db.sources|, source)], None, readers);
      var flag := if duplicate == CandidateDuplicate then ["candidate_duplicate_lead"] else [];
      var flags := r.tags.riskFlags + flag + c.riskFlags;
      var lead := Lead(
        user, campaign, firm, domain, None, duplicate, None, c.email, c.source, c.status, c.emailConfidence,
        c.url, Some(c.confidence), r.sourceConfidence, r.tags.(riskFlags := flags));
      Db(db.leads + [lead], db.sources + [source])
  }

  function PersistAll(db: Db, user: User, campaign: nat, results: seq<Result>, readers: Readers): Db
    decreases |results|
  {
    if |results| == 0 then db
    else PersistAll(Persist(db, user, campaign, results[0], readers), user, campaign, results[1..], readers)
  }

  const RESULT_LIMIT := 8

  function Research(db: Db, user: User, campaign: nat, results: seq<Result>, readers: Readers): Db {
    PersistAll(db, user, campaign, Take(results, RESULT_LIMIT), readers)
  }

  // ---- merge and dismissal -------------------------------------------------------------------

  predicate IsDuplicateCandidate(a: Lead, b: Lead, readers: Readers) {
    if Truthy(a.domain) && a.domain == b.domain then true
    else if a.firm != "" && a.firm == b.firm then
      var p, q := readers.partnerName(a.partner.GetOr("")), readers.partnerName(b.partner.GetOr(""));
      p == "" || q == "" || p == q
    else false
  }

  const TAG_LIMIT := 20

  /** The non-empty values, each at its first place. */
  function DistinctFrom(values: seq<string>, seen: set<string>): seq<string> {
    if |values| == 0 then []
    else if values[0] == "" || values[0] in seen then DistinctFrom(values[1..], seen)
    else [values[0]] + DistinctFrom(values[1..], seen + {values[0]})
  }

  function UniqueTags(values: seq<string>): seq<string> {
    Take(DistinctFrom(values, {}), TAG_LIMIT)
  }

  function MergeTags(a: Tags, b: Tags): Tags {
    Tags(UniqueTags(a.sectors + b.sectors), UniqueTags(a.stages + b.stages), UniqueTags(a.geographies + b.geographies),
         UniqueTags(a.fitReasons + b.fitReasons), UniqueTags(a.riskFlags + b.riskFlags))
  }

  predicate OwnsLead(db: Db, user: User, id: nat) {
    id < |db.leads| && db.leads[id].user == user
  }

  predicate MayMerge(db: Db, user: User, duplicate: nat, target: nat, readers: Readers) {
    && duplicate != target
    && OwnsLead(db, user, target) && OwnsLead(db, user, duplicate)
    && db.leads[target].campaign == db.leads[duplicate].campaign
    && (db.leads[duplicate].duplicate == CandidateDuplicate
       || IsDuplicateCandidate(db.leads[target], db.leads[duplicate], readers))
  }

  function MergedTarget(t: Lead, d: Lead): Lead {
    var best := RealMax(t.contactConfidence.GetOr(0.0), d.contactConfidence.GetOr(0.0));
    t.(tags := MergeTags(t.tags, d.tags),
       sourceConfidence := RealMax(t.sourceConfidence, d.sourceConfidence),
       contactConfidence := if best != 0.0 then Some(best) else t.contactConfidence,
       email := t.email.OrElse(d.email),
       emailStatus := if t.emailStatus == SourceBacked then t.emailStatus else d.emailStatus,
       emailConfidence := t.emailConfidence.OrElse(d.emailConfidence),
       emailSource := t.emailSource.OrElse(d.emailSource),
       contactUrl := t.contactUrl.OrElse(d.contactUrl))
  }

  function MoveSources(sources: seq<Source>, user: User, from: nat, to: nat): seq<Source> {
    seq(|sources|, k requires 0 <= k < |sources| =>
      if sources[k].user == user && sources[k].lead == from then sources[k].(lead := to) else sources[k])
  }

  function Merge(db: Db, user: User, duplicate: nat, target: nat, readers: Readers): Db {
    if !MayMerge(db, user, duplicate, target, readers) then db
    else
      var t, d := db.leads[target], db.leads[duplicate];
      Db(db.leads[target := MergedTarget(t, d)][duplicate := d.(duplicate := Merged, mergedInto := Some(target))],
         MoveSources(db.sources, user, duplicate, target))
  }

  function Dismiss(db: Db, user: User, id: nat): Db {
    if OwnsLead(db, user, id) then db.(leads := db.leads[id := db.leads[id].(duplicate := Unique)]) else db
  }

  // ---- runs --------------------------------------------------------------------------------------

  datatype Event =
    | Researched(user: User, campaign: nat, results: seq<Result>)
    | MergedInto(user: User, duplicate: nat, target: nat)
    | Dismissed(user: User, lead: nat)

  function Next(db: Db, e: Event, readers: Readers): Db {
    match e
    case Researched(user, campaign, results) => Research(db, user, campaign, results, readers)
    case MergedInto(user, duplicate, target) => Merge(db, user, duplicate, target, readers)
    case Dismissed(user, lead) => Dismiss(db, user, lead)
  }

  function Run(db: Db, es: seq<Event>, readers: Readers): Db
    decreases |es|
  {
    if |es| == 0 then db else Run(Next(db, es[0], readers), es[1..], readers)
  }
}
