/** The citation gate: which citations of an answer stand, whether it passes, and what it scores. */
module Citations {
  import opened Prelude
  import opened Freshness

  datatype Domain = BankLoan | Finance | DoctorVisit | LegalConsultation | CompanyBrief | General | News | Technical

  datatype SourceType = Official | Academic | NewsOutlet | Company | Forum | Unknown

  datatype Source = Source(title: string, url: string, published: Published, kind: Option<SourceType>)

  datatype Citation = Citation(url: string, title: Option<string>)

  /** A passage of text: one written by a model, or one of the fixed texts, all of which say something. */
  datatype Passage =
    | Written(text: string)
    | FinancialCaveat | MedicalCaveat | LegalCaveat | NewsCaveat | DefaultCaveat
    | NoSourcesText | NoCitationsText | SourceListText | NotConfiguredText | NotValidText
    | ReviewText | NoResultsText | ReviewDirectlyText | NoProviderText

  datatype Answer = Answer(text: Passage, citations: seq<Citation>, confidence: real, limitations: Option<Passage>)

  /** The configured limits, with the ranges that the configuration schema demands. */
  datatype Settings = Settings(
    minCitations: nat,
    highStakesMin: int,
    requireCitations: bool,
    maxAgeDefault: int,
    maxAgeNews: int)
  {
    predicate Valid() {
      highStakesMin > 0 && maxAgeDefault > 0 && maxAgeNews > 0
    }
  }

  /** How urls are read: normalised, refused, and classified by host. */
  datatype Web = Web(normalize: string -> string, blocked: string -> bool, classify: string -> SourceType)

  datatype SourcePolicy = SourcePolicy(requiresFreshness: bool, maxAgeDays: int, minCitations: nat, highStakes: bool)

  predicate IsHighStakes(d: Domain) {
    d in {BankLoan, Finance, DoctorVisit, LegalConsultation}
  }

  function SourcePolicyFor(d: Domain, settings: Settings): (policy: SourcePolicy)
    requires settings.Valid()
    ensures policy.maxAgeDays > 0
    ensures policy.highStakes ==> policy.minCitations > 0
  {
    SourcePolicy(
      d in {Finance, LegalConsultation, News},
      if d == News then settings.maxAgeNews else settings.maxAgeDefault,
      if IsHighStakes(d) then settings.highStakesMin else settings.minCitations,
      IsHighStakes(d))
  }

  /** A text that is there and not empty. */
  predicate Present(text: Option<string>) {
    text.Some? && text.value != ""
  }

  /** A limitation that is there and not empty. */
  predicate Limited(limitations: Option<Passage>) {
    limitations.Some? && limitations.value != Written("")
  }

  // ---- sources ----------------------------------------------------------------------------

  function KindOf(s: Source, web: Web): SourceType {
    s.kind.GetOr(web.classify(s.url))
  }

  function ScoreSource(s: Source, d: Domain, web: Web): real {
    var kind := KindOf(s, web);
    var base := match kind
      case Official => 0.9
      case Academic => 0.82
      case NewsOutlet => 0.68
      case Company => 0.58
      case Forum => 0.25
      case Unknown => 0.35;
    var boosted := d in {DoctorVisit, LegalConsultation, BankLoan} && kind in {Official, Academic};
    RealMin(1.0, base + if boosted then 0.08 else 0.0)
  }

  /** The sources by normalised url; of two with one url, the later stands. */
  function SourcesByUrl(sources: seq<Source>, web: Web): map<string, Source> {
    if |sources| == 0 then map[]
    else
      var s := sources[|sources| - 1];
      SourcesByUrl(sources[..|sources| - 1], web)[web.normalize(s.url) := s.(kind := Some(KindOf(s, web)))]
  }

  /** A source answers for a url when it is the last one with that normalised url. */
  ghost predicate AnswersFor(sources: seq<Source>, k: nat, url: string, web: Web) {
    && k < |sources|
    && web.normalize(sources[k].url) == url
    && forall j | k < j < |sources| :: web.normalize(sources[j].url) != url
  }

  lemma {:induction false} SourcesByUrlIff(sources: seq<Source>, url: string, web: Web)
    ensures url in SourcesByUrl(sources, web) <==> exists k: nat :: AnswersFor(sources, k, url, web)
    ensures forall k: nat | AnswersFor(sources, k, url, web) ::
              SourcesByUrl(sources, web)[url] == sources[k].(kind := Some(KindOf(sources[k], web)))
  {
    if |sources| > 0 {
      var n := |sources| - 1;
      var init := sources[..n];
      SourcesByUrlIff(init, url, web);
      if web.normalize(sources[n].url) == url {
        assert AnswersFor(sources, n, url, web);
      } else {
        forall k: nat ensures AnswersFor(sources, k, url, web) <==> AnswersFor(init, k, url, web) {
          if AnswersFor(init, k, url, web) {
            assert forall j | k < j < |sources| :: j == n || sources[j] == init[j];
          }
          if AnswersFor(sources, k, url, web) {
            assert forall j | k < j < |init| :: init[j] == sources[j];
          }
        }
      }
    }
  }

  // ---- citations --------------------------------------------------------------------------

  datatype Finding =
    | MissingTitleOrUrl
    | NotSourceBacked(url: string)
    | BlockedUrl(url: string)
    | MissingLimitation
    | NotFresh
    | TooFewCitations

  /** Whether the text of a finding starts with "citation_". */
  predicate AboutCitations(f: Finding) {
    !f.MissingLimitation? && !f.NotFresh?
  }

  predicate Stands(c: Citation, byUrl: map<string, Source>, web: Web) {
    && web.normalize(c.url) in byUrl
    && c.url != ""
    && Present(c.title)
    && !web.blocked(byUrl[web.normalize(c.url)].url)
  }

  function Standing(cs: seq<Citation>, byUrl: map<string, Source>, web: Web): (kept: seq<Citation>)
    ensures |kept| <= |cs|
    ensures forall k | 0 <= k < |kept| :: kept[k] in cs && Stands(kept[k], byUrl, web)
  {
    if |cs| == 0 then []
    else Standing(cs[..|cs| - 1], byUrl, web) + if Stands(cs[|cs| - 1], byUrl, web) then [cs[|cs| - 1]] else []
  }

  /** What is wrong with one citation; nothing exactly when it stands. */
  function FindingsFor(c: Citation, byUrl: map<string, Source>, web: Web): (fs: seq<Finding>)
    ensures fs == [] <==> Stands(c, byUrl, web)
    ensures forall k | 0 <= k < |fs| :: AboutCitations(fs[k])
  {
    var known := web.normalize(c.url) in byUrl;
    (if c.url == "" || !Present(c.title) then [MissingTitleOrUrl] else [])
    + (if !known then [NotSourceBacked(c.url)] else [])
    + (if known && web.blocked(byUrl[web.normalize(c.url)].url)
        then [BlockedUrl(byUrl[web.normalize(c.url)].url)] else [])
  }

  function CitationFindings(cs: seq<Citation>, byUrl: map<string, Source>, web: Web): (fs: seq<Finding>)
    ensures forall k | 0 <= k < |fs| :: AboutCitations(fs[k])
  {
    if |cs| == 0 then []
    else CitationFindings(cs[..|cs| - 1], byUrl, web) + FindingsFor(cs[|cs| - 1], byUrl, web)
  }

  /** The sources that standing citations name. */
  function Cited(cs: seq<Citation>, byUrl: map<string, Source>, web: Web): (sources: seq<Source>)
    requires forall k | 0 <= k < |cs| :: Stands(cs[k], byUrl, web)
    ensures |sources| == |cs|
  {
    seq(|cs|, k requires 0 <= k < |cs| && Stands(cs[k], byUrl, web) => byUrl[web.normalize(cs[k].url)])
  }

  function Sum(xs: seq<real>): real {
    if |xs| == 0 then 0.0 else Sum(xs[..|xs| - 1]) + xs[|xs| - 1]
  }

  function Average(xs: seq<real>): real {
    if |xs| == 0 then 0.0 else Sum(xs) / |xs| as real
  }

  function FreshnessScores(sources: seq<Source>, maxAgeDays: int, now: int): (scores: seq<real>)
    requires maxAgeDays > 0
    ensures |scores| == |sources|
  {
    seq(|sources|, k requires 0 <= k < |sources| => FreshnessScore(sources[k].published, maxAgeDays, now))
  }

  predicate AllFresh(sources: seq<Source>, maxAgeDays: int, now: int) {
    forall k | 0 <= k < |sources| :: SourceIsFreshEnough(sources[k].published, maxAgeDays, now)
  }

  datatype Quality = Quality(
    sourceBacked: bool,
    citationCount: nat,
    officialCount: nat,
    highCredibilityCount: nat,
    freshness: real,
    unsupported: nat,
    overall: real,
    findings: seq<Finding>)

  datatype Validation = Validation(ok: bool, citations: seq<Citation>, quality: Quality) {
    /** The first finding, where there is one. */
    function ErrorCode(): Option<Finding> {
      if |quality.findings| == 0 then None else Some(quality.findings[0])
    }
  }

  function Ratio(part: nat, whole: nat): real {
    RealMin(1.0, part as real / Max(1, whole) as real)
  }

  function Overall(count: nat, minimum: nat, credible: nat, freshness: real, unsupported: nat): real {
    Clamp01(Ratio(count, minimum) * 0.45 + Ratio(credible, count) * 0.35 + freshness * 0.2 - unsupported as real * 0.15)
  }

  /** The findings that are about the answer as a whole. */
  function AnswerFindings(answer: Answer, kept: nat, policy: SourcePolicy, allFresh: bool): seq<Finding> {
    (if policy.highStakes && !Limited(answer.limitations) then [MissingLimitation] else [])
    + (if policy.requiresFreshness && !allFresh then [NotFresh] else [])
    + (if kept < policy.minCitations then [TooFewCitations] else [])
  }

  function QualityOf(answer: Answer, kept: nat, cited: seq<Source>, d: Domain, findings: seq<Finding>,
                     settings: Settings, web: Web, now: int): Quality
    requires settings.Valid() && kept <= |answer.citations|
  {
    var policy := SourcePolicyFor(d, settings);
    var official := Count(cited, (s: Source) => KindOf(s, web) == Official);
    var credible := Count(cited, (s: Source) => ScoreSource(s, d, web) >= 0.75);
    var freshness := Average(FreshnessScores(cited, policy.maxAgeDays, now));
    var unsupported := |answer.citations| - kept;
    Quality(
      unsupported == 0 && kept >= Max(settings.minCitations, policy.minCitations),
      kept, official, credible, freshness, unsupported,
      Overall(kept, policy.minCitations, official + credible, freshness, unsupported),
      findings)
  }

  function Validate(answer: Answer, sources: seq<Source>, d: Domain, settings: Settings, web: Web, now: int): Validation
    requires settings.Valid()
  {
    var policy := SourcePolicyFor(d, settings);
    var byUrl := SourcesByUrl(sources, web);
    var kept := Standing(answer.citations, byUrl, web);
    var cited := Cited(kept, byUrl, web);
    var findings := CitationFindings(answer.citations, byUrl, web)
                    + AnswerFindings(answer, |kept|, policy, AllFresh(cited, policy.maxAgeDays, now));
    var quality := QualityOf(answer, |kept|, cited, d, findings, settings, web, now);
    Validation(|findings| == 0 && quality.sourceBacked, kept, quality)
  }

  method FindInCitation(c: Citation, byUrl: map<string, Source>, web: Web) returns (findings: seq<Finding>)
    ensures findings == FindingsFor(c, byUrl, web)
  {
    var normalized := web.normalize(c.url);
    findings := [];
    if c.url == "" || !Present(c.title) {
      findings := findings + [MissingTitleOrUrl];
    }
    if normalized !in byUrl {
      findings := findings + [NotSourceBacked(c.url)];
    } else if web.blocked(byUrl[normalized].url) {
      findings := findings + [BlockedUrl(byUrl[normalized].url)];
    }
  }

  /** The filter over the citations, which pushes findings as it goes. */
  method FilterCitations(cs: seq<Citation>, byUrl: map<string, Source>, web: Web)
      returns (kept: seq<Citation>, findings: seq<Finding>)
    ensures kept == Standing(cs, byUrl, web)
    ensures findings == CitationFindings(cs, byUrl, web)
  {
    findings, kept := [], [];
    for i := 0 to |cs|
      invariant findings == CitationFindings(cs[..i], byUrl, web)
      invariant kept == Standing(cs[..i], byUrl, web)
    {
      var normalized := web.normalize(cs[i].url);
      var known := normalized in byUrl;
      assert cs[..i + 1][..i] == cs[..i];
      var pushed := FindInCitation(cs[i], byUrl, web);
      findings := findings + pushed;
      if known && cs[i].url != "" && Present(cs[i].title) && !web.blocked(byUrl[normalized].url) {
        kept := kept + [cs[i]];
      }
    }
    assert cs[..|cs|] == cs;
  }

  method FindInAnswer(answer: Answer, kept: nat, policy: SourcePolicy, allFresh: bool) returns (findings: seq<Finding>)
    ensures findings == AnswerFindings(answer, kept, policy, allFresh)
  {
    findings := [];
    if policy.highStakes && !Limited(answer.limitations) {
      findings := findings + [MissingLimitation];
    }
    if policy.requiresFreshness && !allFresh {
      findings := findings + [NotFresh];
    }
    if kept < policy.minCitations {
      findings := findings + [TooFewCitations];
    }
  }

  /** Findings are pushed while the citations are filtered, then for the answer as a whole. */
  method ValidateResearchCitations(answer: Answer, sources: seq<Source>, d: Domain, settings: Settings,
                                   web: Web, now: int)
    returns (v: Validation)
    requires settings.Valid()
    ensures v == Validate(answer, sources, d, settings, web, now)
  {
    var policy := SourcePolicyFor(d, settings);
    var byUrl := SourcesByUrl(sources, web);
    var kept, findings := FilterCitations(answer.citations, byUrl, web);
    var cited := Cited(kept, byUrl, web);
    var more := FindInAnswer(answer, |kept|, policy, AllFresh(cited, policy.maxAgeDays, now));
    findings := findings + more;
    var quality := QualityOf(answer, |kept|, cited, d, findings, settings, web, now);
    v := Validation(|findings| == 0 && quality.sourceBacked, kept, quality);
  }

  // ---- what the verdict means ---------------------------------------------------------------

  /** A citation that is backed: titled, and answered for by a source whose url is not refused. */
  ghost predicate Backed(c: Citation, sources: seq<Source>, web: Web) {
    && c.url != ""
    && Present(c.title)
    && exists k: nat :: AnswersFor(sources, k, web.normalize(c.url), web) && !web.blocked(sources[k].url)
  }

  ghost predicate AllBacked(cs: seq<Citation>, sources: seq<Source>, web: Web) {
    forall k | 0 <= k < |cs| :: Backed(cs[k], sources, web)
  }

  lemma StandsIffBacked(c: Citation, sources: seq<Source>, web: Web)
    ensures Stands(c, SourcesByUrl(sources, web), web) <==> Backed(c, sources, web)
  {
    SourcesByUrlIff(sources, web.normalize(c.url), web);
  }

  predicate AllStand(cs: seq<Citation>, byUrl: map<string, Source>, web: Web) {
    forall k | 0 <= k < |cs| :: Stands(cs[k], byUrl, web)
  }

  lemma AllStandSnoc(cs: seq<Citation>, byUrl: map<string, Source>, web: Web)
    requires |cs| > 0
    ensures AllStand(cs, byUrl, web) <==> AllStand(cs[..|cs| - 1], byUrl, web) && Stands(cs[|cs| - 1], byUrl, web)
  {
    var front := cs[..|cs| - 1];
    assert forall k | 0 <= k < |front| :: front[k] == cs[k];
  }

  lemma {:induction false} StandingAll(cs: seq<Citation>, byUrl: map<string, Source>, web: Web)
    ensures |Standing(cs, byUrl, web)| == |cs| <==> AllStand(cs, byUrl, web)
    ensures |Standing(cs, byUrl, web)| == |cs| ==> Standing(cs, byUrl, web) == cs
  {
    if |cs| > 0 {
      StandingAll(cs[..|cs| - 1], byUrl, web);
      AllStandSnoc(cs, byUrl, web);
    }
  }

  lemma {:induction false} NoFindingsIff(cs: seq<Citation>, byUrl: map<string, Source>, web: Web)
    ensures CitationFindings(cs, byUrl, web) == [] <==> AllStand(cs, byUrl, web)
  {
    if |cs| > 0 {
      NoFindingsIff(cs[..|cs| - 1], byUrl, web);
      AllStandSnoc(cs, byUrl, web);
    }
  }

  lemma AllStandIffBacked(cs: seq<Citation>, sources: seq<Source>, web: Web)
    ensures var byUrl := SourcesByUrl(sources, web);
            |Standing(cs, byUrl, web)| == |cs| <==> AllBacked(cs, sources, web)
  {
    StandingAll(cs, SourcesByUrl(sources, web), web);
    forall k | 0 <= k < |cs| ensures Stands(cs[k], SourcesByUrl(sources, web), web) <==> Backed(cs[k], sources, web) {
      StandsIffBacked(cs[k], sources, web);
    }
  }

  /** Validating what was kept keeps all of it and finds nothing wrong with any citation. */
  lemma {:induction false} StandingTwice(cs: seq<Citation>, byUrl: map<string, Source>, web: Web)
    ensures var kept := Standing(cs, byUrl, web);
            Standing(kept, byUrl, web) == kept && CitationFindings(kept, byUrl, web) == []
  {
    StandingAll(Standing(cs, byUrl, web), byUrl, web);
    NoFindingsIff(Standing(cs, byUrl, web), byUrl, web);
  }

  /** The source that answers for the k-th citation is fresh enough. */
  ghost predicate FreshlyBacked(c: Citation, sources: seq<Source>, maxAgeDays: int, web: Web, now: int) {
    forall k: nat | AnswersFor(sources, k, web.normalize(c.url), web) ::
      SourceIsFreshEnough(sources[k].published, maxAgeDays, now)
  }

  ghost predicate AllFreshlyBacked(cs: seq<Citation>, sources: seq<Source>, maxAgeDays: int, web: Web, now: int) {
    forall k | 0 <= k < |cs| :: FreshlyBacked(cs[k], sources, maxAgeDays, web, now)
  }

  lemma AllFreshIff(cs: seq<Citation>, sources: seq<Source>, maxAgeDays: int, web: Web, now: int)
    requires forall k | 0 <= k < |cs| :: Stands(cs[k], SourcesByUrl(sources, web), web)
    ensures AllFresh(Cited(cs, SourcesByUrl(sources, web), web), maxAgeDays, now)
            <==> AllFreshlyBacked(cs, sources, maxAgeDays, web, now)
  {
    var cited := Cited(cs, SourcesByUrl(sources, web), web);
    forall k | 0 <= k < |cs|
      ensures FreshlyBacked(cs[k], sources, maxAgeDays, web, now)
              <==> SourceIsFreshEnough(cited[k].published, maxAgeDays, now)
    {
      SourcesByUrlIff(sources, web.normalize(cs[k].url), web);
      var j: nat :| AnswersFor(sources, j, web.normalize(cs[k].url), web);
      assert cited[k].published == sources[j].published;
    }
  }

  /**
   An answer passes exactly when every citation it makes is backed, there are enough of them,
   a high-stakes answer names a limitation, and, where the domain demands it, every source is fresh.
   */
  lemma OkIff(answer: Answer, sources: seq<Source>, d: Domain, settings: Settings, web: Web, now: int)
    requires settings.Valid()
    ensures var policy := SourcePolicyFor(d, settings);
            Validate(answer, sources, d, settings, web, now).ok <==>
            && AllBacked(answer.citations, sources, web)
            && |answer.citations| >= Max(settings.minCitations, policy.minCitations)
            && (policy.highStakes ==> Limited(answer.limitations))
            && (policy.requiresFreshness ==> AllFreshlyBacked(answer.citations, sources, policy.maxAgeDays, web, now))
  {
    var byUrl := SourcesByUrl(sources, web);
    StandingAll(answer.citations, byUrl, web);
    NoFindingsIff(answer.citations, byUrl, web);
    AllStandIffBacked(answer.citations, sources, web);
    var kept := Standing(answer.citations, byUrl, web);
    if |kept| == |answer.citations| {
      AllFreshIff(kept, sources, SourcePolicyFor(d, settings).maxAgeDays, web, now);
    }
  }

  /** The source that answers for the citation has a readable date, at most this many days ago. */
  ghost predicate DatedWithin(c: Citation, sources: seq<Source>, days: int, web: Web, now: int) {
    forall k: nat | AnswersFor(sources, k, web.normalize(c.url), web) ::
      sources[k].published.At? && now - sources[k].published.ms <= days * 86_400_000
  }

  /** What a domain and the settings demand of an answer beside backed citations. */
  ghost predicate MeetsDomain(answer: Answer, sources: seq<Source>, d: Domain, settings: Settings, web: Web, now: int) {
    match d
    case General => |answer.citations| >= settings.minCitations
    case CompanyBrief => |answer.citations| >= settings.minCitations
    case Technical => |answer.citations| >= settings.minCitations
    case News =>
      && |answer.citations| >= settings.minCitations
      && forall c | c in answer.citations :: DatedWithin(c, sources, settings.maxAgeNews, web, now)
    case BankLoan => MeetsHighStakes(answer, settings)
    case DoctorVisit => MeetsHighStakes(answer, settings)
    case Finance =>
      && MeetsHighStakes(answer, settings)
      && forall c | c in answer.citations :: DatedWithin(c, sources, settings.maxAgeDefault, web, now)
    case LegalConsultation =>
      && MeetsHighStakes(answer, settings)
      && forall c | c in answer.citations :: DatedWithin(c, sources, settings.maxAgeDefault, web, now)
  }

  ghost predicate MeetsHighStakes(answer: Answer, settings: Settings) {
    && |answer.citations| >= settings.minCitations && |answer.citations| >= settings.highStakesMin
    && Limited(answer.limitations)
  }

  lemma AllDatedIff(cs: seq<Citation>, sources: seq<Source>, days: int, web: Web, now: int)
    ensures (forall c | c in cs :: DatedWithin(c, sources, days, web, now))
            <==> AllFreshlyBacked(cs, sources, days, web, now)
  {
    forall k | 0 <= k < |cs|
      ensures DatedWithin(cs[k], sources, days, web, now) <==> FreshlyBacked(cs[k], sources, days, web, now)
    {
    }
    if AllFreshlyBacked(cs, sources, days, web, now) {
      forall c | c in cs ensures DatedWithin(c, sources, days, web, now) {
        var k :| 0 <= k < |cs| && cs[k] == c;
        assert FreshlyBacked(cs[k], sources, days, web, now);
      }
    }
  }

  lemma PolicyIsDomain(answer: Answer, sources: seq<Source>, d: Domain, settings: Settings, web: Web, now: int)
    requires settings.Valid()
    ensures var policy := SourcePolicyFor(d, settings);
            MeetsDomain(answer, sources, d, settings, web, now) <==>
            && |answer.citations| >= Max(settings.minCitations, policy.minCitations)
            && (policy.highStakes ==> Limited(answer.limitations))
            && (policy.requiresFreshness ==> AllFreshlyBacked(answer.citations, sources, policy.maxAgeDays, web, now))
  {
    if d in {News, Finance, LegalConsultation} {
      AllDatedIff(answer.citations, sources, SourcePolicyFor(d, settings).maxAgeDays, web, now);
    }
  }

  /** The same verdict, domain by domain and from the settings alone. */
  lemma PassesIff(answer: Answer, sources: seq<Source>, d: Domain, settings: Settings, web: Web, now: int)
    requires settings.Valid()
    ensures Validate(answer, sources, d, settings, web, now).ok
            <==> AllBacked(answer.citations, sources, web) && MeetsDomain(answer, sources, d, settings, web, now)
  {
    OkIff(answer, sources, d, settings, web, now);
    PolicyIsDomain(answer, sources, d, settings, web, now);
  }

  /** A news answer passes only on sources of the configured age, and one on money or law likewise. */
  lemma StaleNeverPasses(answer: Answer, sources: seq<Source>, d: Domain, settings: Settings, web: Web, now: int,
                         c: Citation, k: nat)
    requires settings.Valid() && c in answer.citations && AnswersFor(sources, k, web.normalize(c.url), web)
    requires d in {News, Finance, LegalConsultation}
    requires var days := if d == News then settings.maxAgeNews else settings.maxAgeDefault;
             !sources[k].published.At? || now - sources[k].published.ms > days * 86_400_000
    ensures !Validate(answer, sources, d, settings, web, now).ok
  {
    PassesIff(answer, sources, d, settings, web, now);
  }

  /** The same sources, whenever they were published. */
  ghost predicate SameButDates(a: seq<Source>, b: seq<Source>) {
    |a| == |b| && forall k | 0 <= k < |a| :: a[k].(published := b[k].published) == b[k]
  }

  lemma DatesDoNotBack(c: Citation, a: seq<Source>, b: seq<Source>, web: Web)
    requires SameButDates(a, b) && Backed(c, a, web)
    ensures Backed(c, b, web)
  {
    assert forall k | 0 <= k < |a| :: a[k].url == b[k].url;
    var k: nat :| AnswersFor(a, k, web.normalize(c.url), web) && !web.blocked(a[k].url);
    assert AnswersFor(b, k, web.normalize(c.url), web);
  }

  lemma AllBackedAnyway(cs: seq<Citation>, a: seq<Source>, b: seq<Source>, web: Web)
    requires SameButDates(a, b) && AllBacked(cs, a, web)
    ensures AllBacked(cs, b, web)
  {
    forall k | 0 <= k < |cs| ensures Backed(cs[k], b, web) {
      DatesDoNotBack(cs[k], a, b, web);
    }
  }

  lemma BackedAnyway(cs: seq<Citation>, a: seq<Source>, b: seq<Source>, web: Web)
    requires SameButDates(a, b)
    ensures AllBacked(cs, a, web) == AllBacked(cs, b, web)
  {
    if AllBacked(cs, a, web) {
      AllBackedAnyway(cs, a, b, web);
    }
    if AllBacked(cs, b, web) {
      AllBackedAnyway(cs, b, a, web);
    }
  }

  /** In every other domain the verdict does not depend on when the sources were published. */
  lemma DatesDoNotMatter(answer: Answer, a: seq<Source>, b: seq<Source>, d: Domain, settings: Settings, web: Web,
                         now: int)
    requires settings.Valid() && SameButDates(a, b) && d !in {News, Finance, LegalConsultation}
    ensures Validate(answer, a, d, settings, web, now).ok == Validate(answer, b, d, settings, web, now).ok
  {
    PassesIff(answer, a, d, settings, web, now);
    PassesIff(answer, b, d, settings, web, now);
    BackedAnyway(answer.citations, a, b, web);
    assert MeetsDomain(answer, a, d, settings, web, now) == MeetsDomain(answer, b, d, settings, web, now);
  }

  /** Whatever the answer says, each citation that is kept was made by the answer and is backed. */
  lemma KeptAreBacked(answer: Answer, sources: seq<Source>, d: Domain, settings: Settings, web: Web, now: int)
    requires settings.Valid()
    ensures var kept := Validate(answer, sources, d, settings, web, now).citations;
            forall k | 0 <= k < |kept| :: kept[k] in answer.citations && Backed(kept[k], sources, web)
  {
    var kept := Validate(answer, sources, d, settings, web, now).citations;
    forall k | 0 <= k < |kept| ensures Backed(kept[k], sources, web) {
      StandsIffBacked(kept[k], sources, web);
    }
  }

  /** The minimum counts citations, not sources: citing one backed source often enough is enough. */
  lemma RepeatedCitationCounts(answer: Answer, c: Citation, sources: seq<Source>, d: Domain, settings: Settings,
                               web: Web, now: int)
    requires settings.Valid() && Limited(answer.limitations)
    requires Backed(c, sources, web) && FreshlyBacked(c, sources, SourcePolicyFor(d, settings).maxAgeDays, web, now)
    requires forall k | 0 <= k < |answer.citations| :: answer.citations[k] == c
    ensures Validate(answer, sources, d, settings, web, now).ok
            <==> |answer.citations| >= Max(settings.minCitations, SourcePolicyFor(d, settings).minCitations)
  {
    OkIff(answer, sources, d, settings, web, now);
  }

  // ---- the score ------------------------------------------------------------------------------

  lemma {:induction false} SumBounds(xs: seq<real>, lo: real)
    requires forall k | 0 <= k < |xs| :: lo <= xs[k] <= 1.0
    ensures lo * |xs| as real <= Sum(xs) <= |xs| as real
  {
    if |xs| > 0 {
      SumBounds(xs[..|xs| - 1], lo);
    }
  }

  lemma AverageBounds(xs: seq<real>, lo: real)
    requires |xs| > 0 && forall k | 0 <= k < |xs| :: lo <= xs[k] <= 1.0
    ensures lo <= Average(xs) <= 1.0
  {
    SumBounds(xs, lo);
    QuotientBounds(Sum(xs), |xs| as real, lo);
  }

  lemma RatioBounds(part: nat, whole: nat)
    ensures 0.0 <= Ratio(part, whole) <= 1.0
    ensures part >= Max(1, whole) ==> Ratio(part, whole) == 1.0
    ensures part == 0 ==> Ratio(part, whole) == 0.0
  {
    var w := Max(1, whole) as real;
    QuotientOrder(0.0, part as real, w);
    if part >= Max(1, whole) {
      QuotientOrder(w, part as real, w);
    }
  }

  lemma AverageOfNone(sources: seq<Source>, maxAgeDays: int, now: int)
    requires maxAgeDays > 0 && |sources| == 0
    ensures Average(FreshnessScores(sources, maxAgeDays, now)) == 0.0
  {
  }

  /**
   The score is always in [0, 1]. An answer that passes scores at least 0.48 if it cites
   anything, and at least 0.52 where freshness is demanded; without citations it scores 0.
   */
  lemma ScoreBounds(answer: Answer, sources: seq<Source>, d: Domain, settings: Settings, web: Web, now: int)
    requires settings.Valid()
    ensures var v := Validate(answer, sources, d, settings, web, now);
            && 0.0 <= v.quality.overall <= 1.0
            && (v.ok ==> (v.quality.overall >= 0.48 <==> v.citations != []))
            && (v.ok && v.citations != [] && SourcePolicyFor(d, settings).requiresFreshness
               ==> v.quality.overall >= 0.52)
            && (v.citations == [] ==> v.quality.overall == 0.0)
  {
    var v := Validate(answer, sources, d, settings, web, now);
    var policy := SourcePolicyFor(d, settings);
    var byUrl := SourcesByUrl(sources, web);
    var cited := Cited(v.citations, byUrl, web);
    var scores := FreshnessScores(cited, policy.maxAgeDays, now);
    RatioBounds(|v.citations|, policy.minCitations);
    RatioBounds(v.quality.officialCount + v.quality.highCredibilityCount, |v.citations|);
    if v.citations == [] {
      AverageOfNone(cited, policy.maxAgeDays, now);
    } else if v.ok {
      AverageBounds(scores, 0.15);
      if policy.requiresFreshness {
        forall k | 0 <= k < |scores| ensures scores[k] >= 0.35 {
          FreshEnoughIff(cited[k].published, policy.maxAgeDays, now);
        }
        AverageBounds(scores, 0.35);
      }
    }
  }

  const FORUMS := Web((u: string) => u, (u: string) => false, (u: string) => Forum)
  const LIMITS := Settings(1, 2, true, 365, 14)
  const POST := Source("t", "u", At(0), Some(Forum))
  const REPLY := Answer(Written(""), [Citation("u", Some("t"))], 0.5, None)

  /** The bound is met: one stale forum post, in a domain that demands nothing more, scores 0.48. */
  lemma ScoreBoundReached()
    ensures var v := Validate(REPLY, [POST], General, LIMITS, FORUMS, 366 * DAY);
            v.ok && v.quality.overall == 0.48
  {
    var byUrl := SourcesByUrl([POST], FORUMS);
    OneStanding(REPLY.citations[0], byUrl, FORUMS);
    var cited := Cited(REPLY.citations, byUrl, FORUMS);
    assert cited == [POST];
    OneScored(POST, 365, 366 * DAY);
  }

  lemma OneStanding(c: Citation, byUrl: map<string, Source>, web: Web)
    requires Stands(c, byUrl, web)
    ensures Standing([c], byUrl, web) == [c] && CitationFindings([c], byUrl, web) == []
  {
    StandingAll([c], byUrl, web);
    NoFindingsIff([c], byUrl, web);
  }

  lemma OneScored(s: Source, maxAgeDays: int, now: int)
    requires maxAgeDays > 0
    ensures Average(FreshnessScores([s], maxAgeDays, now)) == FreshnessScore(s.published, maxAgeDays, now)
  {
    var xs := FreshnessScores([s], maxAgeDays, now);
    assert xs == [xs[0]] && xs[..0] == [];
    assert Sum(xs) == xs[0];
  }

  /** High credibility means official or academic, in every domain; so official sources are counted twice. */
  lemma HighCredibilityIff(s: Source, d: Domain, web: Web)
    ensures ScoreSource(s, d, web) >= 0.75 <==> KindOf(s, web) in {Official, Academic}
  {
  }

  lemma {:induction false} CountMonotone(sources: seq<Source>, p: Source -> bool, q: Source -> bool)
    requires forall s: Source :: p(s) ==> q(s)
    ensures Count(sources, p) <= Count(sources, q)
  {
    if |sources| > 0 {
      CountMonotone(sources[..|sources| - 1], p, q);
    }
  }

  lemma OfficialCountsTwice(answer: Answer, sources: seq<Source>, d: Domain, settings: Settings, web: Web, now: int)
    requires settings.Valid()
    ensures var q := Validate(answer, sources, d, settings, web, now).quality;
            q.officialCount <= q.highCredibilityCount <= q.citationCount
  {
    var v := Validate(answer, sources, d, settings, web, now);
    var cited := Cited(v.citations, SourcesByUrl(sources, web), web);
    CountMonotone(cited, (s: Source) => KindOf(s, web) == Official, (s: Source) => ScoreSource(s, d, web) >= 0.75);
  }

  // ---- what is reported beside the verdict ----------------------------------------------------

  /** The url of the citation is, up to normalisation, that of some source. */
  ghost predicate IsKnown(c: Citation, sources: seq<Source>, web: Web) {
    exists k :: 0 <= k < |sources| && web.normalize(sources[k].url) == web.normalize(c.url)
  }

  lemma {:induction false} KnownIff(sources: seq<Source>, c: Citation, web: Web)
    ensures web.normalize(c.url) in SourcesByUrl(sources, web) <==> IsKnown(c, sources, web)
  {
    if |sources| > 0 {
      var init := sources[..|sources| - 1];
      KnownIff(init, c, web);
      assert forall k | 0 <= k < |init| :: init[k] == sources[k];
      if IsKnown(c, init, web) {
        var k :| 0 <= k < |init| && web.normalize(init[k].url) == web.normalize(c.url);
        assert web.normalize(sources[k].url) == web.normalize(c.url);
      }
    }
  }

  /** What a citation is found to be. */
  ghost predicate Faulty(c: Citation, f: Finding, sources: seq<Source>, web: Web) {
    match f
    case MissingTitleOrUrl => c.url == "" || c.title.None? || c.title == Some("")
    case NotSourceBacked(url) => c.url == url && !IsKnown(c, sources, web)
    case BlockedUrl(url) =>
      exists k: nat :: AnswersFor(sources, k, web.normalize(c.url), web) && sources[k].url == url && web.blocked(url)
    case _ => false
  }

  lemma FindingsForIff(c: Citation, f: Finding, sources: seq<Source>, web: Web)
    ensures f in FindingsFor(c, SourcesByUrl(sources, web), web) <==> Faulty(c, f, sources, web)
  {
    KnownIff(sources, c, web);
    SourcesByUrlIff(sources, web.normalize(c.url), web);
  }

  lemma {:induction false} CitationFindingsIff(cs: seq<Citation>, f: Finding, sources: seq<Source>, web: Web)
    ensures f in CitationFindings(cs, SourcesByUrl(sources, web), web)
            <==> exists k :: 0 <= k < |cs| && Faulty(cs[k], f, sources, web)
  {
    if |cs| > 0 {
      var front := cs[..|cs| - 1];
      CitationFindingsIff(front, f, sources, web);
      FindingsForIff(cs[|cs| - 1], f, sources, web);
      assert forall k | 0 <= k < |front| :: front[k] == cs[k];
      if k :| 0 <= k < |front| && Faulty(front[k], f, sources, web) {
        assert Faulty(cs[k], f, sources, web);
      }
    }
  }

  /** What an answer as a whole lacks in its domain. */
  ghost predicate Lacks(answer: Answer, kept: seq<Citation>, f: Finding, sources: seq<Source>, d: Domain,
                        settings: Settings, web: Web, now: int) {
    var highStakes := d in {BankLoan, Finance, DoctorVisit, LegalConsultation};
    var days := if d == News then settings.maxAgeNews else settings.maxAgeDefault;
    match f
    case MissingLimitation => highStakes && !Limited(answer.limitations)
    case NotFresh =>
      d in {News, Finance, LegalConsultation} && exists c :: c in kept && !DatedWithin(c, sources, days, web, now)
    case TooFewCitations => |kept| < if highStakes then settings.highStakesMin else settings.minCitations
    case _ => false
  }

  /** Every finding has its reason, in a citation or in the answer, and every reason its finding. */
  lemma FindingsIff(answer: Answer, sources: seq<Source>, d: Domain, settings: Settings, web: Web, now: int, f: Finding)
    requires settings.Valid()
    ensures var v := Validate(answer, sources, d, settings, web, now);
            f in v.quality.findings <==>
            || Lacks(answer, v.citations, f, sources, d, settings, web, now)
            || exists k :: 0 <= k < |answer.citations| && Faulty(answer.citations[k], f, sources, web)
  {
    var kept := Validate(answer, sources, d, settings, web, now).citations;
    var byUrl := SourcesByUrl(sources, web);
    FindingsAre(answer, sources, d, settings, web, now);
    CitationFindingsIff(answer.citations, f, sources, web);
    LacksIff(answer, kept, f, sources, d, settings, web, now);
  }

  lemma LacksIff(answer: Answer, kept: seq<Citation>, f: Finding, sources: seq<Source>, d: Domain, settings: Settings,
                 web: Web, now: int)
    requires settings.Valid() && AllStand(kept, SourcesByUrl(sources, web), web)
    ensures var policy := SourcePolicyFor(d, settings);
            var cited := Cited(kept, SourcesByUrl(sources, web), web);
            f in AnswerFindings(answer, |kept|, policy, AllFresh(cited, policy.maxAgeDays, now))
            <==> Lacks(answer, kept, f, sources, d, settings, web, now)
  {
    var policy := SourcePolicyFor(d, settings);
    AllFreshIff(kept, sources, policy.maxAgeDays, web, now);
    AllDatedIff(kept, sources, policy.maxAgeDays, web, now);
    var allFresh := AllFresh(Cited(kept, SourcesByUrl(sources, web), web), policy.maxAgeDays, now);
    AnswerFindingsIff(answer, |kept|, policy, allFresh, f);
  }

  lemma FindingsAre(answer: Answer, sources: seq<Source>, d: Domain, settings: Settings, web: Web, now: int)
    requires settings.Valid()
    ensures var v, policy := Validate(answer, sources, d, settings, web, now), SourcePolicyFor(d, settings);
            var byUrl := SourcesByUrl(sources, web);
            v.quality.findings
            == CitationFindings(answer.citations, byUrl, web)
               + AnswerFindings(answer, |v.citations|, policy,
                                AllFresh(Cited(v.citations, byUrl, web), policy.maxAgeDays, now))
  {
  }

  lemma AnswerFindingsIff(answer: Answer, kept: nat, policy: SourcePolicy, allFresh: bool, f: Finding)
    ensures f in AnswerFindings(answer, kept, policy, allFresh) <==>
            || (f == MissingLimitation && policy.highStakes && !Limited(answer.limitations))
            || (f == NotFresh && policy.requiresFreshness && !allFresh)
            || (f == TooFewCitations && kept < policy.minCitations)
  {
  }

  /** The source that answers for a citation is of this kind: as supplied, or as its host is classified. */
  ghost predicate AnsweredBy(c: Citation, sources: seq<Source>, web: Web, kinds: set<SourceType>) {
    exists k: nat :: AnswersFor(sources, k, web.normalize(c.url), web)
      && (if sources[k].kind.Some? then sources[k].kind.value else web.classify(sources[k].url)) in kinds
  }

  lemma {:induction false} CitedCount(cs: seq<Citation>, sources: seq<Source>, web: Web, kinds: set<SourceType>,
                                      p: Source -> bool)
    requires AllStand(cs, SourcesByUrl(sources, web), web)
    requires forall s: Source :: p(s) <==> KindOf(s, web) in kinds
    ensures Count(Cited(cs, SourcesByUrl(sources, web), web), p)
            == |set k: nat | k < |cs| && AnsweredBy(cs[k], sources, web, kinds)|
  {
    var byUrl := SourcesByUrl(sources, web);
    var cited := Cited(cs, byUrl, web);
    CountIsSize(cited, p);
    forall k: nat | k < |cs| ensures p(cited[k]) <==> AnsweredBy(cs[k], sources, web, kinds) {
      SourcesByUrlIff(sources, web.normalize(cs[k].url), web);
    }
    assert Places(cited, p) == set k: nat | k < |cs| && AnsweredBy(cs[k], sources, web, kinds);
  }

  /** What the reported numbers count, and how the score is made of them. */
  lemma QualityCounts(answer: Answer, sources: seq<Source>, d: Domain, settings: Settings, web: Web, now: int)
    requires settings.Valid()
    ensures var v := Validate(answer, sources, d, settings, web, now);
            var cs, q := v.citations, v.quality;
            && q.citationCount == |cs| && q.unsupported == |answer.citations| - |cs|
            && q.officialCount == |set k: nat | k < |cs| && AnsweredBy(cs[k], sources, web, {Official})|
            && q.highCredibilityCount
               == |set k: nat | k < |cs| && AnsweredBy(cs[k], sources, web, {Official, Academic})|
  {
    var v := Validate(answer, sources, d, settings, web, now);
    CitedCount(v.citations, sources, web, {Official}, (s: Source) => KindOf(s, web) == Official);
    CitedCount(v.citations, sources, web, {Official, Academic}, (s: Source) => ScoreSource(s, d, web) >= 0.75);
  }

  /** A share, and everything counts as one. */
  function Share(part: nat, whole: nat): real
    requires whole > 0
  {
    if part >= whole then 1.0 else part as real / whole as real
  }

  /**
   How the score is made of the reported numbers: 0.45 for enough citations, 0.35 for credible
   ones, 0.2 for fresh ones, and 0.15 off for each that was dropped, within [0, 1].
   */
  lemma ScoreIs(answer: Answer, sources: seq<Source>, d: Domain, settings: Settings, web: Web, now: int)
    requires settings.Valid()
    ensures var q := Validate(answer, sources, d, settings, web, now).quality;
            var demanded := if d in {BankLoan, Finance, DoctorVisit, LegalConsultation} then settings.highStakesMin
                            else settings.minCitations;
            var parts := 0.45 * Share(q.citationCount, Max(1, demanded))
                         + 0.35 * Share(q.officialCount + q.highCredibilityCount, Max(1, q.citationCount))
                         + 0.2 * q.freshness - 0.15 * q.unsupported as real;
            q.overall == if parts < 0.0 then 0.0 else if parts > 1.0 then 1.0 else parts
  {
    var q := Validate(answer, sources, d, settings, web, now).quality;
    OverallIs(q.citationCount, SourcePolicyFor(d, settings).minCitations, q.officialCount + q.highCredibilityCount,
              q.freshness, q.unsupported);
  }

  lemma OverallIs(count: nat, minimum: nat, credible: nat, freshness: real, unsupported: nat)
    ensures var parts := 0.45 * Share(count, Max(1, minimum)) + 0.35 * Share(credible, Max(1, count))
                         + 0.2 * freshness - 0.15 * unsupported as real;
            Overall(count, minimum, credible, freshness, unsupported)
            == if parts < 0.0 then 0.0 else if parts > 1.0 then 1.0 else parts
  {
    RatioIsShare(count, minimum);
    RatioIsShare(credible, count);
  }

  lemma RatioIsShare(part: nat, whole: nat)
    ensures Ratio(part, whole) == Share(part, Max(1, whole))
  {
    var w := Max(1, whole);
    if part >= w {
      QuotientOrder(w as real, part as real, w as real);
    } else {
      QuotientOrder(part as real, w as real, w as real);
    }
  }

  /** Official and academic sources are the credible ones; in law, health and loans they count for a little more. */
  lemma CredibilityIs(s: Source, d: Domain, web: Web)
    ensures ScoreSource(s, d, web)
            == match KindOf(s, web)
               case Official => if d in {BankLoan, DoctorVisit, LegalConsultation} then 0.98 else 0.9
               case Academic => if d in {BankLoan, DoctorVisit, LegalConsultation} then 0.9 else 0.82
               case NewsOutlet => 0.68
               case Company => 0.58
               case Forum => 0.25
               case Unknown => 0.35
  {
  }
}
