/** Report packs over stored research: which stored source each reported citation names. */
module ReportPack {
  import opened Prelude
  import opened StableSorting
  import opened Freshness
  import opened Citations

  datatype StoredSource = StoredSource(
    id: nat,
    url: string,
    title: Option<string>,
    kind: SourceType,
    publishedAt: Option<int>,
    fetchedAt: Option<int>)

  datatype ReportCitation = ReportCitation(sourceId: nat, title: string, url: string, kind: SourceType)

  /** A pack; where the answer has no limitation, the source reports a default text, here `None`. */
  datatype Pack = Pack(
    answer: Passage,
    citations: seq<ReportCitation>,
    limitations: Option<Passage>,
    confidence: real,
    newest: Option<int>,
    oldest: Option<int>,
    quality: Quality)

  /** `Unbacked` is the throw inside the mapping over the citations. */
  datatype PackError = Invalid(finding: Option<Finding>) | Unbacked(url: string)

  datatype Result<+T> = Ok(value: T) | Err(error: PackError)

  /** The stored research of one query, and the limits it is judged by. */
  datatype Study = Study(sources: seq<StoredSource>, domain: Domain, settings: Settings, web: Web, now: int)

  function ToSearchResult(s: StoredSource): Source {
    Source(s.title.GetOr(s.url), s.url, match s.publishedAt case Some(ms) => At(ms) case None => Missing, Some(s.kind))
  }

  function SearchResults(sources: seq<StoredSource>): (results: seq<Source>)
    ensures |results| == |sources|
    ensures forall k | 0 <= k < |sources| :: results[k] == ToSearchResult(sources[k])
  {
    seq(|sources|, k requires 0 <= k < |sources| => ToSearchResult(sources[k]))
  }

  function CitationOf(s: StoredSource): Citation {
    Citation(s.url, Some(s.title.GetOr(s.url)))
  }

  function SourceOnlyAnswer(sources: seq<StoredSource>): (answer: Answer)
    ensures |answer.citations| == Min(3, |sources|)
    ensures forall k | 0 <= k < |answer.citations| :: answer.citations[k] == CitationOf(sources[k])
    ensures Limited(answer.limitations)
  {
    Answer(
      if |sources| > 0 then ReviewText else NoResultsText,
      seq(Min(3, |sources|), k requires 0 <= k < |sources| => CitationOf(sources[k])),
      if |sources| > 0 then 0.35 else 0.0,
      Some(if |sources| > 0 then ReviewDirectlyText else NoProviderText))
  }

  /** The stored sources by normalised url; of two with one url, the later stands. */
  function StoredByUrl(sources: seq<StoredSource>, web: Web): map<string, StoredSource> {
    if |sources| == 0 then map[]
    else StoredByUrl(sources[..|sources| - 1], web)[web.normalize(sources[|sources| - 1].url) := sources[|sources| - 1]]
  }

  function Reported(c: Citation, s: StoredSource): ReportCitation {
    ReportCitation(s.id, c.title.GetOr(s.title.GetOr(s.url)), s.url, s.kind)
  }

  function ReportCitations(cs: seq<Citation>, byUrl: map<string, StoredSource>, web: Web): Result<seq<ReportCitation>> {
    if |cs| == 0 then Ok([])
    else
      var last := cs[|cs| - 1];
      match ReportCitations(cs[..|cs| - 1], byUrl, web)
      case Err(e) => Err(e)
      case Ok(front) =>
        if web.normalize(last.url) !in byUrl then Err(Unbacked(last.url))
        else Ok(front + [Reported(last, byUrl[web.normalize(last.url)])])
  }

  function SourceDates(sources: seq<StoredSource>): seq<int> {
    if |sources| == 0 then []
    else
      var s := sources[|sources| - 1];
      SourceDates(sources[..|sources| - 1])
          + match s.publishedAt.OrElse(s.fetchedAt) case Some(ms) => [ms] case None => []
  }

  function SortedDates(sources: seq<StoredSource>): seq<int> {
    StableSort(SourceDates(sources), (ms: int) => ms as real)
  }

  function Newest(sorted: seq<int>): Option<int> {
    if |sorted| == 0 then None else Some(sorted[|sorted| - 1])
  }

  function Oldest(sorted: seq<int>): Option<int> {
    if |sorted| == 0 then None else Some(sorted[0])
  }

  function AnswerOf(study: Study, answer: Option<Answer>): Answer {
    answer.GetOr(SourceOnlyAnswer(study.sources))
  }

  function Verdict(study: Study, answer: Option<Answer>): Validation
    requires study.settings.Valid()
  {
    Validate(AnswerOf(study, answer), SearchResults(study.sources), study.domain, study.settings, study.web, study.now)
  }

  function BuildResearchReportPack(study: Study, answer: Option<Answer>): Result<Pack>
    requires study.settings.Valid()
  {
    var a := AnswerOf(study, answer);
    var v := Verdict(study, answer);
    if |a.citations| > 0 && !v.ok then Err(Invalid(v.ErrorCode()))
    else
      match ReportCitations(v.citations, StoredByUrl(study.sources, study.web), study.web)
      case Err(e) => Err(e)
      case Ok(citations) =>
        Ok(Pack(
          a.text, citations,
          if Limited(a.limitations) then a.limitations else None,
          Clamp01(a.confidence),
          Newest(SortedDates(study.sources)),
          Oldest(SortedDates(study.sources)),
          v.quality))
  }

  // ---- what a pack reports ------------------------------------------------------------------------

  lemma {:induction false} StoredMatchesSearched(sources: seq<StoredSource>, web: Web, url: string)
    ensures url in StoredByUrl(sources, web) <==> url in SourcesByUrl(SearchResults(sources), web)
    ensures url in StoredByUrl(sources, web) ==>
              SourcesByUrl(SearchResults(sources), web)[url] == ToSearchResult(StoredByUrl(sources, web)[url])
  {
    if |sources| > 0 {
      var n := |sources| - 1;
      StoredMatchesSearched(sources[..n], web, url);
      assert SearchResults(sources)[..n] == SearchResults(sources[..n]);
    }
  }

  /** The stored source that answers for a url: the last one with that normalised url. */
  ghost predicate Names(c: ReportCitation, sources: seq<StoredSource>, url: string, web: Web) {
    exists k: nat ::
      && k < |sources|
      && AnswersFor(SearchResults(sources), k, web.normalize(url), web)
      && c.sourceId == sources[k].id && c.url == sources[k].url && c.kind == sources[k].kind
  }

  lemma {:induction false} StoredIsLast(sources: seq<StoredSource>, web: Web, url: string) returns (k: nat)
    requires url in StoredByUrl(sources, web)
    ensures k < |sources| && AnswersFor(SearchResults(sources), k, url, web)
            && StoredByUrl(sources, web)[url] == sources[k]
  {
    var n := |sources| - 1;
    var results := SearchResults(sources);
    if web.normalize(sources[n].url) == url {
      k := n;
    } else {
      k := StoredIsLast(sources[..n], web, url);
      assert forall j | 0 <= j < n :: results[j] == SearchResults(sources[..n])[j];
    }
  }

  /** A reported citation against the citation that it reports. */
  ghost predicate Reports(r: ReportCitation, c: Citation, sources: seq<StoredSource>, web: Web) {
    Some(r.title) == c.title && Names(r, sources, c.url, web)
  }

  ghost predicate AllReport(rs: seq<ReportCitation>, cs: seq<Citation>, sources: seq<StoredSource>, web: Web) {
    |rs| == |cs| && forall k | 0 <= k < |cs| :: Reports(rs[k], cs[k], sources, web)
  }

  lemma AllReportSnoc(rs: seq<ReportCitation>, r: ReportCitation, cs: seq<Citation>, c: Citation,
                      sources: seq<StoredSource>, web: Web)
    requires AllReport(rs, cs, sources, web) && Reports(r, c, sources, web)
    ensures AllReport(rs + [r], cs + [c], sources, web)
  {
  }

  lemma {:induction false} ReportedName(cs: seq<Citation>, sources: seq<StoredSource>, web: Web)
    requires AllStand(cs, SourcesByUrl(SearchResults(sources), web), web)
    ensures var r := ReportCitations(cs, StoredByUrl(sources, web), web);
            r.Ok? && AllReport(r.value, cs, sources, web)
  {
    if |cs| > 0 {
      var front, c := cs[..|cs| - 1], cs[|cs| - 1];
      AllStandSnoc(cs, SourcesByUrl(SearchResults(sources), web), web);
      ReportedName(front, sources, web);
      StandingReports(c, sources, web);
      var reported := ReportCitations(front, StoredByUrl(sources, web), web).value;
      AllReportSnoc(reported, Reported(c, StoredByUrl(sources, web)[web.normalize(c.url)]), front, c, sources, web);
      assert cs == front + [c];
    }
  }

  lemma StandingReports(c: Citation, sources: seq<StoredSource>, web: Web)
    requires Stands(c, SourcesByUrl(SearchResults(sources), web), web)
    ensures web.normalize(c.url) in StoredByUrl(sources, web)
    ensures Reports(Reported(c, StoredByUrl(sources, web)[web.normalize(c.url)]), c, sources, web)
  {
    StoredMatchesSearched(sources, web, web.normalize(c.url));
    var k := StoredIsLast(sources, web, web.normalize(c.url));
  }

  /** A pack is refused exactly when it would cite something and does not pass; the inner throw never fires. */
  lemma PackRefusedIff(study: Study, answer: Option<Answer>)
    requires study.settings.Valid()
    ensures BuildResearchReportPack(study, answer).Err?
            <==> AnswerOf(study, answer).citations != [] && !Verdict(study, answer).ok
    ensures BuildResearchReportPack(study, answer).Err? ==> BuildResearchReportPack(study, answer).error.Invalid?
  {
    ReportedName(Verdict(study, answer).citations, study.sources, study.web);
  }

  /** A pack against the citations of its answer. */
  ghost predicate Faithful(pack: Pack, cs: seq<Citation>, study: Study) {
    && AllReport(pack.citations, cs, study.sources, study.web)
    && 0.0 <= pack.confidence <= 1.0
    && (cs != [] ==> pack.quality.overall >= 0.48)
  }

  /**
   A pack that is built reports every citation of its answer, in order, each under its own title
   and with the stored source that answers for its url; its confidence is within [0, 1].
   */
  lemma PackNamesItsSources(study: Study, answer: Option<Answer>)
    requires study.settings.Valid()
    ensures var r := BuildResearchReportPack(study, answer);
            r.Ok? ==> Faithful(r.value, AnswerOf(study, answer).citations, study)
  {
    var a := AnswerOf(study, answer);
    var results := SearchResults(study.sources);
    ReportedName(Verdict(study, answer).citations, study.sources, study.web);
    OkIff(a, results, study.domain, study.settings, study.web, study.now);
    ScoreBounds(a, results, study.domain, study.settings, study.web, study.now);
    StandingAll(a.citations, SourcesByUrl(results, study.web), study.web);
  }

  /** The first and last of the sorted dates are dates of stored sources, and no source is older or newer. */
  lemma DatesBound(sources: seq<StoredSource>)
    ensures var dates, sorted := SourceDates(sources), SortedDates(sources);
            && (Newest(sorted).None? <==> dates == []) && (Oldest(sorted).None? <==> dates == [])
            && (dates != [] ==> Newest(sorted).value in dates && Oldest(sorted).value in dates)
            && (forall ms | ms in dates :: Oldest(sorted).value <= ms <= Newest(sorted).value)
  {
    var dates := SourceDates(sources);
    var key := (ms: int) => ms as real;
    var sorted := StableSort(dates, key);
    assert sorted == SortedDates(sources);
    StableSortIsStable(dates, key);
    SortedMembers(dates, sorted);
    forall ms | ms in dates ensures sorted[0] <= ms <= sorted[|sorted| - 1] {
      var i :| 0 <= i < |sorted| && sorted[i] == ms;
      assert key(sorted[0]) <= key(sorted[i]) <= key(sorted[|sorted| - 1]);
    }
  }

  ghost predicate Spans(pack: Pack, dates: seq<int>) {
    forall ms | ms in dates :: pack.oldest.Some? && pack.newest.Some? && pack.oldest.value <= ms <= pack.newest.value
  }

  lemma PackSpansItsSources(study: Study, answer: Option<Answer>)
    requires study.settings.Valid()
    ensures var r := BuildResearchReportPack(study, answer);
            r.Ok? ==> Spans(r.value, SourceDates(study.sources))
  {
    DatesBound(study.sources);
  }

  lemma SortedMembers(dates: seq<int>, sorted: seq<int>)
    requires multiset(sorted) == multiset(dates)
    ensures |sorted| == |dates| && forall ms: int :: ms in dates <==> ms in sorted
  {
    assert |multiset(sorted)| == |sorted| && |multiset(dates)| == |dates|;
    forall ms: int ensures ms in dates <==> ms in sorted {
      assert ms in dates <==> ms in multiset(dates);
      assert ms in sorted <==> ms in multiset(sorted);
    }
  }

  /**
   Without an answer, a pack over stored sources is refused exactly when one of the first three
   sources is not backed, when there are too few of them, or when one of them is stale in a
   domain that demands freshness.
   */
  lemma SourceOnlyPackRefusedIff(study: Study)
    requires study.settings.Valid() && study.sources != []
    ensures var policy := SourcePolicyFor(study.domain, study.settings);
            var cs, results := SourceOnlyAnswer(study.sources).citations, SearchResults(study.sources);
            BuildResearchReportPack(study, None).Err? <==>
            || Min(3, |study.sources|) < Max(study.settings.minCitations, policy.minCitations)
            || !AllBacked(cs, results, study.web)
            || (policy.requiresFreshness && !AllFreshlyBacked(cs, results, policy.maxAgeDays, study.web, study.now))
  {
    PackRefusedIff(study, None);
    OkIff(SourceOnlyAnswer(study.sources), SearchResults(study.sources), study.domain, study.settings, study.web,
          study.now);
  }

  /** So at the default minimum of two, a high-stakes query with one stored source and no answer has no pack. */
  lemma LoneHighStakesSourceIsRefused(study: Study)
    requires study.settings.Valid() && study.settings.highStakesMin >= 2
    requires IsHighStakes(study.domain) && |study.sources| == 1
    ensures BuildResearchReportPack(study, None).Err?
  {
    SourceOnlyPackRefusedIff(study);
  }

  // ---- what else a pack says -----------------------------------------------------------------------

  /** When a stored source is dated: by its publication, else by when it was fetched. */
  function DateOf(s: StoredSource): Option<int> {
    if s.publishedAt.Some? then s.publishedAt else s.fetchedAt
  }

  /** The text, the limitations and the confidence of a pack: those of its answer, or fixed ones without an answer. */
  ghost predicate Says(pack: Pack, sources: seq<StoredSource>, answer: Option<Answer>) {
    match answer
    case Some(a) =>
      && pack.answer == a.text && pack.confidence == Clamp01(a.confidence)
      && pack.limitations == if a.limitations == Some(Written("")) then None else a.limitations
    case None =>
      && pack.answer == (if sources == [] then NoResultsText else ReviewText)
      && pack.confidence == (if sources == [] then 0.0 else 0.35)
      && pack.limitations == Some(if sources == [] then NoProviderText else ReviewDirectlyText)
  }

  lemma PackSays(study: Study, answer: Option<Answer>)
    requires study.settings.Valid()
    ensures var r := BuildResearchReportPack(study, answer);
            r.Ok? ==> Says(r.value, study.sources, answer) && r.value.quality == Verdict(study, answer).quality
  {
  }

  lemma {:induction false} DatesAre(sources: seq<StoredSource>, ms: int)
    ensures ms in SourceDates(sources) <==> exists k :: 0 <= k < |sources| && DateOf(sources[k]) == Some(ms)
  {
    if |sources| > 0 {
      var front, last := sources[..|sources| - 1], sources[|sources| - 1];
      DatesAre(front, ms);
      assert forall k | 0 <= k < |front| :: front[k] == sources[k];
      if k :| 0 <= k < |front| && DateOf(front[k]) == Some(ms) {
        assert DateOf(sources[k]) == Some(ms);
      }
      if DateOf(last) == Some(ms) {
        assert DateOf(sources[|sources| - 1]) == Some(ms);
      }
    }
  }

  /** These are the dates of the newest and of the oldest stored source that has one. */
  ghost predicate Ends(sources: seq<StoredSource>, newest: Option<int>, oldest: Option<int>) {
    && (forall k | 0 <= k < |sources| && DateOf(sources[k]).Some? ::
          newest.Some? && oldest.Some? && oldest.value <= DateOf(sources[k]).value <= newest.value)
    && (newest.Some? ==> exists k :: 0 <= k < |sources| && DateOf(sources[k]) == newest)
    && (oldest.Some? ==> exists k :: 0 <= k < |sources| && DateOf(sources[k]) == oldest)
  }

  lemma DatesEnd(sources: seq<StoredSource>)
    ensures Ends(sources, Newest(SortedDates(sources)), Oldest(SortedDates(sources)))
  {
    var newest, oldest := Newest(SortedDates(sources)), Oldest(SortedDates(sources));
    DatesBound(sources);
    forall k | 0 <= k < |sources| && DateOf(sources[k]).Some? ensures DateOf(sources[k]).value in SourceDates(sources) {
      DatesAre(sources, DateOf(sources[k]).value);
    }
    if newest.Some? {
      DatesAre(sources, newest.value);
      DatesAre(sources, oldest.value);
    }
  }

  /** The newest and the oldest date of a pack are dates of stored sources, and none is outside them. */
  lemma PackDates(study: Study, answer: Option<Answer>)
    requires study.settings.Valid()
    ensures var r := BuildResearchReportPack(study, answer);
            r.Ok? ==> Ends(study.sources, r.value.newest, r.value.oldest)
  {
    DatesEnd(study.sources);
  }

  /** A pack judges each stored source as what it is: its title or else its url, its date of publication, its kind. */
  lemma StoredIsJudged(s: StoredSource)
    ensures var r := ToSearchResult(s);
            && r.url == s.url && r.kind == Some(s.kind)
            && r.title == (if s.title.Some? then s.title.value else s.url)
            && (r.published.At? <==> s.publishedAt.Some?) && (r.published.At? ==> Some(r.published.ms) == s.publishedAt)
            && !r.published.Unreadable?
  {
  }
}
