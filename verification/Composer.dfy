/** Composing a research answer from whatever a language model returns. */
module Composer {
  import opened Prelude
  import opened Citations

  /** Everything that can be thrown on the way. */
  datatype Failure =
    | ProviderNotConfigured
    | JsonParseError
    | MissingSourceBackedCitations
    | Found(finding: Finding)
    | OtherFailure(message: string)

  /** What the language model call comes back with: any parsed value at all, or any failure. */
  datatype Outcome = Value(answer: Answer) | Failed(failure: Failure)

  datatype Result = Composed(answer: Answer) | Thrown(failure: Failure)

  /** The setting of one call: the sources, the domain, and what the configuration fixes. */
  datatype Inquiry = Inquiry(sources: seq<Source>, domain: Domain, llmRequired: bool, settings: Settings,
                             web: Web, now: int)

  function Caveat(d: Domain): (caveat: Option<Passage>)
    ensures IsHighStakes(d) ==> Limited(caveat)
  {
    match d
    case BankLoan => Some(FinancialCaveat)
    case Finance => Some(FinancialCaveat)
    case DoctorVisit => Some(MedicalCaveat)
    case LegalConsultation => Some(LegalCaveat)
    case News => Some(NewsCaveat)
    case _ => None
  }

  function NoSources(): Answer {
    Answer(NoSourcesText, [], 0.0, Some(NoCitationsText))
  }

  function SourceListOnly(sources: seq<Source>, limitations: Passage): (answer: Answer)
    ensures |answer.citations| == |sources|
    ensures forall k | 0 <= k < |sources| :: answer.citations[k] == Citation(sources[k].url, Some(sources[k].title))
    ensures answer.confidence == 0.4 && answer.limitations == Some(limitations)
  {
    Answer(
      SourceListText,
      seq(|sources|, k requires 0 <= k < |sources| => Citation(sources[k].url, Some(sources[k].title))),
      0.4,
      Some(limitations))
  }

  function ValidationOf(answer: Answer, q: Inquiry): Validation
    requires q.settings.Valid()
  {
    Validate(answer, q.sources, q.domain, q.settings, q.web, q.now)
  }

  /** The error that an answer which fails its validation is refused with. */
  function Refusal(v: Validation): Failure {
    if || v.quality.unsupported > 0 || v.quality.citationCount == 0
       || v.ErrorCode().None? || AboutCitations(v.ErrorCode().value)
    then MissingSourceBackedCitations
    else Found(v.ErrorCode().value)
  }

  function ValidateSourceBacked(answer: Answer, q: Inquiry): Result
    requires q.settings.Valid()
  {
    var v := ValidationOf(answer, q);
    if q.settings.requireCitations && !v.ok then Thrown(Refusal(v))
    else Composed(answer.(citations := v.citations, confidence := Clamp01(answer.confidence)))
  }

  function WithCaveat(answer: Answer, d: Domain): Answer {
    if IsHighStakes(d) && !Limited(answer.limitations)
    then answer.(limitations := Some(Caveat(d).GetOr(DefaultCaveat)))
    else answer
  }

  /** What the `catch` makes of a failure. */
  function Caught(f: Failure, q: Inquiry): Result {
    if q.llmRequired then Thrown(f)
    else match f
      case ProviderNotConfigured => Composed(SourceListOnly(q.sources, NotConfiguredText))
      case JsonParseError => Composed(SourceListOnly(q.sources, NotValidText))
      case MissingSourceBackedCitations => Composed(SourceListOnly(q.sources, NotValidText))
      case Found(_) => Thrown(f)
      case OtherFailure(_) => Thrown(f)
  }

  function Compose(q: Inquiry, outcome: Outcome): Result
    requires q.settings.Valid()
  {
    if |q.sources| == 0 then Composed(NoSources())
    else match outcome
      case Failed(f) => Caught(f, q)
      case Value(answer) =>
        match ValidateSourceBacked(answer, q)
        case Composed(validated) => Composed(WithCaveat(validated, q.domain))
        case Thrown(f) => Caught(f, q)
  }

  method ValidateSourceBackedAnswer(answer: Answer, q: Inquiry) returns (r: Result)
    requires q.settings.Valid()
    ensures r == ValidateSourceBacked(answer, q)
  {
    var v := ValidateResearchCitations(answer, q.sources, q.domain, q.settings, q.web, q.now);
    if q.settings.requireCitations && !v.ok {
      var code := v.ErrorCode();
      var sourceBackedError :=
        || v.quality.unsupported > 0 || v.quality.citationCount == 0
        || (code.Some? && AboutCitations(code.value));
      if sourceBackedError || code.None? {
        return Thrown(MissingSourceBackedCitations);
      }
      return Thrown(Found(code.value));
    }
    r := Composed(answer.(citations := v.citations, confidence := Clamp01(answer.confidence)));
  }

  method ComposeResearchAnswer(q: Inquiry, outcome: Outcome) returns (r: Result)
    requires q.settings.Valid()
    ensures r == Compose(q, outcome)
  {
    if |q.sources| == 0 {
      return Composed(NoSources());
    }
    var thrown: Failure;
    match outcome {
      case Value(answer) =>
        var validated := ValidateSourceBackedAnswer(answer, q);
        match validated {
          case Composed(a) => return Composed(WithCaveat(a, q.domain));
          case Thrown(f) => thrown := f;
        }
      case Failed(f) => thrown := f;
    }
    if thrown == ProviderNotConfigured && !q.llmRequired {
      return Composed(SourceListOnly(q.sources, NotConfiguredText));
    }
    var unsafeLlmOutput := thrown == JsonParseError || thrown == MissingSourceBackedCitations;
    if unsafeLlmOutput && !q.llmRequired {
      return Composed(SourceListOnly(q.sources, NotValidText));
    }
    r := Thrown(thrown);
  }

  // ---- guarantees over every outcome ------------------------------------------------------------

  /** A url that is, up to normalisation, the url of a supplied source. */
  ghost predicate Resolves(url: string, sources: seq<Source>, web: Web) {
    exists k: nat :: k < |sources| && web.normalize(sources[k].url) == web.normalize(url)
  }

  ghost predicate SourceBacked(answer: Answer, q: Inquiry) {
    && (forall k | 0 <= k < |answer.citations| :: Resolves(answer.citations[k].url, q.sources, q.web))
    && 0.0 <= answer.confidence <= 1.0
    && (IsHighStakes(q.domain) ==> Limited(answer.limitations))
  }

  lemma ListIsSourceBacked(q: Inquiry, limitations: Passage)
    requires limitations != Written("")
    ensures SourceBacked(SourceListOnly(q.sources, limitations), q)
  {
    var answer := SourceListOnly(q.sources, limitations);
    forall k | 0 <= k < |answer.citations| ensures Resolves(answer.citations[k].url, q.sources, q.web) {
      assert q.web.normalize(q.sources[k].url) == q.web.normalize(answer.citations[k].url);
    }
  }

  lemma ValidatedIsSourceBacked(answer: Answer, q: Inquiry)
    requires q.settings.Valid() && ValidateSourceBacked(answer, q).Composed?
    ensures SourceBacked(WithCaveat(ValidateSourceBacked(answer, q).answer, q.domain), q)
  {
    var kept := ValidationOf(answer, q).citations;
    KeptAreBacked(answer, q.sources, q.domain, q.settings, q.web, q.now);
    forall k | 0 <= k < |kept| ensures Resolves(kept[k].url, q.sources, q.web) {
      var j: nat :| AnswersFor(q.sources, j, q.web.normalize(kept[k].url), q.web) && !q.web.blocked(q.sources[j].url);
    }
  }

  lemma CaughtIsSourceBacked(f: Failure, q: Inquiry)
    requires Caught(f, q).Composed?
    ensures SourceBacked(Caught(f, q).answer, q)
  {
    ListIsSourceBacked(q, NotConfiguredText);
    ListIsSourceBacked(q, NotValidText);
  }

  /**
   Whatever the language model returns or fails with, an answer that is given out cites only
   supplied sources, is confident within [0, 1], and names a limitation where stakes are high.
   */
  lemma WhatIsReturnedIsSourceBacked(q: Inquiry, outcome: Outcome)
    requires q.settings.Valid()
    ensures Compose(q, outcome).Composed? ==> SourceBacked(Compose(q, outcome).answer, q)
  {
    if |q.sources| > 0 && Compose(q, outcome).Composed? {
      match outcome
      case Failed(f) => CaughtIsSourceBacked(f, q);
      case Value(answer) =>
        match ValidateSourceBacked(answer, q)
        case Composed(_) => ValidatedIsSourceBacked(answer, q);
        case Thrown(f) => CaughtIsSourceBacked(f, q);
    }
  }

  /** The failures that fall back to the plain list of sources. */
  predicate FallsBack(f: Failure) {
    f in {ProviderNotConfigured, JsonParseError, MissingSourceBackedCitations}
  }

  /** An answer whose only faults are a missing limitation or stale sources. */
  ghost predicate OnlyAnswerAtFault(answer: Answer, q: Inquiry)
    requires q.settings.Valid()
  {
    var policy := SourcePolicyFor(q.domain, q.settings);
    && |answer.citations| > 0
    && AllBacked(answer.citations, q.sources, q.web)
    && ( || (policy.highStakes && !Limited(answer.limitations))
         || (policy.requiresFreshness
            && !AllFreshlyBacked(answer.citations, q.sources, policy.maxAgeDays, q.web, q.now)))
  }

  lemma RefusalIff(answer: Answer, q: Inquiry)
    requires q.settings.Valid()
    ensures !ValidationOf(answer, q).ok
            ==> (FallsBack(Refusal(ValidationOf(answer, q))) <==> !OnlyAnswerAtFault(answer, q))
  {
    var v := ValidationOf(answer, q);
    var byUrl := SourcesByUrl(q.sources, q.web);
    var policy := SourcePolicyFor(q.domain, q.settings);
    StandingAll(answer.citations, byUrl, q.web);
    NoFindingsIff(answer.citations, byUrl, q.web);
    AllStandIffBacked(answer.citations, q.sources, q.web);
    if v.quality.unsupported == 0 {
      AllFreshIff(v.citations, q.sources, policy.maxAgeDays, q.web, q.now);
      FirstFinding(answer, |v.citations|, policy, AllFresh(Cited(v.citations, byUrl, q.web), policy.maxAgeDays, q.now));
    }
  }

  lemma FirstFinding(answer: Answer, kept: nat, policy: SourcePolicy, allFresh: bool)
    ensures var fs := AnswerFindings(answer, kept, policy, allFresh);
            (|fs| > 0 && !AboutCitations(fs[0])) <==>
              (policy.highStakes && !Limited(answer.limitations)) || (policy.requiresFreshness && !allFresh)
  {
  }

  /** Exactly when composing throws. */
  lemma ThrowsIff(q: Inquiry, outcome: Outcome)
    requires q.settings.Valid()
    ensures Compose(q, outcome).Thrown? <==>
            && |q.sources| > 0
            && match outcome
               case Failed(f) => q.llmRequired || !FallsBack(f)
               case Value(answer) =>
                 && q.settings.requireCitations
                 && !ValidationOf(answer, q).ok
                 && (q.llmRequired || OnlyAnswerAtFault(answer, q))
  {
    if outcome.Value? && !ValidationOf(outcome.answer, q).ok {
      RefusalIff(outcome.answer, q);
    }
  }

  /**
   With citations required, an answer that passes is given out as the model wrote it: nothing is
   dropped from it and no caveat is filled in. If it cites anything it scores at least 0.48.
   */
  lemma SynthesizedIsUntouched(q: Inquiry, answer: Answer)
    requires q.settings.Valid() && q.settings.requireCitations && |q.sources| > 0
    ensures ValidationOf(answer, q).ok ==>
              && Compose(q, Value(answer)) == Composed(answer.(confidence := Clamp01(answer.confidence)))
              && (answer.citations != [] ==> ValidationOf(answer, q).quality.overall >= 0.48)
  {
    OkIff(answer, q.sources, q.domain, q.settings, q.web, q.now);
    ScoreBounds(answer, q.sources, q.domain, q.settings, q.web, q.now);
    StandingAll(answer.citations, SourcesByUrl(q.sources, q.web), q.web);
  }

  /**
   The caveat is filled in exactly when citations are not required. With them required, a
   high-stakes answer without a limitation is thrown away or replaced by the list of sources.
   */
  lemma CaveatFilledInIff(q: Inquiry, answer: Answer)
    requires q.settings.Valid() && |q.sources| > 0
    requires IsHighStakes(q.domain) && !Limited(answer.limitations)
    ensures Compose(q, Value(answer)) == Composed(answer.(citations := ValidationOf(answer, q).citations,
                                                          confidence := Clamp01(answer.confidence),
                                                          limitations := Caveat(q.domain)))
            <==> !q.settings.requireCitations
  {
    OkIff(answer, q.sources, q.domain, q.settings, q.web, q.now);
    var r := Compose(q, Value(answer));
    if q.settings.requireCitations && r.Composed? {
      assert r.answer.limitations == Some(NotValidText);
    }
  }

  /** The source that answers for a url, that is the last one with it, is not refused. */
  ghost predicate Open(url: string, sources: seq<Source>, web: Web) {
    forall j: nat | AnswersFor(sources, j, web.normalize(url), web) :: !web.blocked(sources[j].url)
  }

  /**
   The plain list is not validated. It would pass the gate's look at each citation exactly when
   every source has a url and a title, and none is shadowed by, or is itself, a refused one.
   */
  lemma ListIsBackedIff(q: Inquiry, f: Failure)
    requires q.settings.Valid() && |q.sources| > 0 && !q.llmRequired && FallsBack(f)
    ensures var r := Compose(q, Failed(f));
            && r.Composed?
            && (AllBacked(r.answer.citations, q.sources, q.web) <==>
                forall k | 0 <= k < |q.sources| ::
                  q.sources[k].url != "" && q.sources[k].title != "" && Open(q.sources[k].url, q.sources, q.web))
  {
    var listed := Compose(q, Failed(f)).answer.citations;
    forall k | 0 <= k < |q.sources|
      ensures Backed(listed[k], q.sources, q.web) <==>
              q.sources[k].url != "" && q.sources[k].title != "" && Open(q.sources[k].url, q.sources, q.web)
    {
      var j := LastWithUrl(q.sources, k, q.web);
      assert listed[k] == Citation(q.sources[k].url, Some(q.sources[k].title));
      OneAnswers(q.sources, j, q.web.normalize(q.sources[k].url), q.web);
    }
  }

  lemma OneAnswers(sources: seq<Source>, j: nat, url: string, web: Web)
    requires AnswersFor(sources, j, url, web)
    ensures forall i: nat | AnswersFor(sources, i, url, web) :: i == j
  {
  }

  lemma LastWithUrl(sources: seq<Source>, k: nat, web: Web) returns (j: nat)
    requires k < |sources|
    ensures AnswersFor(sources, j, web.normalize(sources[k].url), web)
  {
    var url := web.normalize(sources[k].url);
    j := k;
    for i := k + 1 to |sources|
      invariant k <= j < i
      invariant web.normalize(sources[j].url) == url
      invariant forall l | j < l < i :: web.normalize(sources[l].url) != url
    {
      if web.normalize(sources[i].url) == url {
        j := i;
      }
    }
  }

  // ---- what is given out in each case --------------------------------------------------------------

  /** Without sources there is an answer that says so. */
  lemma NoSourcesOutcome(q: Inquiry, outcome: Outcome)
    requires q.settings.Valid() && q.sources == []
    ensures Compose(q, outcome) == Composed(Answer(NoSourcesText, [], 0.0, Some(NoCitationsText)))
  {
  }

  /** The plain list: every source under its title, little confidence, and why there is no answer. */
  ghost predicate IsPlainList(answer: Answer, sources: seq<Source>, why: Passage) {
    && answer.text == SourceListText && answer.confidence == 0.4 && answer.limitations == Some(why)
    && |answer.citations| == |sources|
    && forall k | 0 <= k < |sources| ::
         answer.citations[k].url == sources[k].url && answer.citations[k].title == Some(sources[k].title)
  }

  /** Failures that can be lived without a language model for become the plain list; others are thrown on. */
  lemma FailureOutcome(q: Inquiry, f: Failure)
    requires q.settings.Valid() && q.sources != []
    ensures var r := Compose(q, Failed(f));
            if q.llmRequired || f.Found? || f.OtherFailure? then r == Thrown(f)
            else r.Composed? && IsPlainList(r.answer, q.sources,
                                            if f == ProviderNotConfigured then NotConfiguredText else NotValidText)
  {
  }

  lemma FaultIs(answer: Answer, q: Inquiry)
    requires q.settings.Valid() && !ValidationOf(answer, q).ok && OnlyAnswerAtFault(answer, q)
    ensures Refusal(ValidationOf(answer, q))
            == Found(if IsHighStakes(q.domain) && !Limited(answer.limitations) then MissingLimitation else NotFresh)
  {
    var byUrl := SourcesByUrl(q.sources, q.web);
    AllStandIffBacked(answer.citations, q.sources, q.web);
    StandingAll(answer.citations, byUrl, q.web);
    NoFindingsIff(answer.citations, byUrl, q.web);
    AllFreshIff(answer.citations, q.sources, SourcePolicyFor(q.domain, q.settings).maxAgeDays, q.web, q.now);
  }

  /** An answer that is refused for itself alone is thrown with the first thing that is wrong with it. */
  lemma RefusedFor(q: Inquiry, answer: Answer)
    requires q.settings.Valid() && q.sources != [] && q.settings.requireCitations
    requires !ValidationOf(answer, q).ok
    ensures var r := Compose(q, Value(answer));
            if OnlyAnswerAtFault(answer, q)
            then r == Thrown(Found(
                   if q.domain in {BankLoan, Finance, DoctorVisit, LegalConsultation} && !Limited(answer.limitations)
                   then MissingLimitation else NotFresh))
            else if q.llmRequired then r == Thrown(MissingSourceBackedCitations)
            else r.Composed? && IsPlainList(r.answer, q.sources, NotValidText)
  {
    RefusalIff(answer, q);
    if OnlyAnswerAtFault(answer, q) {
      FaultIs(answer, q);
    }
  }

  /** Where citations are not required, an answer keeps what stands, and one where stakes are high gets its caveat. */
  lemma UncheckedOutcome(q: Inquiry, answer: Answer)
    requires q.settings.Valid() && q.sources != [] && !q.settings.requireCitations
    ensures var r := Compose(q, Value(answer));
            && r.Composed?
            && r.answer.text == answer.text && r.answer.confidence == Clamp01(answer.confidence)
            && r.answer.citations == ValidationOf(answer, q).citations
            && r.answer.limitations
               == if Limited(answer.limitations) then answer.limitations
                  else match q.domain
                    case BankLoan => Some(FinancialCaveat)
                    case Finance => Some(FinancialCaveat)
                    case DoctorVisit => Some(MedicalCaveat)
                    case LegalConsultation => Some(LegalCaveat)
                    case _ => answer.limitations
  {
  }
}
