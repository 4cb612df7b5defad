/** Fast cues and the evaluation that judges their length. */
module Cues {
  import opened Prelude
  import opened Text

  datatype CueKind = Ask | Caution | Note | Action
  datatype Urgency = LowUrgency | MediumUrgency | HighUrgency
  datatype Delivery = Earbud | Screen | Haptic | Silent

  datatype Cue = Cue(
    spokenCue: string,
    visualCue: string,
    kind: CueKind,
    urgency: Urgency,
    confidence: real,
    delivery: Delivery)

  const SPOKEN_WORDS := 8
  const VISUAL_LENGTH := 180

  function LimitWords(value: string, maxWords: nat): string {
    var words := Words(value);
    if |words| <= maxWords then Trim(value) else Join(words[..maxWords], " ")
  }

  function EnforceCue(cue: Cue): Cue {
    cue.(spokenCue := LimitWords(cue.spokenCue, SPOKEN_WORDS),
         visualCue := Take(cue.visualCue, VISUAL_LENGTH),
         confidence := Clamp01(cue.confidence))
  }

  /** A rule: its key, the pattern as a predicate on texts, and the cue it gives. */
  datatype Rule = Rule(key: string, matches: string -> bool, cue: Cue)

  datatype Trigger = Trigger(kind: string, reason: string, priority: int)

  /** The cue for an urgent trigger that no rule covers. */
  function TriggerCue(t: Trigger, highStakesType: bool): Cue {
    Cue("Pause and verify.", t.reason, Caution, HighUrgency, 0.75, if highStakesType then Earbud else Screen)
  }

  ghost predicate NoRule(rules: seq<Rule>, text: string) {
    forall j | 0 <= j < |rules| :: !rules[j].matches(text)
  }

  ghost predicate NoneUrgent(triggers: seq<Trigger>) {
    forall j | 0 <= j < |triggers| :: triggers[j].priority < 3
  }

  ghost predicate FirstMatch(rules: seq<Rule>, text: string, i: nat) {
    i < |rules| && rules[i].matches(text) && forall j | 0 <= j < i :: !rules[j].matches(text)
  }

  ghost predicate FirstUrgent(triggers: seq<Trigger>, i: nat) {
    i < |triggers| && triggers[i].priority >= 3 && forall j | 0 <= j < i :: triggers[j].priority < 3
  }

  /** The first rule that matches decides; failing that, the first urgent trigger. */
  method GenerateFastCue(typeName: string, rules: seq<Rule>, highStakesType: bool, text: string, triggers: seq<Trigger>)
      returns (key: string, decision: Option<Cue>)
    ensures decision.Some? ==> decision.value == EnforceCue(decision.value)
    ensures decision.Some? ==> WordStarts(decision.value.spokenCue, true) <= SPOKEN_WORDS
    ensures decision.None? <==> NoRule(rules, text) && NoneUrgent(triggers)
    ensures decision.None? ==> key == ""
    ensures forall i: nat | FirstMatch(rules, text, i) ::
              decision == Some(EnforceCue(rules[i].cue)) && key == typeName + ":" + rules[i].key
    ensures forall i: nat | NoRule(rules, text) && FirstUrgent(triggers, i) ::
              && decision == Some(EnforceCue(TriggerCue(triggers[i], highStakesType)))
              && key == typeName + ":" + triggers[i].kind
  {
    for i := 0 to |rules|
      invariant forall j | 0 <= j < i :: !rules[j].matches(text)
    {
      if rules[i].matches(text) {
        assert FirstMatch(rules, text, i);
        decision := EnforcedCue(rules[i].cue);
        return typeName + ":" + rules[i].key, decision;
      }
    }
    var highest := FindUrgent(triggers);
    if highest == |triggers| {
      return "", None;
    }
    decision := EnforcedCue(TriggerCue(triggers[highest], highStakesType));
    key := typeName + ":" + triggers[highest].kind;
  }

  method FindUrgent(triggers: seq<Trigger>) returns (i: nat)
    ensures (i == |triggers| && NoneUrgent(triggers)) || FirstUrgent(triggers, i)
  {
    for k := 0 to |triggers|
      invariant forall j | 0 <= j < k :: triggers[j].priority < 3
    {
      if triggers[k].priority >= 3 {
        return k;
      }
    }
    i := |triggers|;
  }

  method EnforcedCue(cue: Cue) returns (decision: Option<Cue>)
    ensures decision == Some(EnforceCue(cue)) && decision.value == EnforceCue(decision.value)
    ensures WordStarts(decision.value.spokenCue, true) <= SPOKEN_WORDS
  {
    EnforcedIsShort(cue);
    EnforceIdempotent(cue);
    decision := Some(EnforceCue(cue));
  }

  // ---- evaluation ---------------------------------------------------------------

  function CountWords(text: string): nat {
    |Words(text)|
  }

  datatype Finding = SpokenCueWordLimitExceeded | CueLatencyAboveTarget | LongEarbudDelivery

  datatype EvaluationStatus = Passed | Warning | Failed

  datatype Evaluation = Evaluation(score: real, status: EvaluationStatus, findings: seq<Finding>,
                                   wordCount: nat, latency: Option<int>)

  datatype Limits = Limits(maxSpokenWords: nat, targetLatency: int)

  function Latency(receivedAt: Option<int>, emittedAt: Option<int>): Option<int> {
    if receivedAt.Some? && emittedAt.Some? then Some(Max(0, emittedAt.value - receivedAt.value)) else None
  }

  ghost predicate TooLate(latency: Option<int>, limits: Limits) {
    latency.Some? && latency.value > limits.targetLatency
  }

  /** Findings are pushed in order; the status is read off them. */
  method EvaluateCueQuality(text: string, receivedAt: Option<int>, emittedAt: Option<int>,
                            delivery: Option<Delivery>, limits: Limits)
      returns (e: Evaluation)
    ensures e.wordCount == CountWords(text)
    ensures e.latency == Latency(receivedAt, emittedAt)
    ensures e.status == Failed <==> WordStarts(text, true) > limits.maxSpokenWords
    ensures e.status == Warning <==> WordStarts(text, true) <= limits.maxSpokenWords && TooLate(e.latency, limits)
    ensures SpokenCueWordLimitExceeded in e.findings <==> e.status == Failed
    ensures CueLatencyAboveTarget in e.findings <==> TooLate(e.latency, limits)
    ensures LongEarbudDelivery in e.findings <==> e.status == Failed && delivery == Some(Earbud)
    ensures 0.0 <= e.score <= 1.0
    ensures e.score == 1.0 <==> e.status == Passed
    ensures e.latency.Some? <==> receivedAt.Some? && emittedAt.Some?
    ensures e.latency.Some? ==> e.latency.value == Max(0, emittedAt.value - receivedAt.value)
    ensures forall a, b | 0 <= a < b < |e.findings| :: e.findings[a] != e.findings[b]
    ensures var excess := Max(0, WordStarts(text, true) - limits.maxSpokenWords);
            e.score == RealMax(0.0, 1.0 - 0.25 * |e.findings| as real - 0.05 * excess as real)
    ensures e.status == Failed ==> e.score <= 0.7
  {
    WordsCounted(text);
    var wordCount := CountWords(text);
    var latency := Latency(receivedAt, emittedAt);
    var findings: seq<Finding> := [];
    if wordCount > limits.maxSpokenWords {
      findings := findings + [SpokenCueWordLimitExceeded];
    }
    if latency.Some? && latency.value > limits.targetLatency {
      findings := findings + [CueLatencyAboveTarget];
    }
    if delivery == Some(Earbud) && wordCount > limits.maxSpokenWords {
      findings := findings + [LongEarbudDelivery];
    }
    var excess := Max(0, wordCount - limits.maxSpokenWords);
    var score := Clamp01(1.0 - |findings| as real * 0.25 - excess as real * 0.05);
    var status := if SpokenCueWordLimitExceeded in findings then Failed else if |findings| > 0 then Warning else Passed;
    e := Evaluation(score, status, findings, wordCount, latency);
  }

  // ---- the limiter meets the evaluator ----------------------------------------------

  /** The limiter leaves at most `n` words, and they are the first words of the text. */
  lemma LimitWordsKeepsPrefix(value: string, n: nat)
    ensures Words(LimitWords(value, n)) == Take(Words(value), n)
    ensures CountWords(LimitWords(value, n)) == Min(CountWords(value), n)
  {
    WordsCounted(value);
    TrimIdempotent(value);
    if |Words(value)| > n {
      WordsOfJoin(Words(value)[..n]);
    }
  }

  lemma LimitWordsIdempotent(value: string, n: nat)
    ensures LimitWords(LimitWords(value, n), n) == LimitWords(value, n)
  {
    LimitWordsKeepsPrefix(value, n);
    WordsCounted(value);
    TrimIdempotent(value);
    if |Words(value)| > n {
      JoinTrimmed(Words(value)[..n]);
    }
  }

  lemma EnforceIdempotent(cue: Cue)
    ensures EnforceCue(EnforceCue(cue)) == EnforceCue(cue)
  {
    LimitWordsIdempotent(cue.spokenCue, SPOKEN_WORDS);
  }

  lemma EnforcedIsShort(cue: Cue)
    ensures WordStarts(EnforceCue(cue).spokenCue, true) <= SPOKEN_WORDS
    ensures WordStarts(EnforceCue(cue).spokenCue, true) == Min(WordStarts(cue.spokenCue, true), SPOKEN_WORDS)
    ensures |EnforceCue(cue).visualCue| <= VISUAL_LENGTH && EnforceCue(cue).visualCue <= cue.visualCue
    ensures 0.0 <= EnforceCue(cue).confidence <= 1.0
  {
    LimitWordsKeepsPrefix(cue.spokenCue, SPOKEN_WORDS);
    WordsCounted(cue.spokenCue);
    WordsCounted(EnforceCue(cue).spokenCue);
  }

  /**
   Enforced cues pass the word check for every text exactly when the configured maximum is
   at least the eight words that the limiter leaves.
   */
  lemma EnforcedNeverFailsIff(maxSpokenWords: nat)
    ensures (forall cue: Cue :: WordStarts(EnforceCue(cue).spokenCue, true) <= maxSpokenWords)
            <==> maxSpokenWords >= SPOKEN_WORDS
  {
    forall cue: Cue ensures WordStarts(EnforceCue(cue).spokenCue, true) <= SPOKEN_WORDS {
      EnforcedIsShort(cue);
    }
    var ws := seq(SPOKEN_WORDS, i => "w");
    var cue := Cue(Join(ws, " "), "", Note, LowUrgency, 0.0, Screen);
    assert AllWords(ws);
    WordsOfJoin(ws);
    WordsCounted(cue.spokenCue);
    EnforcedIsShort(cue);
    assert WordStarts(EnforceCue(cue).spokenCue, true) == SPOKEN_WORDS;
  }

  /** The cue of an urgent trigger: a fixed warning with the trigger's reason, in the ear where stakes are high. */
  lemma TriggerCueIs(t: Trigger, highStakesType: bool)
    ensures var cue := TriggerCue(t, highStakesType);
            && cue.spokenCue == "Pause and verify." && cue.visualCue == t.reason
            && cue.kind == Caution && cue.urgency == HighUrgency && cue.confidence == 0.75
            && cue.delivery == if highStakesType then Earbud else Screen
  {
  }

  /** Enforcing a cue leaves its kind, urgency and delivery, its first eight words and 180 characters. */
  lemma EnforcedIs(cue: Cue)
    ensures var e := EnforceCue(cue);
            && (e.kind, e.urgency, e.delivery) == (cue.kind, cue.urgency, cue.delivery)
            && Words(e.spokenCue) == (if |Words(cue.spokenCue)| <= 8 then Words(cue.spokenCue)
                                      else Words(cue.spokenCue)[..8])
            && e.visualCue == (if |cue.visualCue| <= 180 then cue.visualCue else cue.visualCue[..180])
            && e.confidence == if cue.confidence < 0.0 then 0.0
                               else if cue.confidence > 1.0 then 1.0
                               else cue.confidence
  {
    LimitWordsKeepsPrefix(cue.spokenCue, SPOKEN_WORDS);
  }
}
