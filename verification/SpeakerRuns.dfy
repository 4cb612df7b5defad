/** Splitting a final transcript into the turns of its speakers. */
module SpeakerRuns {
  import opened Prelude
  import opened StableSorting
  import opened Text

  datatype Word = Word(
    text: Option<string>,
    punctuated: Option<string>,
    speaker: Option<int>,
    start: Option<real>,
    confidence: Option<real>)

  datatype Label = Me | Speaker(index: int)

  datatype Segment = Segment(speaker: Label, text: string, offsetMs: int, confidence: Option<real>)

  function SpeakerOf(w: Word): int {
    w.speaker.GetOr(0)
  }

  function Spelling(w: Word): string {
    w.punctuated.OrElse(w.text).GetOr("")
  }

  function Spellings(words: seq<Word>): seq<string> {
    seq(|words|, i requires 0 <= i < |words| => Spelling(words[i]))
  }

  /** `Math.round`: halves go up. */
  function Round(x: real): int {
    (x + 0.5).Floor
  }

  function LabelSpeaker(speaker: int, self: Option<int>): Label {
    if self == Some(speaker) then Me else Speaker(speaker)
  }

  /** What the caller passes besides the words. */
  datatype Settings = Settings(self: Option<int>, fallbackOffset: int, fallbackConfidence: Option<real>)

  function OffsetOf(w: Word, settings: Settings): int {
    Round(w.start.GetOr(settings.fallbackOffset as real / 1000.0) * 1000.0)
  }

  // ---- what a run is -----------------------------------------------------------

  function Flatten(groups: seq<seq<Word>>): seq<Word> {
    if |groups| == 0 then [] else groups[0] + Flatten(groups[1..])
  }

  /**
   The groups are the maximal runs of `words`: together they are the words in order, none
   is empty, each has one speaker, and neighbours have different ones.
   */
  ghost predicate MaximalRuns(words: seq<Word>, groups: seq<seq<Word>>) {
    && Flatten(groups) == words
    && (forall g | 0 <= g < |groups| ::
          groups[g] != [] && forall i | 0 <= i < |groups[g]| :: SpeakerOf(groups[g][i]) == SpeakerOf(groups[g][0]))
    && (forall g | 0 < g < |groups| :: SpeakerOf(groups[g][0]) != SpeakerOf(groups[g - 1][0]))
  }

  function Runs(words: seq<Word>): (runs: seq<seq<Word>>)
    ensures forall g | 0 <= g < |runs| :: runs[g] != []
  {
    if |words| == 0 then []
    else
      var rest := Runs(words[1..]);
      if |rest| > 0 && |rest[0]| > 0 && SpeakerOf(rest[0][0]) == SpeakerOf(words[0])
      then [[words[0]] + rest[0]] + rest[1..]
      else [[words[0]]] + rest
  }

  lemma PrependRun(w: Word, words: seq<Word>, rest: seq<seq<Word>>)
    requires MaximalRuns(words, rest)
    requires |rest| > 0 ==> SpeakerOf(rest[0][0]) != SpeakerOf(w)
    ensures MaximalRuns([w] + words, [[w]] + rest)
  {
    var r := [[w]] + rest;
    assert r[1..] == rest && forall g | 1 <= g < |r| :: r[g] == rest[g - 1];
  }

  lemma ExtendRun(w: Word, words: seq<Word>, rest: seq<seq<Word>>)
    requires MaximalRuns(words, rest)
    requires |rest| > 0 && SpeakerOf(rest[0][0]) == SpeakerOf(w)
    ensures MaximalRuns([w] + words, [[w] + rest[0]] + rest[1..])
  {
    var r := [[w] + rest[0]] + rest[1..];
    assert r[1..] == rest[1..] && forall g | 1 <= g < |r| :: r[g] == rest[g];
    assert Flatten(r) == [w] + (rest[0] + Flatten(rest[1..]));
  }

  lemma {:induction false} RunsAreMaximal(words: seq<Word>)
    ensures MaximalRuns(words, Runs(words))
  {
    if |words| > 0 {
      RunsAreMaximal(words[1..]);
      var rest := Runs(words[1..]);
      assert words == [words[0]] + words[1..];
      if |rest| > 0 && SpeakerOf(rest[0][0]) == SpeakerOf(words[0]) {
        ExtendRun(words[0], words[1..], rest);
      } else {
        PrependRun(words[0], words[1..], rest);
      }
    }
  }

  /** A one-speaker front that ends inside the other front goes on with the same speaker. */
  lemma Straddles(a: seq<Word>, b: seq<Word>, p: seq<Word>, q: seq<Word>)
    requires a + p == b + q && a != [] && |a| < |b|
    requires forall i | 0 <= i < |b| :: SpeakerOf(b[i]) == SpeakerOf(b[0])
    ensures p != [] && SpeakerOf(p[0]) == SpeakerOf(a[0])
  {
    assert |a + p| == |b + q|;
    assert (a + p)[0] == a[0] && (b + q)[0] == b[0];
    assert (a + p)[|a|] == p[0] && (b + q)[|a|] == b[|a|];
  }

  lemma FirstRun(a: seq<Word>, b: seq<Word>, p: seq<Word>, q: seq<Word>)
    requires a + p == b + q && a != [] && b != [] && |a| <= |b|
    requires forall i | 0 <= i < |b| :: SpeakerOf(b[i]) == SpeakerOf(b[0])
    requires p != [] ==> SpeakerOf(p[0]) != SpeakerOf(a[0])
    ensures a == b && p == q
  {
    if |a| < |b| {
      Straddles(a, b, p, q);
      assert false;
    }
    assert a == (a + p)[..|a|] && b == (b + q)[..|a|];
    assert p == (a + p)[|a|..] && q == (b + q)[|a|..];
  }

  /** The decomposition into maximal runs is unique. */
  lemma {:induction false} MaximalRunsUnique(words: seq<Word>, g: seq<seq<Word>>, h: seq<seq<Word>>)
    requires MaximalRuns(words, g) && MaximalRuns(words, h)
    ensures g == h
    decreases |g|
  {
    if |words| > 0 {
      var p, q := Flatten(g[1..]), Flatten(h[1..]);
      if |g[0]| <= |h[0]| {
        FirstRun(g[0], h[0], p, q);
      } else {
        FirstRun(h[0], g[0], q, p);
      }
      MaximalRunsUnique(p, g[1..], h[1..]);
      assert g == [g[0]] + g[1..] && h == [h[0]] + h[1..];
    }
  }

  // ---- one more word ---------------------------------------------------------------

  lemma {:induction false} FlattenSnoc(groups: seq<seq<Word>>, g: seq<Word>)
    ensures Flatten(groups + [g]) == Flatten(groups) + g
  {
    if |groups| > 0 {
      assert (groups + [g])[1..] == groups[1..] + [g];
      FlattenSnoc(groups[1..], g);
    }
  }

  /** A word by the speaker of the last run joins it; any other starts a run. */
  function WithWord(runs: seq<seq<Word>>, w: Word): seq<seq<Word>>
    requires forall g | 0 <= g < |runs| :: runs[g] != []
  {
    var n := |runs| - 1;
    if n >= 0 && SpeakerOf(runs[n][0]) == SpeakerOf(w) then runs[..n] + [runs[n] + [w]] else runs + [[w]]
  }

  lemma WithWordMaximal(words: seq<Word>, runs: seq<seq<Word>>, w: Word)
    requires MaximalRuns(words, runs)
    ensures MaximalRuns(words + [w], WithWord(runs, w))
  {
    var n := |runs| - 1;
    if n >= 0 && SpeakerOf(runs[n][0]) == SpeakerOf(w) {
      assert runs == runs[..n] + [runs[n]];
      FlattenSnoc(runs[..n], runs[n]);
      FlattenSnoc(runs[..n], runs[n] + [w]);
      assert Flatten(runs[..n]) + (runs[n] + [w]) == words + [w];
      var q := WithWord(runs, w);
      assert forall g | 0 <= g < n :: q[g] == runs[g];
      assert q[n] == runs[n] + [w] && q[n][0] == runs[n][0];
    } else {
      FlattenSnoc(runs, [w]);
    }
  }

  lemma RunsSnoc(words: seq<Word>, w: Word)
    ensures Runs(words + [w]) == WithWord(Runs(words), w)
  {
    RunsAreMaximal(words);
    RunsAreMaximal(words + [w]);
    WithWordMaximal(words, Runs(words), w);
    MaximalRunsUnique(words + [w], Runs(words + [w]), WithWord(Runs(words), w));
  }

  // ---- segments -----------------------------------------------------------------------

  function ConfidenceSum(words: seq<Word>): real {
    if |words| == 0 then 0.0 else ConfidenceSum(words[..|words| - 1]) + words[|words| - 1].confidence.GetOr(0.0)
  }

  function ConfidenceCount(words: seq<Word>): nat {
    if |words| == 0 then 0
    else ConfidenceCount(words[..|words| - 1]) + if words[|words| - 1].confidence.Some? then 1 else 0
  }

  function MeanConfidence(words: seq<Word>, fallback: Option<real>): Option<real> {
    if ConfidenceCount(words) > 0 then Some(ConfidenceSum(words) / ConfidenceCount(words) as real) else fallback
  }

  function SegmentOf(run: seq<Word>, settings: Settings): Segment
    requires run != []
  {
    Segment(LabelSpeaker(SpeakerOf(run[0]), settings.self),
            Trim(Join(Spellings(run), " ")),
            OffsetOf(run[0], settings),
            MeanConfidence(run, settings.fallbackConfidence))
  }

  function SegmentsOf(runs: seq<seq<Word>>, settings: Settings): seq<Segment>
    requires forall g | 0 <= g < |runs| :: runs[g] != []
  {
    seq(|runs|, g requires 0 <= g < |runs| => SegmentOf(runs[g], settings))
  }

  /** The final filter: runs that spell something. */
  function Spoken(segments: seq<Segment>): seq<Segment> {
    if |segments| == 0 then []
    else (if |segments[0].text| > 0 then [segments[0]] else []) + Spoken(segments[1..])
  }

  lemma {:induction false} ConfidenceInUnit(words: seq<Word>)
    requires forall i | 0 <= i < |words| && words[i].confidence.Some? :: 0.0 <= words[i].confidence.value <= 1.0
    ensures 0.0 <= ConfidenceSum(words) <= ConfidenceCount(words) as real
  {
    if |words| > 0 {
      ConfidenceInUnit(words[..|words| - 1]);
    }
  }

  /** Every confidence given out is a mean of confidences in [0, 1], or the fallback. */
  lemma SegmentConfidenceInUnit(run: seq<Word>, settings: Settings)
    requires run != []
    requires forall i | 0 <= i < |run| && run[i].confidence.Some? :: 0.0 <= run[i].confidence.value <= 1.0
    ensures var c := SegmentOf(run, settings).confidence;
            if exists i :: 0 <= i < |run| && run[i].confidence.Some? then c.Some? && 0.0 <= c.value <= 1.0
            else c == settings.fallbackConfidence
  {
    ConfidenceInUnit(run);
    CountPositiveIff(run);
    if ConfidenceCount(run) > 0 {
      QuotientBounds(ConfidenceSum(run), ConfidenceCount(run) as real, 0.0);
    }
  }

  lemma {:induction false} CountPositiveIff(words: seq<Word>)
    ensures ConfidenceCount(words) > 0 <==> exists i :: 0 <= i < |words| && words[i].confidence.Some?
  {
    if |words| > 0 {
      var front := words[..|words| - 1];
      CountPositiveIff(front);
      if i :| 0 <= i < |front| && front[i].confidence.Some? {
        assert words[i].confidence.Some?;
      }
      if i :| 0 <= i < |words| && words[i].confidence.Some? {
        assert i < |front| ==> front[i].confidence.Some?;
      }
    }
  }

  // ---- the loop ------------------------------------------------------------------------

  /** The variables that the loop and its inner `flush` share. */
  class Splitter {
    const settings: Settings
    var runs: seq<Segment>
    var currentSpeaker: Option<int>
    var currentWords: seq<string>
    var currentStart: int
    var confidenceSum: real
    var confidenceCount: nat

    constructor (settings: Settings)
      ensures this.settings == settings
      ensures runs == [] && currentSpeaker == None && currentWords == []
      ensures confidenceSum == 0.0 && confidenceCount == 0
    {
      this.settings := settings;
      runs, currentSpeaker, currentWords := [], None, [];
      currentStart := settings.fallbackOffset;
      confidenceSum, confidenceCount := 0.0, 0;
    }

    /** The open run is `run`, whose words have been counted and spelled so far. */
    ghost predicate Holds(run: seq<Word>)
      reads this
    {
      && run != []
      && currentSpeaker == Some(SpeakerOf(run[0]))
      && currentWords == Spellings(run)
      && currentStart == OffsetOf(run[0], settings)
      && confidenceSum == ConfidenceSum(run)
      && confidenceCount == ConfidenceCount(run)
    }

    /** No run is open: nothing has been read since the last flush. */
    ghost predicate Idle()
      reads this
    {
      currentWords == [] && confidenceSum == 0.0 && confidenceCount == 0
    }

    method Flush(ghost run: seq<Word>)
      requires run == [] ==> currentSpeaker == None && Idle()
      requires run != [] ==> Holds(run)
      modifies this
      ensures runs == old(runs) + if run == [] then [] else [SegmentOf(run, settings)]
      ensures currentSpeaker == old(currentSpeaker) && Idle()
    {
      if currentSpeaker.None? || |currentWords| == 0 {
        return;
      }
      runs := runs + [Segment(
        LabelSpeaker(currentSpeaker.value, settings.self),
        Trim(Join(currentWords, " ")),
        currentStart,
        if confidenceCount > 0 then Some(confidenceSum / confidenceCount as real) else settings.fallbackConfidence)];
      currentWords := [];
      confidenceSum := 0.0;
      confidenceCount := 0;
    }

    /** The word joins the open run, which is empty when the word's speaker has just begun. */
    method Append(word: Word, ghost run: seq<Word>)
      requires currentSpeaker == Some(SpeakerOf(word))
      requires run == [] ==> Idle() && currentStart == OffsetOf(word, settings)
      requires run != [] ==> Holds(run)
      modifies this
      ensures runs == old(runs)
      ensures Holds(run + [word])
    {
      var text := if word.text.Some? then word.text.value else "";
      currentWords := currentWords + [if word.punctuated.Some? then word.punctuated.value else text];
      if word.confidence.Some? {
        confidenceSum := confidenceSum + word.confidence.value;
        confidenceCount := confidenceCount + 1;
      }
    }

    /** One turn of the loop body; `run` is the open run before it and `kept` what it adds to. */
    method Read(word: Word, ghost run: seq<Word>) returns (ghost kept: seq<Word>)
      requires run == [] ==> currentSpeaker == None && Idle()
      requires run != [] ==> Holds(run)
      modifies this
      ensures kept == if run != [] && SpeakerOf(run[0]) == SpeakerOf(word) then run else []
      ensures runs == old(runs) + if run == [] || kept != [] then [] else [SegmentOf(run, settings)]
      ensures Holds(kept + [word])
    {
      kept := run;
      var speaker := if word.speaker.Some? then word.speaker.value else 0;
      if currentSpeaker.Some? && speaker != currentSpeaker.value {
        Flush(run);
        kept := [];
      }
      if currentSpeaker != Some(speaker) {
        currentSpeaker := Some(speaker);
        var start := if word.start.Some? then word.start.value else settings.fallbackOffset as real / 1000.0;
        currentStart := Round(start * 1000.0);
      }
      Append(word, kept);
    }
  }

  lemma SegmentsSnoc(runs: seq<seq<Word>>, run: seq<Word>, settings: Settings)
    requires run != [] && forall g | 0 <= g < |runs| :: runs[g] != []
    ensures SegmentsOf(runs + [run], settings) == SegmentsOf(runs, settings) + [SegmentOf(run, settings)]
  {
  }

  /** The closed runs after a word, when `kept` is what is left of the open run. */
  ghost function Closing(closed: seq<seq<Word>>, open: seq<Word>, kept: seq<Word>): seq<seq<Word>> {
    if open != [] && kept == [] then closed + [open] else closed
  }

  lemma NextRuns(prefix: seq<Word>, w: Word, closed: seq<seq<Word>>, open: seq<Word>, kept: seq<Word>)
    requires open == [] ==> closed == []
    requires Runs(prefix) == if open == [] then [] else closed + [open]
    requires kept == if open != [] && SpeakerOf(open[0]) == SpeakerOf(w) then open else []
    ensures Runs(prefix + [w]) == Closing(closed, open, kept) + [kept + [w]]
  {
    RunsSnoc(prefix, w);
    if kept != [] {
      assert (closed + [open])[..|closed|] == closed;
    } else {
      assert [] + [w] == [w];
    }
  }

  lemma NextSegments(closed: seq<seq<Word>>, open: seq<Word>, kept: seq<Word>, settings: Settings)
    requires forall g | 0 <= g < |closed| :: closed[g] != []
    ensures var next := Closing(closed, open, kept);
            && (forall g | 0 <= g < |next| :: next[g] != [])
            && SegmentsOf(next, settings)
               == SegmentsOf(closed, settings) + if open == [] || kept != [] then [] else [SegmentOf(open, settings)]
  {
    if open != [] && kept == [] {
      SegmentsSnoc(closed, open, settings);
    }
  }

  /** One turn of the loop: what is closed and open after the `i`-th word. */
  lemma Turn(words: seq<Word>, i: nat, closed: seq<seq<Word>>, open: seq<Word>, kept: seq<Word>)
    requires i < |words|
    requires open == [] ==> closed == []
    requires Runs(words[..i]) == if open == [] then [] else closed + [open]
    requires kept == if open != [] && SpeakerOf(open[0]) == SpeakerOf(words[i]) then open else []
    ensures Runs(words[..i + 1]) == Closing(closed, open, kept) + [kept + [words[i]]]
  {
    NextRuns(words[..i], words[i], closed, open, kept);
    assert words[..i + 1] == words[..i] + [words[i]];
  }

  /** The segments are those of the maximal runs, in order, without the ones that spell nothing. */
  method SplitSpeakerRuns(words: seq<Word>, settings: Settings) returns (segments: seq<Segment>)
    ensures segments == Spoken(SegmentsOf(Runs(words), settings))
  {
    var splitter := new Splitter(settings);
    ghost var closed: seq<seq<Word>>, open: seq<Word> := [], [];
    for i := 0 to |words|
      invariant fresh(splitter) && splitter.settings == settings
      invariant forall g | 0 <= g < |closed| :: closed[g] != []
      invariant open == [] ==> i == 0 && closed == [] && splitter.currentSpeaker == None && splitter.Idle()
      invariant open != [] ==> splitter.Holds(open)
      invariant Runs(words[..i]) == if open == [] then [] else closed + [open]
      invariant splitter.runs == SegmentsOf(closed, settings)
    {
      ghost var kept := splitter.Read(words[i], open);
      Turn(words, i, closed, open, kept);
      NextSegments(closed, open, kept, settings);
      closed, open := Closing(closed, open, kept), kept + [words[i]];
    }
    assert words[..|words|] == words;
    splitter.Flush(open);
    NextSegments(closed, open, [], settings);
    segments := Spoken(splitter.runs);
  }

  // ---- the dominant speaker -----------------------------------------------------------

  function CountOf(words: seq<Word>, speaker: int): nat {
    if |words| == 0 then 0
    else CountOf(words[..|words| - 1], speaker) + if SpeakerOf(words[|words| - 1]) == speaker then 1 else 0
  }

  /** The entries of the counting map in insertion order. */
  function Tally(order: seq<int>, counts: map<int, nat>): seq<(int, nat)>
    requires forall i | 0 <= i < |order| :: order[i] in counts
  {
    seq(|order|, i requires 0 <= i < |order| => (order[i], counts[order[i]]))
  }

  function DescendingCount(): ((int, nat)) -> real {
    (e: (int, nat)) => -(e.1 as real)
  }

  /** `speaker` first speaks at position `i`. */
  predicate FirstSpeaks(words: seq<Word>, speaker: int, i: nat) {
    i < |words| && SpeakerOf(words[i]) == speaker && forall j | 0 <= j < i :: SpeakerOf(words[j]) != speaker
  }

  lemma TallyHead(order: seq<int>, counts: map<int, nat>) returns (best: nat)
    requires |order| > 0 && forall i | 0 <= i < |order| :: order[i] in counts
    ensures best < |order|
    ensures |StableSort(Tally(order, counts), DescendingCount())| > 0
    ensures StableSort(Tally(order, counts), DescendingCount())[0].0 == order[best]
    ensures forall a | 0 <= a < |order| :: counts[order[a]] <= counts[order[best]]
    ensures forall a | 0 <= a < best :: counts[order[a]] < counts[order[best]]
  {
    var entries, key := Tally(order, counts), DescendingCount();
    best := SortHead(entries, key);
    forall a | 0 <= a < |order| ensures counts[order[a]] <= counts[order[best]] {
      assert key(entries[best]) <= key(entries[a]);
    }
    forall a | 0 <= a < best ensures counts[order[a]] < counts[order[best]] {
      assert key(entries[best]) < key(entries[a]);
    }
  }

  /** What the counting map holds: each speaker once, in the order of first words, and its count. */
  ghost predicate Counted(words: seq<Word>, order: seq<int>, counts: map<int, nat>, firsts: seq<nat>) {
    && |firsts| == |order|
    && (forall a | 0 <= a < |order| :: order[a] in counts && counts[order[a]] == CountOf(words, order[a]))
    && (forall a | 0 <= a < |order| :: FirstSpeaks(words, order[a], firsts[a]))
    && (forall a, b | 0 <= a < b < |order| :: firsts[a] < firsts[b])
    && (forall s | s in counts :: s in order)
    && (forall j | 0 <= j < |words| :: SpeakerOf(words[j]) in counts)
  }

  lemma CountSnoc(words: seq<Word>, w: Word, s: int)
    ensures CountOf(words + [w], s) == CountOf(words, s) + if SpeakerOf(w) == s then 1 else 0
  {
    assert (words + [w])[..|words|] == words;
  }

  lemma {:induction false} CountZeroIff(words: seq<Word>, s: int)
    ensures CountOf(words, s) == 0 <==> forall j | 0 <= j < |words| :: SpeakerOf(words[j]) != s
  {
    if |words| > 0 {
      var front := words[..|words| - 1];
      CountZeroIff(front, s);
      assert words == front + [words[|words| - 1]];
    }
  }

  lemma FirstSnoc(words: seq<Word>, w: Word, s: int, i: nat)
    requires FirstSpeaks(words, s, i)
    ensures FirstSpeaks(words + [w], s, i)
  {
  }

  method CountSpeakers(words: seq<Word>) returns (order: seq<int>, counts: map<int, nat>, ghost firsts: seq<nat>)
    ensures Counted(words, order, counts, firsts)
    ensures forall s: int :: s in counts <==> CountOf(words, s) > 0
    ensures forall s | s in counts :: counts[s] == CountOf(words, s)
  {
    counts, order, firsts := map[], [], [];
    for k := 0 to |words|
      invariant Counted(words[..k], order, counts, firsts)
    {
      var s := SpeakerOf(words[k]);
      ghost var before := words[..k];
      assert words[..k + 1] == before + [words[k]];
      forall t: int ensures CountOf(words[..k + 1], t) == CountOf(before, t) + if s == t then 1 else 0 {
        CountSnoc(before, words[k], t);
      }
      forall a | 0 <= a < |order| ensures FirstSpeaks(words[..k + 1], order[a], firsts[a]) {
        FirstSnoc(before, words[k], order[a], firsts[a]);
      }
      if s !in counts {
        CountZeroIff(before, s);
        assert FirstSpeaks(words[..k + 1], s, k);
        order, firsts := order + [s], firsts + [k];
        counts := counts[s := 1];
      } else {
        counts := counts[s := counts[s] + 1];
      }
    }
    assert words[..|words|] == words;
    forall s: int ensures s in counts <==> CountOf(words, s) > 0 {
      CountZeroIff(words, s);
    }
  }

  /** The speaker with most words; among equals, the one who spoke first. */
  method DominantSpeaker(words: seq<Word>) returns (speaker: int)
    ensures words == [] ==> speaker == 0
    ensures words != [] ==> exists i: nat :: FirstSpeaks(words, speaker, i)
    ensures forall s: int :: CountOf(words, s) <= CountOf(words, speaker)
    ensures forall s: int, i: nat, j: nat | FirstSpeaks(words, speaker, i) && FirstSpeaks(words, s, j) && s != speaker
            && CountOf(words, s) == CountOf(words, speaker) :: i < j
  {
    if |words| == 0 {
      return 0;
    }
    var order, counts, firsts := CountSpeakers(words);
    assert SpeakerOf(words[0]) in order;
    ghost var best := TallyHead(order, counts);
    speaker := StableSort(Tally(order, counts), DescendingCount())[0].0;
    BestIsDominant(words, order, counts, firsts, best);
  }

  lemma BestIsDominant(words: seq<Word>, order: seq<int>, counts: map<int, nat>, firsts: seq<nat>, best: nat)
    requires Counted(words, order, counts, firsts) && best < |order|
    requires forall a | 0 <= a < |order| :: counts[order[a]] <= counts[order[best]]
    requires forall a | 0 <= a < best :: counts[order[a]] < counts[order[best]]
    ensures FirstSpeaks(words, order[best], firsts[best])
    ensures forall s: int :: CountOf(words, s) <= CountOf(words, order[best])
    ensures forall s: int, i: nat, j: nat | FirstSpeaks(words, order[best], i) && FirstSpeaks(words, s, j)
            && s != order[best] && CountOf(words, s) == CountOf(words, order[best]) :: i < j
  {
    var speaker := order[best];
    forall s: int ensures CountOf(words, s) <= CountOf(words, speaker) {
      CountZeroIff(words, s);
      if s in counts {
        var a :| 0 <= a < |order| && order[a] == s;
      }
    }
    forall s: int, i: nat, j: nat | FirstSpeaks(words, speaker, i) && FirstSpeaks(words, s, j) && s != speaker
        && CountOf(words, s) == CountOf(words, speaker)
      ensures i < j
    {
      assert s in counts;
      var a :| 0 <= a < |order| && order[a] == s;
      assert best < a;
    }
  }

  // ---- what a segment says -------------------------------------------------------------------

  /** How a word is written: with its punctuation where that is known, else plainly, else not at all. */
  function Written(w: Word): string {
    if w.punctuated.Some? then w.punctuated.value else if w.text.Some? then w.text.value else ""
  }

  /** The caller is labelled as such, everybody else by number; a word without a speaker is by speaker 0. */
  lemma SegmentSpeaker(run: seq<Word>, settings: Settings)
    requires run != []
    ensures var speaker := if run[0].speaker.Some? then run[0].speaker.value else 0;
            var shown := SegmentOf(run, settings).speaker;
            && (shown == Me <==> settings.self.Some? && settings.self.value == speaker)
            && (shown != Me ==> shown == Speaker(speaker))
  {
  }

  /** The text of a segment spells its words, in order. */
  lemma SegmentSpells(run: seq<Word>, settings: Settings)
    requires run != [] && forall i | 0 <= i < |run| :: IsWord(Written(run[i]))
    ensures var words := Words(SegmentOf(run, settings).text);
            |words| == |run| && forall i | 0 <= i < |run| :: words[i] == Written(run[i])
  {
    forall i | 0 <= i < |run| ensures Spellings(run)[i] == Written(run[i]) {
    }
    assert AllWords(Spellings(run));
    JoinTrimmed(Spellings(run));
    WordsOfJoin(Spellings(run));
  }

  /** A segment begins at the nearest millisecond to its first word, or where the caller says. */
  lemma SegmentBegins(run: seq<Word>, settings: Settings)
    requires run != []
    ensures var offset := SegmentOf(run, settings).offsetMs;
            if run[0].start.Some? then offset as real - 0.5 <= run[0].start.value * 1000.0 < offset as real + 0.5
            else offset == settings.fallbackOffset
  {
    if run[0].start.None? {
      assert settings.fallbackOffset as real / 1000.0 * 1000.0 == settings.fallbackOffset as real;
    }
  }

  function Confident(): Word -> bool {
    (w: Word) => w.confidence.Some?
  }

  lemma {:induction false} ConfidentCount(words: seq<Word>)
    ensures ConfidenceCount(words) == Count(words, Confident())
  {
    if |words| > 0 {
      ConfidentCount(words[..|words| - 1]);
    }
  }

  /** The words whose confidence is known, and the sum of those, weigh a segment's confidence. */
  lemma SegmentWeighs(run: seq<Word>, settings: Settings)
    requires run != []
    ensures var n := |Places(run, Confident())|;
            n > 0 ==> SegmentOf(run, settings).confidence.Some?
                      && SegmentOf(run, settings).confidence.value * n as real == ConfidenceSum(run)
  {
    ConfidentCount(run);
    CountIsSize(run, Confident());
    if ConfidenceCount(run) > 0 {
      QuotientTimes(ConfidenceSum(run), ConfidenceCount(run));
    }
  }

  lemma QuotientTimes(x: real, n: nat)
    requires n > 0
    ensures x / n as real * n as real == x
  {
  }

  function HasText(): Segment -> bool {
    (x: Segment) => x.text != ""
  }

  lemma {:induction false} SpokenCount(segments: seq<Segment>)
    ensures |Spoken(segments)| == Count(segments, HasText())
  {
    if |segments| > 0 {
      SpokenCount(segments[1..]);
      CountConcat([segments[0]], segments[1..], HasText());
      assert [segments[0]] + segments[1..] == segments && [segments[0]][..0] == [];
    }
  }

  lemma {:induction false} SpokenAll(segments: seq<Segment>)
    requires forall k | 0 <= k < |segments| :: segments[k].text != ""
    ensures Spoken(segments) == segments
  {
    if |segments| > 0 {
      SpokenAll(segments[1..]);
    }
  }

  lemma {:induction false} SpokenMembers(segments: seq<Segment>, x: Segment)
    ensures x in Spoken(segments) <==> x in segments && x.text != ""
  {
    if |segments| > 0 {
      SpokenMembers(segments[1..], x);
      assert x in segments <==> x == segments[0] || x in segments[1..];
    }
  }

  /** Exactly the segments with a text are kept, and all of them as they are if each has one. */
  lemma SpokenKeeps(segments: seq<Segment>)
    ensures forall x :: x in Spoken(segments) <==> x in segments && x.text != ""
    ensures |Spoken(segments)| == |Places(segments, HasText())|
    ensures (forall k | 0 <= k < |segments| :: segments[k].text != "") ==> Spoken(segments) == segments
  {
    forall x ensures x in Spoken(segments) <==> x in segments && x.text != "" {
      SpokenMembers(segments, x);
    }
    SpokenCount(segments);
    CountIsSize(segments, HasText());
    if forall k | 0 <= k < |segments| :: segments[k].text != "" {
      SpokenAll(segments);
    }
  }
}
