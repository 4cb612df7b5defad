/** What every run of research, merges and dismissals keeps. */
module InvestorSafety {
  import opened Prelude
  import opened InvestorModel

  // ---- provenance of addresses ----------------------------------------------------------------

  /** The columns about an address are there together or not at all. */
  predicate AddressWhole(l: Lead) {
    && (l.email.Some? <==> l.emailStatus == SourceBacked)
    && (l.email.Some? <==> l.emailSource.Some?)
    && (l.email.Some? <==> l.emailConfidence.Some?)
  }

  /** A lead has an address exactly when it is source-backed by a stored row that contains it. */
  predicate Backed(l: Lead, sources: seq<Source>, readers: Readers) {
    && AddressWhole(l)
    && (l.email.Some? ==>
          && l.emailSource.value < |sources|
          && sources[l.emailSource.value].user == l.user
          && EmailOf(sources[l.emailSource.value], readers) == l.email)
  }

  ghost predicate Provenance(db: Db, readers: Readers) {
    && (forall i | 0 <= i < |db.leads| :: Backed(db.leads[i], db.sources, readers))
    && (forall k | 0 <= k < |db.sources| ::
          db.sources[k].lead < |db.leads| && db.leads[db.sources[k].lead].user == db.sources[k].user)
  }

  lemma {:induction false} FirstWithEmailFound(sources: seq<(nat, Source)>, readers: Readers)
    ensures var r := FirstWithEmail(sources, readers);
            && (r.Some? ==> r.value in sources && EmailOf(r.value.1, readers).Some?)
            && (r.None? <==> forall k | 0 <= k < |sources| :: EmailOf(sources[k].1, readers).None?)
  {
    if |sources| > 0 {
      FirstWithEmailFound(sources[1..], readers);
      assert forall k | 1 <= k < |sources| :: sources[k] == sources[1..][k - 1];
    }
  }

  /**
   An address is given exactly when some source contains one, and is then that of the row it
   names; a supplied candidate is flagged and never used.
   */
  ghost predicate Sourced(c: Contact, sources: seq<(nat, Source)>, candidate: Option<string>, readers: Readers) {
    && (c.email.Some? <==> exists k :: 0 <= k < |sources| && EmailOf(sources[k].1, readers).Some?)
    && (c.email.Some? <==> c.status == SourceBacked)
    && (c.email.Some? <==> c.source.Some?)
    && (c.email.Some? <==> c.emailConfidence.Some?)
    && (c.email.Some? ==>
          exists k :: 0 <= k < |sources| && sources[k].0 == c.source.value && EmailOf(sources[k].1, readers) == c.email)
    && (c.email.None? && Truthy(candidate) ==> "email_inference_not_allowed" in c.riskFlags)
    && 0.25 <= c.confidence <= 0.9
  }

  lemma AssessIsSourceBacked(website: Option<string>, sources: seq<(nat, Source)>, candidate: Option<string>,
                             readers: Readers)
    ensures Sourced(Assess(website, sources, candidate, readers), sources, candidate, readers)
  {
    FirstWithEmailFound(sources, readers);
    var r := FirstWithEmail(sources, readers);
    if r.Some? {
      var k :| 0 <= k < |sources| && sources[k] == r.value;
    }
  }

  lemma PersistProvenance(db: Db, user: User, campaign: nat, r: Result, readers: Readers)
    requires Provenance(db, readers)
    ensures Provenance(Persist(db, user, campaign, r, readers), readers)
  {
    if Usable(r) {
      var db' := Persist(db, user, campaign, r, readers);
      var source := db'.sources[|db.sources|];
      var rows := [(|db.sources|, source)];
      AssessIsSourceBacked(readers.domainOf(r.url), rows, None, readers);
      assert forall k | 0 <= k < |rows| :: rows[k] == (|db.sources|, source);
      forall i | 0 <= i < |db'.leads| ensures Backed(db'.leads[i], db'.sources, readers) {
        if i < |db.leads| {
          assert Backed(db.leads[i], db.sources, readers);
        }
      }
    }
  }

  lemma MergedTargetBacked(t: Lead, d: Lead, sources: seq<Source>, readers: Readers)
    requires Backed(t, sources, readers) && Backed(d, sources, readers) && t.user == d.user
    ensures Backed(MergedTarget(t, d), sources, readers)
    ensures t.email.Some? ==> MergedTarget(t, d).email == t.email && MergedTarget(t, d).emailSource == t.emailSource
    ensures t.email.None? ==> MergedTarget(t, d).email == d.email && MergedTarget(t, d).emailSource == d.emailSource
  {
  }

  lemma MovedBacked(l: Lead, sources: seq<Source>, user: User, from: nat, to: nat, readers: Readers)
    requires Backed(l, sources, readers)
    ensures Backed(l, MoveSources(sources, user, from, to), readers)
  {
    if l.email.Some? {
      var k := l.emailSource.value;
      assert TextOf(MoveSources(sources, user, from, to)[k]) == TextOf(sources[k]);
    }
  }

  lemma MergeProvenance(db: Db, user: User, duplicate: nat, target: nat, readers: Readers)
    requires Provenance(db, readers)
    ensures Provenance(Merge(db, user, duplicate, target, readers), readers)
  {
    if MayMerge(db, user, duplicate, target, readers) {
      var db' := Merge(db, user, duplicate, target, readers);
      var t, d := db.leads[target], db.leads[duplicate];
      assert Backed(t, db.sources, readers) && Backed(d, db.sources, readers);
      MergedTargetBacked(t, d, db.sources, readers);
      forall i | 0 <= i < |db'.leads| ensures Backed(db'.leads[i], db'.sources, readers) {
        assert Backed(db.leads[i], db.sources, readers);
        var lead := if i == target then MergedTarget(t, d) else if i == duplicate then d else db.leads[i];
        MovedBacked(lead, db.sources, user, duplicate, target, readers);
      }
    }
  }

  lemma DismissProvenance(db: Db, user: User, id: nat, readers: Readers)
    requires Provenance(db, readers)
    ensures Provenance(Dismiss(db, user, id), readers)
  {
    var db' := Dismiss(db, user, id);
    forall i | 0 <= i < |db'.leads| ensures Backed(db'.leads[i], db'.sources, readers) {
      assert Backed(db.leads[i], db.sources, readers);
    }
  }

  lemma {:induction false} PersistAllProvenance(db: Db, user: User, campaign: nat, results: seq<Result>,
                                                readers: Readers)
    requires Provenance(db, readers)
    ensures Provenance(PersistAll(db, user, campaign, results, readers), readers)
    decreases |results|
  {
    if |results| > 0 {
      PersistProvenance(db, user, campaign, results[0], readers);
      PersistAllProvenance(Persist(db, user, campaign, results[0], readers), user, campaign, results[1..], readers);
    }
  }

  /**
   Over every run, a lead has an address exactly when its status is source-backed and its
   source id names a stored row of the same user whose text contains that address.
   */
  lemma {:induction false} RunProvenance(db: Db, es: seq<Event>, readers: Readers)
    requires Provenance(db, readers)
    ensures Provenance(Run(db, es, readers), readers)
    decreases |es|
  {
    if |es| > 0 {
      match es[0] {
        case Researched(user, campaign, results) =>
          PersistAllProvenance(db, user, campaign, Take(results, RESULT_LIMIT), readers);
        case MergedInto(user, duplicate, target) => MergeProvenance(db, user, duplicate, target, readers);
        case Dismissed(user, lead) => DismissProvenance(db, user, lead, readers);
      }
      RunProvenance(Next(db, es[0], readers), es[1..], readers);
    }
  }

  /**
   A merge keeps every source row, changes only whose row it is, and leaves none on the
   merged lead.
   */
  lemma MergeMovesSources(db: Db, user: User, duplicate: nat, target: nat, readers: Readers)
    requires Provenance(db, readers) && MayMerge(db, user, duplicate, target, readers)
    ensures var db' := Merge(db, user, duplicate, target, readers);
            && |db'.sources| == |db.sources|
            && (forall k | 0 <= k < |db.sources| ::
                  db'.sources[k] == if db.sources[k].lead == duplicate
                      then db.sources[k].(lead := target) else db.sources[k])
            && (forall k | 0 <= k < |db'.sources| :: db'.sources[k].lead != duplicate)
            && db'.leads[duplicate].duplicate == Merged && db'.leads[duplicate].mergedInto == Some(target)
  {
  }

  // ---- unique leads --------------------------------------------------------------------------------

  predicate Collide(a: Lead, b: Lead) {
    && a.user == b.user && a.campaign == b.campaign
    && ((Truthy(a.domain) && a.domain == b.domain) || (a.firm != "" && a.firm == b.firm))
  }

  /** No two unique leads of one campaign share a domain or a firm name. */
  ghost predicate UniqueApart(db: Db) {
    forall i, j | 0 <= i < j < |db.leads| && db.leads[i].duplicate == Unique && db.leads[j].duplicate == Unique ::
      !Collide(db.leads[i], db.leads[j])
  }

  lemma PersistUnique(db: Db, user: User, campaign: nat, r: Result, readers: Readers)
    requires UniqueApart(db)
    ensures UniqueApart(Persist(db, user, campaign, r, readers))
  {
    if Usable(r) {
      var db' := Persist(db, user, campaign, r, readers);
      var n := |db.leads|;
      if db'.leads[n].duplicate == Unique {
        forall i | 0 <= i < n && db.leads[i].duplicate == Unique ensures !Collide(db'.leads[i], db'.leads[n]) {
          if Collide(db'.leads[i], db'.leads[n]) {
            assert SharesKey(db.leads[i], db'.leads[n].firm, db'.leads[n].domain);
          }
        }
      }
    }
  }

  lemma {:induction false} PersistAllUnique(db: Db, user: User, campaign: nat, results: seq<Result>, readers: Readers)
    requires UniqueApart(db)
    ensures UniqueApart(PersistAll(db, user, campaign, results, readers))
    decreases |results|
  {
    if |results| > 0 {
      PersistUnique(db, user, campaign, results[0], readers);
      PersistAllUnique(Persist(db, user, campaign, results[0], readers), user, campaign, results[1..], readers);
    }
  }

  lemma MergeUnique(db: Db, user: User, duplicate: nat, target: nat, readers: Readers)
    requires UniqueApart(db)
    ensures UniqueApart(Merge(db, user, duplicate, target, readers))
  {
    var db' := Merge(db, user, duplicate, target, readers);
    forall i, j | 0 <= i < j < |db'.leads| && db'.leads[i].duplicate == Unique && db'.leads[j].duplicate == Unique
      ensures !Collide(db'.leads[i], db'.leads[j])
    {
      assert !Collide(db.leads[i], db.leads[j]);
    }
  }

  /** Over every run of research and merges, unique leads stay apart. */
  lemma {:induction false} RunUnique(db: Db, es: seq<Event>, readers: Readers)
    requires UniqueApart(db) && forall k | 0 <= k < |es| :: !es[k].Dismissed?
    ensures UniqueApart(Run(db, es, readers))
    decreases |es|
  {
    if |es| > 0 {
      match es[0] {
        case Researched(user, campaign, results) =>
          PersistAllUnique(db, user, campaign, Take(results, RESULT_LIMIT), readers);
        case MergedInto(user, duplicate, target) => MergeUnique(db, user, duplicate, target, readers);
        case Dismissed(_, _) => assert false;
      }
      assert forall k | 0 <= k < |es[1..]| :: es[1..][k] == es[k + 1];
      RunUnique(Next(db, es[0], readers), es[1..], readers);
    }
  }

  /** A dismissal keeps them apart exactly when the dismissed lead collides with no other unique lead. */
  lemma DismissUniqueIff(db: Db, user: User, id: nat)
    requires UniqueApart(db) && OwnsLead(db, user, id)
    ensures UniqueApart(Dismiss(db, user, id))
       <==> forall i | 0 <= i < |db.leads| && i != id && db.leads[i].duplicate == Unique ::
              !Collide(db.leads[i], db.leads[id])
  {
    var db' := Dismiss(db, user, id);
    if UniqueApart(db') {
      forall i | 0 <= i < |db.leads| && i != id && db.leads[i].duplicate == Unique
        ensures !Collide(db.leads[i], db.leads[id])
      {
        assert db'.leads[i] == db.leads[i];
        if i < id {
          assert !Collide(db'.leads[i], db'.leads[id]);
        } else {
          assert !Collide(db'.leads[id], db'.leads[i]);
        }
      }
    }
    if forall i | 0 <= i < |db.leads| && i != id && db.leads[i].duplicate == Unique ::
          !Collide(db.leads[i], db.leads[id]) {
      forall i, j | 0 <= i < j < |db'.leads| && db'.leads[i].duplicate == Unique && db'.leads[j].duplicate == Unique
        ensures !Collide(db'.leads[i], db'.leads[j])
      {
        if i != id && j != id {
          assert !Collide(db.leads[i], db.leads[j]);
        }
      }
    }
  }

  function PlainLead(duplicate: DuplicateStatus): Lead {
    Lead(0, 0, "f", None, None, duplicate, None, None, None, Unknown, None, None, None, 0.0, Tags([], [], [], [], []))
  }

  /** Two leads of one firm, the second marked as a candidate: dismissing it leaves two unique ones. */
  lemma DismissingRestoresADuplicate()
    ensures var db := Db([PlainLead(Unique), PlainLead(CandidateDuplicate)], []);
            UniqueApart(db) && OwnsLead(db, 0, 1) && !UniqueApart(Dismiss(db, 0, 1))
  {
    var db := Db([PlainLead(Unique), PlainLead(CandidateDuplicate)], []);
    assert Collide(db.leads[0], db.leads[1]) && db.leads[0].duplicate == Unique;
    DismissUniqueIff(db, 0, 1);
  }

  // ---- where a lead's address row hangs -----------------------------------------------------------

  /** The row behind the address of every lead that is not merged hangs on that lead. */
  ghost predicate Attached(db: Db) {
    forall i | 0 <= i < |db.leads| && db.leads[i].duplicate != Merged && db.leads[i].emailSource.Some? ::
      db.leads[i].emailSource.value < |db.sources| && db.sources[db.leads[i].emailSource.value].lead == i
  }

  /**
   A merge keeps that, unless an unmerged target without an address takes over the address
   of a duplicate whose row already hangs somewhere else, which is so for leads merged before.
   */
  lemma MergeAttachedIff(db: Db, user: User, duplicate: nat, target: nat, readers: Readers)
    requires Provenance(db, readers) && Attached(db) && MayMerge(db, user, duplicate, target, readers)
    ensures var t, d := db.leads[target], db.leads[duplicate];
            Attached(Merge(db, user, duplicate, target, readers))
            <==> t.duplicate == Merged || t.email.Some? || d.email.None?
                 || db.sources[d.emailSource.value].lead in {duplicate, target}
    ensures db.leads[duplicate].duplicate != Merged ==> Attached(Merge(db, user, duplicate, target, readers))
  {
    var db' := Merge(db, user, duplicate, target, readers);
    var t, d := db.leads[target], db.leads[duplicate];
    assert Backed(t, db.sources, readers) && Backed(d, db.sources, readers);
    MergedTargetBacked(t, d, db.sources, readers);
    MergeMovesSources(db, user, duplicate, target, readers);
    forall i | 0 <= i < |db'.leads| && i != target && db'.leads[i].duplicate != Merged && db'.leads[i].emailSource.Some?
      ensures db'.leads[i].emailSource.value < |db'.sources| && db'.sources[db'.leads[i].emailSource.value].lead == i
    {
      assert db'.leads[i] == db.leads[i];
    }
    assert db'.leads[target] == MergedTarget(t, d);
  }

  // ---- where merged leads lead ------------------------------------------------------------------------

  /** Following at most `n` merge links from lead `i` reaches a lead that is not merged. */
  predicate Ends(db: Db, i: nat, n: nat)
    decreases n
  {
    i < |db.leads| &&
    (db.leads[i].duplicate != Merged ||
     (n > 0 && db.leads[i].mergedInto.Some? && Ends(db, db.leads[i].mergedInto.value, n - 1)))
  }

  /** Following at most `n` merge links from lead `i` reaches lead `d`. */
  predicate Passes(db: Db, i: nat, d: nat, n: nat)
    decreases n
  {
    || i == d
    || (n > 0 && i < |db.leads| && db.leads[i].duplicate == Merged && db.leads[i].mergedInto.Some?
        && Passes(db, db.leads[i].mergedInto.value, d, n - 1))
  }

  ghost predicate LeadsOn(db: Db, i: nat) {
    exists n: nat :: Ends(db, i, n)
  }

  ghost predicate Reaches(db: Db, i: nat, d: nat) {
    exists n: nat :: Passes(db, i, d, n)
  }

  /** Behind every lead there is one that is not merged. */
  ghost predicate AllLeadOn(db: Db) {
    forall i: nat | i < |db.leads| :: LeadsOn(db, i)
  }

  /** Two tables whose merge links differ only at lead `d`, which is merged in the second. */
  ghost predicate RelinkedAt(db: Db, db': Db, d: nat) {
    && d < |db.leads| && |db'.leads| == |db.leads|
    && db'.leads[d].duplicate == Merged
    && forall i | 0 <= i < |db.leads| && i != d ::
         db'.leads[i].duplicate == db.leads[i].duplicate && db'.leads[i].mergedInto == db.leads[i].mergedInto
  }

  lemma {:induction false} EndsLonger(db: Db, i: nat, n: nat, m: nat)
    requires Ends(db, i, n) && n <= m
    ensures Ends(db, i, m)
    decreases n
  {
    if db.leads[i].duplicate == Merged {
      EndsLonger(db, db.leads[i].mergedInto.value, n - 1, m - 1);
    }
  }

  lemma {:induction false} UnroutedEnds(db: Db, db': Db, d: nat, i: nat, n: nat)
    requires RelinkedAt(db, db', d) && Ends(db, i, n) && !Passes(db, i, d, n)
    ensures Ends(db', i, n)
    decreases n
  {
    if db.leads[i].duplicate == Merged {
      UnroutedEnds(db, db', d, db.leads[i].mergedInto.value, n - 1);
    }
  }

  lemma {:induction false} RoutedEnds(db: Db, db': Db, d: nat, t: nat, i: nat, n: nat, m: nat)
    requires RelinkedAt(db, db', d) && db'.leads[d].mergedInto == Some(t)
    requires Ends(db, i, n) && Ends(db', t, m)
    ensures Ends(db', i, n + 1 + m)
    decreases n
  {
    if i == d {
      EndsLonger(db', t, m, n + m);
    } else if db.leads[i].duplicate == Merged {
      RoutedEnds(db, db', d, t, db.leads[i].mergedInto.value, n - 1, m);
    }
  }

  lemma {:induction false} PassesAfter(db: Db, db': Db, d: nat, i: nat, n: nat)
    requires RelinkedAt(db, db', d)
    ensures Passes(db', i, d, n) <==> Passes(db, i, d, n)
    decreases n
  {
    if n > 0 && i != d && i < |db.leads| && db.leads[i].duplicate == Merged && db.leads[i].mergedInto.Some? {
      PassesAfter(db, db', d, db.leads[i].mergedInto.value, n - 1);
    }
  }

  /** From a lead that reaches `d`, whose link leads back to one that reaches it, there is no end. */
  lemma {:induction false} LoopNeverEnds(db: Db, d: nat, i: nat, n: nat, k: nat, m: nat)
    requires d < |db.leads| && db.leads[d].duplicate == Merged && db.leads[d].mergedInto.Some?
    requires Passes(db, db.leads[d].mergedInto.value, d, k) && Passes(db, i, d, n)
    ensures !Ends(db, i, m)
    decreases m
  {
    if m > 0 {
      if i == d {
        LoopNeverEnds(db, d, db.leads[d].mergedInto.value, k, k, m - 1);
      } else {
        LoopNeverEnds(db, d, db.leads[i].mergedInto.value, n - 1, k, m - 1);
      }
    }
  }

  lemma RelinkedLeadsOnIff(db: Db, db': Db, d: nat, t: nat, i: nat)
    requires RelinkedAt(db, db', d) && db'.leads[d].mergedInto == Some(t)
    requires LeadsOn(db, i) && LeadsOn(db, t)
    ensures LeadsOn(db', i) <==> !(Reaches(db, i, d) && Reaches(db, t, d))
  {
    var n: nat, m: nat :| Ends(db, i, n) && Ends(db, t, m);
    if Reaches(db, i, d) && Reaches(db, t, d) {
      var p: nat, k: nat :| Passes(db, i, d, p) && Passes(db, t, d, k);
      PassesAfter(db, db', d, i, p);
      PassesAfter(db, db', d, t, k);
      forall l: nat ensures !Ends(db', i, l) {
        LoopNeverEnds(db', d, i, p, k, l);
      }
    } else if Reaches(db, t, d) {
      UnroutedEnds(db, db', d, i, n);
    } else {
      UnroutedEnds(db, db', d, t, m);
      RoutedEnds(db, db', d, t, i, n, m);
    }
  }

  /**
   After a merge a lead still leads to a live one exactly unless its links and those of the
   target both pass through the duplicate. So the merge keeps a live lead behind every lead
   exactly when the links from the target do not lead to the duplicate.
   */
  lemma MergeLeadsOnIff(db: Db, user: User, duplicate: nat, target: nat, readers: Readers)
    requires MayMerge(db, user, duplicate, target, readers) && AllLeadOn(db)
    ensures var db' := Merge(db, user, duplicate, target, readers);
            && (forall i: nat | i < |db.leads| ::
                  LeadsOn(db', i) <==> !(Reaches(db, i, duplicate) && Reaches(db, target, duplicate)))
            && (AllLeadOn(db') <==> !Reaches(db, target, duplicate))
  {
    var db' := Merge(db, user, duplicate, target, readers);
    forall i: nat | i < |db.leads|
      ensures LeadsOn(db', i) <==> !(Reaches(db, i, duplicate) && Reaches(db, target, duplicate))
    {
      RelinkedLeadsOnIff(db, db', duplicate, target, i);
    }
    assert Passes(db, duplicate, duplicate, 0);
    if AllLeadOn(db') {
      assert LeadsOn(db', duplicate);
    }
  }

  lemma OthersLeadOn(db: Db, e: Event, readers: Readers)
    requires AllLeadOn(db) && !e.MergedInto?
    ensures AllLeadOn(Next(db, e, readers))
  {
    match e
    case Researched(user, campaign, results) =>
      PersistAllLeadOn(db, user, campaign, Take(results, RESULT_LIMIT), readers);
    case Dismissed(user, lead) =>
      forall i: nat | i < |db.leads| ensures LeadsOn(Dismiss(db, user, lead), i) {
        assert LeadsOn(db, i);
        var n: nat :| Ends(db, i, n);
        StillEnds(db, Dismiss(db, user, lead), i, n);
      }
  }

  /** Leads that stay, or become unmerged, still end where others are added or stop being merged. */
  lemma {:induction false} StillEnds(db: Db, db': Db, i: nat, n: nat)
    requires Ends(db, i, n) && |db.leads| <= |db'.leads|
    requires forall k | 0 <= k < |db.leads| :: db'.leads[k].mergedInto == db.leads[k].mergedInto
    requires forall k | 0 <= k < |db.leads| :: db'.leads[k].duplicate == Merged ==> db.leads[k].duplicate == Merged
    ensures Ends(db', i, n)
    decreases n
  {
    if db.leads[i].duplicate == Merged {
      StillEnds(db, db', db.leads[i].mergedInto.value, n - 1);
    }
  }

  lemma {:induction false} PersistAllLeadOn(db: Db, user: User, campaign: nat, results: seq<Result>, readers: Readers)
    requires AllLeadOn(db)
    ensures AllLeadOn(PersistAll(db, user, campaign, results, readers))
    decreases |results|
  {
    if |results| > 0 {
      var db' := Persist(db, user, campaign, results[0], readers);
      forall i: nat | i < |db'.leads| ensures LeadsOn(db', i) {
        if i < |db.leads| {
          assert LeadsOn(db, i);
          var n: nat :| Ends(db, i, n);
          StillEnds(db, db', i, n);
        } else {
          assert Ends(db', i, 0);
        }
      }
      PersistAllLeadOn(db', user, campaign, results[1..], readers);
    }
  }

  /** In every state of the run there is a live lead behind every lead. */
  ghost predicate AlwaysLeadOn(db: Db, es: seq<Event>, readers: Readers)
    decreases |es|
  {
    AllLeadOn(db) && (|es| > 0 ==> AlwaysLeadOn(Next(db, es[0], readers), es[1..], readers))
  }

  /** No merge of the run that is carried out has a target whose links lead to the duplicate. */
  ghost predicate NoMergeBack(db: Db, es: seq<Event>, readers: Readers)
    decreases |es|
  {
    |es| > 0 ==>
      && (es[0].MergedInto? && MayMerge(db, es[0].user, es[0].duplicate, es[0].target, readers) ==>
            !Reaches(db, es[0].target, es[0].duplicate))
      && NoMergeBack(Next(db, es[0], readers), es[1..], readers)
  }

  /** Over every run, live leads stay behind all leads exactly when no merge leads back to its duplicate. */
  lemma {:induction false} RunLeadsOnIff(db: Db, es: seq<Event>, readers: Readers)
    requires AllLeadOn(db)
    ensures AlwaysLeadOn(db, es, readers) <==> NoMergeBack(db, es, readers)
    decreases |es|
  {
    if |es| > 0 {
      var e, next := es[0], Next(db, es[0], readers);
      if !e.MergedInto? {
        OthersLeadOn(db, e, readers);
      } else if MayMerge(db, e.user, e.duplicate, e.target, readers) {
        MergeLeadsOnIff(db, e.user, e.duplicate, e.target, readers);
      }
      if AllLeadOn(next) {
        RunLeadsOnIff(next, es[1..], readers);
      }
    }
  }

  /**
   Nothing checks for that: after merging one look-alike into another, merging back
   succeeds as well and leaves two merged leads that name each other.
   */
  lemma MergingBackLosesBoth(db: Db, user: User, a: nat, b: nat, readers: Readers, n: nat)
    requires MayMerge(db, user, a, b, readers) && IsDuplicateCandidate(db.leads[b], db.leads[a], readers)
    ensures var once := Merge(db, user, a, b, readers);
            var twice := Merge(once, user, b, a, readers);
            && MayMerge(once, user, b, a, readers)
            && twice.leads[a].duplicate == Merged && twice.leads[b].duplicate == Merged
            && twice.leads[a].mergedInto == Some(b) && twice.leads[b].mergedInto == Some(a)
            && !Ends(twice, a, n) && !Ends(twice, b, n)
  {
    var once := Merge(db, user, a, b, readers);
    var twice := Merge(once, user, b, a, readers);
    LoopNeverEnds(twice, a, a, 0, 1, n);
    LoopNeverEnds(twice, a, b, 1, 1, n);
  }

  // ---- tags ------------------------------------------------------------------------------------------------

  lemma {:induction false} DistinctFromIs(values: seq<string>, seen: set<string>)
    ensures var r := DistinctFrom(values, seen);
            && (forall x :: x in r <==> x in values && x != "" && x !in seen)
            && (forall i, j | 0 <= i < j < |r| :: r[i] != r[j])
  {
    if |values| > 0 {
      assert forall x :: x in values <==> x == values[0] || x in values[1..];
      if values[0] == "" || values[0] in seen {
        DistinctFromIs(values[1..], seen);
      } else {
        DistinctFromIs(values[1..], seen + {values[0]});
        var rest := DistinctFrom(values[1..], seen + {values[0]});
        assert forall x :: x in DistinctFrom(values, seen) <==> x == values[0] || x in rest;
      }
    }
  }

  /**
   Tags gathered from others: nothing repeated, nothing invented, and every non-empty one kept
   exactly when there are at most twenty different ones.
   */
  ghost predicate Gathers(r: seq<string>, values: seq<string>) {
    && |r| <= TAG_LIMIT
    && (forall i, j | 0 <= i < j < |r| :: r[i] != r[j])
    && (forall x | x in r :: x in values && x != "")
    && ((forall x | x in values && x != "" :: x in r) <==> |DistinctFrom(values, {})| <= TAG_LIMIT)
  }

  lemma MergedTagsPreservedIff(values: seq<string>)
    ensures Gathers(UniqueTags(values), values)
  {
    DistinctFromIs(values, {});
    var all := DistinctFrom(values, {});
    if |all| > TAG_LIMIT {
      var x := all[TAG_LIMIT];
      assert x in values && x != "";
      assert x !in UniqueTags(values);
    }
  }

  lemma {:induction false} DifferentTagsStand(values: seq<string>, seen: set<string>)
    requires forall i | 0 <= i < |values| :: values[i] != "" && values[i] !in seen
    requires forall i, j | 0 <= i < j < |values| :: values[i] != values[j]
    ensures DistinctFrom(values, seen) == values
  {
    if |values| > 0 {
      DifferentTagsStand(values[1..], seen + {values[0]});
    }
  }

  /** Twenty-one different tags, told apart by their lengths: one of them is lost. */
  lemma TwentyFirstTagIsLost()
    ensures exists values: seq<string>, x: string ::
              |values| == 21 && x in values && x != "" && x !in UniqueTags(values)
  {
    var values := seq(21, i requires 0 <= i < 21 => seq(i + 1, k => 't'));
    assert forall i | 0 <= i < 21 :: |values[i]| == i + 1;
    DifferentTagsStand(values, {});
    MergedTagsPreservedIff(values);
    assert UniqueTags(values) == values[..20];
    assert values[20] in values && values[20] !in values[..20];
  }
}
