/** Exporting remembered facts and skills, and importing them into another account. */
module Portability {
  import opened Prelude

  type User = nat

  datatype Kind = StressSupportPreference | OtherKind(name: string)

  datatype Sensitivity = Sensitive | Low | OtherSensitivity(name: string)

  datatype FactStatus = Proposed | Confirmed | Rejected | Expired

  datatype FactRow = FactRow(user: User, kind: Kind, content: string, confidence: real,
                             sensitivity: Sensitivity, status: FactStatus)

  datatype Risk = LowRisk | MediumRisk | HighRisk

  datatype SkillStatus = SkillProposed | SkillApproved | SkillEnabled | SkillDisabled | SkillRejected

  datatype Manifest = Manifest(name: string, description: string, trigger: string, steps: seq<string>, risk: Risk)

  datatype SkillRow = SkillRow(user: User, manifest: Manifest, status: SkillStatus)

  // ---- the portable form --------------------------------------------------------------------

  /** A fact as it travels: what a round trip is meant to keep. */
  datatype Fact = Fact(kind: Kind, content: string, confidence: real, sensitivity: Sensitivity)

  datatype Export = Export(facts: seq<Fact>, skills: seq<Manifest>)

  /** A fact or a skill in a payload; anything may be missing, and an empty text counts as missing. */
  datatype RawFact = RawFact(kind: Option<Kind>, content: string, confidence: Option<real>,
                             sensitivity: Option<Sensitivity>)

  datatype RawSkill = RawSkill(name: string, description: string, trigger: string, steps: Option<seq<string>>,
                               risk: Option<Risk>)

  /** A payload that is no object, or one with a schema version; lists that are no arrays read as empty. */
  datatype Payload = NotAnObject | Object(knownSchema: bool, facts: seq<RawFact>, skills: seq<RawSkill>)

  datatype Error = InvalidPayload | UnsupportedSchema | InvalidFact | InvalidSkill

  datatype Result<+T> = Ok(value: T) | Err(error: Error)

  datatype Warning = SensitiveSkipped | StressSupportSkipped | SkillSkipped(name: string)

  datatype Report = Report(importedFacts: nat, skippedFacts: nat, importedSkills: nat, skippedSkills: nat,
                           warnings: seq<Warning>)

  // ---- exporting --------------------------------------------------------------------------------

  datatype Options = Options(includeProposed: bool, includeRejected: bool, includeSensitive: bool)

  predicate Exported(f: FactRow, user: User, options: Options) {
    && f.user == user
    && ( || f.status == Confirmed
         || (f.status == Proposed && options.includeProposed)
         || (f.status == Rejected && options.includeRejected))
    && (f.sensitivity == Sensitive ==> options.includeSensitive)
  }

  function FactOf(f: FactRow): Fact {
    Fact(f.kind, f.content, f.confidence, f.sensitivity)
  }

  function ExportFacts(rows: seq<FactRow>, user: User, options: Options): seq<Fact> {
    if |rows| == 0 then []
    else
      var f := rows[|rows| - 1];
      ExportFacts(rows[..|rows| - 1], user, options) + if Exported(f, user, options) then [FactOf(f)] else []
  }

  function ExportSkills(rows: seq<SkillRow>, user: User): seq<Manifest> {
    if |rows| == 0 then []
    else
      var s := rows[|rows| - 1];
      ExportSkills(rows[..|rows| - 1], user) + if s.user == user && s.status == SkillEnabled then [s.manifest] else []
  }

  datatype Db = Db(facts: seq<FactRow>, skills: seq<SkillRow>, optedIn: set<User>)

  function ExportMemorySkills(db: Db, user: User, options: Options): Export {
    Export(ExportFacts(db.facts, user, options), ExportSkills(db.skills, user))
  }

  // ---- parsing ----------------------------------------------------------------------------------

  function ParseFact(raw: RawFact): Result<Fact> {
    if raw.kind.None? || raw.content == "" then Err(InvalidFact)
    else Ok(Fact(raw.kind.value, Take(raw.content, 1000), raw.confidence.GetOr(0.5), raw.sensitivity.GetOr(Low)))
  }

  function ParseSkill(raw: RawSkill): Result<Manifest> {
    if raw.name == "" || raw.description == "" || raw.trigger == "" || raw.steps.None? then Err(InvalidSkill)
    else Ok(Manifest(
      Take(raw.name, 120), Take(raw.description, 500), Take(raw.trigger, 250),
      Take(seq(|raw.steps.value|, k requires 0 <= k < |raw.steps.value| => Take(raw.steps.value[k], 500)), 20),
      raw.risk.GetOr(LowRisk)))
  }

  function ParseFacts(raws: seq<RawFact>): (r: Result<seq<Fact>>)
    ensures r.Ok? <==> forall k | 0 <= k < |raws| :: ParseFact(raws[k]).Ok?
    ensures r.Ok? ==> |r.value| == |raws| && forall k | 0 <= k < |raws| :: Ok(r.value[k]) == ParseFact(raws[k])
    ensures r.Err? ==> r.error == InvalidFact
  {
    if |raws| == 0 then Ok([])
    else
      match ParseFact(raws[0])
      case Err(e) => Err(e)
      case Ok(f) =>
        match ParseFacts(raws[1..])
        case Err(e) => Err(e)
        case Ok(rest) => Ok([f] + rest)
  }

  function ParseSkills(raws: seq<RawSkill>): (r: Result<seq<Manifest>>)
    ensures r.Ok? <==> forall k | 0 <= k < |raws| :: ParseSkill(raws[k]).Ok?
    ensures r.Ok? ==> |r.value| == |raws| && forall k | 0 <= k < |raws| :: Ok(r.value[k]) == ParseSkill(raws[k])
    ensures r.Err? ==> r.error == InvalidSkill
  {
    if |raws| == 0 then Ok([])
    else
      match ParseSkill(raws[0])
      case Err(e) => Err(e)
      case Ok(s) =>
        match ParseSkills(raws[1..])
        case Err(e) => Err(e)
        case Ok(rest) => Ok([s] + rest)
  }

  function ParsePortablePayload(payload: Payload): Result<Export> {
    match payload
    case NotAnObject => Err(InvalidPayload)
    case Object(known, rawFacts, rawSkills) =>
      if !known then Err(UnsupportedSchema)
      else
        match ParseFacts(rawFacts)
        case Err(e) => Err(e)
        case Ok(facts) =>
          match ParseSkills(rawSkills)
          case Err(e) => Err(e)
          case Ok(skills) => Ok(Export(facts, skills))
  }

  // ---- importing ----------------------------------------------------------------------------------

  /** Why a fact is skipped, if it is. */
  function FactWarning(f: Fact, optedIn: bool, allow: bool): Option<Warning> {
    if f.sensitivity == Sensitive && !allow then Some(SensitiveSkipped)
    else if f.kind == StressSupportPreference && !optedIn && !allow then Some(StressSupportSkipped)
    else None
  }

  /** A manifest is safe when none of its texts matches a pattern for a dangerous step. */
  predicate Safe(m: Manifest, dangerous: string -> bool) {
    && !dangerous(m.name) && !dangerous(m.description) && !dangerous(m.trigger)
    && forall k | 0 <= k < |m.steps| :: !dangerous(m.steps[k])
  }

  function SkillWarning(m: Manifest, dangerous: string -> bool): Option<Warning> {
    if Safe(m, dangerous) then None else Some(SkillSkipped(m.name))
  }

  function ImportedFact(f: Fact, user: User): FactRow {
    FactRow(user, f.kind, f.content, Clamp01(f.confidence), f.sensitivity, Proposed)
  }

  function ImportedSkill(m: Manifest, user: User): SkillRow {
    SkillRow(user, m, SkillProposed)
  }

  /** The rows for the items without a warning, and the warnings of the others, both in order. */
  function Admitted<T, R>(items: seq<T>, warning: T -> Option<Warning>, row: T -> R): (r: (seq<R>, seq<Warning>))
    ensures |r.0| + |r.1| == |items|
    decreases |items|
  {
    if |items| == 0 then ([], [])
    else
      var (rows, warnings) := Admitted(items[..|items| - 1], warning, row);
      match warning(items[|items| - 1])
      case None => (rows + [row(items[|items| - 1])], warnings)
      case Some(w) => (rows, warnings + [w])
  }

  function AdmittedFacts(facts: seq<Fact>, user: User, optedIn: bool, allow: bool): (seq<FactRow>, seq<Warning>) {
    Admitted(facts, (f: Fact) => FactWarning(f, optedIn, allow), (f: Fact) => ImportedFact(f, user))
  }

  function AdmittedSkills(skills: seq<Manifest>, user: User, dangerous: string -> bool): (seq<SkillRow>, seq<Warning>) {
    Admitted(skills, (m: Manifest) => SkillWarning(m, dangerous), (m: Manifest) => ImportedSkill(m, user))
  }

  function Import(db: Db, user: User, payload: Payload, allow: bool, dangerous: string -> bool): (Db, Result<Report>) {
    match ParsePortablePayload(payload)
    case Err(e) => (db, Err(e))
    case Ok(portable) =>
      var (factRows, factWarnings) := AdmittedFacts(portable.facts, user, user in db.optedIn, allow);
      var (skillRows, skillWarnings) := AdmittedSkills(portable.skills, user, dangerous);
      (db.(facts := db.facts + factRows, skills := db.skills + skillRows),
       Ok(Report(|factRows|, |portable.facts| - |factRows|, |skillRows|, |portable.skills| - |skillRows|,
                 factWarnings + skillWarnings)))
  }

  class Memory {
    var facts: seq<FactRow>
    var skills: seq<SkillRow>
    var optedIn: set<User>

    ghost function Tables(): Db
      reads this
    {
      Db(facts, skills, optedIn)
    }

    /** One pass over the facts that pushes a warning for each it leaves out, then one over the skills. */
    method ImportMemorySkills(user: User, payload: Payload, allow: bool, dangerous: string -> bool)
        returns (r: Result<Report>)
      modifies this`facts, this`skills
      ensures (Tables(), r) == Import(old(Tables()), user, payload, allow, dangerous)
    {
      var parsed := ParsePortablePayload(payload);
      if parsed.Err? {
        return Err(parsed.error);
      }
      var portable := parsed.value;
      var factRows, factWarnings := FilterFacts(portable.facts, user, allow);
      var skillRows, skillWarnings := FilterSkills(portable.skills, user, dangerous);
      facts := facts + factRows;
      skills := skills + skillRows;
      r := Ok(Report(
        |factRows|, |portable.facts| - |factRows|,
        |skillRows|, |portable.skills| - |skillRows|,
        factWarnings + skillWarnings));
    }

    method FilterFacts(items: seq<Fact>, user: User, allow: bool) returns (rows: seq<FactRow>, warnings: seq<Warning>)
      ensures (rows, warnings) == AdmittedFacts(items, user, user in optedIn, allow)
      ensures |rows| <= |items|
    {
      rows, warnings := [], [];
      var profileOptedIn := user in optedIn;
      for i := 0 to |items|
        invariant (rows, warnings) == AdmittedFacts(items[..i], user, user in optedIn, allow)
        invariant |rows| <= i
      {
        assert items[..i + 1][..i] == items[..i];
        if items[i].sensitivity == Sensitive && !allow {
          warnings := warnings + [SensitiveSkipped];
        } else if items[i].kind == StressSupportPreference && !profileOptedIn && !allow {
          warnings := warnings + [StressSupportSkipped];
        } else {
          var f := items[i];
          rows := rows + [FactRow(user, f.kind, f.content, Clamp01(f.confidence), f.sensitivity, Proposed)];
        }
      }
      assert items[..|items|] == items;
    }

    method FilterSkills(items: seq<Manifest>, user: User, dangerous: string -> bool)
        returns (rows: seq<SkillRow>, warnings: seq<Warning>)
      ensures (rows, warnings) == AdmittedSkills(items, user, dangerous)
      ensures |rows| <= |items|
    {
      rows, warnings := [], [];
      for i := 0 to |items|
        invariant (rows, warnings) == AdmittedSkills(items[..i], user, dangerous)
        invariant |rows| <= i
      {
        assert items[..i + 1][..i] == items[..i];
        if !Safe(items[i], dangerous) {
          warnings := warnings + [SkillSkipped(items[i].name)];
        } else {
          rows := rows + [SkillRow(user, items[i], SkillProposed)];
        }
      }
      assert items[..|items|] == items;
    }
  }

  // ---- what an import adds -----------------------------------------------------------------------

  /** Everything is imported or skipped, and every skip has its warning. */
  lemma ImportTotals(db: Db, user: User, payload: Payload, allow: bool, dangerous: string -> bool)
    requires payload.Object? && Import(db, user, payload, allow, dangerous).1.Ok?
    ensures var r := Import(db, user, payload, allow, dangerous).1.value;
            && r.importedFacts + r.skippedFacts == |payload.facts|
            && r.importedSkills + r.skippedSkills == |payload.skills|
            && |r.warnings| == r.skippedFacts + r.skippedSkills
  {
  }

  lemma {:induction false} AdmittedRows<T, R>(items: seq<T>, warning: T -> Option<Warning>, row: T -> R, k: nat)
      returns (i: nat)
    requires k < |Admitted(items, warning, row).0|
    ensures i < |items| && warning(items[i]).None? && Admitted(items, warning, row).0[k] == row(items[i])
    decreases |items|
  {
    var n := |items| - 1;
    if k < |Admitted(items[..n], warning, row).0| {
      i := AdmittedRows(items[..n], warning, row, k);
    } else {
      i := n;
    }
  }

  lemma AdmittedFactConsents(facts: seq<Fact>, user: User, optedIn: bool, allow: bool, k: nat)
    requires k < |AdmittedFacts(facts, user, optedIn, allow).0|
    ensures var f := AdmittedFacts(facts, user, optedIn, allow).0[k];
            && f.user == user && f.status == Proposed && 0.0 <= f.confidence <= 1.0
            && (f.sensitivity == Sensitive ==> allow)
            && (f.kind == StressSupportPreference ==> allow || optedIn)
  {
    var i := AdmittedRows(facts, (f: Fact) => FactWarning(f, optedIn, allow), (f: Fact) => ImportedFact(f, user), k);
  }

  /** Nothing sensitive, and no stress-support preference without consent, comes in unless it is allowed. */
  lemma ImportRespectsConsent(db: Db, user: User, payload: Payload, allow: bool, dangerous: string -> bool, k: nat)
    requires var db' := Import(db, user, payload, allow, dangerous).0; |db.facts| <= k < |db'.facts|
    ensures var f := Import(db, user, payload, allow, dangerous).0.facts[k];
            && f.user == user && f.status == Proposed && 0.0 <= f.confidence <= 1.0
            && (f.sensitivity == Sensitive ==> allow)
            && (f.kind == StressSupportPreference ==> allow || user in db.optedIn)
  {
    AdmittedFactConsents(ParsePortablePayload(payload).value.facts, user, user in db.optedIn, allow, k - |db.facts|);
  }

  lemma AdmittedSkillIsSafe(skills: seq<Manifest>, user: User, dangerous: string -> bool, k: nat)
    requires k < |AdmittedSkills(skills, user, dangerous).0|
    ensures var s := AdmittedSkills(skills, user, dangerous).0[k];
            s.user == user && s.status == SkillProposed && Safe(s.manifest, dangerous)
  {
    var i := AdmittedRows(
      skills, (m: Manifest) => SkillWarning(m, dangerous), (m: Manifest) => ImportedSkill(m, user), k);
  }

  /** Every skill that comes in is safe as it is stored, after its texts are cut, and waits for approval. */
  lemma ImportedSkillsAreSafe(db: Db, user: User, payload: Payload, allow: bool, dangerous: string -> bool, k: nat)
    requires var db' := Import(db, user, payload, allow, dangerous).0; |db.skills| <= k < |db'.skills|
    ensures var s := Import(db, user, payload, allow, dangerous).0.skills[k];
            s.user == user && s.status == SkillProposed && Safe(s.manifest, dangerous)
  {
    AdmittedSkillIsSafe(ParsePortablePayload(payload).value.skills, user, dangerous, k - |db.skills|);
  }

  lemma {:induction false} ExportFactsConcat(a: seq<FactRow>, b: seq<FactRow>, user: User, options: Options)
    ensures ExportFacts(a + b, user, options) == ExportFacts(a, user, options) + ExportFacts(b, user, options)
  {
    if |b| == 0 {
      assert a + b == a;
    } else {
      var n := |b| - 1;
      assert (a + b)[..|a + b| - 1] == a + b[..n];
      ExportFactsConcat(a, b[..n], user, options);
    }
  }

  lemma {:induction false} ExportSkillsConcat(a: seq<SkillRow>, b: seq<SkillRow>, user: User)
    ensures ExportSkills(a + b, user) == ExportSkills(a, user) + ExportSkills(b, user)
  {
    if |b| == 0 {
      assert a + b == a;
    } else {
      var n := |b| - 1;
      assert (a + b)[..|a + b| - 1] == a + b[..n];
      ExportSkillsConcat(a, b[..n], user);
    }
  }

  lemma {:induction false} ProposedAreNotExported(rows: seq<SkillRow>, user: User)
    requires forall k | 0 <= k < |rows| :: rows[k].status == SkillProposed
    ensures ExportSkills(rows, user) == []
  {
    if |rows| > 0 {
      ProposedAreNotExported(rows[..|rows| - 1], user);
    }
  }

  /** Importing leaves every account's exported skills as they were: imported skills do not travel on. */
  lemma ImportKeepsExportedSkills(db: Db, user: User, payload: Payload, allow: bool, dangerous: string -> bool,
                                  other: User)
    ensures ExportSkills(Import(db, user, payload, allow, dangerous).0.skills, other) == ExportSkills(db.skills, other)
  {
    if ParsePortablePayload(payload).Ok? {
      var rows := AdmittedSkills(ParsePortablePayload(payload).value.skills, user, dangerous).0;
      forall k | 0 <= k < |rows| ensures rows[k].status == SkillProposed {
        AdmittedSkillIsSafe(ParsePortablePayload(payload).value.skills, user, dangerous, k);
      }
      ProposedAreNotExported(rows, other);
      ExportSkillsConcat(db.skills, rows, other);
    }
  }

  // ---- the round trip -------------------------------------------------------------------------------

  /** An export as the payload that carries it. */
  function Carried(e: Export): Payload {
    Object(true,
      seq(|e.facts|, k requires 0 <= k < |e.facts| =>
        RawFact(Some(e.facts[k].kind), e.facts[k].content, Some(e.facts[k].confidence), Some(e.facts[k].sensitivity))),
      seq(|e.skills|, k requires 0 <= k < |e.skills| =>
        var s := e.skills[k];
        RawSkill(s.name, s.description, s.trigger, Some(s.steps), Some(s.risk))))
  }

  predicate InRange(f: Fact) {
    1 <= |f.content| <= 1000 && 0.0 <= f.confidence <= 1.0
  }

  predicate Named(m: Manifest) {
    m.name != "" && m.description != "" && m.trigger != ""
  }

  /** What an exported fact comes in as. */
  function Arrived(f: Fact): Fact {
    Fact(f.kind, Take(f.content, 1000), Clamp01(f.confidence), f.sensitivity)
  }

  function ArrivedAll(facts: seq<Fact>): (arrived: seq<Fact>)
    ensures |arrived| == |facts| && forall k | 0 <= k < |facts| :: arrived[k] == Arrived(facts[k])
  {
    seq(|facts|, k requires 0 <= k < |facts| => Arrived(facts[k]))
  }

  /** All parsed facts are admitted when everything is allowed, and exported again with everything included. */
  lemma {:induction false} AllAdmitted(facts: seq<Fact>, user: User, optedIn: bool, options: Options)
    requires options.includeProposed && options.includeSensitive
    ensures var rows := AdmittedFacts(facts, user, optedIn, true).0;
            var again := ExportFacts(rows, user, options);
            && |rows| == |facts| && |again| == |facts|
            && forall k | 0 <= k < |facts| :: again[k] == facts[k].(confidence := Clamp01(facts[k].confidence))
  {
    if |facts| > 0 {
      var n := |facts| - 1;
      AllAdmitted(facts[..n], user, optedIn, options);
      var front := AdmittedFacts(facts[..n], user, optedIn, true).0;
      var rows := AdmittedFacts(facts, user, optedIn, true).0;
      assert rows == front + [ImportedFact(facts[n], user)];
      assert rows[..|rows| - 1] == front;
      assert Exported(rows[n], user, options);
    }
  }

  lemma {:induction false} NoRowsNoExport(rows: seq<FactRow>, user: User, options: Options)
    requires forall k | 0 <= k < |rows| :: rows[k].user != user
    ensures ExportFacts(rows, user, options) == []
  {
    if |rows| > 0 {
      NoRowsNoExport(rows[..|rows| - 1], user, options);
    }
  }

  lemma CarriedParses(e: Export)
    ensures var p := ParsePortablePayload(Carried(e));
            && (p.Ok? <==>
                  && (forall k | 0 <= k < |e.facts| :: e.facts[k].content != "")
                  && (forall k | 0 <= k < |e.skills| :: Named(e.skills[k])))
            && (p.Ok? ==> |p.value.facts| == |e.facts|)
            && (p.Ok? ==> forall k | 0 <= k < |e.facts| ::
                 p.value.facts[k] == e.facts[k].(content := Take(e.facts[k].content, 1000)))
  {
    var raw := Carried(e);
    assert forall k | 0 <= k < |e.facts| :: ParseFact(raw.facts[k]).Ok? <==> e.facts[k].content != "";
    assert forall k | 0 <= k < |e.skills| :: ParseSkill(raw.skills[k]).Ok? <==> Named(e.skills[k]);
  }

  /** What the new account exports after the import, as a list: every fact as it arrived, or nothing at all. */
  lemma TripDelivers(db: Db, e: Export, user: User, dangerous: string -> bool, options: Options)
    requires options.includeProposed && options.includeSensitive
    requires forall k | 0 <= k < |db.facts| :: db.facts[k].user != user
    ensures ExportFacts(Import(db, user, Carried(e), true, dangerous).0.facts, user, options)
            == if ParsePortablePayload(Carried(e)).Ok? then ArrivedAll(e.facts) else []
  {
    NoRowsNoExport(db.facts, user, options);
    CarriedParses(e);
    if ParsePortablePayload(Carried(e)).Ok? {
      var facts := ParsePortablePayload(Carried(e)).value.facts;
      var optedIn := user in db.optedIn;
      AllAdmitted(facts, user, optedIn, options);
      ExportFactsConcat(db.facts, AdmittedFacts(facts, user, optedIn, true).0, user, options);
    }
  }

  ghost predicate AllInRange(facts: seq<Fact>) {
    forall k | 0 <= k < |facts| :: InRange(facts[k])
  }

  ghost predicate AllNamed(skills: seq<Manifest>) {
    forall k | 0 <= k < |skills| :: Named(skills[k])
  }

  /** What goes out of one account, into another with everything allowed and out again, is as often the same. */
  ghost predicate Survives(db: Db, e: Export, user: User, dangerous: string -> bool, options: Options) {
    multiset(ExportFacts(Import(db, user, Carried(e), true, dangerous).0.facts, user, options)) == multiset(e.facts)
  }

  /**
   The round trip: an export, imported into an account without facts with everything allowed,
   and exported again with proposed and sensitive facts, holds the same facts as often exactly
   when every fact is in range and every skill beside them has its texts, or there was no fact.
   */
  lemma RoundTripIff(db: Db, e: Export, user: User, dangerous: string -> bool, options: Options)
    requires options.includeProposed && options.includeSensitive
    requires forall k | 0 <= k < |db.facts| :: db.facts[k].user != user
    ensures Survives(db, e, user, dangerous, options) <==> e.facts == [] || (AllInRange(e.facts) && AllNamed(e.skills))
  {
    TripDelivers(db, e, user, dangerous, options);
    CarriedParses(e);
    ArrivedSameIff(e.facts);
    SameSizes([], e.facts);
    if forall k | 0 <= k < |e.facts| :: InRange(e.facts[k]) {
      assert forall k | 0 <= k < |e.facts| :: e.facts[k].content != "";
    }
  }

  lemma ArrivedSameIff(facts: seq<Fact>)
    ensures (forall k | 0 <= k < |facts| :: InRange(facts[k])) ==> ArrivedAll(facts) == facts
    ensures (forall k | 0 <= k < |facts| :: facts[k].content != "") ==>
              (multiset(ArrivedAll(facts)) == multiset(facts) ==> forall k | 0 <= k < |facts| :: InRange(facts[k]))
  {
    if forall k | 0 <= k < |facts| :: facts[k].content != "" {
      ArrivedInRange(facts);
    }
  }

  lemma SameSizes(a: seq<Fact>, b: seq<Fact>)
    ensures multiset(a) == multiset(b) ==> |a| == |b|
  {
    assert |multiset(a)| == |a| && |multiset(b)| == |b|;
  }

  /** What arrives from texts that are not empty is in range, so an out-of-range fact is not among it. */
  lemma ArrivedInRange(facts: seq<Fact>)
    requires forall k | 0 <= k < |facts| :: facts[k].content != ""
    ensures multiset(ArrivedAll(facts)) == multiset(facts) ==> forall k | 0 <= k < |facts| :: InRange(facts[k])
  {
    var arrived := ArrivedAll(facts);
    if multiset(arrived) == multiset(facts) {
      forall k | 0 <= k < |facts| ensures InRange(facts[k]) {
        assert facts[k] in multiset(facts);
        assert facts[k] in multiset(arrived);
        var j :| 0 <= j < |arrived| && arrived[j] == facts[k];
      }
    }
  }

  // ---- the round trip of a table ----------------------------------------------------------------------

  predicate NothingToSend(rows: seq<FactRow>, user: User, options: Options) {
    forall k | 0 <= k < |rows| :: !Exported(rows[k], user, options)
  }

  predicate SendsInRange(rows: seq<FactRow>, user: User, options: Options) {
    forall k | 0 <= k < |rows| :: Exported(rows[k], user, options) ==> InRange(FactOf(rows[k]))
  }

  predicate SendsNamed(rows: seq<SkillRow>, user: User) {
    forall k | 0 <= k < |rows| :: rows[k].user == user && rows[k].status == SkillEnabled ==> Named(rows[k].manifest)
  }

  lemma {:induction false} SentFacts(rows: seq<FactRow>, user: User, options: Options)
    ensures var facts := ExportFacts(rows, user, options);
            && (facts == [] <==> NothingToSend(rows, user, options))
            && (AllInRange(facts) <==> SendsInRange(rows, user, options))
  {
    if |rows| > 0 {
      var n := |rows| - 1;
      var front := ExportFacts(rows[..n], user, options);
      SentFacts(rows[..n], user, options);
      assert forall k | 0 <= k < n :: rows[k] == rows[..n][k];
      if Exported(rows[n], user, options) {
        assert ExportFacts(rows, user, options) == front + [FactOf(rows[n])];
        AllOfSnoc(front, FactOf(rows[n]));
      } else {
        assert ExportFacts(rows, user, options) == front + [] == front;
      }
    }
  }

  lemma AllOfSnoc(front: seq<Fact>, last: Fact)
    ensures AllInRange(front + [last]) <==> AllInRange(front) && InRange(last)
  {
    var facts := front + [last];
    assert facts[|front|] == last && forall k | 0 <= k < |front| :: facts[k] == front[k];
  }

  lemma AllNamedSnoc(front: seq<Manifest>, last: Manifest)
    ensures AllNamed(front + [last]) <==> AllNamed(front) && Named(last)
  {
    var skills := front + [last];
    assert skills[|front|] == last && forall k | 0 <= k < |front| :: skills[k] == front[k];
  }

  lemma {:induction false} SentSkills(rows: seq<SkillRow>, user: User)
    ensures AllNamed(ExportSkills(rows, user)) <==> SendsNamed(rows, user)
  {
    if |rows| > 0 {
      var n := |rows| - 1;
      var front, last := ExportSkills(rows[..n], user), rows[n].manifest;
      SentSkills(rows[..n], user);
      assert forall k | 0 <= k < n :: rows[k] == rows[..n][k];
      if rows[n].user == user && rows[n].status == SkillEnabled {
        assert ExportSkills(rows, user) == front + [last];
        AllNamedSnoc(front, last);
      } else {
        assert ExportSkills(rows, user) == front + [] == front;
      }
    }
  }

  /**
   The same of what is stored: what one account exports comes back unchanged from another one
   exactly when each fact that goes out is in range and each enabled skill has its texts, or
   no fact goes out.
   */
  lemma TableRoundTripIff(db: Db, from: User, given: Options, user: User, dangerous: string -> bool, options: Options)
    requires options.includeProposed && options.includeSensitive
    requires forall k | 0 <= k < |db.facts| :: db.facts[k].user != user
    ensures Survives(db, ExportMemorySkills(db, from, given), user, dangerous, options) <==>
            || NothingToSend(db.facts, from, given)
            || (SendsInRange(db.facts, from, given) && SendsNamed(db.skills, from))
  {
    var sent := ExportMemorySkills(db, from, given);
    RoundTripIff(db, sent, user, dangerous, options);
    SentFacts(db.facts, from, given);
    SentSkills(db.skills, from);
    assert sent.facts == ExportFacts(db.facts, from, given) && sent.skills == ExportSkills(db.skills, from);
  }

  /** A confirmed fact of more than 1000 characters, the only one there is, comes back shorter. */
  lemma LongFactIsCut(content: string, dangerous: string -> bool)
    requires |content| > 1000
    ensures var db := Db([FactRow(0, OtherKind(""), content, 0.5, Low, Confirmed)], [], {});
            var options := Options(true, true, true);
            !Survives(db, ExportMemorySkills(db, 0, options), 1, dangerous, options)
  {
    var db := Db([FactRow(0, OtherKind(""), content, 0.5, Low, Confirmed)], [], {});
    var options := Options(true, true, true);
    assert Exported(db.facts[0], 0, options) && !InRange(FactOf(db.facts[0]));
    TableRoundTripIff(db, 0, options, 1, dangerous, options);
  }

  // ---- what goes out, and what comes in ---------------------------------------------------------------

  /** A fact that this account sends so: confirmed, or of another status that is asked for; sensitive only if asked. */
  function SendsAs(user: User, options: Options, f: Fact): FactRow -> bool {
    (row: FactRow) =>
      && row.user == user && Fact(row.kind, row.content, row.confidence, row.sensitivity) == f
      && (match row.status
          case Confirmed => true
          case Proposed => options.includeProposed
          case Rejected => options.includeRejected
          case Expired => false)
      && (row.sensitivity != Sensitive || options.includeSensitive)
  }

  lemma SendsIff(row: FactRow, user: User, options: Options, f: Fact)
    ensures SendsAs(user, options, f)(row) <==> Exported(row, user, options) && FactOf(row) == f
  {
  }

  lemma OneMore<T>(front: seq<T>, last: T, x: T)
    ensures multiset(front + [last])[x] == multiset(front)[x] + if last == x then 1 else 0
  {
  }

  /** Each fact goes out as often as the account has it to send. */
  lemma {:induction false} ExportsExactly(rows: seq<FactRow>, user: User, options: Options, f: Fact)
    ensures multiset(ExportFacts(rows, user, options))[f] == |Places(rows, SendsAs(user, options, f))|
  {
    CountIsSize(rows, SendsAs(user, options, f));
    if |rows| > 0 {
      var n := |rows| - 1;
      var front := ExportFacts(rows[..n], user, options);
      ExportsExactly(rows[..n], user, options, f);
      CountIsSize(rows[..n], SendsAs(user, options, f));
      SendsIff(rows[n], user, options, f);
      OneMore(front, FactOf(rows[n]), f);
      assert front + [] == front;
    }
  }

  function IsEnabled(user: User, m: Manifest): SkillRow -> bool {
    (row: SkillRow) => row == SkillRow(user, m, SkillEnabled)
  }

  /** Each skill goes out as often as the account has it enabled. */
  lemma {:induction false} ExportsSkillsExactly(rows: seq<SkillRow>, user: User, m: Manifest)
    ensures multiset(ExportSkills(rows, user))[m] == |Places(rows, IsEnabled(user, m))|
  {
    CountIsSize(rows, IsEnabled(user, m));
    if |rows| > 0 {
      var n := |rows| - 1;
      var front := ExportSkills(rows[..n], user);
      ExportsSkillsExactly(rows[..n], user, m);
      CountIsSize(rows[..n], IsEnabled(user, m));
      OneMore(front, rows[n].manifest, m);
      assert front + [] == front;
    }
  }

  /** What is read of a fact: its text cut, half confidence and low sensitivity where none is given. */
  lemma FactIsRead(raw: RawFact)
    ensures var r := ParseFact(raw);
            && (r.Ok? <==> raw.kind.Some? && raw.content != "") && (r.Err? ==> r.error == InvalidFact)
            && (r.Ok? ==>
                  && Some(r.value.kind) == raw.kind
                  && r.value.content == (if |raw.content| <= 1000 then raw.content else raw.content[..1000])
                  && r.value.confidence == (if raw.confidence.Some? then raw.confidence.value else 0.5)
                  && r.value.sensitivity == (if raw.sensitivity.Some? then raw.sensitivity.value else Low))
  {
  }

  /** The text, or its first `n` characters. */
  ghost predicate IsCut(cut: string, text: string, n: nat) {
    cut <= text && |cut| == Min(n, |text|)
  }

  /** What is read of a skill: its texts cut, the first twenty steps, and low risk where none is given. */
  lemma SkillIsRead(raw: RawSkill)
    ensures var r := ParseSkill(raw);
            && (r.Ok? <==> raw.name != "" && raw.description != "" && raw.trigger != "" && raw.steps.Some?)
            && (r.Err? ==> r.error == InvalidSkill)
            && (r.Ok? ==>
                  && IsCut(r.value.name, raw.name, 120) && IsCut(r.value.description, raw.description, 500)
                  && IsCut(r.value.trigger, raw.trigger, 250)
                  && |r.value.steps| == Min(20, |raw.steps.value|)
                  && (forall k | 0 <= k < |r.value.steps| :: IsCut(r.value.steps[k], raw.steps.value[k], 500))
                  && r.value.risk == (if raw.risk.Some? then raw.risk.value else LowRisk))
  {
  }

  ghost predicate FactsComplete(facts: seq<RawFact>) {
    forall k | 0 <= k < |facts| :: facts[k].kind.Some? && facts[k].content != ""
  }

  ghost predicate SkillsComplete(skills: seq<RawSkill>) {
    forall k | 0 <= k < |skills| ::
      skills[k].name != "" && skills[k].description != "" && skills[k].trigger != "" && skills[k].steps.Some?
  }

  /** An import is refused, and changes nothing, exactly for the first of these faults of its payload. */
  lemma RefusedImportIff(db: Db, user: User, payload: Payload, allow: bool, dangerous: string -> bool)
    ensures var (after, r) := Import(db, user, payload, allow, dangerous);
            && (r.Err? ==> after == db)
            && (r == Err(InvalidPayload) <==> payload.NotAnObject?)
            && (r == Err(UnsupportedSchema) <==> payload.Object? && !payload.knownSchema)
            && (r == Err(InvalidFact) <==> payload.Object? && payload.knownSchema && !FactsComplete(payload.facts))
            && (r == Err(InvalidSkill) <==>
                  && payload.Object? && payload.knownSchema
                  && FactsComplete(payload.facts) && !SkillsComplete(payload.skills))
  {
  }

  // ---- what enters --------------------------------------------------------------------------------------

  /** The fact enters as this row: proposed, with its confidence clamped, unless it takes a consent that is missing. */
  function EntersAs(user: User, optedIn: bool, allow: bool, row: FactRow): Fact -> bool {
    (f: Fact) =>
      && (allow || (f.sensitivity != Sensitive && (f.kind != StressSupportPreference || optedIn)))
      && row == FactRow(user, f.kind, f.content, RealMax(0.0, RealMin(1.0, f.confidence)), f.sensitivity, Proposed)
  }

  /** The fact stays out for this reason. */
  function StaysOut(optedIn: bool, allow: bool, w: Warning): Fact -> bool {
    (f: Fact) =>
      && !allow
      && match w
         case SensitiveSkipped => f.sensitivity == Sensitive
         case StressSupportSkipped => f.sensitivity != Sensitive && f.kind == StressSupportPreference && !optedIn
         case SkillSkipped(_) => false
  }

  /** Every fact enters as its row or leaves its warning, each as often as it is there. */
  lemma {:induction false} FactsEnter(facts: seq<Fact>, user: User, optedIn: bool, allow: bool, row: FactRow,
                                      w: Warning)
    ensures var (rows, warnings) := AdmittedFacts(facts, user, optedIn, allow);
            && multiset(rows)[row] == Count(facts, EntersAs(user, optedIn, allow, row))
            && multiset(warnings)[w] == Count(facts, StaysOut(optedIn, allow, w))
  {
    if |facts| > 0 {
      FactsEnter(facts[..|facts| - 1], user, optedIn, allow, row, w);
    }
  }

  function SkillEntersAs(user: User, dangerous: string -> bool, row: SkillRow): Manifest -> bool {
    (m: Manifest) => row == SkillRow(user, m, SkillProposed) && !HasDanger(m, dangerous)
  }

  predicate HasDanger(m: Manifest, dangerous: string -> bool) {
    || dangerous(m.name) || dangerous(m.description) || dangerous(m.trigger)
    || exists k | 0 <= k < |m.steps| :: dangerous(m.steps[k])
  }

  function SkillStaysOut(dangerous: string -> bool, w: Warning): Manifest -> bool {
    (m: Manifest) => HasDanger(m, dangerous) && w == SkillSkipped(m.name)
  }

  lemma {:induction false} SkillsEnter(skills: seq<Manifest>, user: User, dangerous: string -> bool, row: SkillRow,
                                       w: Warning)
    ensures var (rows, warnings) := AdmittedSkills(skills, user, dangerous);
            && multiset(rows)[row] == Count(skills, SkillEntersAs(user, dangerous, row))
            && multiset(warnings)[w] == Count(skills, SkillStaysOut(dangerous, w))
  {
    if |skills| > 0 {
      var m := skills[|skills| - 1];
      SkillsEnter(skills[..|skills| - 1], user, dangerous, row, w);
      assert HasDanger(m, dangerous) <==> !Safe(m, dangerous);
    }
  }

  /** An import adds those rows behind what is there, changes nothing else, and reports how many of each. */
  lemma ImportOutcome(db: Db, user: User, payload: Payload, allow: bool, dangerous: string -> bool)
    requires ParsePortablePayload(payload).Ok?
    ensures var (after, r) := Import(db, user, payload, allow, dangerous);
            var e := ParsePortablePayload(payload).value;
            var (facts, factWarnings) := AdmittedFacts(e.facts, user, user in db.optedIn, allow);
            var (skills, skillWarnings) := AdmittedSkills(e.skills, user, dangerous);
            && after == Db(db.facts + facts, db.skills + skills, db.optedIn)
            && r == Ok(Report(|facts|, |factWarnings|, |skills|, |skillWarnings|, factWarnings + skillWarnings))
  {
  }
}
