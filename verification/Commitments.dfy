/** Dropping repeated commitments from one text, and storing those of a saved session. */
module Commitments {
  import opened Prelude
  import opened Text

  /** A commitment found in a text. The day is the printed date of its due instant. */
  datatype Proposal = Proposal(title: string, dueDay: Option<string>, counterparty: Option<string>)

  /** The host's case folding stays a parameter: nothing below depends on what it does. */
  type Lower = string -> string

  predicate StartsWith(s: string, prefix: string) {
    prefix <= s
  }

  /** `replace(/^(the|a|an)\s+/, "")`. */
  function StripArticle(s: string): string {
    var n := if StartsWith(s, "the") && SpaceLen(s[3..]) > 0 then 3
             else if StartsWith(s, "a") && SpaceLen(s[1..]) > 0 then 1
             else if StartsWith(s, "an") && SpaceLen(s[2..]) > 0 then 2
             else 0;
    if n == 0 then s else s[n + SpaceLen(s[n..])..]
  }

  function TitleOf(p: Proposal, lower: Lower): string {
    StripArticle(lower(p.title))
  }

  function KeyOf(p: Proposal, lower: Lower): string {
    TitleOf(p, lower) + "|" + p.dueDay.GetOr("") + "|" + p.counterparty.GetOr("")
  }

  /** `split("|")[0]`. */
  function Head(key: string): string {
    if key == "" || key[0] == '|' then "" else [key[0]] + Head(key[1..])
  }

  predicate OccursAt(s: string, t: string, i: nat) {
    i + |t| <= |s| && s[i..i + |t|] == t
  }

  /** `includes`. */
  predicate Contains(s: string, t: string) {
    exists i: nat | i <= |s| :: OccursAt(s, t, i)
  }

  /** A retained key that makes a later value redundant. */
  predicate Broader(key: string, p: Proposal, lower: Lower) {
    Contains(key, TitleOf(p, lower)) || Contains(KeyOf(p, lower), Head(key))
  }

  predicate AnyBroader(seen: set<string>, p: Proposal, lower: Lower) {
    exists key | key in seen :: Broader(key, p, lower)
  }

  /** The values a filter keeps that starts with the keys in `seen`. */
  function DedupeFrom(values: seq<Proposal>, seen: set<string>, lower: Lower): seq<Proposal> {
    if |values| == 0 then []
    else if AnyBroader(seen, values[0], lower) then DedupeFrom(values[1..], seen, lower)
    else [values[0]] + DedupeFrom(values[1..], seen + {KeyOf(values[0], lower)}, lower)
  }

  function Dedupe(values: seq<Proposal>, lower: Lower): seq<Proposal> {
    DedupeFrom(values, {}, lower)
  }

  lemma KeyContainsTitle(p: Proposal, lower: Lower)
    ensures Contains(KeyOf(p, lower), TitleOf(p, lower)) && KeyOf(p, lower) != ""
  {
    assert OccursAt(KeyOf(p, lower), TitleOf(p, lower), 0);
  }

  method DedupeCommitments(values: seq<Proposal>, lower: Lower) returns (kept: seq<Proposal>)
    ensures kept == Dedupe(values, lower)
  {
    var seen: set<string> := {};
    kept := [];
    for i := 0 to |values|
      invariant kept + DedupeFrom(values[i..], seen, lower) == Dedupe(values, lower)
    {
      var value := values[i];
      var key := KeyOf(value, lower);
      assert values[i..][0] == value && values[i..][1..] == values[i + 1..];
      ghost var rest := DedupeFrom(values[i..], seen, lower);
      if exists candidate | candidate in seen :: Broader(candidate, value, lower) {
        assert rest == DedupeFrom(values[i + 1..], seen, lower);
      } else {
        // The source tests here whether the very same key was seen; that cannot be.
        assert key !in seen by { KeyContainsTitle(value, lower); }
        seen := seen + {key};
        assert rest == [value] + DedupeFrom(values[i + 1..], seen, lower);
        kept := kept + [value];
      }
    }
  }

  // ---- what is kept and what is dropped ------------------------------------------------

  /** An earlier value whose key would make a later one redundant. */
  predicate Covers(p: Proposal, q: Proposal, lower: Lower) {
    Broader(KeyOf(p, lower), q, lower)
  }

  /** A position is kept when no kept position before it covers its value. */
  predicate Kept(values: seq<Proposal>, i: nat, lower: Lower)
    requires i < |values|
    decreases i
  {
    forall j: nat | j < i && Kept(values, j, lower) :: !Covers(values[j], values[i], lower)
  }

  function Keeper(values: seq<Proposal>, lower: Lower): nat -> bool {
    (j: nat) => j < |values| && Kept(values, j, lower)
  }

  /** The values from `i` on at positions that are to be kept, in order. */
  function Selected<T>(values: seq<T>, i: nat, keep: nat -> bool): seq<T>
    requires i <= |values|
    decreases |values| - i
  {
    if i == |values| then []
    else if keep(i) then [values[i]] + Selected(values, i + 1, keep)
    else Selected(values, i + 1, keep)
  }

  /** The values at kept positions, in order. */
  function KeptValues(values: seq<Proposal>, lower: Lower): seq<Proposal> {
    Selected(values, 0, Keeper(values, lower))
  }

  /** The keys of the values before `i` at positions that are to be kept. */
  function KeysBefore(values: seq<Proposal>, i: nat, keep: nat -> bool, lower: Lower): set<string>
    requires i <= |values|
    decreases i
  {
    if i == 0 then {}
    else if keep(i - 1) then KeysBefore(values, i - 1, keep, lower) + {KeyOf(values[i - 1], lower)}
    else KeysBefore(values, i - 1, keep, lower)
  }

  lemma {:induction false} KeysBeforeIff(values: seq<Proposal>, i: nat, keep: nat -> bool, lower: Lower, key: string)
    requires i <= |values|
    ensures key in KeysBefore(values, i, keep, lower)
            <==> exists j: nat :: j < i && keep(j) && KeyOf(values[j], lower) == key
    decreases i
  {
    if i > 0 {
      KeysBeforeIff(values, i - 1, keep, lower, key);
    }
  }

  /** A choice of positions that keeps each value exactly when no key kept before it makes it redundant. */
  ghost predicate Decides(values: seq<Proposal>, keep: nat -> bool, lower: Lower) {
    forall i: nat | i < |values| :: keep(i) <==> !AnyBroader(KeysBefore(values, i, keep, lower), values[i], lower)
  }

  lemma KeeperDecides(values: seq<Proposal>, lower: Lower)
    ensures Decides(values, Keeper(values, lower), lower)
  {
    var keep := Keeper(values, lower);
    forall i: nat | i < |values|
      ensures keep(i) <==> !AnyBroader(KeysBefore(values, i, keep, lower), values[i], lower)
    {
      KeeperDecidesAt(values, i, lower);
    }
  }

  lemma KeeperDecidesAt(values: seq<Proposal>, i: nat, lower: Lower)
    requires i < |values|
    ensures Kept(values, i, lower)
            <==> !AnyBroader(KeysBefore(values, i, Keeper(values, lower), lower), values[i], lower)
  {
    var keep := Keeper(values, lower);
    var seen := KeysBefore(values, i, keep, lower);
    if AnyBroader(seen, values[i], lower) {
      var key :| key in seen && Broader(key, values[i], lower);
      KeysBeforeIff(values, i, keep, lower, key);
      var j: nat :| j < i && keep(j) && KeyOf(values[j], lower) == key;
      assert Covers(values[j], values[i], lower);
    }
    if !Kept(values, i, lower) {
      var j: nat :| j < i && Kept(values, j, lower) && Covers(values[j], values[i], lower);
      assert keep(j);
      KeysBeforeIff(values, i, keep, lower, KeyOf(values[j], lower));
    }
  }

  lemma {:induction false} DedupeFromSelects(values: seq<Proposal>, i: nat, keep: nat -> bool, lower: Lower)
    requires i <= |values| && Decides(values, keep, lower)
    ensures DedupeFrom(values[i..], KeysBefore(values, i, keep, lower), lower) == Selected(values, i, keep)
    decreases |values| - i
  {
    if i < |values| {
      assert values[i..][0] == values[i] && values[i..][1..] == values[i + 1..];
      DedupeFromSelects(values, i + 1, keep, lower);
    }
  }

  /**
   The filter keeps, in order, exactly the values that no kept value before them covers; so
   everything dropped has an earlier kept witness.
   */
  lemma DedupeIsKept(values: seq<Proposal>, lower: Lower)
    ensures Dedupe(values, lower) == KeptValues(values, lower)
    ensures forall i: nat | i < |values| && !Kept(values, i, lower) ::
              exists j: nat :: j < i && Kept(values, j, lower) && Covers(values[j], values[i], lower)
  {
    KeeperDecides(values, lower);
    DedupeFromSelects(values, 0, Keeper(values, lower), lower);
    assert values[0..] == values;
  }

  /** The positions from `i` on that are to be kept, in order. */
  function Positions(n: nat, i: nat, keep: nat -> bool): (at: seq<nat>)
    requires i <= n
    ensures forall a | 0 <= a < |at| :: i <= at[a] < n && keep(at[a])
    ensures forall a, b | 0 <= a < b < |at| :: at[a] < at[b]
    decreases n - i
  {
    if i == n then []
    else if keep(i) then [i] + Positions(n, i + 1, keep)
    else Positions(n, i + 1, keep)
  }

  lemma {:induction false} SelectedAtPositions<T>(values: seq<T>, i: nat, keep: nat -> bool)
    requires i <= |values|
    ensures |Selected(values, i, keep)| == |Positions(|values|, i, keep)|
    ensures forall a | 0 <= a < |Selected(values, i, keep)| ::
              Selected(values, i, keep)[a] == values[Positions(|values|, i, keep)[a]]
    decreases |values| - i
  {
    if i < |values| {
      SelectedAtPositions(values, i + 1, keep);
    }
  }

  lemma KeptApart(values: seq<Proposal>, a: nat, b: nat, lower: Lower)
    requires a < b < |KeptValues(values, lower)|
    ensures !Covers(KeptValues(values, lower)[a], KeptValues(values, lower)[b], lower)
  {
    var keep := Keeper(values, lower);
    SelectedAtPositions(values, 0, keep);
    var at := Positions(|values|, 0, keep);
    assert keep(at[a]) && keep(at[b]);
  }

  /** No later retained title occurs in an earlier retained key, and no earlier one in a later key. */
  lemma RetainedAreApart(values: seq<Proposal>, lower: Lower, a: nat, b: nat)
    requires a < b < |Dedupe(values, lower)|
    ensures var p, q := Dedupe(values, lower)[a], Dedupe(values, lower)[b];
            && !Contains(KeyOf(p, lower), TitleOf(q, lower))
            && !Contains(KeyOf(q, lower), Head(KeyOf(p, lower)))
            && !Contains(KeyOf(q, lower), TitleOf(p, lower))
            && KeyOf(p, lower) != KeyOf(q, lower)
  {
    DedupeIsKept(values, lower);
    KeptApart(values, a, b, lower);
    var p, q := Dedupe(values, lower)[a], Dedupe(values, lower)[b];
    KeyContainsTitle(q, lower);
    HeadStartsTitle(p, lower);
    if Contains(KeyOf(q, lower), TitleOf(p, lower)) {
      ContainsPrefix(KeyOf(q, lower), TitleOf(p, lower), Head(KeyOf(p, lower)));
      assert false;
    }
  }

  lemma ContainsPrefix(s: string, t: string, u: string)
    requires Contains(s, t) && u <= t
    ensures Contains(s, u)
  {
    var i: nat :| i <= |s| && OccursAt(s, t, i);
    assert s[i..i + |u|] == s[i..i + |t|][..|u|];
    assert OccursAt(s, u, i);
  }

  lemma {:induction false} HeadIsPrefix(s: string)
    ensures Head(s) <= s
  {
    if |s| > 0 {
      HeadIsPrefix(s[1..]);
    }
  }

  lemma {:induction false} HeadOfConcat(s: string, t: string)
    ensures '|' !in s ==> Head(s + "|" + t) == s
    ensures '|' in s ==> |Head(s + "|" + t)| < |s|
  {
    if |s| > 0 {
      var u := s[1..];
      assert (s + "|" + t)[1..] == u + "|" + t;
      HeadOfConcat(u, t);
      assert s == [s[0]] + u;
    }
  }

  /** What the filter reads back from a key starts the title, and is all of it unless that has a bar. */
  lemma HeadStartsTitle(p: Proposal, lower: Lower)
    ensures Head(KeyOf(p, lower)) <= TitleOf(p, lower)
    ensures Head(KeyOf(p, lower)) == TitleOf(p, lower) <==> '|' !in TitleOf(p, lower)
  {
    var t := p.dueDay.GetOr("") + "|" + p.counterparty.GetOr("");
    assert KeyOf(p, lower) == TitleOf(p, lower) + "|" + t;
    HeadOfConcat(TitleOf(p, lower), t);
    HeadIsPrefix(KeyOf(p, lower));
  }

  lemma {:induction false} DedupeFromApart(values: seq<Proposal>, seen: set<string>, lower: Lower)
    requires forall i, key | 0 <= i < |values| && key in seen :: !Broader(key, values[i], lower)
    requires forall a, b | 0 <= a < b < |values| :: !Broader(KeyOf(values[a], lower), values[b], lower)
    ensures DedupeFrom(values, seen, lower) == values
  {
    if |values| > 0 {
      DedupeFromApart(values[1..], seen + {KeyOf(values[0], lower)}, lower);
    }
  }

  /** Filtering again changes nothing. */
  lemma DedupeIdempotent(values: seq<Proposal>, lower: Lower)
    ensures Dedupe(Dedupe(values, lower), lower) == Dedupe(values, lower)
  {
    DedupeIsKept(values, lower);
    var kept := Dedupe(values, lower);
    forall a, b | 0 <= a < b < |kept| ensures !Broader(KeyOf(kept[a], lower), kept[b], lower) {
      KeptApart(values, a, b, lower);
    }
    DedupeFromApart(kept, {}, lower);
  }

  // ---- storing the commitments of a saved session --------------------------------------

  /** A stored commitment, with the columns that decide what is stored again. */
  datatype Row = Row(user: string, session: Option<string>, dedupeKey: Option<string>, proposal: Proposal)

  datatype SessionStatus = Live | Saved | Discarded

  predicate HasKey(key: Option<string>) {
    key.Some? && key.value != ""
  }

  predicate KeyStored(rows: seq<Row>, user: string, session: string, key: string) {
    exists k | 0 <= k < |rows| ::
      rows[k].user == user && rows[k].session == Some(session) && rows[k].dedupeKey == Some(key)
  }

  /** A value without a key, or with one that is not stored for this session. */
  predicate IsFresh(rows: seq<Row>, v: Row, user: string, session: string) {
    !(HasKey(v.dedupeKey) && KeyStored(rows, user, session, v.dedupeKey.value))
  }

  /** The fresh ones among the extracted values. */
  function Fresh(rows: seq<Row>, values: seq<Row>, user: string, session: string): seq<Row> {
    if |values| == 0 then []
    else if IsFresh(rows, values[0], user, session) then [values[0]] + Fresh(rows, values[1..], user, session)
    else Fresh(rows, values[1..], user, session)
  }

  /** The values a session's transcript gives all belong to that user and session. */
  predicate ExtractedFor(values: seq<Row>, user: string, session: string) {
    forall i | 0 <= i < |values| :: values[i].user == user && values[i].session == Some(session)
  }

  class CommitmentTable {
    var rows: seq<Row>

    constructor ()
      ensures rows == []
    {
      rows := [];
    }

    method ProposeFromSavedSession(user: string, session: string, status: Option<SessionStatus>, values: seq<Row>)
        returns (inserted: seq<Row>)
      requires ExtractedFor(values, user, session)
      modifies this
      ensures inserted == if status == Some(Saved) then Fresh(old(rows), values, user, session) else []
      ensures rows == old(rows) + inserted
      ensures forall v ::
                v in inserted <==> status == Some(Saved) && v in values && IsFresh(old(rows), v, user, session)
    {
      if status != Some(Saved) {
        return [];
      }
      FreshMembers(rows, values, user, session);
      inserted := Fresh(rows, values, user, session);
      rows := rows + inserted;
    }
  }

  lemma {:induction false} FreshMembers(rows: seq<Row>, values: seq<Row>, user: string, session: string)
    ensures forall v :: v in Fresh(rows, values, user, session)
              <==> v in values && IsFresh(rows, v, user, session)
  {
    if |values| > 0 {
      FreshMembers(rows, values[1..], user, session);
      assert forall v :: v in values <==> v == values[0] || v in values[1..];
    }
  }

  /** The values without a key, which no later call can recognise. */
  function Keyless(values: seq<Row>): seq<Row> {
    if |values| == 0 then []
    else (if HasKey(values[0].dedupeKey) then [] else [values[0]]) + Keyless(values[1..])
  }

  lemma {:induction false} FreshWhenStored(rows: seq<Row>, values: seq<Row>, user: string, session: string)
    requires forall v | v in values && HasKey(v.dedupeKey) :: KeyStored(rows, user, session, v.dedupeKey.value)
    ensures Fresh(rows, values, user, session) == Keyless(values)
  {
    if |values| > 0 {
      assert values[0] in values && forall v | v in values[1..] :: v in values;
      FreshWhenStored(rows, values[1..], user, session);
    }
  }

  /**
   Proposing again from the same session with the same extraction stores exactly the values
   without a key; as extraction always makes one, it stores nothing.
   */
  lemma ProposingAgain(rows: seq<Row>, values: seq<Row>, user: string, session: string)
    requires ExtractedFor(values, user, session)
    ensures Fresh(rows + Fresh(rows, values, user, session), values, user, session) == Keyless(values)
    ensures (forall v | v in values :: HasKey(v.dedupeKey)) ==> Keyless(values) == []
  {
    var added := Fresh(rows, values, user, session);
    var after := rows + added;
    FreshMembers(rows, values, user, session);
    forall v | v in values && HasKey(v.dedupeKey) ensures KeyStored(after, user, session, v.dedupeKey.value) {
      if v in added {
        var k :| 0 <= k < |added| && added[k] == v;
        assert after[|rows| + k] == v;
      } else {
        var k :| 0 <= k < |rows| && rows[k].user == user && rows[k].session == Some(session)
            && rows[k].dedupeKey == Some(v.dedupeKey.value);
        assert after[k] == rows[k];
      }
    }
    FreshWhenStored(after, values, user, session);
    KeylessMembers(values);
  }

  lemma {:induction false} KeylessMembers(values: seq<Row>)
    ensures (forall v | v in values :: HasKey(v.dedupeKey)) ==> Keyless(values) == []
  {
    if |values| > 0 {
      assert values[0] in values && forall v | v in values[1..] :: v in values;
      KeylessMembers(values[1..]);
    }
  }

  /** The key an extracted commitment carries: slug, day, counterparty. It is never empty. */
  function DedupeKey(title: string, dueDay: Option<string>, counterparty: Option<string>,
                     slug: string -> string): (key: string)
    ensures HasKey(Some(key))
  {
    slug(title) + "|" + dueDay.GetOr("no-date") + "|" + counterparty.GetOr("none")
  }

  ghost predicate KeysUnique(rows: seq<Row>, user: string, session: string) {
    forall a, b | 0 <= a < b < |rows| && Keyed(rows[a], user, session) && Keyed(rows[b], user, session) ::
      rows[a].dedupeKey != rows[b].dedupeKey
  }

  predicate Keyed(row: Row, user: string, session: string) {
    row.user == user && row.session == Some(session) && HasKey(row.dedupeKey)
  }

  /** Values that share a key have one that is stored already. */
  ghost predicate NewKeysDiffer(rows: seq<Row>, values: seq<Row>, user: string, session: string) {
    forall a, b | 0 <= a < b < |values| && HasKey(values[a].dedupeKey) && values[a].dedupeKey == values[b].dedupeKey ::
      KeyStored(rows, user, session, values[a].dedupeKey.value)
  }

  lemma NewKeysDifferCons(rows: seq<Row>, v: Row, rest: seq<Row>, user: string, session: string)
    ensures NewKeysDiffer(rows, [v] + rest, user, session)
       <==> && NewKeysDiffer(rows, rest, user, session)
            && (HasKey(v.dedupeKey) && IsFresh(rows, v, user, session)
               ==> forall w | w in rest :: w.dedupeKey != v.dedupeKey)
  {
    var values := [v] + rest;
    if NewKeysDiffer(rows, values, user, session) {
      forall a, b | 0 <= a < b < |rest| && HasKey(rest[a].dedupeKey) && rest[a].dedupeKey == rest[b].dedupeKey
        ensures KeyStored(rows, user, session, rest[a].dedupeKey.value)
      {
        assert values[a + 1] == rest[a] && values[b + 1] == rest[b];
      }
      forall w | w in rest && HasKey(v.dedupeKey) && IsFresh(rows, v, user, session)
        ensures w.dedupeKey != v.dedupeKey
      {
        var b :| 0 <= b < |rest| && rest[b] == w;
        assert values[0] == v && values[b + 1] == w;
      }
    }
  }

  lemma KeysUniqueCons(v: Row, rest: seq<Row>, user: string, session: string)
    ensures KeysUnique([v] + rest, user, session)
       <==> && KeysUnique(rest, user, session)
            && (Keyed(v, user, session)
               ==> forall w | w in rest && Keyed(w, user, session) :: w.dedupeKey != v.dedupeKey)
  {
    var all := [v] + rest;
    if KeysUnique(all, user, session) {
      forall a, b | 0 <= a < b < |rest| && Keyed(rest[a], user, session) && Keyed(rest[b], user, session)
        ensures rest[a].dedupeKey != rest[b].dedupeKey
      {
        assert all[a + 1] == rest[a] && all[b + 1] == rest[b];
      }
      forall w | w in rest && Keyed(w, user, session) && Keyed(v, user, session) ensures w.dedupeKey != v.dedupeKey {
        var b :| 0 <= b < |rest| && rest[b] == w;
        assert all[0] == v && all[b + 1] == w;
      }
    }
  }

  /** For a fresh value, the fresh ones among the rest share its key exactly when any of the rest does. */
  lemma FreshShares(rows: seq<Row>, v: Row, rest: seq<Row>, user: string, session: string)
    requires ExtractedFor([v] + rest, user, session) && IsFresh(rows, v, user, session) && HasKey(v.dedupeKey)
    ensures (forall w | w in Fresh(rows, rest, user, session) && Keyed(w, user, session) :: w.dedupeKey != v.dedupeKey)
       <==> forall w | w in rest :: w.dedupeKey != v.dedupeKey
  {
    FreshMembers(rows, rest, user, session);
    forall w | w in rest && w.dedupeKey == v.dedupeKey
      ensures w in Fresh(rows, rest, user, session) && Keyed(w, user, session)
    {
      var i :| 0 <= i < |rest| && rest[i] == w;
      assert ([v] + rest)[i + 1] == w;
    }
  }

  lemma {:induction false} FreshUniqueIff(rows: seq<Row>, values: seq<Row>, user: string, session: string)
    requires ExtractedFor(values, user, session)
    ensures KeysUnique(Fresh(rows, values, user, session), user, session)
            <==> NewKeysDiffer(rows, values, user, session)
  {
    if |values| > 0 {
      FreshUniqueIff(rows, values[1..], user, session);
      FreshUniqueStep(rows, values[0], values[1..], user, session);
      assert values == [values[0]] + values[1..];
    }
  }

  lemma FreshUniqueStep(rows: seq<Row>, v: Row, rest: seq<Row>, user: string, session: string)
    requires ExtractedFor([v] + rest, user, session)
    requires KeysUnique(Fresh(rows, rest, user, session), user, session) <==> NewKeysDiffer(rows, rest, user, session)
    ensures KeysUnique(Fresh(rows, [v] + rest, user, session), user, session)
            <==> NewKeysDiffer(rows, [v] + rest, user, session)
  {
    var values := [v] + rest;
    assert values[0] == v && values[1..] == rest;
    NewKeysDifferCons(rows, v, rest, user, session);
    if IsFresh(rows, v, user, session) {
      assert Fresh(rows, values, user, session) == [v] + Fresh(rows, rest, user, session);
      KeysUniqueCons(v, Fresh(rows, rest, user, session), user, session);
      if HasKey(v.dedupeKey) {
        FreshShares(rows, v, rest, user, session);
      }
    } else {
      assert Fresh(rows, values, user, session) == Fresh(rows, rest, user, session);
    }
  }

  lemma UniqueAfterIff(rows: seq<Row>, values: seq<Row>, user: string, session: string)
    requires ExtractedFor(values, user, session) && KeysUnique(rows, user, session)
    ensures KeysUnique(rows + Fresh(rows, values, user, session), user, session)
       <==> KeysUnique(Fresh(rows, values, user, session), user, session)
  {
    var added := Fresh(rows, values, user, session);
    var after := rows + added;
    FreshMembers(rows, values, user, session);
    if KeysUnique(after, user, session) {
      forall a, b | 0 <= a < b < |added| && Keyed(added[a], user, session) && Keyed(added[b], user, session)
        ensures added[a].dedupeKey != added[b].dedupeKey
      {
        assert after[|rows| + a] == added[a] && after[|rows| + b] == added[b];
      }
    }
    if KeysUnique(added, user, session) {
      forall a, b | 0 <= a < b < |after| && Keyed(after[a], user, session) && Keyed(after[b], user, session)
        ensures after[a].dedupeKey != after[b].dedupeKey
      {
        if a >= |rows| {
          assert after[a] == added[a - |rows|] && after[b] == added[b - |rows|];
        } else if b >= |rows| {
          assert added[b - |rows|] in added;
          assert after[b] == added[b - |rows|] && after[a] == rows[a];
        }
      }
    }
  }

  /**
   One call keeps the keys of a session unique exactly when values of the call that share a
   key have one that is stored already: it compares them with the stored rows, not with each
   other.
   */
  lemma KeysStayUniqueIff(rows: seq<Row>, values: seq<Row>, user: string, session: string)
    requires ExtractedFor(values, user, session) && KeysUnique(rows, user, session)
    ensures KeysUnique(rows + Fresh(rows, values, user, session), user, session)
            <==> NewKeysDiffer(rows, values, user, session)
  {
    UniqueAfterIff(rows, values, user, session);
    FreshUniqueIff(rows, values, user, session);
  }

  /** Two segments of one transcript that say the same thing are both stored. */
  lemma SameCommitmentTwice(user: string, session: string, p: Proposal, key: string)
    requires key != ""
    ensures var row := Row(user, Some(session), Some(key), p);
            Fresh([], [row, row], user, session) == [row, row] && !KeysUnique([row, row], user, session)
  {
    var row := Row(user, Some(session), Some(key), p);
    assert !KeyStored([], user, session, key);
    assert [row, row][1..] == [row] && [row][1..] == [];
    assert Fresh([], [row], user, session) == [row];
    assert [row, row][0] == [row, row][1];
    assert Keyed([row, row][0], user, session) && Keyed([row, row][1], user, session);
  }

  // ---- what a key is made of ------------------------------------------------------------------------

  /** An article and white space behind it begin the title. */
  ghost predicate BeginsWithArticle(s: string, article: string) {
    article in {"the", "a", "an"} && article <= s && |article| < |s| && IsSpace(s[|article|])
  }

  lemma OneArticle(s: string, article: string)
    requires BeginsWithArticle(s, article)
    ensures StripArticle(s) == s[|article| + SpaceLen(s[|article|..])..]
  {
    assert !IsSpace('t') && !IsSpace('h') && !IsSpace('e') && !IsSpace('a') && !IsSpace('n');
    assert SpaceLen(s[|article|..]) > 0;
    if article == "an" {
      assert s[1] == "an"[1] == 'n';
      assert SpaceLen(s[1..]) == 0;
    }
  }

  lemma SpacesEnd(s: string)
    ensures forall i | 0 <= i < SpaceLen(s) :: IsSpace(s[i])
    ensures SpaceLen(s) < |s| ==> !IsSpace(s[SpaceLen(s)])
  {
    if |s| > 0 && IsSpace(s[0]) {
      SpacesEnd(s[1..]);
    }
  }

  /** One leading article goes, with all the white space behind it. */
  lemma ArticleGoes(s: string, article: string)
    requires BeginsWithArticle(s, article)
    ensures exists n: nat ::
              && |article| < n <= |s| && StripArticle(s) == s[n..]
              && (forall i | |article| <= i < n :: IsSpace(s[i])) && (n < |s| ==> !IsSpace(s[n]))
  {
    var rest := s[|article|..];
    OneArticle(s, article);
    SpacesEnd(rest);
    var n := |article| + SpaceLen(rest);
    assert forall i | |article| <= i < n :: s[i] == rest[i - |article|];
  }

  /** Any other title stays as it is. */
  lemma OtherTitlesStay(s: string)
    requires !BeginsWithArticle(s, "the") && !BeginsWithArticle(s, "a") && !BeginsWithArticle(s, "an")
    ensures StripArticle(s) == s
  {
  }

  lemma BarsApart(a: string, b: string, c: string, d: string)
    requires '|' !in a && '|' !in c && a + "|" + b == c + "|" + d
    ensures a == c && b == d
  {
    HeadOfConcat(a, b);
    HeadOfConcat(c, d);
    assert b == (a + "|" + b)[|a| + 1..] == (c + "|" + d)[|c| + 1..] == d;
  }

  /** Two values share a key exactly if they have one title, day and counterparty, as far as no bar is in those. */
  lemma SameKeyIff(p: Proposal, q: Proposal, lower: Lower)
    requires '|' !in TitleOf(p, lower) && '|' !in TitleOf(q, lower)
    requires '|' !in p.dueDay.GetOr("") && '|' !in q.dueDay.GetOr("")
    ensures KeyOf(p, lower) == KeyOf(q, lower) <==>
              && StripArticle(lower(p.title)) == StripArticle(lower(q.title))
              && p.dueDay.GetOr("") == q.dueDay.GetOr("") && p.counterparty.GetOr("") == q.counterparty.GetOr("")
  {
    var a, b, x := TitleOf(p, lower), p.dueDay.GetOr(""), p.counterparty.GetOr("");
    var c, d, y := TitleOf(q, lower), q.dueDay.GetOr(""), q.counterparty.GetOr("");
    assert KeyOf(p, lower) == a + "|" + (b + "|" + x) && KeyOf(q, lower) == c + "|" + (d + "|" + y);
    if KeyOf(p, lower) == KeyOf(q, lower) {
      BarsApart(a, b + "|" + x, c, d + "|" + y);
      BarsApart(b, x, d, y);
    }
  }

  /** The same of the keys that are stored: one slug, day and counterparty, each missing one standing for itself. */
  lemma SameDedupeKeyIff(s: string, day: Option<string>, who: Option<string>, t: string, other: Option<string>,
                         whom: Option<string>, slug: string -> string)
    requires '|' !in slug(s) && '|' !in slug(t) && '|' !in day.GetOr("") && '|' !in other.GetOr("")
    ensures DedupeKey(s, day, who, slug) == DedupeKey(t, other, whom, slug) <==>
              && slug(s) == slug(t)
              && (if day.Some? then day.value else "no-date") == (if other.Some? then other.value else "no-date")
              && (if who.Some? then who.value else "none") == (if whom.Some? then whom.value else "none")
  {
    var a, b, x := slug(s), day.GetOr("no-date"), who.GetOr("none");
    var c, d, y := slug(t), other.GetOr("no-date"), whom.GetOr("none");
    assert '|' !in "no-date";
    assert DedupeKey(s, day, who, slug) == a + "|" + (b + "|" + x);
    assert DedupeKey(t, other, whom, slug) == c + "|" + (d + "|" + y);
    if DedupeKey(s, day, who, slug) == DedupeKey(t, other, whom, slug) {
      BarsApart(a, b + "|" + x, c, d + "|" + y);
      BarsApart(b, x, d, y);
    }
  }
}
