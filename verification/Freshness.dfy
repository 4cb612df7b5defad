/** How recent a research source is. */
module Freshness {
  import opened Prelude

  /** A publication time as a provider states it: absent, unreadable, or an instant in milliseconds. */
  datatype Published = Missing | Unreadable | At(ms: int)

  const DAY := 86_400_000

  function AgeDays(ms: int, now: int): (days: real)
    ensures days >= 0.0
  {
    Max(0, now - ms) as real / DAY as real
  }

  function FreshnessScore(published: Published, maxAgeDays: int, now: int): (score: real)
    requires maxAgeDays > 0
    ensures 0.15 <= score <= 1.0
  {
    match published
    case Missing => 0.5
    case Unreadable => 0.4
    case At(ms) =>
      var age := AgeDays(ms, now);
      if age <= maxAgeDays as real / 4.0 then 1.0
      else if age <= maxAgeDays as real then
        Decayed(age, maxAgeDays as real)
      else 0.15
  }

  function Decayed(age: real, maxAge: real): (score: real)
    requires 0.0 <= age <= maxAge && maxAge > 0.0
    ensures 0.35 <= score <= 1.0
  {
    assert age / maxAge >= 0.0;
    RealMax(0.35, 1.0 - age / maxAge)
  }

  predicate SourceIsFreshEnough(published: Published, maxAgeDays: int, now: int) {
    published.At? && now - published.ms <= maxAgeDays * DAY
  }

  lemma AgeWithin(ms: int, maxAgeDays: int, now: int)
    requires maxAgeDays > 0
    ensures AgeDays(ms, now) <= maxAgeDays as real <==> now - ms <= maxAgeDays * DAY
  {
    var age := Max(0, now - ms);
    assert AgeDays(ms, now) * DAY as real == age as real;
    assert maxAgeDays as real * DAY as real == (maxAgeDays * DAY) as real;
  }

  /** The gate and the score agree: a dated source passes the gate exactly when it scores at least 0.35. */
  lemma FreshEnoughIff(published: Published, maxAgeDays: int, now: int)
    requires maxAgeDays > 0
    ensures SourceIsFreshEnough(published, maxAgeDays, now)
            <==> published.At? && FreshnessScore(published, maxAgeDays, now) >= 0.35
  {
    if published.At? {
      AgeWithin(published.ms, maxAgeDays, now);
    }
  }

  lemma DecayedMonotone(a: real, b: real, maxAge: real)
    requires 0.0 <= a <= b <= maxAge && maxAge > 0.0
    ensures Decayed(b, maxAge) <= Decayed(a, maxAge)
  {
    QuotientOrder(a, b, maxAge);
  }

  /** A later publication never scores lower. */
  lemma LaterIsNoStaler(earlier: int, later: int, maxAgeDays: int, now: int)
    requires maxAgeDays > 0 && earlier <= later
    ensures FreshnessScore(At(earlier), maxAgeDays, now) <= FreshnessScore(At(later), maxAgeDays, now)
  {
    var a, b := AgeDays(later, now), AgeDays(earlier, now);
    assert a <= b;
    if b <= maxAgeDays as real {
      DecayedMonotone(a, b, maxAgeDays as real);
    }
  }

  /**
   The score of a date: full in the first quarter of the allowed age, then falling with the age, to
   0.35 at least, and 0.15 beyond it. A missing or unreadable date is worth a fixed score.
   */
  lemma ScoreOfAge(published: Published, maxAgeDays: int, now: int)
    requires maxAgeDays > 0
    ensures var score := FreshnessScore(published, maxAgeDays, now);
            match published
            case Missing => score == 0.5
            case Unreadable => score == 0.4
            case At(ms) =>
              var age, most := Max(0, now - ms), maxAgeDays * 86_400_000;
              if 4 * age <= most then score == 1.0
              else if age <= most then score == RealMax(0.35, 1.0 - age as real / most as real)
              else score == 0.15
  {
    if published.At? {
      AgeScaled(Max(0, now - published.ms), maxAgeDays);
    }
  }

  lemma AgeScaled(age: nat, maxAgeDays: int)
    requires maxAgeDays > 0
    ensures var days, most := age as real / DAY as real, maxAgeDays * DAY;
            && (days <= maxAgeDays as real / 4.0 <==> 4 * age <= most)
            && (days <= maxAgeDays as real <==> age <= most)
            && days / maxAgeDays as real == age as real / most as real
  {
    var days, most := age as real / DAY as real, maxAgeDays * DAY;
    assert most as real == maxAgeDays as real * DAY as real;
    TwoQuotients(age as real, DAY as real, maxAgeDays as real);
  }

  lemma TwoQuotients(a: real, b: real, c: real)
    requires b > 0.0 && c > 0.0
    ensures c * b > 0.0 && a / b / c == a / (c * b)
  {
    var q := a / b / c;
    assert q * c == a / b;
    assert q * c * b == a;
    assert q * (c * b) == a;
  }
}
