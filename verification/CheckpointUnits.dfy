/** The fixed calendar units have the lengths their names say, measured by the calendar, by each other and by
    how often they fit into a year. */
module CheckpointUnits {
  import opened Wrappers
  import opened Division
  import opened Gregorian
  import opened Calendar
  import opened CheckpointGrid

  // ----- against the calendar -----

  lemma WholeDaysLater(start: nat, days: nat)
    ensures DaysOf(DateOf(start + 86400 * days)) == DaysOf(DateOf(start)) + days
    ensures TimeOfDay(start + 86400 * days) == TimeOfDay(start)
  {
    DivAddMultiple(start, SECONDS_PER_DAY, days);
    DayRoundTrip(start / SECONDS_PER_DAY);
    DayRoundTrip((start + 86400 * days) / SECONDS_PER_DAY);
  }

  lemma Scaled(k: nat, amount: nat, seconds: nat)
    ensures Times(k, Times(amount, seconds)) == seconds * Times(k, amount)
  {
    assert k * (amount * seconds) == seconds * (k * amount) by {
      Reassociate(k, amount, seconds);
    }
  }

  lemma Reassociate(k: int, a: int, c: int)
    ensures k * (a * c) == c * (k * a)
  {
    assert k * (a * c) == (k * a) * c;
  }

  /** A second schedule's points are `amount` apart. */
  lemma SecondGrid(start: nat, amount: nat, k: nat)
    ensures GridPoint(start, Period(Second, amount), k) == start + Times(k, amount)
  {
    Scaled(k, amount, 1);
  }

  /** A day schedule keeps the time of day and moves on by `amount` days. */
  lemma DayGrid(start: nat, amount: nat, k: nat)
    ensures var t := GridPoint(start, Period(Day, amount), k);
            DaysOf(DateOf(t)) == DaysOf(DateOf(start)) + Times(k, amount) && TimeOfDay(t) == TimeOfDay(start)
  {
    Scaled(k, amount, 86400);
    WholeDaysLater(start, Times(k, amount));
  }

  /** A week schedule does so by `7 * amount` days. */
  lemma WeekGrid(start: nat, amount: nat, k: nat)
    ensures var t := GridPoint(start, Period(Week, amount), k);
            DaysOf(DateOf(t)) == DaysOf(DateOf(start)) + 7 * Times(k, amount) && TimeOfDay(t) == TimeOfDay(start)
  {
    Scaled(k, amount, 604800);
    WholeDaysLater(start, 7 * Times(k, amount));
  }

  // ----- against each other -----

  /** Periods of the same length answer alike. */
  lemma SameLength(start: nat, p: Period, q: Period, now: nat)
    requires !IsVariable(p.unit) && !IsVariable(q.unit) && FixedSeconds(p) == FixedSeconds(q) && (p.amount == 0 <==> q.amount == 0)
    ensures NextCheckpointSecs(start, p, now) == NextCheckpointSecs(start, q, now)
  {
  }

  /** A week is seven days, a day 24 hours, an hour 60 minutes and a minute 60 seconds. */
  lemma UnitsConvert(start: nat, amount: nat, now: nat)
    ensures NextCheckpointSecs(start, Period(Minute, amount), now) == NextCheckpointSecs(start, Period(Second, 60 * amount), now)
    ensures NextCheckpointSecs(start, Period(Hour, amount), now) == NextCheckpointSecs(start, Period(Minute, 60 * amount), now)
    ensures NextCheckpointSecs(start, Period(Day, amount), now) == NextCheckpointSecs(start, Period(Hour, 24 * amount), now)
    ensures NextCheckpointSecs(start, Period(Week, amount), now) == NextCheckpointSecs(start, Period(Day, 7 * amount), now)
  {
    SameLength(start, Period(Minute, amount), Period(Second, 60 * amount), now);
    SameLength(start, Period(Hour, amount), Period(Minute, 60 * amount), now);
    SameLength(start, Period(Day, amount), Period(Hour, 24 * amount), now);
    SameLength(start, Period(Week, amount), Period(Day, 7 * amount), now);
  }

  // ----- against the year -----

  /** How many units a year of 365 days has room for. */
  function UnitsPerYear(unit: Unit): nat {
    match unit
    case Second => 365 * 24 * 60 * 60
    case Minute => 365 * 24 * 60
    case Hour => 365 * 24
    case Day => 365
    case Week => 52
    case Month => 12
    case Year => 1
  }

  /** The yearly frequency is that number divided by the amount, and the complexity at least two and that; a
      period that does not recur has complexity one. */
  lemma FrequencyAndComplexity(p: Period)
    ensures p.amount > 0 ==> YearlyFrequency(p) == Quotient(UnitsPerYear(p.unit), p.amount)
    ensures p.amount > 0 ==> Complexity(p) >= 2 && Complexity(p) >= YearlyFrequency(p)
                             && (Complexity(p) == 2 || Complexity(p) == YearlyFrequency(p))
    ensures p.amount == 0 ==> Complexity(p) == 1
  {
  }

  // ----- out of range -----

  lemma MonthsOnOverflow(start: Date, time: nat, months: nat)
    requires ValidDate(start)
    ensures MonthsOn(start, time, months).Overflow? <==> start.month - 1 + months >= 0x1_0000_0000
  {
  }

  /** A month schedule overflows exactly where the count of months does not fit 32 bits; wherever else it finds no
      checkpoint, there is no date to represent it. */
  lemma MonthOverflowIff(start: nat, p: Period, now: nat)
    requires p.amount > 0 && start <= now && p.unit.Month?
    ensures NextCheckpointSecs(start, p, now).Overflow? <==>
              && Representable(start) && Representable(now) && p.amount < 0x1_0000_0000
              && DateOf(start).month - 1 + Times(NextIndex(start, p, now), p.amount) >= 0x1_0000_0000
  {
    if Representable(start) && Representable(now) {
      MonthBranch(start, p, now);
      TimesCommutes(NextIndex(start, p, now), p.amount);
      MonthsOnOverflow(DateOf(start), TimeOfDay(start), Times(NextIndex(start, p, now), p.amount));
    }
  }

  /** A year schedule does so where the year does not fit 31 bits. */
  lemma YearOverflowIff(start: nat, p: Period, now: nat)
    requires p.amount > 0 && start <= now && p.unit.Year?
    ensures NextCheckpointSecs(start, p, now).Overflow? <==>
              && Representable(start) && Representable(now) && p.amount < 0x8000_0000
              && DateOf(start).year + Times(NextIndex(start, p, now), p.amount) >= 0x8000_0000
  {
    InstantOrder(start, now);
    TimesCommutes(NextIndex(start, p, now), p.amount);
  }

  // ----- what does not recur -----

  /** Without a period the start is the only checkpoint: it is next until it has come, and then there is none. */
  lemma OneOffSchedule(start: nat, unit: Unit, now: nat)
    ensures NextCheckpointSecs(start, Period(unit, 0), now) == if now < start then At(start) else Never
  {
  }

  // ----- the bound on the frequency is attained -----

  /** The `n` indices from `j` on. */
  function Indices(j: nat, n: nat): (s: set<nat>)
    ensures |s| == n && forall k :: k in s <==> j <= k < j + n
  {
    if n == 0 then {} else Indices(j, n - 1) + {j + n - 1}
  }

  lemma FixedSpread(start: nat, p: Period, j: nat, i: nat)
    requires p.amount > 0 && !IsVariable(p.unit) && i < YearlyFrequency(p)
    ensures GridPoint(start, p, j) <= GridPoint(start, p, j + i)
    ensures GridPoint(start, p, j + i) + FixedSeconds(p) <= GridPoint(start, p, j) + SecondsIn(Year)
  {
    GridGrowsWeakly(start, p, j, j + i);
    TimesDifference(j, j + i, FixedSeconds(p));
    NestedDivision(SecondsIn(Year), SecondsIn(p.unit), p.amount);
    FirstMultiplePast(SecondsIn(Year), FixedSeconds(p), i + 1);
    TimesDifference(i, i + 1, FixedSeconds(p));
  }

  lemma SubsetSize(a: set<nat>, b: set<nat>)
    requires a <= b
    ensures |a| <= |b|
  {
    assert b == a + (b - a);
  }

  /** For fixed units, 365 days that begin at or less than one period before a checkpoint hold at least as many
      checkpoints as the yearly frequency says, which with the upper bound leaves it or one more. */
  lemma FrequencyIsReached(start: nat, p: Period, from: nat, j: nat)
    requires p.amount > 0 && !IsVariable(p.unit)
    requires from <= GridPoint(start, p, j) < from + FixedSeconds(p)
    ensures var n := |InYearFrom(start, p, from, j + YearlyFrequency(p) + 1)|;
            YearlyFrequency(p) <= n <= YearlyFrequency(p) + 1
  {
    var f := YearlyFrequency(p);
    var s := InYearFrom(start, p, from, j + f + 1);
    CheckpointsPerYear(start, p, from, j + f + 1);
    forall k | k in Indices(j, f) ensures k in s {
      FixedSpread(start, p, j, k - j);
    }
    SubsetSize(Indices(j, f), s);
  }
}
