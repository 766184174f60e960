/** Checkpoint schedules do what they promise: the next checkpoint is a point of a fixed grid, strictly
    in the future, without drift, monotone, and no more frequent than the period says. */
module CheckpointGrid {
  import opened Wrappers
  import opened Division
  import opened Gregorian
  import opened Calendar

  // ----- the grid -----

  /** The length of a month or year period in months. */
  function Months(p: Period): (m: nat)
    requires IsVariable(p.unit)
    ensures p.amount > 0 ==> m > 0
  {
    if p.unit.Month? then p.amount else 12 * p.amount
  }

  /** `months` after the start's month, on the start's day or on the last of a shorter month. */
  function GridDate(start: Date, months: nat): (d: Date)
    requires ValidDate(start)
    ensures ValidDate(d) && MonthIndex(d) == MonthIndex(start) + months
    ensures d.day == Min(start.day, DaysInMonth(d.year, d.month))
  {
    MonthIndexInverse(start);
    var i := MonthIndex(start) + months;
    Date(YearOf(i), MonthOf(i), Min(start.day, MonthLength(i)))
  }

  /** The grid date in the source's arithmetic: months counted from the start's January. */
  lemma GridDateByMonths(start: Date, months: nat)
    requires ValidDate(start)
    ensures var m := start.month - 1 + months;
            GridDate(start, months).year == start.year + m / 12 && GridDate(start, months).month == m % 12 + 1
  {
    DivAddMultiple(start.month - 1 + months, 12, start.year - EPOCH_YEAR);
  }

  lemma GridDateByYears(start: Date, years: nat)
    requires ValidDate(start)
    ensures GridDate(start, 12 * years).year == start.year + years && GridDate(start, 12 * years).month == start.month
  {
    GridDateByMonths(start, 12 * years);
    DivAddMultiple(start.month - 1, 12, years);
  }

  lemma TwelveTimes(k: nat, m: nat)
    ensures Times(k, 12 * m) == 12 * Times(k, m)
  {
  }

  /** The `k`-th checkpoint of a recurring schedule; the start is number zero. */
  function GridPoint(start: nat, p: Period, k: nat): nat {
    if IsVariable(p.unit) then Instant(GridDate(DateOf(start), Times(k, Months(p))), TimeOfDay(start))
    else start + Times(k, FixedSeconds(p))
  }

  lemma GridStartsAtStart(start: nat, p: Period)
    ensures GridPoint(start, p, 0) == start
  {
    SecondsRoundTrip(start);
    MonthIndexInverse(DateOf(start));
  }

  lemma GridPointDate(start: nat, p: Period, k: nat)
    requires IsVariable(p.unit)
    ensures DateOf(GridPoint(start, p, k)) == GridDate(DateOf(start), Times(k, Months(p)))
    ensures TimeOfDay(GridPoint(start, p, k)) == TimeOfDay(start)
  {
    InstantRoundTrip(GridDate(DateOf(start), Times(k, Months(p))), TimeOfDay(start));
  }

  lemma GridGrows(start: nat, p: Period, j: nat, k: nat)
    requires p.amount > 0 && j < k
    ensures GridPoint(start, p, j) < GridPoint(start, p, k)
  {
    if IsVariable(p.unit) {
      StrictMul(Months(p), j, k);
      LaterMonthIsLater(GridDate(DateOf(start), Times(j, Months(p))), TimeOfDay(start),
                        GridDate(DateOf(start), Times(k, Months(p))), TimeOfDay(start));
    } else {
      StrictMul(FixedSeconds(p), j, k);
    }
  }

  lemma StrictMul(m: nat, j: nat, k: nat)
    requires m > 0 && j < k
    ensures Times(j, m) + m <= Times(k, m)
  {
    MulMonotone(m, j + 1, k);
    assert m * (j + 1) == j * m + m;
  }

  // ----- which grid point is next -----

  /** The units whole months or years elapsed are counted in: a month schedule moves on in a later
      month than now's, a year schedule in a later year, a fixed one at a later second. */
  predicate Later(unit: Unit, t: nat, now: nat) {
    match unit
    case Month => MonthIndex(DateOf(t)) > MonthIndex(DateOf(now))
    case Year => DateOf(t).year > DateOf(now).year
    case _ => t > now
  }

  /** `k` is the first grid index whose point is later than now. */
  ghost predicate IsNextIndex(start: nat, p: Period, now: nat, k: nat) {
    && Later(p.unit, GridPoint(start, p, k), now)
    && forall j: nat :: j < k ==> !Later(p.unit, GridPoint(start, p, j), now)
  }

  function NextIndex(start: nat, p: Period, now: nat): nat
    requires p.amount > 0 && start <= now
  {
    InstantOrder(start, now);
    match p.unit
    case Month => Quotient(MonthIndex(DateOf(now)) - MonthIndex(DateOf(start)), p.amount) + 1
    case Year => Quotient(DateOf(now).year - DateOf(start).year, p.amount) + 1
    case _ => Quotient(now - start, FixedSeconds(p)) + 1
  }

  /** Counting whole periods finds the first multiple past the elapsed time. */
  lemma FirstMultiplePast(elapsed: nat, m: nat, k: nat)
    requires m > 0
    ensures Times(k, m) > elapsed <==> k >= Quotient(elapsed, m) + 1
  {
    var q := elapsed / m;
    assert elapsed == q * m + elapsed % m;
    if k <= q {
      MulMonotone(m, k, q);
    } else {
      MulMonotone(m, q + 1, k);
      assert m * (q + 1) == q * m + m;
    }
  }

  lemma GridYear(start: nat, p: Period, k: nat)
    requires p.unit.Year?
    ensures DateOf(GridPoint(start, p, k)).year == DateOf(start).year + Times(k, p.amount)
    ensures DateOf(GridPoint(start, p, k)).month == DateOf(start).month
  {
    GridPointDate(start, p, k);
    TwelveTimes(k, p.amount);
    GridDateByYears(DateOf(start), Times(k, p.amount));
  }

  lemma LaterIffIndex(start: nat, p: Period, now: nat, k: nat)
    requires p.amount > 0 && start <= now
    ensures Later(p.unit, GridPoint(start, p, k), now) <==> k >= NextIndex(start, p, now)
  {
    InstantOrder(start, now);
    match p.unit
    case Month =>
      GridPointDate(start, p, k);
      FirstMultiplePast(MonthIndex(DateOf(now)) - MonthIndex(DateOf(start)), p.amount, k);
    case Year =>
      GridYear(start, p, k);
      FirstMultiplePast(DateOf(now).year - DateOf(start).year, p.amount, k);
    case _ =>
      FirstMultiplePast(now - start, FixedSeconds(p), k);
  }

  lemma NextIndexIsNext(start: nat, p: Period, now: nat)
    requires p.amount > 0 && start <= now
    ensures IsNextIndex(start, p, now, NextIndex(start, p, now))
  {
    LaterIffIndex(start, p, now, NextIndex(start, p, now));
    forall j: nat | j < NextIndex(start, p, now) ensures !Later(p.unit, GridPoint(start, p, j), now) {
      LaterIffIndex(start, p, now, j);
    }
  }

  lemma LaterIsInTheFuture(unit: Unit, t: nat, now: nat)
    requires Later(unit, t, now)
    ensures t > now
  {
    if t <= now {
      InstantOrder(t, now);
    }
  }

  // ----- the code finds it -----

  lemma MonthsOnIsGrid(start: Date, time: nat, months: nat)
    requires ValidDate(start)
    ensures var d, r := GridDate(start, months), MonthsOn(start, time, months);
            if d.year <= MAX_YEAR then r == At(Instant(d, time)) else !r.At?
  {
    GridDateByMonths(start, months);
  }

  lemma MonthCodeIsGrid(start: Date, time: nat, amount: nat, now: Date)
    requires amount > 0 && ValidDate(start) && ValidDate(now) && MonthIndex(start) <= MonthIndex(now)
    requires now.year <= MAX_YEAR
    ensures var k := Quotient(MonthIndex(now) - MonthIndex(start), amount) + 1;
            var d := GridDate(start, Times(k, amount));
            var r := NextByMonth(start, time, amount, now);
            if amount <= MAX_U32 && d.year <= MAX_YEAR then r == At(Instant(d, time)) else !r.At?
  {
    var k := Quotient(MonthIndex(now) - MonthIndex(start), amount) + 1;
    TimesCommutes(k, amount);
    MonthsOnIsGrid(start, time, Times(k, amount));
  }

  /** Only the 29th of February needs clamping when the month stays the same. */
  lemma ClampedDay(start: Date, year: int)
    requires ValidDate(start)
    ensures Min(start.day, DaysInMonth(year, start.month))
            == if start.month == 2 && !IsLeapYear(year) then Min(start.day, 28) else start.day
  {
  }

  lemma YearsOnIsGrid(start: Date, time: nat, years: nat)
    requires ValidDate(start)
    ensures var d, r := GridDate(start, 12 * years), YearsOn(start, time, years);
            if d.year <= MAX_YEAR then r == At(Instant(d, time)) else !r.At?
  {
    GridDateByYears(start, years);
    ClampedDay(start, start.year + years);
  }

  lemma YearCodeIsGrid(start: Date, time: nat, amount: nat, now: Date)
    requires amount > 0 && ValidDate(start) && ValidDate(now) && start.year <= now.year <= MAX_YEAR
    ensures var k := Quotient(now.year - start.year, amount) + 1;
            var d := GridDate(start, Times(k, 12 * amount));
            var r := NextByYear(start, time, amount, now);
            if amount <= MAX_I32 && d.year <= MAX_YEAR then r == At(Instant(d, time)) else !r.At?
  {
    var k := Quotient(now.year - start.year, amount) + 1;
    TwelveTimes(k, amount);
    TimesCommutes(k, amount);
    YearsOnIsGrid(start, time, Times(k, amount));
  }

  /** The range the arithmetic and the date library allow for the next checkpoint. */
  ghost predicate InRange(p: Period, next: nat) {
    if IsVariable(p.unit) then
      p.amount <= (if p.unit.Month? then MAX_U32 else MAX_I32) && DateOf(next).year <= MAX_YEAR
    else
      next <= MAX_U64
  }

  lemma NowInRange(start: nat, p: Period, now: nat)
    requires p.amount > 0 && start <= now && IsVariable(p.unit)
    ensures start < GridPoint(start, p, NextIndex(start, p, now)) && now < GridPoint(start, p, NextIndex(start, p, now))
    ensures DateOf(start).year <= DateOf(now).year <= DateOf(GridPoint(start, p, NextIndex(start, p, now))).year
  {
    var k := NextIndex(start, p, now);
    NextIndexIsNext(start, p, now);
    LaterIsInTheFuture(p.unit, GridPoint(start, p, k), now);
    InstantOrder(start, now);
    InstantOrder(now, GridPoint(start, p, k));
  }

  lemma YearRange(secs: nat)
    requires DateOf(secs).year <= MAX_YEAR
    ensures secs * 1000 <= MAX_U64 && Representable(secs)
  {
    var k: nat :| EPOCH_YEAR + k == MAX_YEAR + 1;
    SecondsRoundTrip(secs);
    DaysBeforeYear(DateOf(secs), k);
  }

  lemma FixedCodeIsGrid(start: nat, p: Period, now: nat)
    requires p.amount > 0 && start <= now && !IsVariable(p.unit)
    ensures var next := GridPoint(start, p, NextIndex(start, p, now));
            NextCheckpointSecs(start, p, now) == if next <= MAX_U64 then At(next) else Overflow
  {
    var seconds, k := FixedSeconds(p), NextIndex(start, p, now);
    TimesCommutes(k, seconds);
    MulMonotone(seconds, 1, k);
  }

  /** Once started, the next checkpoint of a recurring schedule is the first grid point later than now,
      and the code finds it exactly when that point is in range. */
  lemma NextIsFirstLaterGridPoint(start: nat, p: Period, now: nat)
    requires p.amount > 0 && start <= now
    ensures var k := NextIndex(start, p, now);
            var next := GridPoint(start, p, k);
            && k > 0 && IsNextIndex(start, p, now, k)
            && next > now
            && (InRange(p, next) ==> NextCheckpointSecs(start, p, now) == At(next))
            && (!InRange(p, next) ==> !NextCheckpointSecs(start, p, now).At?)
  {
    var k := NextIndex(start, p, now);
    NextIndexIsNext(start, p, now);
    LaterIsInTheFuture(p.unit, GridPoint(start, p, k), now);
    if IsVariable(p.unit) {
      VariableCodeIsGrid(start, p, now);
    } else {
      FixedCodeIsGrid(start, p, now);
    }
  }

  lemma MonthBranch(start: nat, p: Period, now: nat)
    requires p.amount > 0 && start <= now && p.unit.Month? && Representable(start) && Representable(now)
    ensures MonthIndex(DateOf(start)) <= MonthIndex(DateOf(now))
    ensures NextCheckpointSecs(start, p, now) == NextByMonth(DateOf(start), TimeOfDay(start), p.amount, DateOf(now))
  {
    InstantOrder(start, now);
  }

  lemma MonthNextIsGrid(start: nat, p: Period, now: nat)
    requires p.amount > 0 && start <= now && p.unit.Month? && Representable(start) && Representable(now)
    ensures var next := GridPoint(start, p, NextIndex(start, p, now));
            var r := NextCheckpointSecs(start, p, now);
            if InRange(p, next) then r == At(next) else !r.At?
  {
    MonthBranch(start, p, now);
    GridPointDate(start, p, NextIndex(start, p, now));
    MonthCodeIsGrid(DateOf(start), TimeOfDay(start), p.amount, DateOf(now));
  }

  lemma YearNextIsGrid(start: nat, p: Period, now: nat)
    requires p.amount > 0 && start <= now && p.unit.Year? && Representable(start) && Representable(now)
    ensures var next := GridPoint(start, p, NextIndex(start, p, now));
            var r := NextCheckpointSecs(start, p, now);
            if InRange(p, next) then r == At(next) else !r.At?
  {
    InstantOrder(start, now);
    GridPointDate(start, p, NextIndex(start, p, now));
    YearCodeIsGrid(DateOf(start), TimeOfDay(start), p.amount, DateOf(now));
  }

  lemma VariableCodeIsGrid(start: nat, p: Period, now: nat)
    requires p.amount > 0 && start <= now && IsVariable(p.unit)
    ensures var next := GridPoint(start, p, NextIndex(start, p, now));
            var r := NextCheckpointSecs(start, p, now);
            if InRange(p, next) then r == At(next) else !r.At?
  {
    if !Representable(now) || !Representable(start) {
      NowInRange(start, p, now);
      if DateOf(now).year <= MAX_YEAR {
        YearRange(now);
        YearRange(start);
      }
    } else if p.unit.Month? {
      MonthNextIsGrid(start, p, now);
    } else {
      YearNextIsGrid(start, p, now);
    }
  }

  // ----- no drift -----

  /** Asking again at a checkpoint gives the one after it. */
  lemma NextOfGridPoint(start: nat, p: Period, k: nat)
    requires p.amount > 0
    ensures start <= GridPoint(start, p, k)
    ensures NextIndex(start, p, GridPoint(start, p, k)) == k + 1
  {
    GridStartsAtStart(start, p);
    if k > 0 {
      GridGrows(start, p, 0, k);
    }
    var now := GridPoint(start, p, k);
    LaterIffIndex(start, p, now, k);
    LaterIffIndex(start, p, now, k + 1);
    match p.unit
    case Month =>
      GridPointDate(start, p, k);
      GridPointDate(start, p, k + 1);
      StrictMul(p.amount, k, k + 1);
    case Year =>
      GridYear(start, p, k);
      GridYear(start, p, k + 1);
      StrictMul(p.amount, k, k + 1);
    case _ =>
      GridGrows(start, p, k, k + 1);
  }

  /** Feeding each checkpoint back in as the current time, `n` times from the start. */
  function Iterate(s: Schedule, n: nat): Next {
    if n == 0 then At(s.start)
    else
      match Iterate(s, n - 1)
      case At(t) => NextCheckpoint(s, t)
      case other => other
  }

  lemma NextFromGrid(s: Schedule, t: nat, k: nat)
    requires s.period.amount > 0 && t / 1000 == GridPoint(s.start / 1000, s.period, k)
    ensures var next := GridPoint(s.start / 1000, s.period, k + 1);
            var r := NextCheckpoint(s, t);
            if InRange(s.period, next) && next * 1000 <= MAX_U64 then r == At(next * 1000) else !r.At?
  {
    NextOfGridPoint(s.start / 1000, s.period, k);
    NextIsFirstLaterGridPoint(s.start / 1000, s.period, t / 1000);
  }

  /** However often it is iterated, the schedule stays on its grid: a day clamped to a short month comes
      back in the next long one. */
  lemma {:induction false} IterationStaysOnGrid(s: Schedule, n: nat)
    requires s.period.amount > 0 && Iterate(s, n).At?
    ensures Iterate(s, n).time / 1000 == GridPoint(s.start / 1000, s.period, n)
    ensures n > 0 ==> Iterate(s, n).time == 1000 * GridPoint(s.start / 1000, s.period, n)
  {
    if n == 0 {
      GridStartsAtStart(s.start / 1000, s.period);
    } else {
      IterationStaysOnGrid(s, n - 1);
      NextFromGrid(s, Iterate(s, n - 1).time, n - 1);
    }
  }

  /** The iteration gets as far as the range does. */
  lemma {:induction false} IterationReaches(s: Schedule, n: nat)
    requires s.period.amount > 0 && InRange(s.period, GridPoint(s.start / 1000, s.period, n))
    requires !IsVariable(s.period.unit) ==> 1000 * GridPoint(s.start / 1000, s.period, n) <= MAX_U64
    ensures Iterate(s, n).At?
  {
    if n > 0 {
      EarlierInRange(s.start / 1000, s.period, n - 1, n);
      IterationReaches(s, n - 1);
      IterationStaysOnGrid(s, n - 1);
      NextFromGrid(s, Iterate(s, n - 1).time, n - 1);
      IterateOnce(s, n);
    }
  }

  lemma IterateOnce(s: Schedule, n: nat)
    requires n > 0 && Iterate(s, n - 1).At?
    ensures Iterate(s, n) == NextCheckpoint(s, Iterate(s, n - 1).time)
  {
  }

  lemma EarlierInRange(start: nat, p: Period, j: nat, k: nat)
    requires p.amount > 0 && j < k && InRange(p, GridPoint(start, p, k))
    ensures InRange(p, GridPoint(start, p, j)) && GridPoint(start, p, j) < GridPoint(start, p, k)
    ensures IsVariable(p.unit) ==> 1000 * GridPoint(start, p, k) <= MAX_U64
  {
    GridGrows(start, p, j, k);
    InstantOrder(GridPoint(start, p, j), GridPoint(start, p, k));
    if IsVariable(p.unit) {
      YearRange(GridPoint(start, p, k));
    }
  }

  // ----- order -----

  lemma GridGrowsWeakly(start: nat, p: Period, j: nat, k: nat)
    requires p.amount > 0 && j <= k
    ensures GridPoint(start, p, j) <= GridPoint(start, p, k)
  {
    if j < k {
      GridGrows(start, p, j, k);
    }
  }

  lemma NextIndexMonotone(start: nat, p: Period, now: nat, now': nat)
    requires p.amount > 0 && start <= now <= now'
    ensures NextIndex(start, p, now) <= NextIndex(start, p, now')
  {
    InstantOrder(start, now);
    InstantOrder(now, now');
    match p.unit
    case Month => DivMonotone(MonthIndex(DateOf(now)) - MonthIndex(DateOf(start)), MonthIndex(DateOf(now')) - MonthIndex(DateOf(start)), p.amount);
    case Year => DivMonotone(DateOf(now).year - DateOf(start).year, DateOf(now').year - DateOf(start).year, p.amount);
    case _ => DivMonotone(now - start, now' - start, FixedSeconds(p));
  }

  lemma NextSecsMonotone(start: nat, p: Period, now: nat, now': nat)
    requires now <= now'
    requires NextCheckpointSecs(start, p, now).At? && NextCheckpointSecs(start, p, now').At?
    ensures NextCheckpointSecs(start, p, now).time <= NextCheckpointSecs(start, p, now').time
  {
    if start <= now' {
      NextIsFirstLaterGridPoint(start, p, now');
      if start <= now {
        NextIsFirstLaterGridPoint(start, p, now);
        NextIndexMonotone(start, p, now, now');
        GridGrowsWeakly(start, p, NextIndex(start, p, now), NextIndex(start, p, now'));
      }
    }
  }

  /** The next checkpoint, in milliseconds, is strictly in the future and moves forward with time, across
      the branches for a future start, a fixed period and a month or year period. */
  lemma NextCheckpointMonotone(s: Schedule, now: nat, now': nat)
    requires now <= now' && NextCheckpoint(s, now).At? && NextCheckpoint(s, now').At?
    ensures now < NextCheckpoint(s, now).time <= NextCheckpoint(s, now').time
  {
    var start := s.start / 1000;
    DivMonotone(now, now', 1000);
    NextSecsMonotone(start, s.period, now / 1000, now' / 1000);
    if start <= now / 1000 {
      NextIsFirstLaterGridPoint(start, s.period, now / 1000);
    }
  }

  // ----- frequency -----

  /** Instants less than 365 days apart are at most twelve months apart. */
  lemma WithinTwelveMonths(s: nat, t: nat)
    requires s <= t < s + SecondsIn(Year)
    ensures MonthIndex(DateOf(t)) <= MonthIndex(DateOf(s)) + 12
  {
    SecondsRoundTrip(s);
    SecondsRoundTrip(t);
    if MonthIndex(DateOf(t)) > MonthIndex(DateOf(s)) + 12 {
      MoreThanTwelveMonths(DateOf(s), DateOf(t));
    }
  }

  lemma YearlyFrequencyOfMonths(p: Period)
    requires p.amount > 0 && IsVariable(p.unit)
    ensures YearlyFrequency(p) == Quotient(12, Months(p))
  {
    if p.unit.Year? {
      NestedDivision(12, 12, p.amount);
    }
  }

  /** Checkpoints less than 365 days apart differ by at most the yearly frequency. */
  lemma IndexSpread(start: nat, p: Period, j: nat, k: nat)
    requires p.amount > 0 && j <= k
    requires GridPoint(start, p, k) < GridPoint(start, p, j) + SecondsIn(Year)
    ensures k - j <= YearlyFrequency(p)
  {
    if IsVariable(p.unit) {
      VariableIndexSpread(start, p, j, k);
    } else {
      TimesDifference(j, k, FixedSeconds(p));
      FirstMultiplePast(SecondsIn(Year), FixedSeconds(p), k - j);
      NestedDivision(SecondsIn(Year), SecondsIn(p.unit), p.amount);
    }
  }

  lemma VariableIndexSpread(start: nat, p: Period, j: nat, k: nat)
    requires p.amount > 0 && j <= k && IsVariable(p.unit)
    requires GridPoint(start, p, k) < GridPoint(start, p, j) + SecondsIn(Year)
    ensures k - j <= YearlyFrequency(p)
  {
    GridGrowsWeakly(start, p, j, k);
    WithinTwelveMonths(GridPoint(start, p, j), GridPoint(start, p, k));
    GridPointDate(start, p, j);
    GridPointDate(start, p, k);
    TimesDifference(j, k, Months(p));
    FirstMultiplePast(12, Months(p), k - j);
    YearlyFrequencyOfMonths(p);
  }

  lemma TimesDifference(j: nat, k: nat, m: nat)
    requires j <= k
    ensures Times(k, m) - Times(j, m) == Times(k - j, m)
  {
    assert k * m - j * m == (k - j) * m;
  }

  lemma {:induction false} IntervalSize(s: set<nat>, lo: nat, hi: nat)
    requires lo <= hi && forall x :: x in s ==> lo <= x < hi
    ensures |s| <= hi - lo
  {
    if lo == hi {
      assert s == {};
    } else {
      IntervalSize(s - {hi - 1}, lo, hi - 1);
      assert s <= (s - {hi - 1}) + {hi - 1};
    }
  }

  lemma {:induction false} HasLeast(s: set<nat>, x: nat)
    requires x in s
    ensures exists m :: m in s && forall y :: y in s ==> m <= y
  {
    if y :| y in s && y < x {
      HasLeast(s, y);
    }
  }

  lemma SpreadSize(s: set<nat>, spread: nat)
    requires forall x, y :: x in s && y in s && x <= y ==> y - x <= spread
    ensures |s| <= spread + 1
  {
    if x :| x in s {
      HasLeast(s, x);
      var m :| m in s && forall y :: y in s ==> m <= y;
      IntervalSize(s, m, m + spread + 1);
    }
  }

  /** Among the first `n` checkpoints, those in the 365 days from `from` on. */
  ghost function InYearFrom(start: nat, p: Period, from: nat, n: nat): set<nat> {
    set k: nat | k < n && from <= GridPoint(start, p, k) < from + SecondsIn(Year)
  }

  /** Any 365 days hold at most one checkpoint more than the yearly frequency, which is what the
      complexity of a period is charged by. */
  lemma CheckpointsPerYear(start: nat, p: Period, from: nat, n: nat)
    requires p.amount > 0
    ensures |InYearFrom(start, p, from, n)| <= YearlyFrequency(p) + 1 <= Complexity(p) + 1
  {
    var s := InYearFrom(start, p, from, n);
    forall x, y | x in s && y in s && x <= y ensures y - x <= YearlyFrequency(p) {
      IndexSpread(start, p, x, y);
    }
    SpreadSize(s, YearlyFrequency(p));
  }
}
