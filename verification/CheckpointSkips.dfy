/** Exactly when a schedule passes over a checkpoint that is still to come. */
module CheckpointSkips {
  import opened Wrappers
  import opened Division
  import opened Gregorian
  import opened Calendar
  import opened CheckpointGrid

  /** The start's day, or the last of now's month if that is shorter, at the start's time of day comes
      later in now's month than now. */
  predicate DueLaterThisMonth(start: nat, now: nat) {
    var today := DateOf(now);
    var day := Min(DateOf(start).day, DaysInMonth(today.year, today.month));
    day > today.day || (day == today.day && TimeOfDay(start) > TimeOfDay(now))
  }

  /** Whole periods from the start's month or year reach now's, and the day is still ahead. */
  predicate PassesOver(start: nat, p: Period, now: nat)
    requires p.amount > 0
  {
    var first, today := DateOf(start), DateOf(now);
    && start <= now
    && match p.unit
       case Month => (MonthIndex(today) - MonthIndex(first)) % p.amount == 0 && DueLaterThisMonth(start, now)
       case Year =>
         && (today.year - first.year) % p.amount == 0
         && (first.month > today.month || (first.month == today.month && DueLaterThisMonth(start, now)))
       case _ => false
  }

  // ----- the grid point before the next one -----

  lemma LastMultiple(elapsed: nat, m: nat)
    requires m > 0
    ensures Times(Quotient(elapsed, m), m) <= elapsed
    ensures Times(Quotient(elapsed, m), m) == elapsed <==> elapsed % m == 0
  {
    assert elapsed == elapsed / m * m + elapsed % m;
  }

  lemma SameMonth(d: Date, e: Date)
    requires ValidDate(d) && ValidDate(e) && MonthIndex(d) == MonthIndex(e)
    ensures d.year == e.year && d.month == e.month
  {
    MonthIndexInverse(d);
    MonthIndexInverse(e);
  }

  lemma MonthPreviousIsAhead(start: nat, p: Period, now: nat)
    requires p.amount > 0 && start <= now && p.unit.Month?
    ensures GridPoint(start, p, NextIndex(start, p, now) - 1) > now <==> PassesOver(start, p, now)
  {
    InstantOrder(start, now);
    var k := NextIndex(start, p, now) - 1;
    var t := GridPoint(start, p, k);
    GridPointDate(start, p, k);
    LastMultiple(MonthIndex(DateOf(now)) - MonthIndex(DateOf(start)), p.amount);
    SecondsCompare(now, t);
    if MonthIndex(DateOf(t)) == MonthIndex(DateOf(now)) {
      SameMonth(DateOf(t), DateOf(now));
    }
  }

  lemma YearPreviousIsAhead(start: nat, p: Period, now: nat)
    requires p.amount > 0 && start <= now && p.unit.Year?
    ensures GridPoint(start, p, NextIndex(start, p, now) - 1) > now <==> PassesOver(start, p, now)
  {
    InstantOrder(start, now);
    var k := NextIndex(start, p, now) - 1;
    var t := GridPoint(start, p, k);
    GridPointDate(start, p, k);
    GridYear(start, p, k);
    LastMultiple(DateOf(now).year - DateOf(start).year, p.amount);
    SecondsCompare(now, t);
  }

  lemma PreviousIsAhead(start: nat, p: Period, now: nat)
    requires p.amount > 0 && start <= now
    ensures GridPoint(start, p, NextIndex(start, p, now) - 1) > now <==> PassesOver(start, p, now)
  {
    match p.unit
    case Month => MonthPreviousIsAhead(start, p, now);
    case Year => YearPreviousIsAhead(start, p, now);
    case _ => LaterIffIndex(start, p, now, NextIndex(start, p, now) - 1);
  }

  // ----- the theorem -----

  /** The answer is the earliest checkpoint after now. */
  ghost predicate IsEarliest(start: nat, p: Period, now: nat, next: nat) {
    forall j: nat :: GridPoint(start, p, j) > now ==> next <= GridPoint(start, p, j)
  }

  /** The checkpoint after now is number `k`, and the answer is the one after that. */
  ghost predicate Skips(start: nat, p: Period, now: nat, k: nat, next: nat) {
    && (forall j: nat :: GridPoint(start, p, j) > now <==> j >= k)
    && next == GridPoint(start, p, k + 1)
  }

  /** A grid point with another between it and now's month or year is in an earlier one. */
  lemma EarlierPeriod(start: nat, p: Period, now: nat, j: nat, k: nat)
    requires p.amount > 0 && IsVariable(p.unit) && j < k && !Later(p.unit, GridPoint(start, p, k), now)
    ensures GridPoint(start, p, j) <= now
  {
    StrictMul(Months(p), j, k);
    GridPointDate(start, p, j);
    GridPointDate(start, p, k);
    if p.unit.Year? {
      GridYear(start, p, j);
      GridYear(start, p, k);
      StrictMul(p.amount, j, k);
    }
    SecondsCompare(now, GridPoint(start, p, j));
  }

  /** `k` is the first index that the schedule takes for later than now. */
  ghost predicate LaterFrom(start: nat, p: Period, now: nat, k: nat) {
    forall j: nat :: Later(p.unit, GridPoint(start, p, j), now) <==> j >= k
  }

  /** Which grid points are after now: those from the next index on, and maybe the one before it. */
  lemma AheadByIndex(start: nat, p: Period, now: nat, k: nat, j: nat)
    requires p.amount > 0 && k > 0 && LaterFrom(start, p, now, k)
    ensures GridPoint(start, p, j) > now <==> j >= k || (j == k - 1 && GridPoint(start, p, k - 1) > now)
  {
    if j >= k {
      LaterIsInTheFuture(p.unit, GridPoint(start, p, j), now);
    } else if j < k - 1 && IsVariable(p.unit) {
      EarlierPeriod(start, p, now, j, k - 1);
    }
  }

  /** From the index of the first checkpoint after now on, all are later. */
  lemma EarliestIsFirst(start: nat, p: Period, now: nat, k: nat, next: nat)
    requires p.amount > 0 && forall j: nat :: GridPoint(start, p, j) > now <==> j >= k
    ensures IsEarliest(start, p, now, next) <==> next <= GridPoint(start, p, k)
  {
    forall j: nat | j >= k ensures GridPoint(start, p, k) <= GridPoint(start, p, j) {
      GridGrowsWeakly(start, p, k, j);
    }
  }

  lemma StartedSkips(start: nat, p: Period, now: nat)
    requires p.amount > 0 && start <= now
    ensures var k := NextIndex(start, p, now);
            var next := GridPoint(start, p, k);
            if PassesOver(start, p, now) then Skips(start, p, now, k - 1, next) && !IsEarliest(start, p, now, next)
            else IsEarliest(start, p, now, next)
  {
    var k := NextIndex(start, p, now);
    var first := if GridPoint(start, p, k - 1) > now then k - 1 else k;
    PreviousIsAhead(start, p, now);
    forall j: nat ensures Later(p.unit, GridPoint(start, p, j), now) <==> j >= k {
      LaterIffIndex(start, p, now, j);
    }
    forall j: nat ensures GridPoint(start, p, j) > now <==> j >= first {
      AheadByIndex(start, p, now, k, j);
    }
    EarliestIsFirst(start, p, now, first, GridPoint(start, p, k));
    GridGrows(start, p, k - 1, k);
  }

  lemma UnstartedIsEarliest(start: nat, p: Period, now: nat)
    requires p.amount > 0 && now < start
    ensures IsEarliest(start, p, now, start)
  {
    GridStartsAtStart(start, p);
    forall j: nat ensures start <= GridPoint(start, p, j) {
      GridGrowsWeakly(start, p, 0, j);
    }
  }

  /** What the code returns is the earliest checkpoint after now if and only if the schedule does not pass
      over one, which the start, the period and the current time decide; and then it is exactly one. */
  lemma EarliestUnlessPassedOver(start: nat, p: Period, now: nat)
    requires p.amount > 0 && NextCheckpointSecs(start, p, now).At?
    ensures var next := NextCheckpointSecs(start, p, now).time;
            && next > now && (exists k: nat :: next == GridPoint(start, p, k))
            && (IsEarliest(start, p, now, next) <==> !PassesOver(start, p, now))
            && (PassesOver(start, p, now) ==> exists k: nat :: Skips(start, p, now, k, next))
  {
    if start <= now {
      NextIsFirstLaterGridPoint(start, p, now);
      StartedSkips(start, p, now);
    } else {
      GridStartsAtStart(start, p);
      UnstartedIsEarliest(start, p, now);
    }
  }

  // ----- an input -----

  lemma EarlyDates()
    ensures DateOf(14 * 86400) == Date(1970, 1, 15) && TimeOfDay(14 * 86400) == 0
    ensures DateOf(40 * 86400) == Date(1970, 2, 10)
    ensures Instant(Date(1970, 2, 15), 0) == 45 * 86400
  {
    assert MonthStart(1) == 31;
    InstantRoundTrip(Date(1970, 1, 15), 0);
    InstantRoundTrip(Date(1970, 2, 10), 0);
  }

  lemma IdesOfMarch()
    ensures Instant(Date(1970, 3, 15), 0) == 73 * 86400
  {
    assert MonthStart(1) == 31;
    assert MonthStart(2) == 59;
  }

  lemma AnswerInFebruary()
    ensures NextCheckpointSecs(14 * 86400, Period(Month, 1), 40 * 86400) == At(73 * 86400)
  {
    EarlyDates();
    IdesOfMarch();
    MonthBranch(14 * 86400, Period(Month, 1), 40 * 86400);
    assert NextByMonth(Date(1970, 1, 15), 0, 1, Date(1970, 2, 10)) == At(Instant(Date(1970, 3, 15), 0));
  }

  /** Monthly from the 15th of January, asked on the 10th of February: the answer is the 15th of March,
      though the checkpoint of the 15th of February is yet to come. */
  lemma PassesOverACheckpoint()
    ensures var start, now, p := 14 * 86400, 40 * 86400, Period(Month, 1);
            && NextCheckpointSecs(start, p, now) == At(73 * 86400)
            && now < GridPoint(start, p, 1) == 45 * 86400
  {
    AnswerInFebruary();
    EarlyDates();
    assert GridDate(Date(1970, 1, 15), 1) == Date(1970, 2, 15);
  }
}
