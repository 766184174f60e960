/** The proleptic Gregorian calendar from 1970 on, as the reference that the checkpoint schedules are
    measured against.  Days and seconds count from 1970-01-01T00:00:00. */
module Gregorian {
  import opened Division

  const EPOCH_YEAR := 1970
  const SECONDS_PER_DAY := 86400

  datatype Date = Date(year: int, month: int, day: int)

  predicate IsLeapYear(year: int) {
    year % 4 == 0 && (year % 100 != 0 || year % 400 == 0)
  }

  function DaysInMonth(year: int, month: int): int {
    if month == 4 || month == 6 || month == 9 || month == 11 then 30
    else if month == 2 then (if IsLeapYear(year) then 29 else 28)
    else 31
  }

  predicate ValidDate(d: Date) {
    d.year >= EPOCH_YEAR && 1 <= d.month <= 12 && 1 <= d.day <= DaysInMonth(d.year, d.month)
  }

  // ----- months counted from January 1970 -----

  function MonthIndex(d: Date): int {
    12 * (d.year - EPOCH_YEAR) + d.month - 1
  }

  function YearOf(i: nat): int {
    EPOCH_YEAR + i / 12
  }

  function MonthOf(i: nat): int {
    i % 12 + 1
  }

  function MonthLength(i: nat): nat {
    DaysInMonth(YearOf(i), MonthOf(i))
  }

  /** The days before the first of the `i`-th month. */
  function MonthStart(i: nat): nat {
    if i == 0 then 0 else MonthStart(i - 1) + MonthLength(i - 1)
  }

  lemma MonthIndexInverse(d: Date)
    requires d.year >= EPOCH_YEAR && 1 <= d.month <= 12
    ensures MonthIndex(d) >= 0 && YearOf(MonthIndex(d)) == d.year && MonthOf(MonthIndex(d)) == d.month
  {
  }

  lemma {:induction false} MonthStartGrows(i: nat, j: nat)
    requires i < j
    ensures MonthStart(i) + MonthLength(i) <= MonthStart(j)
  {
    if i + 1 < j {
      MonthStartGrows(i, j - 1);
    }
  }

  // ----- days -----

  function DaysOf(d: Date): nat
    requires ValidDate(d)
  {
    MonthStart(MonthIndex(d)) + d.day - 1
  }

  /** The month that holds the `n`-th day, looked for from month `i` on. */
  function MonthHolding(n: nat, i: nat): (r: nat)
    requires MonthStart(i) <= n
    ensures MonthStart(r) <= n < MonthStart(r) + MonthLength(r)
    decreases n - MonthStart(i)
  {
    if n < MonthStart(i) + MonthLength(i) then i else MonthHolding(n, i + 1)
  }

  function DateOfDay(n: nat): (d: Date)
    ensures ValidDate(d)
  {
    var i := MonthHolding(n, 0);
    Date(YearOf(i), MonthOf(i), n - MonthStart(i) + 1)
  }

  /** Days and valid dates are in bijection. */
  lemma DateRoundTrip(d: Date)
    requires ValidDate(d)
    ensures DateOfDay(DaysOf(d)) == d
  {
    MonthIndexInverse(d);
    var i, r := MonthIndex(d), MonthHolding(DaysOf(d), 0);
    if r < i {
      MonthStartGrows(r, i);
    } else if i < r {
      MonthStartGrows(i, r);
    }
  }

  lemma DayRoundTrip(n: nat)
    ensures DaysOf(DateOfDay(n)) == n
  {
    var i := MonthHolding(n, 0);
    assert MonthIndex(DateOfDay(n)) == i;
  }

  /** A later month is a later day. */
  lemma LaterMonthIsLaterDay(d: Date, e: Date)
    requires ValidDate(d) && ValidDate(e) && MonthIndex(d) < MonthIndex(e)
    ensures DaysOf(d) < DaysOf(e)
  {
    MonthIndexInverse(d);
    MonthStartGrows(MonthIndex(d), MonthIndex(e));
  }

  /** A later day is in no earlier month. */
  lemma DayOrder(m: nat, n: nat)
    requires m <= n
    ensures MonthIndex(DateOfDay(m)) <= MonthIndex(DateOfDay(n))
    ensures DateOfDay(m).year <= DateOfDay(n).year
  {
    DayRoundTrip(m);
    DayRoundTrip(n);
    if MonthIndex(DateOfDay(n)) < MonthIndex(DateOfDay(m)) {
      LaterMonthIsLaterDay(DateOfDay(n), DateOfDay(m));
    }
  }

  // ----- the month sums agree with the Gregorian leap rule -----

  /** Leap years among the first `k` years from 1970 on. */
  function LeapYears(k: nat): nat {
    if k == 0 then 0 else LeapYears(k - 1) + if IsLeapYear(EPOCH_YEAR + k - 1) then 1 else 0
  }

  /** Every fourth year but not every hundredth but every four-hundredth, from year 1 to `y`. */
  function LeapRule(y: nat): int {
    y / 4 - y / 100 + y / 400
  }

  lemma NextLeapYear(y: nat)
    requires y > 0
    ensures LeapRule(y) == LeapRule(y - 1) + if IsLeapYear(y) then 1 else 0
  {
    DivStep(y, 4);
    DivStep(y, 100);
    DivStep(y, 400);
  }

  lemma {:induction false} LeapYearsByRule(k: nat)
    ensures LeapYears(k) == LeapRule(EPOCH_YEAR - 1 + k) - LeapRule(EPOCH_YEAR - 1)
  {
    if k > 0 {
      LeapYearsByRule(k - 1);
      NextLeapYear(EPOCH_YEAR - 1 + k);
    }
  }

  lemma DivStep(y: nat, d: nat)
    requires y > 0 && d > 1
    ensures y / d == (y - 1) / d + if y % d == 0 then 1 else 0
  {
    var q, r := y / d, y % d;
    assert y == q * d + r;
    if r == 0 {
      assert (q - 1) * d == q * d - d;
      DivUnique(y - 1, d, q - 1);
    } else {
      DivUnique(y - 1, d, q);
    }
  }

  /** The days of a year before its `j + 1`-st month. */
  function DaysBeforeMonth(leap: bool, j: nat): nat
    requires j <= 12
  {
    [0, 31, 59, 90, 120, 151, 181, 212, 243, 273, 304, 334, 365][j] + if leap && j > 1 then 1 else 0
  }

  lemma {:induction false} MonthStartInYear(k: nat, j: nat)
    requires j <= 12
    ensures MonthStart(12 * k + j) == MonthStart(12 * k) + DaysBeforeMonth(IsLeapYear(EPOCH_YEAR + k), j)
  {
    if j > 0 {
      MonthStartInYear(k, j - 1);
      DivUnique(12 * k + j - 1, 12, k);
    }
  }

  /** New Year's day of 1970 + k. */
  lemma {:induction false} NewYearsDay(k: nat)
    ensures MonthStart(12 * k) == 365 * k + LeapYears(k) <= 366 * k
  {
    if k > 0 {
      NewYearsDay(k - 1);
      MonthStartInYear(k - 1, 12);
      assert 12 * (k - 1) + 12 == 12 * k;
    }
  }

  /** The first day of a year bounds every day of the years before it. */
  lemma DaysBeforeYear(d: Date, k: nat)
    requires ValidDate(d) && d.year < EPOCH_YEAR + k
    ensures DaysOf(d) < MonthStart(12 * k) && MonthStart(12 * k) <= 366 * k
  {
    MonthIndexInverse(d);
    MonthStartGrows(MonthIndex(d), 12 * k);
    NewYearsDay(k);
  }

  /** Twelve months in a row have at least 365 days, wherever they begin. */
  lemma YearFromAnyMonth(i: nat)
    ensures MonthStart(i + 12) >= MonthStart(i) + 365
  {
    var k, j := i / 12, i % 12;
    MonthStartInYear(k, j);
    MonthStartInYear(k, 12);
    MonthStartInYear(k + 1, j);
    assert 12 * k + j == i && 12 * (k + 1) + j == i + 12;
  }

  /** Dates more than twelve months apart have more than 365 days between them. */
  lemma MoreThanTwelveMonths(d: Date, e: Date)
    requires ValidDate(d) && ValidDate(e) && MonthIndex(e) > MonthIndex(d) + 12
    ensures DaysOf(e) >= DaysOf(d) + 366
  {
    MonthIndexInverse(d);
    var i := MonthIndex(d) + 1;
    YearFromAnyMonth(i);
    if i + 12 < MonthIndex(e) {
      MonthStartGrows(i + 12, MonthIndex(e));
    }
  }

  // ----- instants -----

  function DateOf(secs: nat): (d: Date)
    ensures ValidDate(d)
  {
    DateOfDay(secs / SECONDS_PER_DAY)
  }

  function TimeOfDay(secs: nat): (t: nat)
    ensures t < SECONDS_PER_DAY
  {
    secs % SECONDS_PER_DAY
  }

  function Instant(d: Date, time: nat): nat
    requires ValidDate(d)
  {
    DaysOf(d) * SECONDS_PER_DAY + time
  }

  lemma InstantRoundTrip(d: Date, time: nat)
    requires ValidDate(d) && time < SECONDS_PER_DAY
    ensures DateOf(Instant(d, time)) == d && TimeOfDay(Instant(d, time)) == time
  {
    DivUnique(Instant(d, time), SECONDS_PER_DAY, DaysOf(d));
    DateRoundTrip(d);
  }

  lemma SecondsRoundTrip(secs: nat)
    ensures Instant(DateOf(secs), TimeOfDay(secs)) == secs
  {
    DayRoundTrip(secs / SECONDS_PER_DAY);
  }

  lemma LaterMonthIsLater(d: Date, time: nat, e: Date, time': nat)
    requires ValidDate(d) && ValidDate(e) && MonthIndex(d) < MonthIndex(e) && time < SECONDS_PER_DAY
    ensures Instant(d, time) < Instant(e, time')
  {
    LaterMonthIsLaterDay(d, e);
  }

  lemma InstantOrder(s: nat, t: nat)
    requires s <= t
    ensures MonthIndex(DateOf(s)) <= MonthIndex(DateOf(t)) && DateOf(s).year <= DateOf(t).year
  {
    DivMonotone(s, t, SECONDS_PER_DAY);
    DayOrder(s / SECONDS_PER_DAY, t / SECONDS_PER_DAY);
  }

  /** Instants in chronological order: by month, then by day of the month, then by time of day. */
  predicate Before(d: Date, time: nat, e: Date, time': nat) {
    || MonthIndex(d) < MonthIndex(e)
    || (MonthIndex(d) == MonthIndex(e) && (d.day < e.day || (d.day == e.day && time < time')))
  }

  lemma InstantsCompare(d: Date, time: nat, e: Date, time': nat)
    requires ValidDate(d) && ValidDate(e) && time < SECONDS_PER_DAY && time' < SECONDS_PER_DAY
    ensures Instant(d, time) < Instant(e, time') <==> Before(d, time, e, time')
  {
    if MonthIndex(d) < MonthIndex(e) {
      LaterMonthIsLater(d, time, e, time');
    } else if MonthIndex(e) < MonthIndex(d) {
      LaterMonthIsLater(e, time', d, time);
    }
  }

  lemma SecondsCompare(s: nat, t: nat)
    ensures s < t <==> Before(DateOf(s), TimeOfDay(s), DateOf(t), TimeOfDay(t))
  {
    SecondsRoundTrip(s);
    SecondsRoundTrip(t);
    InstantsCompare(DateOf(s), TimeOfDay(s), DateOf(t), TimeOfDay(t));
  }
}
