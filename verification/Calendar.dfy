/** Checkpoint schedules: `next_checkpoint` as the source computes it. */
module Calendar {
  import opened Wrappers
  import opened Division
  import opened Gregorian

  const MAX_U64: nat := 0xFFFF_FFFF_FFFF_FFFF
  const MAX_I64: nat := 0x7FFF_FFFF_FFFF_FFFF
  const MAX_U32: nat := 0xFFFF_FFFF
  const MAX_I32: nat := 0x7FFF_FFFF
  /** The last year the date library represents. */
  const MAX_YEAR: int := 262143

  datatype Unit = Second | Minute | Hour | Day | Week | Month | Year

  /** When `amount` is zero the schedule does not recur. */
  datatype Period = Period(unit: Unit, amount: nat)

  datatype Schedule = Schedule(start: nat, period: Period)

  /** `Overflow` is where the source's machine arithmetic would wrap or trap. */
  datatype Next = Never | Overflow | At(time: nat)

  function SecondsIn(unit: Unit): nat {
    match unit
    case Second => 1
    case Minute => 60
    case Hour => 3600
    case Day => 86400
    case Week => 604800
    case Month => 2592000
    case Year => 31536000
  }

  /** The length of a fixed period in seconds. */
  function FixedSeconds(p: Period): (s: nat)
    ensures p.amount > 0 ==> s > 0
  {
    Times(p.amount, SecondsIn(p.unit))
  }

  predicate IsVariable(unit: Unit) {
    unit.Month? || unit.Year?
  }

  function YearlyFrequency(p: Period): nat
    requires p.amount > 0
  {
    Quotient(Quotient(SecondsIn(Year), SecondsIn(p.unit)), p.amount)
  }

  /** The complexity charged for a period. */
  function Complexity(p: Period): nat {
    if p.amount == 0 then 1
    else if YearlyFrequency(p) > 2 then YearlyFrequency(p) else 2
  }

  /** Whether the date library can represent the instant. */
  predicate Representable(secs: nat) {
    secs <= MAX_I64 && DateOf(secs).year <= MAX_YEAR
  }

  /** A date at the start's time of day, unless it is no date or out of the library's range. */
  function FromYmd(d: Date, time: nat): Next {
    if ValidDate(d) && d.year <= MAX_YEAR then At(Instant(d, time)) else Never
  }

  function MaxMonthDays(year: int, month0: int): int {
    if month0 == 3 || month0 == 5 || month0 == 8 || month0 == 10 then 30
    else if month0 == 1 then (if IsLeapYear(year) then 29 else 28)
    else 31
  }

  /** The date `months` after the start's month, with the day the new month allows. */
  function MonthsOn(start: Date, time: nat, months: nat): Next
    requires 1 <= start.month <= 12
  {
    var denormalized := start.month - 1 + months;
    if months > MAX_U32 || denormalized > MAX_U32 then Overflow
    else
      var year, month0 := start.year + denormalized / 12, denormalized % 12;
      FromYmd(Date(year, month0 + 1, Min(start.day, MaxMonthDays(year, month0))), time)
  }

  function NextByMonth(start: Date, time: nat, amount: nat, now: Date): Next
    requires amount > 0 && 1 <= start.month <= 12 && MonthIndex(start) <= MonthIndex(now)
  {
    if amount > MAX_U32 then Never
    else
      var elapsed := (now.year - start.year) * 12 + (now.month - 1) - (start.month - 1);
      MonthsOn(start, time, Times(amount, Quotient(elapsed, amount) + 1))
  }

  /** The date `years` after the start, or the 28th of February if the 29th does not exist. */
  function YearsOn(start: Date, time: nat, years: nat): Next {
    var year := start.year + years;
    if year > MAX_I32 then Overflow
    else
      var day := if start.month == 2 && !IsLeapYear(year) then Min(start.day, 28) else start.day;
      FromYmd(Date(year, start.month, day), time)
  }

  function NextByYear(start: Date, time: nat, amount: nat, now: Date): Next
    requires amount > 0 && start.year <= now.year
  {
    if amount > MAX_I32 then Never
    else YearsOn(start, time, Times(amount, Quotient(now.year - start.year, amount) + 1))
  }

  function NextFixed(start: nat, seconds: nat, now: nat): Next
    requires seconds > 0 && start <= now
  {
    var next := start + Times(seconds, Quotient(now - start, seconds) + 1);
    if seconds > MAX_U64 || next > MAX_U64 then Overflow else At(next)
  }

  function NextCheckpointSecs(start: nat, p: Period, now: nat): Next {
    if start > now then At(start)
    else if p.amount == 0 then Never
    else if !IsVariable(p.unit) then NextFixed(start, FixedSeconds(p), now)
    else if !Representable(start) || !Representable(now) then Never
    else
      InstantOrder(start, now);
      if p.unit.Month? then NextByMonth(DateOf(start), TimeOfDay(start), p.amount, DateOf(now))
      else NextByYear(DateOf(start), TimeOfDay(start), p.amount, DateOf(now))
  }

  /** Milliseconds in, milliseconds out. */
  function NextCheckpoint(s: Schedule, now: nat): Next {
    match NextCheckpointSecs(s.start / 1000, s.period, now / 1000)
    case At(secs) => if secs * 1000 > MAX_U64 then Overflow else At(secs * 1000)
    case other => other
  }
}
