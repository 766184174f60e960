/** The POLYX vesting contract: a linear release of everything deposited, whenever it was deposited. */
module Vesting {
  import opened Wrappers
  import opened Division

  const MAX_BALANCE: nat := 0xFFFF_FFFF_FFFF_FFFF_FFFF_FFFF_FFFF_FFFF
  const MAX_TIMESTAMP: nat := 0xFFFF_FFFF_FFFF_FFFF

  datatype Error = InvalidStartTimestamp | DurationOverflow | FundsNotReleased | InsufficientBalance | Trapped

  datatype Terms = Terms(start: nat, duration: nat)

  /** What the contract has paid out and what it still holds. */
  datatype Funds = Funds(released: nat, balance: nat)

  /** `vesting_schedule`.  `None` where the source's arithmetic traps: the product overflows, or nothing
      is to be divided by a zero duration. */
  function VestingSchedule(terms: Terms, total: nat, now: nat): Option<nat> {
    if now < terms.start then Some(0)
    else if now > SaturatingAdd(terms.start, terms.duration, MAX_TIMESTAMP) then Some(total)
    else if Times(total, now - terms.start) > MAX_BALANCE || terms.duration == 0 then None
    else Some(Quotient(Times(total, now - terms.start), terms.duration))
  }

  /** `release`.  A message that fails leaves no trace. */
  function Release(terms: Terms, f: Funds, now: nat): (Funds, Outcome<Error>) {
    match VestingSchedule(terms, SaturatingAdd(f.balance, f.released, MAX_BALANCE), now)
    case None => (f, Err(Trapped))
    case Some(vested) =>
      if vested <= f.released then (f, Err(FundsNotReleased))
      else
        var amount := vested - f.released;
        if amount > f.balance then (f, Err(InsufficientBalance))
        else (Funds(f.released + amount, f.balance - amount), Ok)
  }

  class PolyxVesting {
    const beneficiary: nat
    const terms: Terms
    var released: nat
    var balance: nat
    /** What the beneficiary has received. */
    var received: nat

    ghost function View(): Funds
      reads this
    {
      Funds(released, balance)
    }

    constructor (beneficiary: nat, terms: Terms, endowment: nat)
      ensures this.beneficiary == beneficiary && this.terms == terms
      ensures View() == Funds(0, endowment) && received == 0
    {
      this.beneficiary, this.terms := beneficiary, terms;
      released, balance, received := 0, endowment, 0;
    }

    method DoRelease(now: nat) returns (r: Outcome<Error>)
      modifies this
      ensures (View(), r) == Release(terms, old(View()), now)
      ensures received - old(received) == released - old(released) == old(balance) - balance
    {
      var vested := VestingSchedule(terms, SaturatingAdd(balance, released, MAX_BALANCE), now);
      if vested.None? {
        return Err(Trapped);
      }
      var amount := if vested.value > released then vested.value - released else 0;
      if amount == 0 {
        return Err(FundsNotReleased);
      }
      if amount > balance {
        return Err(InsufficientBalance);
      }
      released := released + amount;
      balance := balance - amount;
      received := received + amount;
      return Ok;
    }
  }

  /** `new` and `validation`. */
  method Instantiate(beneficiary: nat, terms: Terms, endowment: nat, now: nat) returns (r: Outcome<Error>, c: PolyxVesting?)
    ensures r == if terms.start < now then Err(InvalidStartTimestamp)
                 else if terms.start + terms.duration > MAX_TIMESTAMP then Err(DurationOverflow)
                 else Ok
    ensures r.Ok? <==> c != null
    ensures c != null ==> fresh(c) && c.terms == terms && c.View() == Funds(0, endowment) && c.received == 0
  {
    if terms.start < now {
      return Err(InvalidStartTimestamp), null;
    }
    if terms.start + terms.duration > MAX_TIMESTAMP {
      return Err(DurationOverflow), null;
    }
    c := new PolyxVesting(beneficiary, terms, endowment);
    return Ok, c;
  }

  // ----- runs -----

  datatype Event = Deposit(at: nat, amount: nat) | TryRelease(at: nat)

  function Step(terms: Terms, f: Funds, e: Event): Funds {
    match e
    case Deposit(_, amount) => f.(balance := f.balance + amount)
    case TryRelease(now) => Release(terms, f, now).0
  }

  function Run(terms: Terms, f: Funds, events: seq<Event>): Funds {
    if events == [] then f
    else Step(terms, Run(terms, f, events[..|events| - 1]), events[|events| - 1])
  }

  function Deposited(events: seq<Event>): nat {
    if events == [] then 0
    else
      var e := events[|events| - 1];
      Deposited(events[..|events| - 1]) + if e.Deposit? then e.amount else 0
  }

  predicate InOrder(events: seq<Event>) {
    forall i, j :: 0 <= i < j < |events| ==> events[i].at <= events[j].at
  }

  /** What the constructor asks of the terms. */
  predicate Accepted(terms: Terms) {
    terms.start + terms.duration <= MAX_TIMESTAMP
  }

  /** Terms whose schedule never traps: a positive duration, for amounts whose products fit. */
  predicate Sound(terms: Terms, total: nat) {
    terms.duration > 0 && Times(total, terms.duration) <= MAX_BALANCE
  }

  // ----- the law -----

  /** The linear law: nothing before the start, all from the end on, the proportion in between. */
  function Linear(terms: Terms, total: nat, now: nat): nat {
    if now < terms.start then 0
    else if now >= terms.start + terms.duration then total
    else Quotient(Times(total, now - terms.start), terms.duration)
  }

  /** Whenever the schedule does not trap, it is the law. */
  lemma ScheduleIsLinear(terms: Terms, total: nat, now: nat)
    requires Accepted(terms) && VestingSchedule(terms, total, now).Some?
    ensures VestingSchedule(terms, total, now).value == Linear(terms, total, now)
  {
    if now == terms.start + terms.duration {
      DivAddMultiple(0, terms.duration, total);
    }
  }

  /** The schedule traps exactly between start and end, both included, when the duration is zero or the product of
      the total and the time passed does not fit 128 bits. */
  lemma TrapsIff(terms: Terms, total: nat, now: nat)
    requires Accepted(terms)
    ensures VestingSchedule(terms, total, now).None?
            <==> terms.start <= now <= terms.start + terms.duration
                 && (terms.duration == 0 || total * (now - terms.start) >= 0x1_0000_0000_0000_0000_0000_0000_0000_0000)
  {
  }

  /** Of the terms that the constructor accepts, exactly the sound ones never trap: the others trap at the
      latest when the end is reached. */
  lemma NeverTrapsIffSound(terms: Terms, total: nat)
    requires Accepted(terms) && total <= MAX_BALANCE
    ensures (forall now: nat :: VestingSchedule(terms, total, now).Some?) <==> Sound(terms, total)
  {
    if Sound(terms, total) {
      forall now: nat ensures VestingSchedule(terms, total, now).Some? {
        if terms.start <= now <= terms.start + terms.duration {
          MulMonotone(total, now - terms.start, terms.duration);
        }
      }
    } else {
      assert VestingSchedule(terms, total, terms.start + terms.duration).None?;
    }
  }

  lemma LinearBound(terms: Terms, total: nat, now: nat)
    ensures Linear(terms, total, now) <= total
  {
    if terms.start <= now < terms.start + terms.duration {
      MulMonotone(total, now - terms.start, terms.duration);
      DivAddMultiple(0, terms.duration, total);
      DivMonotone(total * (now - terms.start), total * terms.duration, terms.duration);
    }
  }

  /** The law grows with time and with what was deposited, and never exceeds that. */
  lemma LinearGrows(terms: Terms, total: nat, now: nat, total': nat, now': nat)
    requires total <= total' && now <= now'
    ensures Linear(terms, total, now) <= Linear(terms, total', now') <= total'
  {
    LinearBound(terms, total, now);
    LinearBound(terms, total', now');
    if terms.start <= now && now' < terms.start + terms.duration {
      var x, y := now - terms.start, now' - terms.start;
      MulMonotone(total, x, y);
      MulMonotone(y, total, total');
      DivMonotone(total * x, total' * y, terms.duration);
    }
  }

  // ----- release attempts -----

  /** What holds between events: nothing was paid ahead of the law at time `now`. */
  ghost predicate OnSchedule(terms: Terms, f: Funds, now: nat) {
    f.released <= Linear(terms, f.released + f.balance, now)
  }

  /** A release attempt that traps changes nothing.  Any other, successful or refused, brings the released
      amount to the law exactly, keeps the total and never asks for more than the balance. */
  lemma ReleaseCatchesUp(terms: Terms, f: Funds, now: nat)
    requires Accepted(terms) && f.released + f.balance <= MAX_BALANCE && OnSchedule(terms, f, now)
    ensures var (f', r) := Release(terms, f, now);
            var total := f.released + f.balance;
            && f'.released + f'.balance == total
            && (r == Err(Trapped) <==> VestingSchedule(terms, total, now).None?)
            && (r == Err(Trapped) ==> f' == f)
            && (r != Err(Trapped) ==> f'.released == Linear(terms, total, now) && (r == Ok || r == Err(FundsNotReleased)))
            && (r != Err(Trapped) ==> (r == Ok <==> f.released < Linear(terms, total, now)))
  {
    var total := f.released + f.balance;
    LinearBound(terms, total, now);
    if VestingSchedule(terms, total, now).Some? {
      ScheduleIsLinear(terms, total, now);
    }
  }

  // ----- runs -----

  /** Whatever the terms and the order of events, what was paid out and what is held is what was deposited. */
  lemma {:induction false} DepositsAreConserved(terms: Terms, endowment: nat, events: seq<Event>)
    ensures var f := Run(terms, Funds(0, endowment), events);
            f.released + f.balance == endowment + Deposited(events)
  {
    if events != [] {
      DepositsAreConserved(terms, endowment, events[..|events| - 1]);
    }
  }

  /** The time of the last event, or zero. */
  function LastAt(events: seq<Event>): nat {
    if events == [] then 0 else events[|events| - 1].at
  }

  lemma {:induction false} RunIsOnSchedule(terms: Terms, endowment: nat, events: seq<Event>)
    requires InOrder(events) && Accepted(terms) && endowment + Deposited(events) <= MAX_BALANCE
    ensures OnSchedule(terms, Run(terms, Funds(0, endowment), events), LastAt(events))
  {
    if events != [] {
      var init, e := events[..|events| - 1], events[|events| - 1];
      RunIsOnSchedule(terms, endowment, init);
      var f := Run(terms, Funds(0, endowment), init);
      DepositsAreConserved(terms, endowment, init);
      assert LastAt(init) <= e.at;
      LinearGrows(terms, f.released + f.balance, LastAt(init), endowment + Deposited(events), e.at);
      if e.TryRelease? {
        ReleaseCatchesUp(terms, f, e.at);
      }
    }
  }

  /** History does not matter: after a release attempt that does not trap the contract has paid out exactly the
      law applied to everything deposited so far.  One that traps changes nothing. */
  lemma ReleasedIsLinear(terms: Terms, endowment: nat, events: seq<Event>)
    requires InOrder(events) && Accepted(terms) && endowment + Deposited(events) <= MAX_BALANCE
    requires events != [] && events[|events| - 1].TryRelease?
    ensures var f := Run(terms, Funds(0, endowment), events);
            var total, now := endowment + Deposited(events), events[|events| - 1].at;
            && f.released + f.balance == total
            && if VestingSchedule(terms, total, now).None? then f == Run(terms, Funds(0, endowment), events[..|events| - 1])
               else f.released == Linear(terms, total, now)
  {
    var init, e := events[..|events| - 1], events[|events| - 1];
    RunIsOnSchedule(terms, endowment, init);
    DepositsAreConserved(terms, endowment, init);
    DepositsAreConserved(terms, endowment, events);
    AttemptFollowsLaw(terms, Run(terms, Funds(0, endowment), init), LastAt(init), e.at);
  }

  lemma AttemptFollowsLaw(terms: Terms, f: Funds, last: nat, now: nat)
    requires Accepted(terms) && f.released + f.balance <= MAX_BALANCE && OnSchedule(terms, f, last) && last <= now
    ensures var f', total := Release(terms, f, now).0, f.released + f.balance;
            if VestingSchedule(terms, total, now).None? then f' == f else f'.released == Linear(terms, total, now)
  {
    LinearGrows(terms, f.released + f.balance, last, f.released + f.balance, now);
    ReleaseCatchesUp(terms, f, now);
  }

  /** An attempt after the end pays everything out, whatever the terms and whatever went before. */
  lemma AttemptAfterEndPaysAll(terms: Terms, endowment: nat, events: seq<Event>)
    requires Accepted(terms) && endowment + Deposited(events) <= MAX_BALANCE
    requires events != [] && events[|events| - 1].TryRelease? && events[|events| - 1].at > terms.start + terms.duration
    ensures Run(terms, Funds(0, endowment), events) == Funds(endowment + Deposited(events), 0)
  {
    DepositsAreConserved(terms, endowment, events[..|events| - 1]);
  }
}
