/** The bridge limit bounds what an identity can bridge: per interval, and per window of that length. */
module BridgeLimits {
  import opened Wrappers
  import opened Division
  import opened BridgeSpec
  import opened BridgeSafety

  /** Non-exempt mints to `did` in the `n`-th interval of `duration` blocks. */
  function InInterval(log: seq<Mint>, did: Did, duration: Block, n: nat): nat
    requires duration > 0
  {
    if log == [] then 0
    else
      var m := log[|log| - 1];
      InInterval(log[..|log| - 1], did, duration, n)
      + if m.did == did && !m.exempt && m.block / duration == n then m.amount else 0
  }

  /** Non-exempt mints to `did` in the `length` blocks from `from` on. */
  function InWindow(log: seq<Mint>, did: Did, from: Block, length: Block): nat {
    if log == [] then 0
    else
      var m := log[|log| - 1];
      InWindow(log[..|log| - 1], did, from, length)
      + if m.did == did && !m.exempt && from <= m.block < from + length then m.amount else 0
  }

  // ----- what one transition does to the log and to the running totals -----

  ghost predicate SameConfig(s: State, s': State) {
    s'.limit == s.limit && s'.duration == s.duration && s.block <= s'.block
  }

  ghost predicate NoMint(s: State, s': State) {
    s'.log == s.log && s'.bridged == s.bridged
  }

  /** A mint within the limit: the identity's total for the current interval includes it. */
  ghost predicate LimitedMint(s: State, s': State, m: Mint) {
    && s'.log == s.log + [m] && m.block == s.block == s'.block
    && (m.exempt ==> s'.bridged == s.bridged)
    && (!m.exempt ==>
          && s.duration > 0
          && m.did in s'.bridged && s'.bridged[m.did].1 == s.block / s.duration
          && (forall other :: other != m.did ==> BridgedOf(s', other) == BridgedOf(s, other))
          && s'.bridged[m.did].0 <= s.limit
          && s'.bridged[m.did].0 == m.amount + if BridgedOf(s, m.did).1 == s.block / s.duration then BridgedOf(s, m.did).0 else 0)
  }

  ghost predicate WithinLimit(s: State, s': State) {
    SameConfig(s, s') && (NoMint(s, s') || exists m :: LimitedMint(s, s', m))
  }

  lemma IssueIsWithinLimit(s: State, env: Env, k: Key, amount: Balance, exemptedDid: Option<Did>)
    ensures WithinLimit(s, Issue(s, env, k, amount, exemptedDid).0)
  {
    if exemptedDid.Some? {
      ExemptMint(s, k, amount, exemptedDid.value);
    } else if k.recipient in env.cdd {
      ExemptMint(s, k, amount, env.cdd[k.recipient]);
      if s.duration > 0 {
        IssueLimitedIsWithinLimit(s, k, amount, env.cdd[k.recipient], s.block / s.duration);
      }
    }
  }

  lemma ExemptMint(s: State, k: Key, amount: Balance, did: Did)
    ensures WithinLimit(s, Credit(s, k, amount, did, true))
  {
    assert LimitedMint(s, Credit(s, k, amount, did, true), Mint(k, amount, s.block, did, true));
  }

  lemma IssueLimitedIsWithinLimit(s: State, k: Key, amount: Balance, did: Did, interval: Block)
    requires s.duration > 0 && interval == s.block / s.duration
    ensures WithinLimit(s, IssueLimited(s, k, amount, did, interval).0)
  {
    var s' := IssueLimited(s, k, amount, did, interval).0;
    if s' != s {
      var bridged: nat := BridgedOf(s, did).0;
      assert LimitedMint(s, s', Mint(k, amount, s.block, did, false));
    }
  }

  /** What else becomes of the record or the queue does not matter to the limit. */
  lemma WithinLimitOf(s: State, issued: State, s': State)
    requires WithinLimit(s, issued)
    requires s'.log == issued.log && s'.bridged == issued.bridged && s'.block == issued.block
    requires s'.limit == issued.limit && s'.duration == issued.duration
    ensures WithinLimit(s, s')
  {
    if !NoMint(s, issued) {
      var m :| LimitedMint(s, issued, m);
      assert LimitedMint(s, s', m);
    }
  }

  lemma HandleNowIsWithinLimit(s: State, env: Env, tx: BridgeTx, d: Detail, manual: bool, exemptedDid: Option<Did>)
    ensures WithinLimit(s, HandleNow(s, env, tx, d, manual, exemptedDid).0)
  {
    var amount := if manual then d.amount else tx.amount;
    var s' := HandleNow(s, env, tx, d, manual, exemptedDid).0;
    var (issued, r) := Issue(s, env, KeyOf(tx), amount, exemptedDid);
    if s'.log != s.log {
      IssueIsWithinLimit(s, env, KeyOf(tx), amount, exemptedDid);
      WithinLimitOf(s, issued, s');
    } else {
      HandleNowMintsOrNot(s, env, tx, d, manual, exemptedDid);
    }
  }

  /** An attempt that logs nothing counts nothing. */
  lemma HandleNowMintsOrNot(s: State, env: Env, tx: BridgeTx, d: Detail, manual: bool, exemptedDid: Option<Did>)
    requires HandleNow(s, env, tx, d, manual, exemptedDid).0.log == s.log
    ensures SameConfig(s, HandleNow(s, env, tx, d, manual, exemptedDid).0)
    ensures NoMint(s, HandleNow(s, env, tx, d, manual, exemptedDid).0)
  {
    IssueShape(s, env, KeyOf(tx), if manual then d.amount else tx.amount, exemptedDid);
  }

  // ----- the invariant, for what was minted after the first `start` log entries -----

  /** No interval of `did` exceeds the limit, and the stored total covers the last one that was used; an
      `exact` total is what was minted in its interval, and nothing was minted after it. */
  ghost predicate Bounded(s: State, start: nat, did: Did, exact: bool) {
    && s.duration > 0
    && start <= |s.log|
    && var log := s.log[start..];
       var (total, last) := BridgedOf(s, did);
       && (forall n: nat :: InInterval(log, did, s.duration, n) <= s.limit)
       && ((!exact && forall n: nat :: InInterval(log, did, s.duration, n) == 0)
           || (&& last <= s.block / s.duration
               && InInterval(log, did, s.duration, last) <= total
               && (exact ==> InInterval(log, did, s.duration, last) == total)
               && (forall n: nat :: n > last ==> InInterval(log, did, s.duration, n) == 0)))
  }

  lemma AppendedInterval(log: seq<Mint>, m: Mint, did: Did, duration: Block, n: nat)
    requires duration > 0
    ensures InInterval(log + [m], did, duration, n)
            == InInterval(log, did, duration, n)
               + if m.did == did && !m.exempt && m.block / duration == n then m.amount else 0
  {
    assert (log + [m])[..|log|] == log;
  }

  /** A mint that is exempt or goes to another identity changes nothing for `did`. */
  lemma OtherMintStaysBounded(s: State, s': State, m: Mint, start: nat, did: Did, exact: bool)
    requires Bounded(s, start, did, exact) && SameConfig(s, s') && LimitedMint(s, s', m) && (m.exempt || m.did != did)
    ensures Bounded(s', start, did, exact)
  {
    var log := s.log[start..];
    assert s'.log[start..] == log + [m];
    forall n: nat ensures InInterval(log + [m], did, s.duration, n) == InInterval(log, did, s.duration, n) {
      AppendedInterval(log, m, did, s.duration, n);
    }
  }

  lemma MintStaysBounded(s: State, s': State, m: Mint, start: nat, did: Did, exact: bool)
    requires Bounded(s, start, did, exact) && SameConfig(s, s') && LimitedMint(s, s', m)
    ensures Bounded(s', start, did, exact)
  {
    if m.exempt || m.did != did {
      OtherMintStaysBounded(s, s', m, start, did, exact);
    } else {
      var log, now := s.log[start..], s.block / s.duration;
      assert s'.log[start..] == log + [m];
      forall n: nat ensures InInterval(log + [m], did, s.duration, n)
                            == InInterval(log, did, s.duration, n) + if n == now then m.amount else 0
      {
        AppendedInterval(log, m, did, s.duration, n);
      }
    }
  }

  lemma StaysBounded(s: State, s': State, start: nat, did: Did, exact: bool)
    requires Bounded(s, start, did, exact) && WithinLimit(s, s')
    ensures Bounded(s', start, did, exact)
  {
    if NoMint(s, s') {
      DivMonotone(s.block, s'.block, s.duration);
    } else {
      var m :| LimitedMint(s, s', m);
      MintStaysBounded(s, s', m, start, did, exact);
    }
  }

  // ----- steps and runs -----

  lemma {:induction false} FreezeAllMintsNothing(s: State, txs: seq<BridgeTx>)
    ensures SameConfig(s, FreezeAll(s, txs)) && NoMint(s, FreezeAll(s, txs))
  {
    if txs != [] {
      FreezeAllMintsNothing(s, txs[..|txs| - 1]);
    }
  }

  lemma {:induction false} UnfreezeAllStaysBounded(s: State, env: Env, txs: seq<BridgeTx>, start: nat, did: Did, exact: bool)
    requires Bounded(s, start, did, exact)
    ensures Bounded(UnfreezeAll(s, env, txs), start, did, exact)
    ensures SameConfig(s, UnfreezeAll(s, env, txs))
  {
    if txs != [] {
      var mid, tx := UnfreezeAll(s, env, txs[..|txs| - 1]), txs[|txs| - 1];
      UnfreezeAllStaysBounded(s, env, txs[..|txs| - 1], start, did, exact);
      var absent := DetailOf(mid, KeyOf(tx)).(status := Absent);
      var unfrozen := Put(mid, KeyOf(tx), absent);
      StaysBounded(mid, unfrozen, start, did, exact);
      HandleNowIsWithinLimit(unfrozen, env, tx, absent, true, None);
      StaysBounded(unfrozen, HandleNow(unfrozen, env, tx, absent, true, None).0, start, did, exact);
    }
  }

  lemma HandleTxIsWithinLimit(s: State, env: Env, origin: Origin, tx: BridgeTx)
    ensures WithinLimit(s, HandleTx(s, env, origin, tx).0)
  {
    HandleNowIsWithinLimit(s, env, tx, DetailOf(s, KeyOf(tx)), StatusOf(s, KeyOf(tx)).Pending?, None);
  }

  lemma ForceHandleTxIsWithinLimit(s: State, env: Env, origin: Origin, tx: BridgeTx)
    ensures WithinLimit(s, ForceHandleTx(s, env, origin, tx).0)
  {
    if tx.recipient in env.cdd {
      HandleNowIsWithinLimit(s, env, tx, DetailOf(s, KeyOf(tx)), false, Some(env.cdd[tx.recipient]));
    }
  }

  lemma PerformIsWithinLimit(s: State, env: Env, origin: Origin, call: Call)
    requires !call.ChangeBridgeLimit? && !call.UnfreezeTxs?
    ensures WithinLimit(s, Perform(s, env, origin, call).0)
  {
    match call
    case HandleBridgeTx(tx) => HandleTxIsWithinLimit(s, env, origin, tx);
    case ForceHandleBridgeTx(tx) => ForceHandleTxIsWithinLimit(s, env, origin, tx);
    case HandleScheduledBridgeTx(tx) => HandleNowIsWithinLimit(s, env, tx, DetailOf(s, KeyOf(tx)), false, None);
    case FreezeTxs(txs) => FreezeAllMintsNothing(s, txs);
    case _ =>
  }

  ghost predicate SameLimit(s: State, s': State) {
    s'.limit == s.limit && s'.duration == s.duration
  }

  lemma SubmitStaysBounded(s: State, env: Env, origin: Origin, call: Call, start: nat, did: Did, exact: bool)
    requires Bounded(s, start, did, exact) && SameLimit(s, Perform(s, env, origin, call).0)
    ensures Bounded(Perform(s, env, origin, call).0, start, did, exact) && SameConfig(s, Perform(s, env, origin, call).0)
  {
    if call.UnfreezeTxs? {
      UnfreezeAllStaysBounded(s, env, call.txs, start, did, exact);
    } else {
      if !call.ChangeBridgeLimit? {
        PerformIsWithinLimit(s, env, origin, call);
      }
      StaysBounded(s, Perform(s, env, origin, call).0, start, did, exact);
    }
  }

  lemma StepStaysBounded(s: State, env: Env, e: Event, start: nat, did: Did, exact: bool)
    requires Bounded(s, start, did, exact) && SameLimit(s, Step(s, env, e))
    ensures Bounded(Step(s, env, e), start, did, exact) && SameConfig(s, Step(s, env, e))
  {
    match e
    case Advance(to) => StaysBounded(s, Step(s, env, e), start, did, exact);
    case Fire(c) =>
      var mid := s.(queue := s.queue - multiset{c});
      StaysBounded(s, mid, start, did, exact);
      HandleNowIsWithinLimit(mid, env, c.tx, DetailOf(mid, KeyOf(c.tx)), false, None);
      StaysBounded(mid, HandleNow(mid, env, c.tx, DetailOf(mid, KeyOf(c.tx)), false, None).0, start, did, exact);
    case Submit(origin, call) =>
      if Authorize(s, env, origin, call).Ok? {
        SubmitStaysBounded(s, env, origin, call, start, did, exact);
      }
  }

  /** The limit and its duration are the same all along the run. */
  ghost predicate SteadyLimit(s: State, events: seq<(Env, Event)>) {
    events == []
    || var init := events[..|events| - 1];
       SteadyLimit(s, init) && SameLimit(Run(s, init), Run(s, events))
  }

  lemma {:induction false} RunStaysBounded(s: State, events: seq<(Env, Event)>, start: nat, did: Did, exact: bool)
    requires SteadyLimit(s, events) && Bounded(s, start, did, exact)
    ensures Bounded(Run(s, events), start, did, exact) && SameConfig(s, Run(s, events))
  {
    if events != [] {
      var init, last := events[..|events| - 1], events[|events| - 1];
      RunStaysBounded(s, init, start, did, exact);
      StepStaysBounded(Run(s, init), last.0, last.1, start, did, exact);
    }
  }

  /** A window as long as an interval meets at most two intervals. */
  lemma {:induction false} WindowMeetsTwoIntervals(log: seq<Mint>, did: Did, duration: Block, from: Block)
    requires duration > 0
    ensures InWindow(log, did, from, duration)
            <= InInterval(log, did, duration, from / duration) + InInterval(log, did, duration, from / duration + 1)
  {
    if log != [] {
      var m := log[|log| - 1];
      WindowMeetsTwoIntervals(log[..|log| - 1], did, duration, from);
      if from <= m.block < from + duration {
        DivMonotone(from, m.block, duration);
        DivMonotone(m.block, from + duration, duration);
        DivAddMultiple(from, duration, 1);
      }
    }
  }

  /** At most `limit` in each interval, and at most twice that in any window as long as an interval. */
  ghost predicate Limited(log: seq<Mint>, did: Did, duration: Block, limit: Balance)
    requires duration > 0
  {
    && (forall n: nat :: InInterval(log, did, duration, n) <= limit)
    && (forall from: Block :: InWindow(log, did, from, duration) <= 2 * limit)
  }

  lemma WindowIsBounded(log: seq<Mint>, did: Did, duration: Block, limit: Balance, from: Block, first: nat)
    requires duration > 0 && first == from / duration
    requires InInterval(log, did, duration, first) <= limit && InInterval(log, did, duration, first + 1) <= limit
    ensures InWindow(log, did, from, duration) <= 2 * limit
  {
    WindowMeetsTwoIntervals(log, did, duration, from);
  }

  lemma IntervalsLimitWindows(log: seq<Mint>, did: Did, duration: Block, limit: Balance)
    requires duration > 0 && forall n: nat :: InInterval(log, did, duration, n) <= limit
    ensures Limited(log, did, duration, limit)
  {
    forall from: Block ensures InWindow(log, did, from, duration) <= 2 * limit {
      WindowIsBounded(log, did, duration, limit, from, from / duration);
    }
  }

  /** While the bridge limit stays as it is, from any state on and over any run: what is minted to one
      identity without exemption, to whatever recipients, is at most the limit in each interval and at
      most twice the limit in any window of that many consecutive blocks. */
  lemma LimitBoundsMinting(s: State, events: seq<(Env, Event)>, did: Did)
    requires s.duration > 0 && SteadyLimit(s, events)
    ensures s.log <= Run(s, events).log
    ensures Limited(Run(s, events).log[|s.log|..], did, s.duration, s.limit)
  {
    RunExtendsLog(s, events);
    assert s.log[|s.log|..] == [];
    RunStaysBounded(s, events, |s.log|, did, false);
    IntervalsLimitWindows(Run(s, events).log[|s.log|..], did, s.duration, s.limit);
  }
}
