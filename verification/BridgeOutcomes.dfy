/** The whole outcome of the three handling calls: when each of them mints, puts off, amends or refuses, what
    exactly that changes, and with which error a refusal comes. */
module BridgeOutcomes {
  import opened Wrappers
  import opened BridgeSpec
  import opened BridgeSafety
  import opened BridgeDelivery
  import opened BridgeAcceptance
  import opened BridgeTransitions

  // ----- what may become of a transaction -----

  ghost predicate SameSetup(s: State, s': State) {
    SameSettings(s, s') && s'.frozen == s.frozen && s'.block == s.block
  }

  ghost predicate OnlyRecord(s: State, s': State, k: Key) {
    forall other :: other != k ==> DetailOf(s', other) == DetailOf(s, other)
  }

  /** The recipient gets the amount if the balance can hold it and nothing otherwise. */
  ghost predicate Credited(s: State, s': State, who: AccountId, amount: Balance) {
    if BalanceOf(s, who) + amount <= MAX_BALANCE then
      && (forall a :: BalanceOf(s', a) == BalanceOf(s, a) + if a == who then amount else 0)
      && s'.issuance == Min(s.issuance + amount, MAX_BALANCE)
    else s'.balances == s.balances && s'.issuance == s.issuance
  }

  /** The mint counts towards the identity's current interval, unless it is exempt. */
  ghost predicate Counted(s: State, s': State, did: Did, amount: Balance, exempt: bool) {
    if exempt then s'.bridged == s.bridged
    else
      && s.duration > 0
      && BridgedOf(s', did) == (BridgedNow(s, did) + amount, s.block / s.duration)
      && forall other :: other != did ==> BridgedOf(s', other) == BridgedOf(s, other)
  }

  /** `k` is minted and handled in this block, and nothing else happens. */
  ghost predicate Completed(s: State, s': State, k: Key, amount: Balance, did: Did, exempt: bool) {
    && SameSetup(s, s') && OnlyRecord(s, s', k) && s'.queue == s.queue
    && DetailOf(s', k) == DetailOf(s, k).(status := Handled, executionBlock := s.block)
    && s'.log == s.log + [Mint(k, amount, s.block, did, exempt)]
    && Credited(s, s', k.recipient, amount) && Counted(s, s', did, amount, exempt)
  }

  /** Blocks to wait after the timelock: one at first, then twice as many with each attempt up to 2^24. */
  function Wait(status: Status): nat {
    match status
    case Absent => 1
    case Timelocked => 2
    case Pending(x) => Pow2(Min((x + 1) % 256, 24))
    case _ => 0
  }

  function Slot(s: State, k: Key): Block {
    Min(s.block + s.timelock + Wait(StatusOf(s, k)), MAX_BLOCK)
  }

  /** The transaction has one more call in the queue and its record says when, and nothing else happens. */
  ghost predicate Deferred(s: State, s': State, tx: BridgeTx) {
    var k := KeyOf(tx);
    var d, d' := DetailOf(s, k), DetailOf(s', k);
    && SameSetup(s, s') && OnlyRecord(s, s', k) && SameMoney(s, s') && s'.bridged == s.bridged
    && PutOff(d.status, d'.status)
    && d'.amount == (if d.status.Absent? then tx.amount else d.amount)
    && d'.executionBlock == Slot(s, k) && d'.txHash == tx.txHash
    && s'.queue == s.queue + multiset{Scheduled(Slot(s, k), tx)}
  }

  /** The slot is free to take. */
  predicate CanDefer(s: State, env: Env, k: Key) {
    env.accepts && Slot(s, k) > s.block
  }

  // ----- putting off -----

  lemma SlotIsUnlockBlock(s: State, k: Key)
    requires !StatusOf(s, k).Frozen? && !StatusOf(s, k).Handled?
    ensures Slot(s, k) == UnlockBlock(s.block, s.timelock, NextStatus(StatusOf(s, k)))
  {
    assert Pow2(0) == 1 && Pow2(1) == 2;
  }

  /** Frozen and handled transactions are not put off; any other is, if the scheduler takes its slot. */
  lemma LaterOutcome(s: State, env: Env, tx: BridgeTx)
    ensures var k := KeyOf(tx);
            var (s', r) := HandleLater(s, env, tx, DetailOf(s, k), s.timelock);
            if StatusOf(s, k).Frozen? then s' == s && r == Err(FrozenTx)
            else if StatusOf(s, k).Handled? then s' == s && r == Err(ProposalAlreadyHandled)
            else if CanDefer(s, env, k) then Deferred(s, s', tx) && r == Ok
            else s' == s && r == Err(ScheduleRefused)
  {
    if !StatusOf(s, KeyOf(tx)).Frozen? && !StatusOf(s, KeyOf(tx)).Handled? {
      SlotIsUnlockBlock(s, KeyOf(tx));
    }
  }

  // ----- issuing -----

  lemma CreditIsCredited(s: State, k: Key, amount: Balance, did: Did, exempt: bool)
    ensures Credited(s, Credit(s, k, amount, did, exempt), k.recipient, amount)
  {
  }

  /** Why an amount that may not be bridged is refused. */
  function Refusal(s: State, env: Env, recipient: AccountId, amount: Balance): Error {
    if recipient !in env.cdd then NoValidCdd
    else if s.duration == 0 then DivisionByZero
    else if amount + BridgedNow(s, env.cdd[recipient]) > MAX_BALANCE then Overflow
    else BridgeLimitReached
  }

  /** The state after issuing: credited, logged and counted, with the records and the queue as they were. */
  ghost predicate IssuedFor(s: State, s': State, k: Key, amount: Balance, did: Did, exempt: bool) {
    && SameSetup(s, s') && s'.details == s.details && s'.queue == s.queue
    && s'.log == s.log + [Mint(k, amount, s.block, did, exempt)]
    && Credited(s, s', k.recipient, amount) && Counted(s, s', did, amount, exempt)
  }

  lemma IssueLimitedOutcome(s: State, k: Key, amount: Balance, did: Did)
    requires s.limit <= MAX_BALANCE && amount <= MAX_BALANCE && s.duration > 0
    ensures var (s', r) := IssueLimited(s, k, amount, did, s.block / s.duration);
            if amount + BridgedNow(s, did) <= s.limit then r == Ok && IssuedFor(s, s', k, amount, did, false)
            else s' == s && r == Err(if amount + BridgedNow(s, did) > MAX_BALANCE then Overflow else BridgeLimitReached)
  {
    var counted := CountBridged(s, amount, did, s.block / s.duration).0;
    CreditIsCredited(counted, k, amount, did, false);
  }

  lemma IssueOutcome(s: State, env: Env, k: Key, amount: Balance)
    requires s.limit <= MAX_BALANCE && amount <= MAX_BALANCE
    ensures var (s', r) := Issue(s, env, k, amount, None);
            if MayBridge(s, env, k.recipient, amount) then
              r == Ok && IssuedFor(s, s', k, amount, env.cdd[k.recipient], IsExempted(s, env.cdd[k.recipient]))
            else s' == s && r == Err(Refusal(s, env, k.recipient, amount))
  {
    if k.recipient in env.cdd {
      var did := env.cdd[k.recipient];
      if IsExempted(s, did) {
        CreditIsCredited(s, k, amount, did, true);
      } else if s.duration > 0 {
        IssueLimitedOutcome(s, k, amount, did);
      }
    }
  }

  lemma ExemptIssueOutcome(s: State, env: Env, k: Key, amount: Balance, did: Did)
    ensures var (s', r) := Issue(s, env, k, amount, Some(did));
            r == Ok && IssuedFor(s, s', k, amount, did, true)
  {
    CreditIsCredited(s, k, amount, did, true);
  }

  lemma HandledIsCompleted(s: State, issued: State, k: Key, amount: Balance, did: Did, exempt: bool)
    requires IssuedFor(s, issued, k, amount, did, exempt)
    ensures Completed(s, Put(issued, k, DetailOf(s, k).(status := Handled, executionBlock := s.block)), k, amount, did, exempt)
  {
  }

  // ----- attempts -----

  /** An attempt of the bridge itself, or of the controller or admin, on a transaction that is not frozen and not
      handled: it mints the amount it carries if the module and the limit let it, else it is put off. */
  ghost predicate TrustedOutcome(s: State, env: Env, tx: BridgeTx, s': State, r: Outcome<Error>) {
    var k := KeyOf(tx);
    if !s.frozen && MayBridge(s, env, tx.recipient, tx.amount) then
      r == Ok && Completed(s, s', k, tx.amount, env.cdd[tx.recipient], IsExempted(s, env.cdd[tx.recipient]))
    else if CanDefer(s, env, k) then r == Ok && Deferred(s, s', tx)
    else s' == s && r == if s.frozen then Err(ScheduleRefused) else Ok
  }

  lemma TrustedAttempt(s: State, env: Env, tx: BridgeTx)
    requires s.limit <= MAX_BALANCE && tx.amount <= MAX_BALANCE
    requires !StatusOf(s, KeyOf(tx)).Frozen? && !StatusOf(s, KeyOf(tx)).Handled?
    ensures var (s', r) := HandleNow(s, env, tx, DetailOf(s, KeyOf(tx)), false, None);
            TrustedOutcome(s, env, tx, s', r)
  {
    var k := KeyOf(tx);
    LaterOutcome(s, env, tx);
    if !s.frozen {
      IssueOutcome(s, env, k, tx.amount);
      if MayBridge(s, env, tx.recipient, tx.amount) {
        var did := env.cdd[tx.recipient];
        HandledIsCompleted(s, Issue(s, env, k, tx.amount, None).0, k, tx.amount, did, IsExempted(s, did));
      }
    }
  }

  /** A manual retry: it mints the amount on record if the module and the limit let it, else it changes nothing. */
  ghost predicate RetryOutcome(s: State, env: Env, k: Key, s': State, r: Outcome<Error>) {
    var amount := DetailOf(s, k).amount;
    if s.frozen then s' == s && r == Err(BridgeFrozen)
    else if MayBridge(s, env, k.recipient, amount) then
      r == Ok && Completed(s, s', k, amount, env.cdd[k.recipient], IsExempted(s, env.cdd[k.recipient]))
    else s' == s && r == Err(Refusal(s, env, k.recipient, amount))
  }

  lemma ManualRetry(s: State, env: Env, tx: BridgeTx)
    requires s.limit <= MAX_BALANCE && DetailOf(s, KeyOf(tx)).amount <= MAX_BALANCE
    requires !StatusOf(s, KeyOf(tx)).Frozen? && !StatusOf(s, KeyOf(tx)).Handled?
    ensures var (s', r) := HandleNow(s, env, tx, DetailOf(s, KeyOf(tx)), true, None);
            RetryOutcome(s, env, KeyOf(tx), s', r)
  {
    var k, amount := KeyOf(tx), DetailOf(s, KeyOf(tx)).amount;
    if !s.frozen {
      IssueOutcome(s, env, k, amount);
      if MayBridge(s, env, tx.recipient, amount) {
        var did := env.cdd[tx.recipient];
        HandledIsCompleted(s, Issue(s, env, k, amount, None).0, k, amount, did, IsExempted(s, did));
      }
    }
  }

  // ----- the calls -----

  /** The frozen record takes the submitted amount, and nothing else happens. */
  ghost predicate Amended(s: State, s': State, tx: BridgeTx) {
    && DetailOf(s', KeyOf(tx)) == DetailOf(s, KeyOf(tx)).(amount := tx.amount)
    && OnlyRecord(s, s', KeyOf(tx)) && SameSetup(s, s') && SameMoney(s, s')
    && s'.bridged == s.bridged && s'.queue == s.queue
  }

  ghost predicate Rejected(s: State, s': State, r: Outcome<Error>, e: Error) {
    s' == s && r == Err(e)
  }

  /** What `handle_bridge_tx` does, by the status of the transaction and by who submits it. */
  lemma SubmissionOutcome(s: State, env: Env, origin: Origin, tx: BridgeTx)
    requires s.limit <= MAX_BALANCE && tx.amount <= MAX_BALANCE && DetailOf(s, KeyOf(tx)).amount <= MAX_BALANCE
    ensures var (s', r) := Dispatch(s, env, origin, HandleBridgeTx(tx));
            var trusted := IsController(s, origin) || IsAdmin(s, origin);
            if !origin.Signed? then Rejected(s, s', r, BadOrigin)
            else
              match StatusOf(s, KeyOf(tx))
              case Handled => Rejected(s, s', r, ProposalAlreadyHandled)
              case Timelocked => Rejected(s, s', r, TimelockedTx)
              case Pending(_) => RetryOutcome(s, env, KeyOf(tx), s', r)
              case Frozen => if trusted then r == Ok && Amended(s, s', tx) else Rejected(s, s', r, BadCaller)
              case Absent =>
                if !trusted then Rejected(s, s', r, BadCaller)
                else if s.timelock == 0 then TrustedOutcome(s, env, tx, s', r)
                else if CanDefer(s, env, KeyOf(tx)) then r == Ok && Deferred(s, s', tx)
                else Rejected(s, s', r, ScheduleRefused)
  {
    var status := StatusOf(s, KeyOf(tx));
    if status.Pending? {
      ManualRetry(s, env, tx);
    } else if status.Absent? {
      TrustedAttempt(s, env, tx);
      LaterOutcome(s, env, tx);
    }
  }

  /** What a queued call does, which root alone can dispatch. */
  lemma ScheduledOutcome(s: State, env: Env, origin: Origin, tx: BridgeTx)
    requires s.limit <= MAX_BALANCE && tx.amount <= MAX_BALANCE
    ensures var (s', r) := Dispatch(s, env, origin, HandleScheduledBridgeTx(tx));
            if !origin.Root? then Rejected(s, s', r, BadOrigin)
            else
              match StatusOf(s, KeyOf(tx))
              case Handled => Rejected(s, s', r, ProposalAlreadyHandled)
              case Frozen => Rejected(s, s', r, FrozenTx)
              case _ => TrustedOutcome(s, env, tx, s', r)
  {
    if origin.Root? && !StatusOf(s, KeyOf(tx)).Frozen? && !StatusOf(s, KeyOf(tx)).Handled? {
      TrustedAttempt(s, env, tx);
    }
  }

  /** What `force_handle_bridge_tx` does: for the admin and a recipient with an identity it mints the amount at
      once, whatever the bridge limit, the totals, the exemptions and the timelock say.  Only a frozen module
      puts it off. */
  lemma ForceOutcome(s: State, env: Env, origin: Origin, tx: BridgeTx)
    ensures var (s', r) := Dispatch(s, env, origin, ForceHandleBridgeTx(tx));
            var k := KeyOf(tx);
            if !origin.Signed? then Rejected(s, s', r, BadOrigin)
            else if !IsAdmin(s, origin) then Rejected(s, s', r, BadAdmin)
            else if tx.recipient !in env.cdd then Rejected(s, s', r, NoValidCdd)
            else if StatusOf(s, k).Handled? then Rejected(s, s', r, ProposalAlreadyHandled)
            else if StatusOf(s, k).Frozen? then Rejected(s, s', r, FrozenTx)
            else if !s.frozen then r == Ok && Completed(s, s', k, tx.amount, env.cdd[tx.recipient], true)
            else if CanDefer(s, env, k) then r == Ok && Deferred(s, s', tx)
            else Rejected(s, s', r, ScheduleRefused)
  {
    var k := KeyOf(tx);
    LaterOutcome(s, env, tx);
    if tx.recipient in env.cdd {
      var did := env.cdd[tx.recipient];
      ExemptIssueOutcome(s, env, k, tx.amount, did);
      HandledIsCompleted(s, Issue(s, env, k, tx.amount, Some(did)).0, k, tx.amount, did, true);
    }
  }

  // ----- an amended amount is the one minted -----

  /** The event sets the amount of a frozen `k`. */
  predicate Amends(s: State, e: Event, k: Key) {
    && e.Submit? && e.call.HandleBridgeTx? && KeyOf(e.call.tx) == k
    && (IsController(s, e.origin) || IsAdmin(s, e.origin))
  }

  /** Neither amended by the controller or admin nor released by the admin. */
  predicate Untouched(s: State, events: seq<(Env, Event)>, k: Key) {
    events == []
    || var init, last := events[..|events| - 1], events[|events| - 1];
       && Untouched(s, init, k)
       && !Amends(Run(s, init), last.1, k)
       && (AdminNames(Run(s, init), last.0, last.1, k) ==> last.1.call.FreezeTxs?)
  }

  lemma {:induction false} FreezeAllKeepsFrozen(s: State, txs: seq<BridgeTx>, k: Key)
    requires StatusOf(s, k).Frozen?
    ensures DetailOf(FreezeAll(s, txs), k) == DetailOf(s, k)
  {
    if txs != [] {
      FreezeAllKeepsFrozen(s, txs[..|txs| - 1], k);
    }
  }

  /** Every event that neither amends nor releases a frozen transaction leaves its record as it is. */
  lemma FrozenRecordKept(s: State, env: Env, e: Event, k: Key)
    requires StatusOf(s, k).Frozen? && !Amends(s, e, k)
    requires AdminNames(s, env, e, k) ==> e.call.FreezeTxs?
    ensures DetailOf(Step(s, env, e), k) == DetailOf(s, k)
  {
    if ActsOn(s, env, e, k) {
      match e.call
      case FreezeTxs(txs) => FreezeAllKeepsFrozen(s, txs, k);
      case _ =>
    } else if !Names(e, k) {
      StepLeavesAlone(s, env, e, k);
    }
  }

  lemma {:induction false} FrozenRecordStays(s: State, events: seq<(Env, Event)>, k: Key)
    requires StatusOf(s, k).Frozen? && Untouched(s, events, k)
    ensures DetailOf(Run(s, events), k) == DetailOf(s, k)
  {
    if events != [] {
      var init, last := events[..|events| - 1], events[|events| - 1];
      FrozenRecordStays(s, init, k);
      FrozenRecordKept(Run(s, init), last.0, last.1, k);
    }
  }

  lemma MintedSince(s: State, s': State, k: Key) returns (i: nat)
    requires s.log <= s'.log && Minted(s', k) && !Minted(s, k)
    ensures |s.log| <= i < |s'.log| && s'.log[i].key == k
  {
    assert forall j :: 0 <= j < |s.log| ==> s'.log[j] == s.log[j] && s.log[j].key != k;
    i :| 0 <= i < |s'.log| && s'.log[i].key == k;
  }

  /** Once a transaction is frozen, what the controller or admin last submitted for it before the admin unfreezes
      it is what is minted, however long that takes and whatever amount the admin's list carries. */
  lemma AmendedAmountIsMinted(s: State, env: Env, origin: Origin, tx: BridgeTx, events: seq<(Env, Event)>,
                              env': Env, admin: Origin, txs: seq<BridgeTx>)
    requires Safe(s) && StatusOf(s, KeyOf(tx)).Frozen? && (IsController(s, origin) || IsAdmin(s, origin))
    requires Untouched(Step(s, env, Submit(origin, HandleBridgeTx(tx))), events, KeyOf(tx))
    ensures var k := KeyOf(tx);
            var s1 := Run(Step(s, env, Submit(origin, HandleBridgeTx(tx))), events);
            var s2 := Step(s1, env', Submit(admin, UnfreezeTxs(txs)));
            StatusOf(s2, k).Handled? ==>
              && |s1.log| <= |s2.log|
              && exists i :: |s1.log| <= i < |s2.log| && s2.log[i].key == k && s2.log[i].amount == tx.amount
  {
    var k := KeyOf(tx);
    var s0 := Step(s, env, Submit(origin, HandleBridgeTx(tx)));
    var s1 := Run(s0, events);
    var s2 := Step(s1, env', Submit(admin, UnfreezeTxs(txs)));
    FrozenRecordStays(s0, events, k);
    StepKeeps(s, env, Submit(origin, HandleBridgeTx(tx)));
    RunKeepsSafe(s0, events);
    StepKeeps(s1, env', Submit(admin, UnfreezeTxs(txs)));
    if StatusOf(s2, k).Handled? {
      var i := MintedSince(s1, s2, k);
      UnfreezeMintsRecordedAmount(s1, env', txs, i);
    }
  }
}
