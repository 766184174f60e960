/** What the recipient of an accepted transaction can rely on while no administrator acts on its
    key: the accepted amount is what is minted, not before the timelock is over, through at most one
    queued call at a time, with attempts that back off exponentially. */
module BridgeAcceptance {
  import opened Wrappers
  import opened BridgeSpec
  import opened BridgeSafety

  datatype Acceptance = Acceptance(amount: Balance, block: Block, timelock: Block)

  /** The admin freezes, unfreezes, removes or forces `k`, or root replays its call.  The same calls from
      anybody else are refused and do not count. */
  predicate ActsOn(s: State, env: Env, e: Event, k: Key) {
    && e.Submit?
    && match e.call
       case ForceHandleBridgeTx(tx) => IsAdmin(s, e.origin) && KeyOf(tx) == k
       case HandleScheduledBridgeTx(tx) => e.origin.Root? && KeyOf(tx) == k
       case FreezeTxs(txs) => IsAdmin(s, e.origin) && env.hasIdentity && k in Keys(txs)
       case UnfreezeTxs(txs) => IsAdmin(s, e.origin) && env.hasIdentity && k in Keys(txs)
       case RemoveTxs(txs) => IsAdmin(s, e.origin) && env.hasIdentity && k in Keys(txs)
       case _ => false
  }

  /** No administrator acts on `k` along the run. */
  predicate LeftToTheBridge(s: State, events: seq<(Env, Event)>, k: Key) {
    events == []
    || var init, last := events[..|events| - 1], events[|events| - 1];
       LeftToTheBridge(s, init, k) && !ActsOn(Run(s, init), last.0, last.1, k)
  }

  /** The transaction, submitted by the controller or the admin, that took the record of `k` out of
      `Absent`, if the run has one. */
  function Accepted(s: State, events: seq<(Env, Event)>, k: Key): Option<Acceptance> {
    if events == [] then None
    else
      var init, last := events[..|events| - 1], events[|events| - 1].1;
      var earlier := Accepted(s, init, k);
      if earlier.Some? then earlier
      else AcceptedBy(Run(s, init), last, Run(s, events), k)
  }

  function AcceptedBy(before: State, e: Event, after: State, k: Key): Option<Acceptance> {
    if e.Submit? && e.call.HandleBridgeTx? && KeyOf(e.call.tx) == k
       && (IsController(before, e.origin) || IsAdmin(before, e.origin))
       && StatusOf(before, k).Absent? && !StatusOf(after, k).Absent?
    then Some(Acceptance(e.call.tx.amount, before.block, before.timelock))
    else None
  }

  /** Blocks from acceptance to the `m`-th attempt's end of backoff, were every timelock zero. */
  function Backoff(m: nat): nat {
    if m == 0 then 0 else Backoff(m - 1) + Pow2(Min((m - 1) % 256, 24))
  }

  /** The slot given at acceptance: one block after the timelock. */
  function FirstSlot(a: Acceptance): Block {
    AddBlocks(AddBlocks(a.block, a.timelock), 1)
  }

  // ----- the invariant -----

  ghost predicate NoCalls(s: State, k: Key) {
    forall c :: c in s.queue ==> KeyOf(c.tx) != k
  }

  ghost predicate AtMostOneCall(s: State, k: Key) {
    && (forall c :: c in s.queue && KeyOf(c.tx) == k ==> s.queue[c] == 1)
    && (forall c, c' :: c in s.queue && c' in s.queue && KeyOf(c.tx) == k && KeyOf(c'.tx) == k ==> c == c')
  }

  /** Every call queued for `k` carries `amount` and waits at least until `from`. */
  ghost predicate CallsFrom(s: State, k: Key, amount: Balance, from: int) {
    forall c :: c in s.queue && KeyOf(c.tx) == k ==> c.tx.amount == amount && from <= c.at
  }

  /** The status after `m` attempts that did not mint. */
  function AfterAttempts(m: nat): Status {
    if m == 0 then Timelocked else Pending(m % 256)
  }

  /** `m` attempts were made, the last of them when `m` backoffs had passed. */
  ghost predicate Tried(s: State, k: Key, a: Acceptance, m: nat) {
    && DetailOf(s, k).amount == a.amount
    && StatusOf(s, k) == AfterAttempts(m)
    && Min(a.block + Backoff(m), MAX_BLOCK) <= s.block
    && CallsFrom(s, k, a.amount, Min(a.block + Backoff(m + 1), MAX_BLOCK))
    && (m == 0 ==> CallsFrom(s, k, a.amount, FirstSlot(a)))
    && (m > 0 ==> FirstSlot(a) <= s.block)
  }

  ghost predicate Paid(m: Mint, a: Acceptance) {
    m.amount == a.amount && (a.timelock > 0 ==> FirstSlot(a) <= m.block)
  }

  /** Since `start` entries of the log, every mint of `k` was as accepted. */
  ghost predicate PaidAs(s: State, start: nat, k: Key, acc: Option<Acceptance>) {
    forall i :: start <= i < |s.log| && s.log[i].key == k ==> acc.Some? && Paid(s.log[i], acc.value)
  }

  ghost predicate Tracked(s: State, start: nat, k: Key, acc: Option<Acceptance>) {
    && AtMostOneCall(s, k)
    && PaidAs(s, start, k, acc)
    && start <= |s.log|
    && match acc
       case None => StatusOf(s, k).Absent? && NoCalls(s, k)
       case Some(a) => StatusOf(s, k).Handled? || exists m: nat :: Tried(s, k, a, m)
  }

  // ----- steps on other keys -----

  /** `k` is left alone: its record, its queued calls and its mints are as before. */
  ghost predicate LeavesAlone(s: State, s': State, k: Key) {
    && DetailOf(s', k) == DetailOf(s, k)
    && (forall c: Scheduled :: KeyOf(c.tx) == k ==> s'.queue[c] == s.queue[c])
    && s.log <= s'.log
    && (forall i :: |s.log| <= i < |s'.log| ==> s'.log[i].key != k)
    && s.block <= s'.block
  }

  lemma TrackedWhenLeftAlone(s: State, s': State, start: nat, k: Key, acc: Option<Acceptance>)
    requires Tracked(s, start, k, acc) && LeavesAlone(s, s', k)
    ensures Tracked(s', start, k, acc)
  {
    assert forall c: Scheduled :: KeyOf(c.tx) == k ==> (c in s'.queue <==> c in s.queue);
    if acc.Some? && !StatusOf(s, k).Handled? {
      var m: nat :| Tried(s, k, acc.value, m);
      assert Tried(s', k, acc.value, m);
    }
  }

  lemma LaterLeavesAlone(s: State, env: Env, tx: BridgeTx, d: Detail, timelock: Block, k: Key)
    requires KeyOf(tx) != k
    ensures LeavesAlone(s, HandleLater(s, env, tx, d, timelock).0, k)
  {
  }

  lemma NowLeavesAlone(s: State, env: Env, tx: BridgeTx, d: Detail, manual: bool, exemptedDid: Option<Did>, k: Key)
    requires KeyOf(tx) != k
    ensures LeavesAlone(s, HandleNow(s, env, tx, d, manual, exemptedDid).0, k)
  {
    IssueShape(s, env, KeyOf(tx), if manual then d.amount else tx.amount, exemptedDid);
    LaterLeavesAlone(s, env, tx, d, s.timelock, k);
  }

  lemma {:induction false} FreezeAllLeavesAlone(s: State, txs: seq<BridgeTx>, k: Key)
    requires k !in Keys(txs)
    ensures LeavesAlone(s, FreezeAll(s, txs), k)
  {
    if txs != [] {
      assert KeyOf(txs[|txs| - 1]) in Keys(txs);
      assert Keys(txs[..|txs| - 1]) <= Keys(txs);
      FreezeAllLeavesAlone(s, txs[..|txs| - 1], k);
    }
  }

  lemma {:induction false} UnfreezeAllLeavesAlone(s: State, env: Env, txs: seq<BridgeTx>, k: Key)
    requires k !in Keys(txs)
    ensures LeavesAlone(s, UnfreezeAll(s, env, txs), k)
  {
    if txs != [] {
      var tx := txs[|txs| - 1];
      assert KeyOf(tx) in Keys(txs);
      assert Keys(txs[..|txs| - 1]) <= Keys(txs);
      UnfreezeAllLeavesAlone(s, env, txs[..|txs| - 1], k);
      var mid := UnfreezeAll(s, env, txs[..|txs| - 1]);
      var absent := DetailOf(mid, KeyOf(tx)).(status := Absent);
      NowLeavesAlone(Put(mid, KeyOf(tx), absent), env, tx, absent, true, None, k);
    }
  }

  /** Calls that name `k`, other than a queued call of its own firing. */
  predicate Names(e: Event, k: Key) {
    match e
    case Submit(_, HandleBridgeTx(tx)) => KeyOf(tx) == k
    case Fire(c) => KeyOf(c.tx) == k
    case _ => false
  }

  lemma HandleTxLeavesAlone(s: State, env: Env, origin: Origin, tx: BridgeTx, k: Key)
    requires KeyOf(tx) != k
    ensures LeavesAlone(s, HandleTx(s, env, origin, tx).0, k)
  {
    var d := DetailOf(s, KeyOf(tx));
    NowLeavesAlone(s, env, tx, d, d.status.Pending?, None, k);
    LaterLeavesAlone(s, env, tx, d, s.timelock, k);
  }

  lemma RemoveLeavesAlone(s: State, txs: seq<BridgeTx>, k: Key)
    requires k !in Keys(txs)
    ensures LeavesAlone(s, s.(details := s.details - Keys(txs)), k)
  {
  }

  lemma ForceLeavesAlone(s: State, env: Env, origin: Origin, tx: BridgeTx, k: Key)
    requires KeyOf(tx) != k || !IsAdmin(s, origin)
    ensures LeavesAlone(s, ForceHandleTx(s, env, origin, tx).0, k)
  {
    if IsAdmin(s, origin) && tx.recipient in env.cdd {
      NowLeavesAlone(s, env, tx, DetailOf(s, KeyOf(tx)), false, Some(env.cdd[tx.recipient]), k);
    }
  }

  lemma PerformLeavesAlone(s: State, env: Env, origin: Origin, call: Call, k: Key)
    requires Authorize(s, env, origin, call).Ok?
    requires !ActsOn(s, env, Submit(origin, call), k) && !Names(Submit(origin, call), k)
    ensures LeavesAlone(s, Perform(s, env, origin, call).0, k)
  {
    match call
    case HandleBridgeTx(tx) => HandleTxLeavesAlone(s, env, origin, tx, k);
    case ForceHandleBridgeTx(tx) => ForceLeavesAlone(s, env, origin, tx, k);
    case HandleScheduledBridgeTx(tx) =>
      if origin.Root? {
        NowLeavesAlone(s, env, tx, DetailOf(s, KeyOf(tx)), false, None, k);
      }
    case FreezeTxs(txs) => FreezeAllLeavesAlone(s, txs, k);
    case UnfreezeTxs(txs) => UnfreezeAllLeavesAlone(s, env, txs, k);
    case RemoveTxs(txs) => RemoveLeavesAlone(s, txs, k);
    case _ =>
  }

  lemma FireLeavesAlone(s: State, env: Env, c: Scheduled, k: Key)
    requires KeyOf(c.tx) != k
    ensures LeavesAlone(s, Step(s, env, Fire(c)), k)
  {
    var mid := s.(queue := s.queue - multiset{c});
    NowLeavesAlone(mid, env, c.tx, DetailOf(mid, KeyOf(c.tx)), false, None, k);
  }

  lemma StepLeavesAlone(s: State, env: Env, e: Event, k: Key)
    requires !ActsOn(s, env, e, k) && !Names(e, k)
    ensures LeavesAlone(s, Step(s, env, e), k)
  {
    match e
    case Advance(_) =>
    case Submit(origin, call) =>
      if Authorize(s, env, origin, call).Ok? {
        PerformLeavesAlone(s, env, origin, call, k);
      }
    case Fire(c) => FireLeavesAlone(s, env, c, k);
  }

  // ----- steps on the key itself -----

  /** Putting off the only call of `k` to `c` counts as its `m`-th attempt. */
  lemma EnqueueTracks(s: State, s': State, c: Scheduled, start: nat, a: Acceptance, m: nat)
    requires var k := KeyOf(c.tx);
             && NoCalls(s, k) && s'.queue == s.queue + multiset{c}
             && start <= |s.log| && PaidAs(s, start, k, Some(a))
             && s'.log == s.log && s'.block == s.block
             && c.tx.amount == a.amount && DetailOf(s', k).amount == a.amount
             && StatusOf(s', k) == AfterAttempts(m)
    requires Min(a.block + Backoff(m), MAX_BLOCK) <= s.block
    requires Min(a.block + Backoff(m + 1), MAX_BLOCK) <= c.at
    requires FirstSlot(a) <= if m == 0 then c.at else s.block
    ensures Tracked(s', start, KeyOf(c.tx), Some(a))
  {
    assert Tried(s', KeyOf(c.tx), a, m);
  }

  /** Acceptance: the first attempt is put off to the first slot. */
  lemma LaterAccepts(s: State, env: Env, tx: BridgeTx, start: nat)
    requires Tracked(s, start, KeyOf(tx), None)
    ensures var k := KeyOf(tx);
            var s' := HandleLater(s, env, tx, DetailOf(s, k), s.timelock).0;
            || s' == s
            || (StatusOf(s', k).Timelocked? && Tracked(s', start, k, Some(Acceptance(tx.amount, s.block, s.timelock))))
  {
    var a := Acceptance(tx.amount, s.block, s.timelock);
    var s' := HandleLater(s, env, tx, DetailOf(s, KeyOf(tx)), s.timelock).0;
    if s' != s {
      assert Backoff(1) == 1 && Pow2(0) == 1;
      EnqueueTracks(s, s', Scheduled(FirstSlot(a), tx), start, a, 0);
    }
  }

  lemma AttemptCounterWraps(m: nat)
    ensures (m % 256 + 1) % 256 == (m + 1) % 256
  {
  }

  lemma SlotBound(now: Block, timelock: Block, wait: nat)
    ensures Min(now + wait, MAX_BLOCK) <= AddBlocks(AddBlocks(now, timelock), wait)
  {
  }

  /** One more attempt: its status, and a slot that honours one more backoff. */
  lemma NextAttempt(now: Block, timelock: Block, block: Block, m: nat)
    requires Min(block + Backoff(m + 1), MAX_BLOCK) <= now
    ensures NextStatus(AfterAttempts(m)) == AfterAttempts(m + 1)
    ensures Min(block + Backoff(m + 2), MAX_BLOCK) <= UnlockBlock(now, timelock, AfterAttempts(m + 1))
  {
    AttemptCounterWraps(m);
    var wait := Pow2(Min((m + 1) % 256, 24));
    assert Backoff(m + 2) == Backoff(m + 1) + wait;
    SlotBound(now, timelock, wait);
    assert UnlockBlock(now, timelock, AfterAttempts(m + 1)) == AddBlocks(AddBlocks(now, timelock), wait);
  }

  /** A retry after the queued call fired: one more attempt is counted and backed off. */
  lemma LaterRetries(s: State, env: Env, tx: BridgeTx, start: nat, a: Acceptance, m: nat)
    requires NoCalls(s, KeyOf(tx)) && PaidAs(s, start, KeyOf(tx), Some(a)) && start <= |s.log|
    requires tx.amount == a.amount == DetailOf(s, KeyOf(tx)).amount && StatusOf(s, KeyOf(tx)) == AfterAttempts(m)
    requires FirstSlot(a) <= s.block && Min(a.block + Backoff(m + 1), MAX_BLOCK) <= s.block
    ensures var s' := HandleLater(s, env, tx, DetailOf(s, KeyOf(tx)), s.timelock).0;
            s' == s || Tracked(s', start, KeyOf(tx), Some(a))
  {
    var d := DetailOf(s, KeyOf(tx));
    NextAttempt(s.block, s.timelock, a.block, m);
    var s' := HandleLater(s, env, tx, d, s.timelock).0;
    if s' != s {
      EnqueueTracks(s, s', Scheduled(LaterDetail(s, tx, d, s.timelock).executionBlock, tx), start, a, m + 1);
    }
  }

  /** A mint of `k` for the accepted amount ends the tracking. */
  lemma MintTracks(s: State, env: Env, tx: BridgeTx, manual: bool, start: nat, a: Acceptance)
    requires var k := KeyOf(tx);
             && AtMostOneCall(s, k) && start <= |s.log| && !s.frozen
             && PaidAs(s, start, k, Some(a))
             && !StatusOf(s, k).Handled? && !StatusOf(s, k).Frozen?
             && a.amount == (if manual then DetailOf(s, k).amount else tx.amount)
             && (a.timelock > 0 ==> FirstSlot(a) <= s.block)
             && Issue(s, env, k, a.amount, None).1.Ok?
    ensures var s' := HandleNow(s, env, tx, DetailOf(s, KeyOf(tx)), manual, None).0;
            StatusOf(s', KeyOf(tx)).Handled? && Tracked(s', start, KeyOf(tx), Some(a))
  {
    IssueShape(s, env, KeyOf(tx), a.amount, None);
  }

  /** A first submission that cannot mint at once is put off. */
  lemma FirstSubmitIsPutOff(s: State, env: Env, origin: Origin, tx: BridgeTx)
    requires StatusOf(s, KeyOf(tx)).Absent? && (IsController(s, origin) || IsAdmin(s, origin))
    requires s.timelock > 0 || s.frozen || Issue(s, env, KeyOf(tx), tx.amount, None).1.Err?
    ensures HandleTx(s, env, origin, tx).0 == HandleLater(s, env, tx, DetailOf(s, KeyOf(tx)), s.timelock).0
  {
  }

  lemma FirstSubmitTracks(s: State, env: Env, origin: Origin, tx: BridgeTx, start: nat)
    requires Tracked(s, start, KeyOf(tx), None)
    ensures var s' := HandleTx(s, env, origin, tx).0;
            Tracked(s', start, KeyOf(tx), AcceptedBy(s, Submit(origin, HandleBridgeTx(tx)), s', KeyOf(tx)))
  {
    if IsController(s, origin) || IsAdmin(s, origin) {
      if s.timelock == 0 && !s.frozen && Issue(s, env, KeyOf(tx), tx.amount, None).1.Ok? {
        MintTracks(s, env, tx, false, start, Acceptance(tx.amount, s.block, s.timelock));
      } else {
        LaterAccepts(s, env, tx, start);
        FirstSubmitIsPutOff(s, env, origin, tx);
      }
    }
  }

  lemma LaterSubmitTracks(s: State, env: Env, origin: Origin, tx: BridgeTx, start: nat, a: Acceptance)
    requires Tracked(s, start, KeyOf(tx), Some(a))
    ensures Tracked(HandleTx(s, env, origin, tx).0, start, KeyOf(tx), Some(a))
  {
    var d := DetailOf(s, KeyOf(tx));
    IssueShape(s, env, KeyOf(tx), d.amount, None);
    if d.status.Pending? && !s.frozen && Issue(s, env, KeyOf(tx), d.amount, None).1.Ok? {
      MintTracks(s, env, tx, true, start, a);
    } else {
      assert HandleTx(s, env, origin, tx).0 == s;
    }
  }

  /** Taking the only call of `k` out of the queue leaves none. */
  lemma DequeueTracks(s: State, c: Scheduled, start: nat, a: Acceptance)
    requires Tracked(s, start, KeyOf(c.tx), Some(a)) && c in s.queue
    ensures var mid := s.(queue := s.queue - multiset{c});
            Tracked(mid, start, KeyOf(c.tx), Some(a)) && NoCalls(mid, KeyOf(c.tx))
  {
    var mid := s.(queue := s.queue - multiset{c});
    if !StatusOf(s, KeyOf(c.tx)).Handled? {
      var m: nat :| Tried(s, KeyOf(c.tx), a, m);
      assert Tried(mid, KeyOf(c.tx), a, m);
    }
  }

  /** The fired call's attempt: it mints as accepted, or counts one more attempt. */
  lemma AttemptTracks(s: State, env: Env, tx: BridgeTx, start: nat, a: Acceptance, m: nat)
    requires Tracked(s, start, KeyOf(tx), Some(a)) && NoCalls(s, KeyOf(tx)) && Tried(s, KeyOf(tx), a, m)
    requires tx.amount == a.amount && FirstSlot(a) <= s.block && Min(a.block + Backoff(m + 1), MAX_BLOCK) <= s.block
    ensures Tracked(HandleScheduledTx(s, env, Root, tx).0, start, KeyOf(tx), Some(a))
  {
    if !s.frozen && Issue(s, env, KeyOf(tx), tx.amount, None).1.Ok? {
      MintTracks(s, env, tx, false, start, a);
    } else {
      IssueShape(s, env, KeyOf(tx), tx.amount, None);
      LaterRetries(s, env, tx, start, a, m);
    }
  }

  lemma FireTracks(s: State, env: Env, c: Scheduled, start: nat, acc: Option<Acceptance>)
    requires Tracked(s, start, KeyOf(c.tx), acc)
    ensures Tracked(Step(s, env, Fire(c)), start, KeyOf(c.tx), acc)
  {
    if c in s.queue && c.at <= s.block {
      var mid := s.(queue := s.queue - multiset{c});
      DequeueTracks(s, c, start, acc.value);
      if !StatusOf(s, KeyOf(c.tx)).Handled? {
        var m: nat :| Tried(s, KeyOf(c.tx), acc.value, m);
        assert Tried(mid, KeyOf(c.tx), acc.value, m);
        AttemptTracks(mid, env, c.tx, start, acc.value, m);
      }
    }
  }

  /** Along any run that leaves `k` to the bridge, `k` is tracked from the transaction accepted for it. */
  lemma {:induction false} RunTracks(s: State, events: seq<(Env, Event)>, k: Key)
    requires StatusOf(s, k).Absent? && NoCalls(s, k)
    requires LeftToTheBridge(s, events, k)
    ensures Tracked(Run(s, events), |s.log|, k, Accepted(s, events, k))
  {
    if events != [] {
      var init, last := events[..|events| - 1], events[|events| - 1];
      RunTracks(s, init, k);
      var before, acc := Run(s, init), Accepted(s, init, k);
      if Names(last.1, k) {
        match last.1 {
          case Fire(c) => FireTracks(before, last.0, c, |s.log|, acc);
          case Submit(origin, call) =>
            if acc.None? {
              FirstSubmitTracks(before, last.0, origin, call.tx, |s.log|);
            } else {
              LaterSubmitTracks(before, last.0, origin, call.tx, |s.log|, acc.value);
            }
        }
      } else {
        StepLeavesAlone(before, last.0, last.1, k);
        TrackedWhenLeftAlone(before, Run(s, events), |s.log|, k, acc);
      }
    }
  }

  // ----- the theorems -----

  /** The amount minted is the amount accepted from the controller or admin, whatever amounts manual
      retries carried; and with a timelock of T > 0 blocks at acceptance, not before T + 1 blocks
      later (or the last block there is). */
  ghost predicate AsAccepted(m: Mint, acc: Option<Acceptance>) {
    && acc.Some?
    && m.amount == acc.value.amount
    && (acc.value.timelock > 0 ==> Min(acc.value.block + acc.value.timelock + 1, MAX_BLOCK) <= m.block)
  }

  lemma TrackedMeans(s: State, start: nat, k: Key, acc: Option<Acceptance>, i: nat)
    requires Tracked(s, start, k, acc) && start <= i < |s.log| && s.log[i].key == k
    ensures AsAccepted(s.log[i], acc)
  {
    assert Paid(s.log[i], acc.value);
  }

  /** Every mint of a key that no administrator touches is as accepted. */
  lemma MintedAsAccepted(s: State, events: seq<(Env, Event)>, k: Key, i: nat)
    requires StatusOf(s, k).Absent? && NoCalls(s, k)
    requires LeftToTheBridge(s, events, k)
    requires |s.log| <= i < |Run(s, events).log| && Run(s, events).log[i].key == k
    ensures AsAccepted(Run(s, events).log[i], Accepted(s, events, k))
  {
    RunTracks(s, events, k);
    TrackedMeans(Run(s, events), |s.log|, k, Accepted(s, events, k), i);
  }

  /** Every key that genesis does not complete starts out as these theorems ask. */
  lemma {:induction false} GenesisLeavesOthersAbsent(s: State, env: Env, txs: seq<BridgeTx>, k: Key)
    requires Blank(s) && Genesis(s, env, txs).Some? && k !in Keys(txs)
    ensures DetailOf(Genesis(s, env, txs).value, k) == DEFAULT_DETAIL && NoCalls(Genesis(s, env, txs).value, k)
  {
    if txs != [] {
      var init, tx := txs[..|txs| - 1], txs[|txs| - 1];
      assert Keys(txs) == Keys(init) + {KeyOf(tx)};
      GenesisLeavesOthersAbsent(s, env, init, k);
      IssueShape(Genesis(s, env, init).value, env, KeyOf(tx), tx.amount, Some(env.cdd[tx.recipient]));
    }
  }

  /** Left to the bridge, a key never has two calls in the queue. */
  lemma OneCallPerKey(s: State, events: seq<(Env, Event)>, k: Key)
    requires StatusOf(s, k).Absent? && NoCalls(s, k)
    requires LeftToTheBridge(s, events, k)
    ensures AtMostOneCall(Run(s, events), k)
  {
    RunTracks(s, events, k);
  }

  lemma Pow2Is24()
    ensures Pow2(24) == 0x100_0000
  {
    assert Pow2(12) == 4096;
    assert Pow2(24) == 4096 * Pow2(12);
  }

  /** The backoffs double up to the cap, */
  lemma {:induction false} BackoffDoubles(m: nat)
    requires m <= 24
    ensures Backoff(m) == Pow2(m) - 1
  {
    if m > 0 {
      BackoffDoubles(m - 1);
      assert (m - 1) % 256 == m - 1;
    }
  }

  /** and are constant after it. */
  lemma {:induction false} BackoffIsLinear(m: nat)
    requires 24 <= m <= 256
    ensures Backoff(m) == (m - 23) * 0x100_0000 - 1
  {
    Pow2Is24();
    if m == 24 {
      BackoffDoubles(m);
    } else {
      BackoffIsLinear(m - 1);
      assert Min((m - 1) % 256, 24) == 24;
    }
  }

  lemma {:induction false} BackoffAtWrap(m: nat)
    requires m >= 256
    ensures Backoff(m) >= 233 * 0x100_0000 - 1
  {
    if m == 256 {
      BackoffIsLinear(m);
    } else {
      BackoffAtWrap(m - 1);
    }
  }

  /** Fewer than 256 backoffs fit before block 233 * 2^24 - 1. */
  lemma AttemptsBefore(block: Block, now: Block, m: nat)
    requires Min(block + Backoff(m), MAX_BLOCK) <= now < 233 * 0x100_0000 - 1
    ensures m < 256 && block + Backoff(m) <= now
  {
    if m >= 256 {
      BackoffAtWrap(m);
    }
  }

  /** `n` backoffs fit into `waited` blocks: doubling up to 24 attempts, 2^24 blocks each after that. */
  ghost predicate BackedOff(n: nat, waited: int) {
    && (n <= 24 ==> Pow2(n) - 1 <= waited)
    && (n >= 24 ==> (n - 23) * 0x100_0000 - 1 <= waited)
  }

  lemma FewBackedOff(block: Block, now: Block, m: nat)
    requires m <= 24 && block + Backoff(m) <= now
    ensures BackedOff(m, now - block)
  {
    BackoffDoubles(m);
    Pow2Is24();
  }

  lemma ManyBackedOff(block: Block, now: Block, m: nat)
    requires 24 < m < 256 && block + Backoff(m) <= now
    ensures BackedOff(m, now - block)
  {
    BackoffIsLinear(m);
  }

  lemma WaitedBacksOff(block: Block, now: Block, m: nat)
    requires Min(block + Backoff(m), MAX_BLOCK) <= now < 233 * 0x100_0000 - 1
    ensures m % 256 == m < 256 && BackedOff(m, now - block)
  {
    AttemptsBefore(block, now, m);
    if m <= 24 {
      FewBackedOff(block, now, m);
    } else {
      ManyBackedOff(block, now, m);
    }
  }

  lemma TrackedBacksOff(s: State, start: nat, k: Key, a: Acceptance)
    requires Tracked(s, start, k, Some(a)) && StatusOf(s, k).Pending? && s.block < 233 * 0x100_0000 - 1
    ensures 1 <= StatusOf(s, k).tries < 256 && BackedOff(StatusOf(s, k).tries, s.block - a.block)
  {
    var m: nat :| Tried(s, k, a, m);
    WaitedBacksOff(a.block, s.block, m);
    assert StatusOf(s, k) == Pending(m);
  }

  /** Before block 233 * 2^24 - 1 the attempt counter has not wrapped: `Pending(n)` means exactly `n`
      attempts, and n backoffs have passed since acceptance.  The automatic attempts are therefore
      logarithmic in the blocks waited, up to the cap of 24 doublings. */
  lemma PendingBacksOff(s: State, events: seq<(Env, Event)>, k: Key)
    requires StatusOf(s, k).Absent? && NoCalls(s, k)
    requires LeftToTheBridge(s, events, k)
    requires StatusOf(Run(s, events), k).Pending?
    requires Run(s, events).block < 233 * 0x100_0000 - 1
    ensures Accepted(s, events, k).Some?
    ensures var n := StatusOf(Run(s, events), k).tries;
            1 <= n < 256 && BackedOff(n, Run(s, events).block - Accepted(s, events, k).value.block)
  {
    RunTracks(s, events, k);
    TrackedBacksOff(Run(s, events), |s.log|, k, Accepted(s, events, k).value);
  }
}
