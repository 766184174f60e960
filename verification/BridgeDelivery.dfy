/** No accepted transaction is lost: a record that waits for an attempt always has a call queued
    for exactly the block it names. */
module BridgeDelivery {
  import opened Wrappers
  import opened BridgeSpec
  import opened BridgeSafety

  ghost predicate Waiting(s: State, k: Key) {
    StatusOf(s, k).Timelocked? || StatusOf(s, k).Pending?
  }

  ghost predicate HasSlot(s: State, k: Key) {
    exists c :: c in s.queue && KeyOf(c.tx) == k && c.at == DetailOf(s, k).executionBlock
  }

  ghost predicate Delivered(s: State) {
    forall k :: Waiting(s, k) ==> HasSlot(s, k)
  }

  /** Every record but that of `k` is as it was, and no call but those of `k` left the queue. */
  ghost predicate OnlyTouches(s: State, s': State, k: Key) {
    && (forall other :: other != k ==> DetailOf(s', other) == DetailOf(s, other))
    && (forall c :: c in s.queue && KeyOf(c.tx) != k ==> c in s'.queue)
  }

  lemma TouchingOneDelivers(s: State, s': State, k: Key)
    requires Delivered(s) && OnlyTouches(s, s', k)
    requires Waiting(s', k) ==> HasSlot(s', k)
    ensures Delivered(s')
  {
    forall other | Waiting(s', other) ensures HasSlot(s', other) {
      if other != k {
        assert Waiting(s, other);
      }
    }
  }

  lemma Pow2Positive(n: nat)
    ensures Pow2(n) >= 1
  {
  }

  /** Putting a transaction off gives it a fresh slot, so long as the chain has later blocks. */
  lemma HandleLaterDelivers(s: State, env: Env, tx: BridgeTx, d: Detail, timelock: Block)
    requires env.accepts && s.block < MAX_BLOCK
    ensures var (s', r) := HandleLater(s, env, tx, d, timelock);
            && OnlyTouches(s, s', KeyOf(tx))
            && (r.Err? ==> s' == s && (d.status.Frozen? || d.status.Handled?))
            && (r.Ok? ==> HasSlot(s', KeyOf(tx)))
  {
    Pow2Positive(Attempts(NextStatus(d.status)));
    var d' := LaterDetail(s, tx, d, timelock);
    var s' := HandleLater(s, env, tx, d, timelock).0;
    if !d.status.Frozen? && !d.status.Handled? {
      assert Scheduled(d'.executionBlock, tx) in s'.queue;
    }
  }

  /** A trusted attempt leaves the record not waiting or with a slot; a manual one only adds to that. */
  lemma HandleNowDelivers(s: State, env: Env, tx: BridgeTx, d: Detail, manual: bool, exemptedDid: Option<Did>)
    requires env.accepts && s.block < MAX_BLOCK && d == DetailOf(s, KeyOf(tx))
    ensures var s' := HandleNow(s, env, tx, d, manual, exemptedDid).0;
            && OnlyTouches(s, s', KeyOf(tx))
            && ((manual && s' == s) || !Waiting(s', KeyOf(tx)) || HasSlot(s', KeyOf(tx)))
  {
    var amount := if manual then d.amount else tx.amount;
    if !d.status.Handled? && !d.status.Frozen? {
      if !s.frozen && Issue(s, env, KeyOf(tx), amount, exemptedDid).1.Ok? {
        IssueShape(s, env, KeyOf(tx), amount, exemptedDid);
      } else if !manual {
        HandleLaterDelivers(s, env, tx, d, s.timelock);
      }
    }
  }

  lemma {:induction false} FreezeAllDelivers(s: State, txs: seq<BridgeTx>)
    requires Delivered(s)
    ensures Delivered(FreezeAll(s, txs))
  {
    if txs != [] {
      var init, tx := FreezeAll(s, txs[..|txs| - 1]), txs[|txs| - 1];
      FreezeAllDelivers(s, txs[..|txs| - 1]);
      TouchingOneDelivers(init, FreezeOne(init, tx), KeyOf(tx));
    }
  }

  lemma UnfreezeOneDelivers(s: State, env: Env, tx: BridgeTx)
    requires Delivered(s) && env.accepts && s.block < MAX_BLOCK
    ensures Delivered(UnfreezeOne(s, env, tx)) && UnfreezeOne(s, env, tx).block == s.block
  {
    var k, d := KeyOf(tx), DetailOf(s, KeyOf(tx));
    if d.status.Frozen? {
      var absent := d.(status := Absent);
      var mid := Put(s, k, absent);
      TouchingOneDelivers(s, mid, k);
      HandleNowDelivers(mid, env, tx, absent, true, None);
      IssueShape(mid, env, k, absent.amount, None);
      TouchingOneDelivers(mid, UnfreezeOne(s, env, tx), k);
    }
  }

  lemma {:induction false} UnfreezeAllDelivers(s: State, env: Env, txs: seq<BridgeTx>)
    requires Delivered(s) && env.accepts && s.block < MAX_BLOCK
    ensures Delivered(UnfreezeAll(s, env, txs)) && UnfreezeAll(s, env, txs).block == s.block
  {
    if txs != [] {
      UnfreezeAllDelivers(s, env, txs[..|txs| - 1]);
      UnfreezeOneDelivers(UnfreezeAll(s, env, txs[..|txs| - 1]), env, txs[|txs| - 1]);
    }
  }

  lemma HandleTxDelivers(s: State, env: Env, origin: Origin, tx: BridgeTx)
    requires Delivered(s) && env.accepts && s.block < MAX_BLOCK
    ensures Delivered(HandleTx(s, env, origin, tx).0)
  {
    var d := DetailOf(s, KeyOf(tx));
    var s' := HandleTx(s, env, origin, tx).0;
    if s' != s {
      if d.status.Pending? {
        HandleNowDelivers(s, env, tx, d, true, None);
      } else if d.status.Absent? && s.timelock == 0 {
        HandleNowDelivers(s, env, tx, d, false, None);
      } else if d.status.Absent? {
        HandleLaterDelivers(s, env, tx, d, s.timelock);
      }
      TouchingOneDelivers(s, s', KeyOf(tx));
    }
  }

  lemma TrustedDelivers(s: State, env: Env, tx: BridgeTx, exemptedDid: Option<Did>)
    requires Delivered(s) && env.accepts && s.block < MAX_BLOCK
    ensures Delivered(HandleNow(s, env, tx, DetailOf(s, KeyOf(tx)), false, exemptedDid).0)
  {
    var d := DetailOf(s, KeyOf(tx));
    HandleNowDelivers(s, env, tx, d, false, exemptedDid);
    TouchingOneDelivers(s, HandleNow(s, env, tx, d, false, exemptedDid).0, KeyOf(tx));
  }

  lemma SameSlotsDeliver(s: State, s': State)
    requires Delivered(s) && s'.queue == s.queue
    requires forall k :: Waiting(s', k) ==> DetailOf(s', k) == DetailOf(s, k)
    ensures Delivered(s')
  {
    forall k | Waiting(s', k) ensures HasSlot(s', k) {
      assert HasSlot(s, k);
    }
  }

  lemma PerformDelivers(s: State, env: Env, origin: Origin, call: Call)
    requires Delivered(s) && env.accepts && s.block < MAX_BLOCK
    ensures Delivered(Perform(s, env, origin, call).0)
  {
    match call
    case HandleBridgeTx(tx) => HandleTxDelivers(s, env, origin, tx);
    case ForceHandleBridgeTx(tx) =>
      if tx.recipient in env.cdd {
        TrustedDelivers(s, env, tx, Some(env.cdd[tx.recipient]));
      }
    case HandleScheduledBridgeTx(tx) => TrustedDelivers(s, env, tx, None);
    case FreezeTxs(txs) => FreezeAllDelivers(s, txs);
    case UnfreezeTxs(txs) => UnfreezeAllDelivers(s, env, txs);
    case _ => SameSlotsDeliver(s, Perform(s, env, origin, call).0);
  }

  /** Firing uses up a call, and the record it was for gets another or stops waiting. */
  lemma FireDelivers(s: State, env: Env, c: Scheduled)
    requires Delivered(s) && env.accepts && s.block < MAX_BLOCK
    ensures Delivered(Step(s, env, Fire(c)))
  {
    if c in s.queue && c.at <= s.block {
      var mid := s.(queue := s.queue - multiset{c});
      var s' := Step(s, env, Fire(c));
      HandleNowDelivers(mid, env, c.tx, DetailOf(mid, KeyOf(c.tx)), false, None);
      TouchingOneDelivers(s, s', KeyOf(c.tx));
    }
  }

  lemma StepDelivers(s: State, env: Env, e: Event)
    requires Delivered(s) && env.accepts && s.block < MAX_BLOCK
    ensures Delivered(Step(s, env, e))
  {
    match e
    case Submit(origin, call) => PerformDelivers(s, env, origin, call);
    case Fire(c) => FireDelivers(s, env, c);
    case Advance(to) => SameSlotsDeliver(s, Step(s, env, e));
  }

  /** With a scheduler that takes every future slot, and until the last block number is reached,
      every `Timelocked` or `Pending` record in every reachable state has a queued call at exactly
      its execution block, whatever was frozen, removed, forced, retried or fired late before. */
  lemma {:induction false} NoTransactionIsLost(s: State, events: seq<(Env, Event)>)
    requires Delivered(s)
    requires forall i :: 0 <= i < |events| ==> events[i].0.accepts
    requires Run(s, events).block < MAX_BLOCK
    ensures Delivered(Run(s, events))
  {
    if events != [] {
      var init, last := events[..|events| - 1], events[|events| - 1];
      StepAdvancesBlock(Run(s, init), last.0, last.1);
      NoTransactionIsLost(s, init);
      StepDelivers(Run(s, init), last.0, last.1);
    }
  }

  /** Genesis leaves nothing waiting, so the theorem applies to every run from genesis. */
  lemma {:induction false} GenesisIsDelivered(s: State, env: Env, txs: seq<BridgeTx>)
    requires Blank(s) && Genesis(s, env, txs).Some?
    ensures Delivered(Genesis(s, env, txs).value)
    ensures Genesis(s, env, txs).value.queue == multiset{}
  {
    if txs != [] {
      var init, tx := txs[..|txs| - 1], txs[|txs| - 1];
      GenesisIsDelivered(s, env, init);
      var g := Genesis(s, env, init).value;
      IssueShape(g, env, KeyOf(tx), tx.amount, Some(env.cdd[tx.recipient]));
      TouchingOneDelivers(g, Genesis(s, env, txs).value, KeyOf(tx));
    }
  }

  // ----- all that a step keeps -----

  /** The log only grows, handled records are final, a frozen module moves no money, minting stays
      exactly-once, time does not go back, supply is conserved, and nothing that waits is lost. */
  ghost predicate Honours(s: State, env: Env, s': State) {
    && Keeps(s, s')
    && s.block <= s'.block
    && (Funded(s) ==> Conserved(s, s'))
    && (env.accepts && s.block < MAX_BLOCK && Delivered(s) ==> Delivered(s'))
  }

  lemma StepHonours(s: State, env: Env, e: Event)
    ensures Honours(s, env, Step(s, env, e))
  {
    StepKeeps(s, env, e);
    StepAdvancesBlock(s, env, e);
    if Funded(s) {
      assert s.log[|s.log|..] == [];
      StepConserves(s, s, env, e);
    }
    if env.accepts && s.block < MAX_BLOCK && Delivered(s) {
      StepDelivers(s, env, e);
    }
  }

  // ----- and a due call completes its transaction whenever it may -----

  /** What the identity has left to bridge: everything if exempted, else the limit less what it bridged in the
      current interval. */
  predicate MayBridge(s: State, env: Env, recipient: AccountId, amount: Balance) {
    && recipient in env.cdd
    && var did := env.cdd[recipient];
       || IsExempted(s, did)
       || (s.duration > 0 && amount + BridgedNow(s, did) <= s.limit)
  }

  function BridgedNow(s: State, did: Did): Balance
    requires s.duration > 0
  {
    if BridgedOf(s, did).1 == s.block / s.duration then BridgedOf(s, did).0 else 0
  }

  lemma IssuesIffMayBridge(s: State, env: Env, k: Key, amount: Balance)
    requires s.limit <= MAX_BALANCE
    ensures Issue(s, env, k, amount, None).1.Ok? <==> MayBridge(s, env, k.recipient, amount)
  {
    if k.recipient in env.cdd && s.duration > 0 {
      LimitedIssuesIffMayBridge(s, k, amount, env.cdd[k.recipient], s.block / s.duration);
    }
  }

  lemma LimitedIssuesIffMayBridge(s: State, k: Key, amount: Balance, did: Did, interval: Block)
    requires s.limit <= MAX_BALANCE
    ensures IssueLimited(s, k, amount, did, interval).1.Ok?
            <==> amount + (if BridgedOf(s, did).1 == interval then BridgedOf(s, did).0 else 0) <= s.limit
  {
  }

  /** A due call handles its waiting transaction if and only if the module is not frozen and the recipient's
      identity may bridge the amount. */
  lemma DueCallHandles(s: State, env: Env, c: Scheduled)
    requires c in s.queue && c.at <= s.block && Waiting(s, KeyOf(c.tx)) && s.limit <= MAX_BALANCE
    ensures StatusOf(Step(s, env, Fire(c)), KeyOf(c.tx)).Handled?
            <==> !s.frozen && MayBridge(s, env, c.tx.recipient, c.tx.amount)
  {
    var mid := s.(queue := s.queue - multiset{c});
    IssuesIffMayBridge(mid, env, KeyOf(c.tx), c.tx.amount);
    assert MayBridge(mid, env, c.tx.recipient, c.tx.amount) <==> MayBridge(s, env, c.tx.recipient, c.tx.amount);
    IssueShape(mid, env, KeyOf(c.tx), c.tx.amount, None);
    HandleLaterIsQuiet(mid, env, c.tx, mid.timelock);
  }
}
